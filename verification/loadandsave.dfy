/**
 * `loadFile` and `save` of loadandsave.hpp: the root map in "data.txt" (or a
 * named file when loading), behind a header of the chain order and the root
 * count.
 */
module LoadAndSave {
  import opened Wrappers
  import opened Text
  import opened Words
  import opened WordFormat
  import opened Store
  import opened Files

  /** `loadFile(markovLength, f)`: the roots, and the order afterwards (the
      caller's `markovLength`, which the function assigns through a
      reference). An unopenable file gives no roots and leaves the order. */
  method LoadFile(fs: FileSystem, markovLength: int, f: string := "data.txt") returns (roots: map<string, Word>, order: int)
    ensures f !in fs.files ==> roots == map[] && order == markovLength
    ensures f in fs.files ==> (roots, order) == LoadOrdered(fs.files[f], markovLength)
  {
    var content := fs.Read(f);
    if content.None? {
      return map[], markovLength;
    }
    roots, order := ReadOrderedFile(content.value, markovLength);
  }

  /** The reads of an opened store file: the order, the root count into a
      `size_t` that starts at 0, then the root loop. Shared with
      database.hpp's loader. */
  method ReadOrderedFile(content: string, markovLength: int) returns (roots: map<string, Word>, order: int)
    ensures (roots, order) == LoadOrdered(content, markovLength)
  {
    var st := OpenStream(content);
    var o := ReadInt(st, markovLength);
    order := o.0;
    var mapSize := ReadCount(o.1, 0);
    var rest;
    roots, rest := ReadRoots(mapSize.1, mapSize.0);
  }

  /** The text `save` writes: the order, the root count, then the roots. */
  method WriteOrderedFile(roots: map<string, Word>, markovLength: int) returns (text: string)
    ensures text == StoreText(OrderHeader(markovLength, roots), roots)
  {
    var header := IntToDec(markovLength) + "\n" + IntToDec(|roots|) + "\n";
    LinesTwo(IntToDec(markovLength), IntToDec(|roots|));
    var body := WriteRoots(roots);
    text := header + body;
  }

  /** `save(l, markovLength)`: always "data.txt"; when that file cannot be
      opened nothing is written. */
  method Save(fs: FileSystem, roots: map<string, Word>, markovLength: int)
    modifies fs
    ensures "data.txt" in fs.unwritable ==> fs.files == old(fs.files)
    ensures "data.txt" !in fs.unwritable ==>
              fs.files == old(fs.files)["data.txt" := StoreText(OrderHeader(markovLength, roots), roots)]
  {
    var ok := fs.Create("data.txt");
    if !ok {
      return;
    }
    var text := WriteOrderedFile(roots, markovLength);
    fs.Write("data.txt", text);
    assert "" + text == text;
  }

  /** Whatever `save` wrote, `loadFile` on "data.txt" reads back: the same
      roots and the same order, for roots the format can carry. */
  lemma SaveThenLoad(files: map<string, string>, roots: map<string, Word>, markovLength: int, before: int)
    requires IntMin <= markovLength <= IntMax && RootsWellFormed(roots)
    ensures var saved := files["data.txt" := StoreText(OrderHeader(markovLength, roots), roots)];
      LoadOrdered(saved["data.txt"], before) == (roots, markovLength)
  {
    LoadOrderedOfStore(markovLength, roots, before);
  }
}
