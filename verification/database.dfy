/**
 * `struct Database` (database.hpp): the store file f (default "data.dsmc")
 * with a backup file "." + f + ".bak" that loading prefers whenever it opens.
 * `save` runs as a sequence of file-system steps, each recorded in the file
 * system's history, so every state a crash could leave behind is visible.
 */
module Database {
  import opened Wrappers
  import opened Text
  import opened Words
  import opened WordFormat
  import opened Store
  import opened Files
  import opened LoadAndSave

  /** The backup's name: never the store file itself. */
  function BackupName(f: string): (b: string)
    ensures b != f && |b| == |f| + 5 && b[0] == '.'
  {
    "." + f + ".bak"
  }

  /** What `loadFile` yields on a given set of files: the backup whenever it
      exists, else f, else no roots and the order left as it was. */
  function DatabaseLoad(files: map<string, string>, markovLength: int, f: string): (map<string, Word>, int)
  {
    var b := BackupName(f);
    if b in files then LoadOrdered(files[b], markovLength)
    else if f in files then LoadOrdered(files[f], markovLength)
    else (map[], markovLength)
  }

  /** `loadFile(markovLength, f)`. */
  method LoadFile(fs: FileSystem, markovLength: int, f: string := "data.dsmc") returns (roots: map<string, Word>, order: int)
    ensures (roots, order) == DatabaseLoad(fs.files, markovLength, f)
  {
    var backupFile := BackupName(f);
    var content := fs.Read(backupFile);
    if content.None? {
      content := fs.Read(f);
    }
    if content.None? {
      return map[], markovLength;
    }
    roots, order := ReadOrderedFile(content.value, markovLength);
  }

  /** The backup hides f: once it exists, f's content plays no part. */
  lemma BackupPreferred(files: map<string, string>, markovLength: int, f: string, other: string)
    requires BackupName(f) in files
    ensures DatabaseLoad(files[f := other], markovLength, f) == DatabaseLoad(files, markovLength, f)
  {
    assert BackupName(f) != f;
  }

  /** The files after `ifstream src(b); ofstream dst(b);`: opening the
      backup for writing truncates it to empty (f is not copied into it). */
  function Truncated(F: map<string, string>, unwritable: set<string>, f: string): map<string, string>
  {
    var b := BackupName(f);
    if b in unwritable then F else F[b := ""]
  }

  method TruncateBackup(fs: FileSystem, f: string)
    modifies fs
    ensures fs.files == Truncated(old(fs.files), fs.unwritable, f)
    ensures fs.history == old(fs.history) + [fs.files]
  {
    var backupName := BackupName(f);
    var src := fs.Read(backupName);
    var dstOpen := fs.Create(backupName);
  }

  /**
   * `save(l, markovLength, f)` as written: the backup is truncated, f is
   * opened, and if that fails the function returns with the empty backup in
   * place; otherwise the header and roots go to f's buffer, the backup is
   * removed, and closing f writes the buffer out.
   */
  method Save(fs: FileSystem, roots: map<string, Word>, markovLength: int, f: string := "data.dsmc")
    modifies fs
    ensures var truncated := Truncated(old(fs.files), fs.unwritable, f);
      var text := StoreText(OrderHeader(markovLength, roots), roots);
      && (f in fs.unwritable ==> fs.files == truncated && fs.history == old(fs.history) + [truncated, truncated])
      && (f !in fs.unwritable ==>
            fs.files == (truncated[f := ""] - {BackupName(f)})[f := text] &&
            fs.history == old(fs.history) + [truncated, truncated[f := ""], truncated[f := ""] - {BackupName(f)}, fs.files])
  {
    var backupName := BackupName(f);
    ghost var h0 := fs.history;
    TruncateBackup(fs, f);
    ghost var truncated := fs.files;
    var ofsOpen := fs.Create(f);
    if !ofsOpen {
      assert fs.history == h0 + [truncated] + [truncated];
      assert fs.history == h0 + [truncated, truncated];
      return;
    }
    var text := WriteOrderedFile(roots, markovLength);
    fs.Remove(backupName);
    ghost var removed := fs.files;
    assert f != backupName && f in removed && removed[f] == "";
    fs.Write(f, text);
    UpdateTwice(removed, f, "", text);
    Snoc4(h0, truncated, truncated[f := ""], removed, fs.files);
  }

  lemma Snoc4<T>(h: seq<T>, a: T, b: T, c: T, d: T)
    ensures h + [a] + [b] + [c] + [d] == h + [a, b, c, d]
  {
  }

  /** An empty backup makes every load come back empty, whatever f holds:
      the order read fails, so the order stays and the count stays 0. */
  lemma EmptyBackupHidesFile(files: map<string, string>, markovLength: int, f: string)
    ensures DatabaseLoad(files[BackupName(f) := ""], markovLength, f) == (map[], markovLength)
  {
    LoadOrderedEmpty(markovLength);
  }

  /**
   * So a `save` that cannot open f, or a crash at any step of `save` before
   * f is closed, loses a database that f still holds intact, whatever other
   * files exist beside it: before the save, loading gives its roots;
   * afterwards, none.
   */
  lemma FailedSaveLosesRoots(files: map<string, string>, f: string, order: int, saved: map<string, Word>,
                             markovLength: int)
    requires IntMin <= order <= IntMax && RootsWellFormed(saved)
    requires BackupName(f) !in files && f in files && files[f] == StoreText(OrderHeader(order, saved), saved)
    ensures DatabaseLoad(files, markovLength, f) == (saved, order)
    ensures DatabaseLoad(files[BackupName(f) := ""], markovLength, f) == (map[], markovLength)
    ensures DatabaseLoad(files[BackupName(f) := ""][f := ""], markovLength, f) == (map[], markovLength)
    ensures DatabaseLoad(files[BackupName(f) := ""][f := ""] - {BackupName(f)}, markovLength, f) == (map[], markovLength)
  {
    var b := BackupName(f);
    LoadOrderedOfStore(order, saved, markovLength);
    LoadOrderedEmpty(markovLength);
    var truncated := files[b := ""];
    assert DatabaseLoad(truncated, markovLength, f) == (map[], markovLength) by {
      assert truncated[b] == "";
    }
    var fileOpened := truncated[f := ""];
    assert DatabaseLoad(fileOpened, markovLength, f) == (map[], markovLength) by {
      assert b in fileOpened && fileOpened[b] == "";
    }
    var removed := fileOpened - {b};
    assert DatabaseLoad(removed, markovLength, f) == (map[], markovLength) by {
      assert b !in removed && f in removed && removed[f] == "";
    }
  }

  /** The temporary name the corrected save copies f under: never f and
      never the backup. */
  function TempName(f: string): (t: string)
    ensures t != f && t != BackupName(f)
  {
    var t := "." + f + ".tmp";
    assert t[|t| - 1] != BackupName(f)[|t| - 1];
    t
  }

  /** A file other than f and its backup plays no part in loading. */
  lemma LoadIgnoresOthers(files: map<string, string>, k: string, v: string, markovLength: int, f: string)
    requires k != f && k != BackupName(f)
    ensures DatabaseLoad(files[k := v], markovLength, f) == DatabaseLoad(files, markovLength, f)
    ensures DatabaseLoad(files - {k}, markovLength, f) == DatabaseLoad(files, markovLength, f)
  {
  }

  /**
   * The corrected first step. A backup that already exists is what every
   * load reads, so it is kept; with no backup and no f there is nothing to
   * keep. Otherwise f is copied to a temporary file, which a rename then
   * turns into the backup in one step; if the copy cannot be made the
   * temporary file is removed and the save must not go on.
   */
  predicate CopyDone(F: map<string, string>, unwritable: set<string>, f: string)
  {
    BackupName(f) in F || f !in F || (TempName(f) !in unwritable && BackupName(f) !in unwritable)
  }

  /** The states the copy passes through, in order. */
  function CopySteps(F: map<string, string>, unwritable: set<string>, f: string): (steps: seq<map<string, string>>)
    ensures steps == [] <==> BackupName(f) in F || f !in F
  {
    var b, t := BackupName(f), TempName(f);
    if b in F || f !in F then []
    else if t in unwritable then [F]
    else
      var filled := F[t := F[f]];
      if b in unwritable then [F[t := ""], filled, filled, filled - {t}]
      else [F[t := ""], filled, (filled - {t})[b := F[f]]]
  }

  /** The files once the copy is over. */
  function Copied(F: map<string, string>, unwritable: set<string>, f: string): (c: map<string, string>)
    ensures CopyDone(F, unwritable, f) ==> BackupName(f) in c || (f !in c && BackupName(f) !in c)
  {
    var steps := CopySteps(F, unwritable, f);
    if steps == [] then F else steps[|steps| - 1]
  }

  method CopyToBackup(fs: FileSystem, f: string) returns (done: bool)
    modifies fs
    ensures done == CopyDone(old(fs.files), fs.unwritable, f)
    ensures fs.history == old(fs.history) + CopySteps(old(fs.files), fs.unwritable, f)
    ensures fs.files == Copied(old(fs.files), fs.unwritable, f)
  {
    ghost var F, h := fs.files, fs.history;
    var backupName, tempName := BackupName(f), TempName(f);
    var backup := fs.Read(backupName);
    var src := fs.Read(f);
    if backup.Some? || src.None? {
      return true;
    }
    var tempOpen := fs.Create(tempName);
    if !tempOpen {
      return false;
    }
    fs.Write(tempName, src.value);
    assert "" + src.value == src.value;
    ghost var filled := fs.files;
    assert filled == F[tempName := F[f]];
    done := fs.Rename(tempName, backupName);
    if !done {
      fs.Remove(tempName);
      assert fs.history == h + [F[tempName := ""], filled, filled, filled - {tempName}];
    } else {
      assert fs.history == h + [F[tempName := ""], filled, fs.files];
    }
  }

  /** Every state the corrected save passes through, in order. */
  function SaveSteps(F: map<string, string>, unwritable: set<string>, f: string, text: string): (steps: seq<map<string, string>>)
    ensures steps != []
  {
    var copy, c := CopySteps(F, unwritable, f), Copied(F, unwritable, f);
    if !CopyDone(F, unwritable, f) then copy
    else if f in unwritable then copy + [c]
    else copy + [c[f := ""], c[f := text], c[f := text] - {BackupName(f)}]
  }

  /**
   * The save the backup protocol calls for: the database that loads is
   * kept in the backup before f is truncated, the save stops if that
   * cannot be done, and the backup is removed only once f is written and
   * closed.
   */
  method SaveWithBackup(fs: FileSystem, roots: map<string, Word>, markovLength: int, f: string := "data.dsmc")
    modifies fs
    ensures var steps := SaveSteps(old(fs.files), fs.unwritable, f, StoreText(OrderHeader(markovLength, roots), roots));
      fs.history == old(fs.history) + steps && fs.files == steps[|steps| - 1]
  {
    ghost var F, h := fs.files, fs.history;
    ghost var text0 := StoreText(OrderHeader(markovLength, roots), roots);
    SaveStepsCases(F, fs.unwritable, f, text0);
    var done := CopyToBackup(fs, f);
    if !done {
      return;
    }
    var text := WriteOrderedFile(roots, markovLength);
    ghost var h1 := fs.history;
    WriteThenDropBackup(fs, f, text);
    assert fs.history == h1 + (fs.history[|h1|..]);
  }

  /** Truncating f, writing it and closing it, and only then removing the
      backup; nothing happens past the failed open of f. */
  method WriteThenDropBackup(fs: FileSystem, f: string, text: string)
    modifies fs
    ensures var c, b := old(fs.files), BackupName(f);
      && (f in fs.unwritable ==> fs.files == c && fs.history == old(fs.history) + [c])
      && (f !in fs.unwritable ==>
            fs.files == c[f := text] - {b} && fs.history == old(fs.history) + [c[f := ""], c[f := text], fs.files])
  {
    ghost var c, h := fs.files, fs.history;
    var ofsOpen := fs.Create(f);
    if !ofsOpen {
      return;
    }
    fs.Write(f, text);
    UpdateTwice(c, f, "", text);
    ghost var written := fs.files;
    fs.Remove(BackupName(f));
    Snoc3(h, c[f := ""], written, fs.files);
  }

  /** `SaveSteps` case by case. */
  lemma SaveStepsCases(F: map<string, string>, unwritable: set<string>, f: string, text: string)
    ensures var copy, c := CopySteps(F, unwritable, f), Copied(F, unwritable, f);
      && (!CopyDone(F, unwritable, f) ==> copy != [] && c == copy[|copy| - 1] && SaveSteps(F, unwritable, f, text) == copy)
      && (CopyDone(F, unwritable, f) && f in unwritable ==> SaveSteps(F, unwritable, f, text) == copy + [c])
      && (CopyDone(F, unwritable, f) && f !in unwritable ==>
            SaveSteps(F, unwritable, f, text) == copy + [c[f := ""], c[f := text], c[f := text] - {BackupName(f)}])
  {
  }

  lemma Snoc3<T>(h: seq<T>, a: T, b: T, c: T)
    ensures h + [a] + [b] + [c] == h + [a, b, c]
  {
  }

  lemma UpdateTwice(m: map<string, string>, k: string, a: string, b: string)
    ensures m[k := a][k := a + b] == m[k := b] || a != ""
  {
    if a == "" {
      assert a + b == b;
    }
  }

  /**
   * With the corrected save, whatever files it starts from (a stale backup
   * left by an earlier interrupted save included), every state it passes
   * through loads either like the files before the save or the saved roots
   * and order, so a crash at any step never loses a database. The final
   * state loads the saved roots and order when the save went through, and
   * like the files before it when it stopped.
   */
  lemma {:induction false} SaveWithBackupSnapshots(F: map<string, string>, unwritable: set<string>, f: string,
                                roots: map<string, Word>, markovLength: int, x: int)
    requires IntMin <= markovLength <= IntMax && RootsWellFormed(roots)
    ensures var steps := SaveSteps(F, unwritable, f, StoreText(OrderHeader(markovLength, roots), roots));
      && (forall i :: 0 <= i < |steps| ==>
            DatabaseLoad(steps[i], x, f) == DatabaseLoad(F, x, f) || DatabaseLoad(steps[i], x, f) == (roots, markovLength))
      && (CopyDone(F, unwritable, f) && f !in unwritable ==> DatabaseLoad(steps[|steps| - 1], x, f) == (roots, markovLength))
      && (!CopyDone(F, unwritable, f) || f in unwritable ==> DatabaseLoad(steps[|steps| - 1], x, f) == DatabaseLoad(F, x, f))
  {
    var text := StoreText(OrderHeader(markovLength, roots), roots);
    var copy, c := CopySteps(F, unwritable, f), Copied(F, unwritable, f);
    var L, R := DatabaseLoad(F, x, f), (roots, markovLength);
    CopyStepsLoad(F, unwritable, f, x);
    if !CopyDone(F, unwritable, f) {
      EachLoads(copy, [], x, f, L, R);
    } else if f in unwritable {
      EachLoads(copy, [c], x, f, L, L);
    } else {
      LoadOrderedOfStore(markovLength, roots, x);
      PostCopyLoads(c, f, text, x, L, R);
      EachLoads(copy, [c[f := ""], c[f := text], c[f := text] - {BackupName(f)}], x, f, L, R);
    }
  }

  /** Joining the states of the copy, which all load like the files before
      the save, to later states that load like them or the new roots. */
  lemma EachLoads(copy: seq<map<string, string>>, post: seq<map<string, string>>, x: int, f: string,
                  L: (map<string, Word>, int), R: (map<string, Word>, int))
    requires forall s | s in copy :: DatabaseLoad(s, x, f) == L
    requires forall s | s in post :: DatabaseLoad(s, x, f) == L || DatabaseLoad(s, x, f) == R
    ensures forall i :: 0 <= i < |copy + post| ==>
      DatabaseLoad((copy + post)[i], x, f) == L || DatabaseLoad((copy + post)[i], x, f) == R
  {
    forall i | 0 <= i < |copy + post|
      ensures DatabaseLoad((copy + post)[i], x, f) == L || DatabaseLoad((copy + post)[i], x, f) == R
    {
      if i < |copy| {
        assert copy[i] in copy;
      } else {
        assert post[i - |copy|] in post;
      }
    }
  }

  /** The three states after the copy: f truncated loads like the copy,
      f written loads like it or the new text, and with the backup gone the
      new text loads. */
  lemma PostCopyLoads(c: map<string, string>, f: string, text: string, x: int,
                      L: (map<string, Word>, int), R: (map<string, Word>, int))
    requires DatabaseLoad(c, x, f) == L && LoadOrdered(text, x) == R
    requires BackupName(f) in c || (f !in c && BackupName(f) !in c)
    ensures DatabaseLoad(c[f := ""], x, f) == L
    ensures DatabaseLoad(c[f := text], x, f) == L || DatabaseLoad(c[f := text], x, f) == R
    ensures DatabaseLoad(c[f := text] - {BackupName(f)}, x, f) == R
  {
    var b := BackupName(f);
    if b in c {
      BackupPreferred(c, x, f, "");
      BackupPreferred(c, x, f, text);
    } else {
      LoadOrderedEmpty(x);
    }
    assert (c[f := text] - {b})[f] == text;
  }

  /** Each state of the copy, and the state it leaves, loads like the files
      before it. */
  lemma CopyStepsLoad(F: map<string, string>, unwritable: set<string>, f: string, x: int)
    ensures forall s | s in CopySteps(F, unwritable, f) :: DatabaseLoad(s, x, f) == DatabaseLoad(F, x, f)
    ensures DatabaseLoad(Copied(F, unwritable, f), x, f) == DatabaseLoad(F, x, f)
  {
    var b, t := BackupName(f), TempName(f);
    if b !in F && f in F && t !in unwritable {
      var filled := F[t := F[f]];
      LoadIgnoresOthers(F, t, "", x, f);
      LoadIgnoresOthers(F, t, F[f], x, f);
      LoadIgnoresOthers(filled, t, "", x, f);
      assert (filled - {t})[b := F[f]][b] == F[f];
    }
  }
}
