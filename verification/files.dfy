/**
 * The file system the loaders and savers work on: a map from file name to
 * content. Opening a file for reading fails exactly when it does not exist;
 * opening one for writing fails for the names in `unwritable`, and otherwise
 * creates the file or truncates it to empty. `history` records every state
 * the files go through, so a crash between two steps leaves one of them.
 */
module Files {
  import opened Wrappers

  class FileSystem {
    var files: map<string, string>
    const unwritable: set<string>
    ghost var history: seq<map<string, string>>

    constructor (files: map<string, string>, unwritable: set<string>)
      ensures this.files == files && this.unwritable == unwritable && history == [files]
    {
      this.files := files;
      this.unwritable := unwritable;
      history := [files];
    }

    /** `ifstream::open` and reading the whole file; None when it cannot be
        opened. */
    function Read(name: string): (r: Option<string>)
      reads this
      ensures r.Some? <==> name in files
      ensures r.Some? ==> r.value == files[name]
    {
      if name in files then Some(files[name]) else None
    }

    /** `ofstream::open`: creates or truncates the file. */
    method Create(name: string) returns (ok: bool)
      modifies this
      ensures ok <==> name !in unwritable
      ensures files == if ok then old(files)[name := ""] else old(files)
      ensures history == old(history) + [files]
    {
      ok := name !in unwritable;
      if ok {
        files := files[name := ""];
      }
      history := history + [files];
    }

    /** Closing an output stream that `Create` opened: its buffered text
        reaches the file. */
    method Write(name: string, text: string)
      requires name in files
      modifies this
      ensures files == old(files)[name := old(files)[name] + text]
      ensures history == old(history) + [files]
    {
      files := files[name := files[name] + text];
      history := history + [files];
    }

    /** `rename(from, to)`: in one step the content of `from` moves to
        `to`, replacing whatever `to` held; it fails, changing nothing,
        when `from` does not exist or `to` cannot be written. */
    method Rename(from: string, to: string) returns (ok: bool)
      requires from != to
      modifies this
      ensures ok <==> from in old(files) && to !in unwritable
      ensures files == if ok then (old(files) - {from})[to := old(files)[from]] else old(files)
      ensures history == old(history) + [files]
    {
      ok := from in files && to !in unwritable;
      if ok {
        files := (files - {from})[to := files[from]];
      }
      history := history + [files];
    }

    /** `remove(name)`. */
    method Remove(name: string)
      modifies this
      ensures files == old(files) - {name}
      ensures history == old(history) + [files]
    {
      files := files - {name};
      history := history + [files];
    }
  }
}
