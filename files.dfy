/**
 * The output directory.  `fs.existsSync` looks at what is on disk now, while
 * `fs.writeFile` only issues a write that completes later, after the script's
 * synchronous code has run; the issued writes are kept in `pending` until
 * `Settle` lets them land.
 */
module Files {

  datatype Write = Write(path: string, data: string)

  /** The disk once `writes` have landed, in order. */
  function Apply(disk: map<string, string>, writes: seq<Write>): map<string, string> {
    if writes == [] then disk
    else
      var last := writes[|writes| - 1];
      Apply(disk, writes[..|writes| - 1])[last.path := last.data]
  }

  /** A path that no write names keeps what it had, or stays absent. */
  lemma {:induction false} ApplyUntouched(disk: map<string, string>, writes: seq<Write>, p: string)
    requires forall w :: w in writes ==> w.path != p
    ensures p in Apply(disk, writes) <==> p in disk
    ensures p in disk ==> Apply(disk, writes)[p] == disk[p]
  {
    if writes != [] {
      ApplyUntouched(disk, writes[..|writes| - 1], p);
    }
  }

  /** A path that some write names ends up holding the data of one of them
      (the last one, in landing order). */
  lemma {:induction false} ApplyWritten(disk: map<string, string>, writes: seq<Write>, p: string)
    requires exists w :: w in writes && w.path == p
    ensures p in Apply(disk, writes)
    ensures exists w :: w in writes && w.path == p && Apply(disk, writes)[p] == w.data
  {
    var n := |writes| - 1;
    if writes[n].path != p {
      var w :| w in writes && w.path == p;
      assert writes == writes[..n] + [writes[n]];
      assert w in writes[..n];
      ApplyWritten(disk, writes[..n], p);
    }
  }

  class FileSystem {
    /** What is on disk. */
    var files: map<string, string>
    /** Writes issued and not yet landed, in issue order. */
    var pending: seq<Write>

    constructor (disk: map<string, string>)
      ensures files == disk && pending == []
    {
      files := disk;
      pending := [];
    }

    /** The disk once every pending write has landed. */
    function Eventual(): map<string, string>
      reads this
    {
      Apply(files, pending)
    }

    /** `fs.existsSync`: only writes that have landed are seen. */
    method ExistsSync(path: string) returns (b: bool)
      ensures b <==> path in files
    {
      b := path in files;
    }

    /** `fs.writeFile`: issues the write; nothing on disk changes yet. */
    method WriteFile(path: string, data: string)
      modifies this
      ensures files == old(files)
      ensures pending == old(pending) + [Write(path, data)]
      ensures Eventual() == old(Eventual())[path := data]
    {
      pending := pending + [Write(path, data)];
      assert pending[..|pending| - 1] == old(pending);
    }

    /** The event loop lets the pending writes land, in issue order. */
    method Settle()
      modifies this
      ensures files == old(Eventual()) && pending == []
    {
      var i := 0;
      var writes := pending;
      while i < |writes|
        invariant 0 <= i <= |writes|
        invariant files == Apply(old(files), writes[..i])
      {
        assert writes[..i + 1][..i] == writes[..i];
        files := files[writes[i].path := writes[i].data];
        i := i + 1;
      }
      assert writes[..i] == writes;
      pending := [];
    }
  }
}
