/** The part of the operating system's filesystem the services touch: files by path,
    created, overwritten, read and removed whole. Permissions, directories and I/O
    failures are not modelled; a path either names a file or it does not. */
module Disk {
  import opened Wrappers
  import Text

  type Path = string
  type Bytes = seq<bv8>

  function NonEmpty(elems: seq<string>): (r: seq<string>)
    ensures forall i :: 0 <= i < |r| ==> r[i] != ""
  {
    if |elems| == 0 then []
    else if elems[0] == "" then NonEmpty(elems[1..])
    else [elems[0]] + NonEmpty(elems[1..])
  }

  /** `filepath.Join`: the non-empty elements separated by "/". The lexical clean-up
      Go applies afterwards is not part of this model. */
  function JoinPath(elems: seq<string>): Path
  {
    Text.Join(NonEmpty(elems), "/")
  }

  /** Joining a directory and a plain file name puts exactly one "/" between them, so
      different names in one directory give different paths. */
  lemma JoinPathFile(dir: string, a: string, b: string)
    requires dir != "" && a != "" && b != ""
    ensures JoinPath([dir, a]) == dir + "/" + a
    ensures JoinPath([dir, a]) == JoinPath([dir, b]) <==> a == b
  {
    NonEmptyPair(dir, a);
    NonEmptyPair(dir, b);
    assert Text.Join([a], "/") == a;
    assert Text.Join([b], "/") == b;
    if dir + "/" + a == dir + "/" + b {
      assert a == (dir + "/" + a)[|dir| + 1..];
    }
  }

  lemma NonEmptyPair(x: string, y: string)
    requires x != "" && y != ""
    ensures NonEmpty([x, y]) == [x, y]
  {
    assert [x, y][1..] == [y];
    assert [y][1..] == [];
    assert NonEmpty([y]) == [y];
  }

  /** `p` names an entry directly inside directory `dir`. */
  predicate InDir(dir: Path, p: Path)
  {
    |p| > |dir| + 1 && p[..|dir| + 1] == dir + "/" && '/' !in p[|dir| + 1..]
  }

  /** The names of the files directly inside `dir`. */
  function DirNames<C>(files: map<Path, C>, dir: Path): set<string>
  {
    set p | p in files && InDir(dir, p) :: p[|dir| + 1..]
  }

  /** A name is listed exactly when it is a plain, non-empty name whose file exists in
      the directory. */
  lemma DirNamesMembers<C>(files: map<Path, C>, dir: Path, n: string)
    ensures n in DirNames(files, dir) <==> n != "" && '/' !in n && dir + "/" + n in files
  {
    var p := dir + "/" + n;
    if n != "" && '/' !in n && p in files {
      assert p[..|dir| + 1] == dir + "/" && p[|dir| + 1..] == n;
      assert InDir(dir, p);
    }
    if n in DirNames(files, dir) {
      var q :| q in files && InDir(dir, q) && q[|dir| + 1..] == n;
      assert q == q[..|dir| + 1] + q[|dir| + 1..];
    }
  }

  /** The error opening a file that does not exist reports. */
  function OpenError(p: Path): string
  {
    "open " + p + ": no such file or directory"
  }

  /** A directory tree of files whose contents are of type `C`. */
  class FileSystem<C> {
    var files: map<Path, C>

    constructor (initial: map<Path, C>)
      ensures files == initial
    {
      files := initial;
    }

    /** `os.Stat` succeeds (the Go code's `!os.IsNotExist(err)`; `FileExists`). */
    predicate Exists(p: Path)
      reads this
    {
      p in files
    }

    /** Create or truncate `p` and write `content` to it. */
    method Write(p: Path, content: C)
      modifies this
      ensures files == old(files)[p := content]
    {
      files := files[p := content];
    }

    /** `os.ReadFile`. */
    method Read(p: Path) returns (r: Result<C>)
      ensures p in files ==> r == Ok(files[p])
      ensures p !in files ==> r == Err(OpenError(p))
    {
      if p in files {
        r := Ok(files[p]);
      } else {
        r := Err(OpenError(p));
      }
    }

    /** `godirwalk.ReadDirnames`: the names in `dir`, each once, in no particular order. */
    method ReadDirnames(dir: Path) returns (names: seq<string>)
      ensures forall n :: n in names <==> n in DirNames(files, dir)
      ensures forall i, j :: 0 <= i < j < |names| ==> names[i] != names[j]
    {
      names := [];
      var rest := files.Keys;
      forall n ensures !(n in DirNames(files, dir) && dir + "/" + n !in rest) {
        DirNamesMembers(files, dir, n);
      }
      while rest != {}
        invariant rest <= files.Keys
        invariant forall n :: n in names <==> n in DirNames(files, dir) && dir + "/" + n !in rest
        invariant forall i, j :: 0 <= i < j < |names| ==> names[i] != names[j]
        decreases rest
      {
        var p :| p in rest;
        if InDir(dir, p) {
          var n := p[|dir| + 1..];
          assert p == dir + "/" + n;
          DirNamesMembers(files, dir, n);
          names := names + [n];
        }
        rest := rest - {p};
        forall n ensures n in names <==> n in DirNames(files, dir) && dir + "/" + n !in rest {
          DirNamesMembers(files, dir, n);
        }
      }
    }

    /** `os.Remove`. */
    method Remove(p: Path) returns (err: Outcome)
      modifies this
      ensures files == old(files) - {p}
      ensures err == Pass <==> p in old(files)
    {
      if p in files {
        files := files - {p};
        err := Pass;
      } else {
        err := Fail("remove " + p + ": no such file or directory");
      }
    }
  }
}
