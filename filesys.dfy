/** The part of the operating system's file system the record store uses, seen from the
    store root: a map from paths (sequences of names, the root being []) to file and
    directory nodes carrying the owner's permission bits. */
module FileSys {
  import opened Wrappers
  import opened Text

  datatype Perm = Perm(read: bool, write: bool, exec: bool)

  /** Owner bits of mode 0755, given to every directory the store creates. */
  const DirPerm := Perm(true, true, true)
  /** Owner bits of mode 0644, given to every file the store creates. */
  const FilePerm := Perm(true, true, false)

  datatype Node =
    | Dir(perm: Perm, mtime: int)
    | File(data: string, perm: Perm, mtime: int)

  type Path = seq<string>
  type FS = map<Path, Node>

  datatype IoError = NotExist | PermissionDenied | NotADirectory | IsADirectory | AlreadyExists

  datatype DirEntry = DirEntry(name: string, isDir: bool)

  function Parent(p: Path): Path
    requires p != []
  {
    p[..|p| - 1]
  }

  /** Every node but the root hangs below a directory. */
  predicate WF(fs: FS) {
    forall q :: q in fs && q != [] ==> Parent(q) in fs && fs[Parent(q)].Dir?
  }

  /** Every proper ancestor of `p` is a directory the owner may search. */
  predicate Traversable(fs: FS, p: Path) {
    forall k :: 0 <= k < |p| ==> p[..k] in fs && fs[p[..k]].Dir? && fs[p[..k]].perm.exec
  }

  predicate IsDirAt(fs: FS, p: Path) {
    p in fs && fs[p].Dir?
  }

  /** os.Stat */
  function Stat(fs: FS, p: Path): Result<Node, IoError> {
    if p in fs && Traversable(fs, p) then Ok(fs[p])
    else if p in fs then Err(PermissionDenied)
    else Err(NotExist)
  }

  function Children(fs: FS, p: Path): set<string> {
    set q | q in fs.Keys && |q| == |p| + 1 && q[..|p|] == p :: q[|p|]
  }

  lemma ChildrenMembership(fs: FS, p: Path, name: string)
    ensures name in Children(fs, p) <==> p + [name] in fs
  {
    if p + [name] in fs {
      var q := p + [name];
      assert q in fs.Keys && |q| == |p| + 1 && q[..|p|] == p && q[|p|] == name;
    }
    if name in Children(fs, p) {
      var q :| q in fs.Keys && |q| == |p| + 1 && q[..|p|] == p && q[|p|] == name;
      assert q == p + [name];
    }
  }

  /** The entries of a directory, sorted by name as os.ReadDir returns them. */
  function Entries(fs: FS, p: Path): seq<DirEntry> {
    var names := SortedNames(Children(fs, p));
    seq(|names|, i requires 0 <= i < |names| => DirEntry(names[i], IsDirAt(fs, p + [names[i]])))
  }

  /** What ReadDir lists: every child of `p` once, in ascending name order, each flagged as
      a directory exactly when it is one. */
  lemma EntriesListChildren(fs: FS, p: Path)
    ensures var es := Entries(fs, p);
      && (forall i :: 0 <= i < |es| ==> p + [es[i].name] in fs && es[i].isDir == IsDirAt(fs, p + [es[i].name]))
      && (forall name :: p + [name] in fs ==> exists i :: 0 <= i < |es| && es[i].name == name)
      && (forall i, j :: 0 <= i < j < |es| ==> Less(es[i].name, es[j].name))
  {
    var names := SortedNames(Children(fs, p));
    var es := Entries(fs, p);
    forall i | 0 <= i < |es|
      ensures p + [es[i].name] in fs
    {
      ChildrenMembership(fs, p, names[i]);
    }
    forall name | p + [name] in fs
      ensures exists i :: 0 <= i < |es| && es[i].name == name
    {
      ChildrenMembership(fs, p, name);
      var i :| 0 <= i < |names| && names[i] == name;
      assert es[i].name == name;
    }
  }

  /** os.ReadDir */
  function ReadDir(fs: FS, p: Path): Result<seq<DirEntry>, IoError> {
    match Stat(fs, p)
    case Err(e) => Err(e)
    case Ok(n) =>
      if n.File? then Err(NotADirectory)
      else if !n.perm.read then Err(PermissionDenied)
      else Ok(Entries(fs, p))
  }

  /** os.ReadFile */
  function ReadFile(fs: FS, p: Path): Result<string, IoError> {
    match Stat(fs, p)
    case Err(e) => Err(e)
    case Ok(n) =>
      if n.Dir? then Err(IsADirectory)
      else if !n.perm.read then Err(PermissionDenied)
      else Ok(n.data)
  }

  /** os.WriteFile with mode 0644: creates or truncates the file at `p`. */
  function WriteFile(fs: FS, p: Path, data: string, mtime: int): Result<FS, IoError> {
    if p == [] then Err(IsADirectory)
    else if !Traversable(fs, p) then
      (if Parent(p) in fs then Err(PermissionDenied) else Err(NotExist))
    else if p in fs then
      match fs[p]
      case Dir(_, _) => Err(IsADirectory)
      case File(_, perm, _) =>
        if perm.write then Ok(fs[p := File(data, perm, mtime)]) else Err(PermissionDenied)
    else
      assert p[..|p| - 1] in fs;
      if fs[Parent(p)].perm.write then Ok(fs[p := File(data, FilePerm, mtime)])
      else Err(PermissionDenied)
  }

  /** os.Mkdir with mode 0755. */
  function Mkdir(fs: FS, p: Path, mtime: int): Result<FS, IoError>
    requires p != []
  {
    if !Traversable(fs, p) then
      (if Parent(p) in fs then Err(PermissionDenied) else Err(NotExist))
    else if p in fs then Err(AlreadyExists)
    else
      assert p[..|p| - 1] in fs;
      if fs[Parent(p)].perm.write then Ok(fs[p := Dir(DirPerm, mtime)])
      else Err(PermissionDenied)
  }

  /** os.MkdirAll with mode 0755: succeeds at once on an existing directory, fails on an
      existing file, and otherwise creates the missing ancestors and then `p`. The store
      root's own parent is outside the model and taken to admit creating the root. */
  function MkdirAll(fs: FS, p: Path, mtime: int): Result<FS, IoError>
    decreases |p|
  {
    match Stat(fs, p)
    case Ok(n) => if n.Dir? then Ok(fs) else Err(NotADirectory)
    case Err(_) =>
      if p == [] then Ok(fs[[] := Dir(DirPerm, mtime)])
      else
        match MkdirAll(fs, Parent(p), mtime)
        case Err(e) => Err(e)
        case Ok(fs1) => Mkdir(fs1, p, mtime)
  }

  /** `fs2` keeps every node of `fs1` as it was, and may add more. */
  predicate Extends(fs1: FS, fs2: FS) {
    forall q :: q in fs1 ==> q in fs2 && fs2[q] == fs1[q]
  }

  lemma StatExtends(fs1: FS, fs2: FS, p: Path)
    requires Extends(fs1, fs2) && Stat(fs1, p).Ok?
    ensures Stat(fs2, p) == Stat(fs1, p) && ReadFile(fs2, p) == ReadFile(fs1, p)
  {
    assert forall k :: 0 <= k < |p| ==> p[..k] in fs1;
  }

  /** A successful MkdirAll leaves a searchable-to directory at `p`, keeps every node
      that was there, and keeps the tree well formed. */
  lemma {:induction false} MkdirAllOk(fs: FS, p: Path, mtime: int)
    requires WF(fs)
    requires MkdirAll(fs, p, mtime).Ok?
    ensures var r := MkdirAll(fs, p, mtime).value;
      Stat(r, p).Ok? && Stat(r, p).value.Dir? && Extends(fs, r) && WF(r)
    decreases |p|
  {
    var r := MkdirAll(fs, p, mtime).value;
    if Stat(fs, p).Ok? {
      assert r == fs;
    } else if p == [] {
      assert [] !in fs;
      assert Traversable(r, []);
    } else {
      MkdirAllOk(fs, Parent(p), mtime);
      var fs1 := MkdirAll(fs, Parent(p), mtime).value;
      assert r == fs1[p := Dir(DirPerm, mtime)];
      assert p !in fs1;
      forall k | 0 <= k < |p|
        ensures p[..k] in r && r[p[..k]].Dir? && r[p[..k]].perm.exec
      {
        if k < |p| - 1 {
          assert p[..k] == Parent(p)[..k];
        } else {
          assert p[..k] == Parent(p);
          assert Traversable(fs1, Parent(p));
        }
      }
      forall q | q in r && q != []
        ensures Parent(q) in r && r[Parent(q)].Dir?
      {
        if q == p {
          assert Parent(q) in fs1;
        } else {
          assert q in fs1;
        }
      }
    }
  }

  /** MkdirAll adds nothing but `p` and its ancestors. */
  lemma {:induction false} MkdirAllAdds(fs: FS, p: Path, mtime: int)
    requires MkdirAll(fs, p, mtime).Ok?
    ensures var r := MkdirAll(fs, p, mtime).value;
      forall q :: q in r && q !in fs ==> |q| <= |p| && q == p[..|q|]
    decreases |p|
  {
    var r := MkdirAll(fs, p, mtime).value;
    if Stat(fs, p).Err? && p != [] {
      MkdirAllAdds(fs, Parent(p), mtime);
      var fs1 := MkdirAll(fs, Parent(p), mtime).value;
      assert r == fs1[p := Dir(DirPerm, mtime)];
      forall q | q in r && q !in fs
        ensures |q| <= |p| && q == p[..|q|]
      {
        if q != p {
          assert q in fs1;
          assert Parent(p)[..|q|] == p[..|q|];
        }
      }
    }
  }

  /** Creating a directory that is already there changes nothing. */
  lemma MkdirAllIdempotent(fs: FS, p: Path, mtime: int, mtime2: int)
    requires WF(fs)
    requires MkdirAll(fs, p, mtime).Ok?
    ensures var r := MkdirAll(fs, p, mtime).value; MkdirAll(r, p, mtime2) == Ok(r)
  {
    MkdirAllOk(fs, p, mtime);
  }

  /** A successful WriteFile stores exactly `data` at `p`, changes no other path and keeps
      the tree well formed; the file can be read back unless it already existed without
      read permission (a truncated existing file keeps its mode). */
  lemma WriteFileOk(fs: FS, p: Path, data: string, mtime: int)
    requires WF(fs)
    requires WriteFile(fs, p, data, mtime).Ok?
    ensures var r := WriteFile(fs, p, data, mtime).value;
      && p in r && r[p].File? && r[p].data == data && r[p].mtime == mtime
      && (forall q :: q in fs && q != p ==> q in r && r[q] == fs[q])
      && r.Keys == fs.Keys + {p}
      && (p in fs ==> r[p].perm == fs[p].perm)
      && (p !in fs || fs[p].perm.read ==> ReadFile(r, p) == Ok(data))
      && WF(r)
  {
    var r := WriteFile(fs, p, data, mtime).value;
    assert p != [];
    assert Parent(p) in fs && fs[Parent(p)].Dir? by {
      assert p[..|p| - 1] == Parent(p);
    }
    forall k | 0 <= k < |p|
      ensures p[..k] in r && r[p[..k]] == fs[p[..k]]
    {
      assert |p[..k]| < |p|;
    }
    forall q | q in r && q != []
      ensures Parent(q) in r && r[Parent(q)].Dir?
    {
      if q != p {
        assert q in fs;
        assert Parent(q) != p;
      }
    }
  }

  /** A write to `q` does not disturb what Stat and ReadFile see at a path `p` that does
      not lie at or below `q`. */
  lemma WriteFileElsewhere(fs: FS, q: Path, data: string, mtime: int, p: Path)
    requires WriteFile(fs, q, data, mtime).Ok?
    requires !(|q| <= |p| && p[..|q|] == q)
    ensures var r := WriteFile(fs, q, data, mtime).value;
      Stat(r, p) == Stat(fs, p) && ReadFile(r, p) == ReadFile(fs, p)
  {
    var r := WriteFile(fs, q, data, mtime).value;
    assert r == fs[q := r[q]];
    forall k | 0 <= k <= |p|
      ensures p[..k] != q
    {
      assert k == |q| ==> p[..|q|] == p[..k];
    }
    assert p == p[..|p|];
  }
}
