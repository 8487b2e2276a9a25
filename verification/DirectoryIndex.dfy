/** The directory index of a container: a tree of names stored as tables whose entries
    are linked into child, sibling and file lists. */
module DirectoryIndex {
  import opened Zen
  import opened Sequences

  type Path = seq<string>

  datatype DirectoryEntry = DirectoryEntry(
    name: Option<nat>, firstChild: Option<nat>, nextSibling: Option<nat>, firstFile: Option<nat>)

  datatype FileEntry = FileEntry(name: nat, nextFile: Option<nat>, userData: nat)

  datatype Tables = Tables(dirs: seq<DirectoryEntry>, files: seq<FileEntry>, strings: seq<string>)

  /** The tree behind the tables: for every directory its parent, path, children and
      files in order, and for every file its directory and path. */
  datatype Shape = Shape(parents: seq<nat>, paths: seq<Path>, children: seq<seq<nat>>, fileLists: seq<seq<nat>>,
                         owners: seq<nat>, filePaths: seq<Path>)

  function Head(list: seq<nat>): Option<nat> {
    if list == [] then None else Some(list[0])
  }

  function NextOf(list: seq<nat>, i: nat): Option<nat>
    requires i < |list|
  {
    if i + 1 < |list| then Some(list[i + 1]) else None
  }

  /** Entries are appended, so lists are in table order. */
  ghost predicate Ascending(list: seq<nat>) {
    forall i, j :: 0 <= i < j < |list| ==> list[i] < list[j]
  }

  ghost predicate Sized(t: Tables, s: Shape) {
    && |t.dirs| == |s.parents| == |s.paths| == |s.children| == |s.fileLists|
    && |t.files| == |s.owners| == |s.filePaths|
  }

  // ---------------------------------------------------- what each entry obeys

  /** The links below directory `d` run through its children, which come later in the
      table. */
  ghost predicate ChildrenOk(t: Tables, s: Shape, d: nat)
    requires Sized(t, s) && d < |t.dirs|
  {
    var list := s.children[d];
    && t.dirs[d].firstChild == Head(list) && Ascending(list)
    && forall i: nat {:trigger ChildOk(t, s, d, i)} :: i < |list| ==> ChildOk(t, s, d, i)
  }

  ghost predicate ChildOk(t: Tables, s: Shape, d: nat, i: nat)
    requires Sized(t, s) && d < |t.dirs| && i < |s.children[d]|
  {
    var c := s.children[d][i];
    d < c < |t.dirs| && s.parents[c] == d && t.dirs[c].nextSibling == NextOf(s.children[d], i)
  }

  ghost predicate FilesOk(t: Tables, s: Shape, d: nat)
    requires Sized(t, s) && d < |t.dirs|
  {
    var list := s.fileLists[d];
    && t.dirs[d].firstFile == Head(list) && Ascending(list)
    && forall i: nat {:trigger FileLinked(t, s, d, i)} :: i < |list| ==> FileLinked(t, s, d, i)
  }

  ghost predicate FileLinked(t: Tables, s: Shape, d: nat, i: nat)
    requires Sized(t, s) && d < |t.dirs| && i < |s.fileLists[d]|
  {
    var f := s.fileLists[d][i];
    f < |t.files| && s.owners[f] == d && t.files[f].nextFile == NextOf(s.fileLists[d], i)
  }

  ghost predicate Names(t: Tables, n: nat, name: string) {
    n < |t.strings| && t.strings[n] == name
  }

  /** A directory has the path of its parent plus its name, and is among its children. */
  ghost predicate DirOk(t: Tables, s: Shape, d: nat)
    requires Sized(t, s) && d < |t.dirs|
  {
    if d == 0 then t.dirs[d].name.None? && s.paths[d] == []
    else
      && s.parents[d] < d && d in s.children[s.parents[d]]
      && s.paths[d] != [] && s.paths[d][..|s.paths[d]| - 1] == s.paths[s.parents[d]]
      && t.dirs[d].name.Some? && Names(t, t.dirs[d].name.value, s.paths[d][|s.paths[d]| - 1])
  }

  ghost predicate FileOk(t: Tables, s: Shape, f: nat)
    requires Sized(t, s) && f < |t.files|
  {
    && s.owners[f] < |t.dirs| && f in s.fileLists[s.owners[f]]
    && s.filePaths[f] != [] && s.filePaths[f][..|s.filePaths[f]| - 1] == s.paths[s.owners[f]]
    && Names(t, t.files[f].name, s.filePaths[f][|s.filePaths[f]| - 1])
  }

  /** No two directories, and no two files, have the same path. */
  ghost predicate PathsDistinct(s: Shape) {
    Distinct(s.paths) && Distinct(s.filePaths)
  }

  ghost predicate DirsOk(t: Tables, s: Shape)
    requires Sized(t, s)
  {
    forall d: nat {:trigger DirOk(t, s, d)} :: d < |t.dirs| ==> DirOk(t, s, d)
  }

  ghost predicate AllFilesOk(t: Tables, s: Shape)
    requires Sized(t, s)
  {
    forall f: nat {:trigger FileOk(t, s, f)} :: f < |t.files| ==> FileOk(t, s, f)
  }

  ghost predicate LinksOk(t: Tables, s: Shape)
    requires Sized(t, s)
  {
    && (forall d: nat {:trigger ChildrenOk(t, s, d)} :: d < |t.dirs| ==> ChildrenOk(t, s, d))
    && (forall d: nat {:trigger FilesOk(t, s, d)} :: d < |t.dirs| ==> FilesOk(t, s, d))
  }

  ghost predicate WellFormed(t: Tables, s: Shape) {
    Sized(t, s) && LinksOk(t, s) && DirsOk(t, s) && AllFilesOk(t, s) && PathsDistinct(s)
  }

  // --------------------------------------------------------- adding a directory

  const NEW_DIRECTORY := DirectoryEntry(None, None, None, None)

  /** Links entry `id` behind the last of `list`, or as the first child of `p`. */
  function LinkChild(dirs: seq<DirectoryEntry>, p: nat, last: Option<nat>, id: nat): seq<DirectoryEntry>
    requires p < |dirs| && (last.Some? ==> last.value < |dirs|)
  {
    match last
    case Some(l) => dirs[l := dirs[l].(nextSibling := Some(id))]
    case None => dirs[p := dirs[p].(firstChild := Some(id))]
  }

  function LastOf(list: seq<nat>): Option<nat> {
    if list == [] then None else Some(list[|list| - 1])
  }

  ghost function WithChild(s: Shape, p: nat, name: string): Shape
    requires p < |s.parents| == |s.paths| == |s.children|
  {
    s.(parents := s.parents + [p],
       paths := s.paths + [s.paths[p] + [name]],
       children := s.children[p := s.children[p] + [|s.parents|]] + [[]],
       fileLists := s.fileLists + [[]])
  }

  /** The tables after a new child of `p` with name entry `n` has been appended. */
  ghost predicate ChildAppended(t: Tables, s: Shape, p: nat, n: nat, t2: Tables)
    requires Sized(t, s) && p < |t.dirs|
  {
    var last := LastOf(s.children[p]);
    && (last.Some? ==> last.value < |t.dirs|)
    && t2.dirs == LinkChild(t.dirs + [NEW_DIRECTORY.(name := Some(n))], p, last, |t.dirs|)
    && t2.files == t.files && t.strings <= t2.strings
  }

  lemma {:induction false} ChildAppendedEntries(t: Tables, s: Shape, p: nat, n: nat, t2: Tables, d: nat)
    requires Sized(t, s) && p < |t.dirs| && ChildAppended(t, s, p, n, t2) && d < |t.dirs|
    ensures |t2.dirs| == |t.dirs| + 1
    ensures t2.dirs[d].name == t.dirs[d].name && t2.dirs[d].firstFile == t.dirs[d].firstFile
    ensures t2.dirs[d].firstChild == if d == p && s.children[p] == [] then Some(|t.dirs|) else t.dirs[d].firstChild
    ensures t2.dirs[d].nextSibling == if Some(d) == LastOf(s.children[p]) then Some(|t.dirs|) else t.dirs[d].nextSibling
    ensures t2.dirs[|t.dirs|] == NEW_DIRECTORY.(name := Some(n))
  {
  }

  lemma {:induction false} ChildStillOk(t: Tables, s: Shape, p: nat, n: nat, name: string, t2: Tables, d: nat, i: nat)
    requires Sized(t, s) && p < |t.dirs| && ChildAppended(t, s, p, n, t2)
    requires d < |t.dirs| && i < |s.children[d]| && ChildrenOk(t, s, d) && ChildrenOk(t, s, p)
    ensures var s2 := WithChild(s, p, name);
            Sized(t2, s2) && i < |s2.children[d]| && ChildOk(t2, s2, d, i)
  {
    assert ChildOk(t, s, d, i);
    var c := s.children[d][i];
    ChildAppendedEntries(t, s, p, n, t2, c);
    if s.children[p] != [] {
      assert ChildOk(t, s, p, |s.children[p]| - 1);
    }
  }

  lemma {:induction false} AddChildLinks(t: Tables, s: Shape, p: nat, n: nat, name: string, t2: Tables)
    requires WellFormed(t, s) && p < |t.dirs| && ChildAppended(t, s, p, n, t2)
    ensures var s2 := WithChild(s, p, name); Sized(t2, s2) && LinksOk(t2, s2)
  {
    var s2 := WithChild(s, p, name);
    var id := |t.dirs|;
    ChildAppendedEntries(t, s, p, n, t2, p);
    assert ChildrenOk(t, s, p);
    forall d: nat | d < |t2.dirs|
      ensures ChildrenOk(t2, s2, d)
    {
      if d < id {
        assert ChildrenOk(t, s, d);
        ChildAppendedEntries(t, s, p, n, t2, d);
        assert d == p ==> forall i :: 0 <= i < |s.children[p]| ==> ChildOk(t, s, p, i);
        forall i: nat | i < |s2.children[d]|
          ensures ChildOk(t2, s2, d, i)
        {
          if i < |s.children[d]| {
            ChildStillOk(t, s, p, n, name, t2, d, i);
          }
        }
      }
    }
    forall d: nat | d < |t2.dirs|
      ensures FilesOk(t2, s2, d)
    {
      if d < id {
        assert FilesOk(t, s, d);
        ChildAppendedEntries(t, s, p, n, t2, d);
        forall i: nat | i < |s2.fileLists[d]|
          ensures FileLinked(t2, s2, d, i)
        {
          assert FileLinked(t, s, d, i);
        }
      }
    }
  }

  lemma {:induction false} AddChildDirs(t: Tables, s: Shape, p: nat, n: nat, name: string, t2: Tables)
    requires WellFormed(t, s) && p < |t.dirs| && ChildAppended(t, s, p, n, t2) && Names(t2, n, name)
    ensures var s2 := WithChild(s, p, name); Sized(t2, s2) && DirsOk(t2, s2) && AllFilesOk(t2, s2)
  {
    var s2 := WithChild(s, p, name);
    var id := |t.dirs|;
    ChildAppendedEntries(t, s, p, n, t2, p);
    forall d: nat | d < |t2.dirs|
      ensures DirOk(t2, s2, d)
    {
      if d < id {
        assert DirOk(t, s, d);
        ChildAppendedEntries(t, s, p, n, t2, d);
        assert d > 0 ==> s2.paths[d] == s.paths[d] && d in s2.children[s2.parents[d]];
      } else {
        assert s2.paths[d] == s.paths[p] + [name];
        assert s2.children[p][|s.children[p]|] == id;
      }
    }
    forall f: nat | f < |t2.files|
      ensures FileOk(t2, s2, f)
    {
      assert FileOk(t, s, f);
    }
  }

  /** A directory with the path `paths[p] + [name]` would be a child of `p`. */
  lemma {:induction false} PathMeansChild(t: Tables, s: Shape, p: nat, name: string, d: nat)
    requires Sized(t, s) && p < |t.dirs| && d < |t.dirs| && DirOk(t, s, d) && PathsDistinct(s)
    requires s.paths[d] == s.paths[p] + [name]
    ensures d > 0 && s.parents[d] == p && d in s.children[p]
  {
    assert s.paths[d][..|s.paths[d]| - 1] == s.paths[p];
    assert s.paths[s.parents[d]] == s.paths[p];
  }

  lemma {:induction false} AddChild(t: Tables, s: Shape, p: nat, n: nat, name: string, t2: Tables)
    requires WellFormed(t, s) && p < |t.dirs| && ChildAppended(t, s, p, n, t2) && Names(t2, n, name)
    requires forall c :: c in s.children[p] ==> c < |s.paths| && s.paths[c] != s.paths[p] + [name]
    ensures WellFormed(t2, WithChild(s, p, name))
  {
    AddChildLinks(t, s, p, n, name, t2);
    AddChildDirs(t, s, p, n, name, t2);
    forall d: nat | d < |s.paths|
      ensures s.paths[d] != s.paths[p] + [name]
    {
      assert DirOk(t, s, d);
      if s.paths[d] == s.paths[p] + [name] {
        PathMeansChild(t, s, p, name, d);
      }
    }
  }

  // -------------------------------------------------------------- adding a file

  ghost function WithFile(s: Shape, p: nat, name: string): Shape
    requires p < |s.paths| == |s.fileLists|
  {
    s.(fileLists := s.fileLists[p := s.fileLists[p] + [|s.owners|]],
       owners := s.owners + [p],
       filePaths := s.filePaths + [s.paths[p] + [name]])
  }

  /** The tables after a new file of `p` with name entry `n` has been appended. */
  ghost predicate FileAppended(t: Tables, s: Shape, p: nat, n: nat, t2: Tables)
    requires Sized(t, s) && p < |t.dirs|
  {
    var last := LastOf(s.fileLists[p]);
    var id := |t.files|;
    && t.strings <= t2.strings
    && match last
       case Some(l) =>
         && l < |t.files| && t2.dirs == t.dirs
         && t2.files == t.files[l := t.files[l].(nextFile := Some(id))] + [FileEntry(n, None, 0)]
       case None =>
         t2.dirs == t.dirs[p := t.dirs[p].(firstFile := Some(id))] && t2.files == t.files + [FileEntry(n, None, 0)]
  }

  lemma {:induction false} FileAppendedEntries(t: Tables, s: Shape, p: nat, n: nat, t2: Tables)
    requires Sized(t, s) && p < |t.dirs| && FileAppended(t, s, p, n, t2)
    ensures |t2.dirs| == |t.dirs| && |t2.files| == |t.files| + 1
    ensures forall d: nat :: d < |t.dirs| ==>
              t2.dirs[d] ==
                if d == p && s.fileLists[p] == [] then t.dirs[d].(firstFile := Some(|t.files|)) else t.dirs[d]
    ensures forall f: nat :: f < |t.files| ==>
              t2.files[f] ==
                if Some(f) == LastOf(s.fileLists[p]) then t.files[f].(nextFile := Some(|t.files|)) else t.files[f]
    ensures t2.files[|t.files|] == FileEntry(n, None, 0)
  {
  }

  lemma {:induction false} FileStillLinked(t: Tables, s: Shape, p: nat, n: nat, name: string, t2: Tables, d: nat,
                                           i: nat)
    requires Sized(t, s) && p < |t.dirs| && FileAppended(t, s, p, n, t2)
    requires d < |t.dirs| && i < |s.fileLists[d]| && FilesOk(t, s, d) && FilesOk(t, s, p)
    ensures var s2 := WithFile(s, p, name);
            Sized(t2, s2) && i < |s2.fileLists[d]| && FileLinked(t2, s2, d, i)
  {
    FileAppendedEntries(t, s, p, n, t2);
    assert FileLinked(t, s, d, i);
    if s.fileLists[p] != [] {
      assert FileLinked(t, s, p, |s.fileLists[p]| - 1);
    }
  }

  lemma {:induction false} AddFileLinks(t: Tables, s: Shape, p: nat, n: nat, name: string, t2: Tables)
    requires WellFormed(t, s) && p < |t.dirs| && FileAppended(t, s, p, n, t2)
    ensures var s2 := WithFile(s, p, name); Sized(t2, s2) && LinksOk(t2, s2)
  {
    var s2 := WithFile(s, p, name);
    FileAppendedEntries(t, s, p, n, t2);
    assert FilesOk(t, s, p);
    assert forall i :: 0 <= i < |s.fileLists[p]| ==> FileLinked(t, s, p, i);
    forall d: nat | d < |t2.dirs|
      ensures FilesOk(t2, s2, d)
    {
      assert FilesOk(t, s, d);
      forall i: nat | i < |s2.fileLists[d]|
        ensures FileLinked(t2, s2, d, i)
      {
        if i < |s.fileLists[d]| {
          FileStillLinked(t, s, p, n, name, t2, d, i);
        }
      }
    }
    forall d: nat | d < |t2.dirs|
      ensures ChildrenOk(t2, s2, d)
    {
      assert ChildrenOk(t, s, d);
      forall i: nat | i < |s2.children[d]|
        ensures ChildOk(t2, s2, d, i)
      {
        assert ChildOk(t, s, d, i);
      }
    }
  }

  lemma {:induction false} AddFileEntries(t: Tables, s: Shape, p: nat, n: nat, name: string, t2: Tables)
    requires WellFormed(t, s) && p < |t.dirs| && FileAppended(t, s, p, n, t2) && Names(t2, n, name)
    ensures var s2 := WithFile(s, p, name); Sized(t2, s2) && DirsOk(t2, s2) && AllFilesOk(t2, s2)
  {
    var s2 := WithFile(s, p, name);
    FileAppendedEntries(t, s, p, n, t2);
    forall d: nat | d < |t2.dirs|
      ensures DirOk(t2, s2, d)
    {
      assert DirOk(t, s, d);
    }
    forall f: nat | f < |t2.files|
      ensures FileOk(t2, s2, f)
    {
      if f < |t.files| {
        assert FileOk(t, s, f);
        assert s2.filePaths[f] == s.filePaths[f];
      } else {
        assert s2.filePaths[f] == s.paths[p] + [name];
        assert s2.fileLists[p][|s.fileLists[p]|] == f;
      }
    }
  }

  /** A file with the path `paths[p] + [name]` would be a file of `p`. */
  lemma {:induction false} PathMeansFile(t: Tables, s: Shape, p: nat, name: string, f: nat)
    requires Sized(t, s) && p < |t.dirs| && f < |t.files| && FileOk(t, s, f) && PathsDistinct(s)
    requires s.filePaths[f] == s.paths[p] + [name]
    ensures s.owners[f] == p && f in s.fileLists[p]
  {
    assert s.filePaths[f][..|s.filePaths[f]| - 1] == s.paths[p];
    assert s.paths[s.owners[f]] == s.paths[p];
  }

  lemma {:induction false} AddFileOk(t: Tables, s: Shape, p: nat, n: nat, name: string, t2: Tables)
    requires WellFormed(t, s) && p < |t.dirs| && FileAppended(t, s, p, n, t2) && Names(t2, n, name)
    requires forall f :: f in s.fileLists[p] ==> f < |s.filePaths| && s.filePaths[f] != s.paths[p] + [name]
    ensures WellFormed(t2, WithFile(s, p, name))
    ensures s.paths[p] + [name] !in s.filePaths
  {
    AddFileLinks(t, s, p, n, name, t2);
    AddFileEntries(t, s, p, n, name, t2);
    forall f: nat | f < |s.filePaths|
      ensures s.filePaths[f] != s.paths[p] + [name]
    {
      assert FileOk(t, s, f);
      if s.filePaths[f] == s.paths[p] + [name] {
        PathMeansFile(t, s, p, name, f);
      }
    }
  }

  // ------------------------------------------------------------------ the index

  /** The map from full paths to user data that the files represent. */
  ghost predicate ContentsOk(files: seq<FileEntry>, filePaths: seq<Path>, contents: map<Path, nat>) {
    && |files| == |filePaths|
    && (forall f: nat :: f < |files| ==> filePaths[f] in contents && contents[filePaths[f]] == files[f].userData)
    && forall p :: p in contents ==> p in filePaths
  }

  /** Splits the path of a child into its parent's path and its own name. */
  lemma {:induction false} ChildPath(t: Tables, s: Shape, d: nat, i: nat)
    requires WellFormed(t, s) && d < |t.dirs| && i < |s.children[d]|
    ensures var c := s.children[d][i];
            && c < |t.dirs| && t.dirs[c].name.Some? && t.dirs[c].name.value < |t.strings|
            && s.paths[c] == s.paths[d] + [t.strings[t.dirs[c].name.value]]
            && t.dirs[c].nextSibling == NextOf(s.children[d], i)
  {
    assert ChildrenOk(t, s, d);
    assert ChildOk(t, s, d, i);
    var c := s.children[d][i];
    assert DirOk(t, s, c);
    var n := |s.paths[c]| - 1;
    assert s.paths[c] == s.paths[c][..n] + [s.paths[c][n]];
  }

  lemma {:induction false} FilePath(t: Tables, s: Shape, d: nat, i: nat)
    requires WellFormed(t, s) && d < |t.dirs| && i < |s.fileLists[d]|
    ensures var f := s.fileLists[d][i];
            && f < |t.files| && t.files[f].name < |t.strings|
            && s.filePaths[f] == s.paths[d] + [t.strings[t.files[f].name]]
            && t.files[f].nextFile == NextOf(s.fileLists[d], i)
  {
    assert FilesOk(t, s, d);
    assert FileLinked(t, s, d, i);
    var f := s.fileLists[d][i];
    assert FileOk(t, s, f);
    var n := |s.filePaths[f]| - 1;
    assert s.filePaths[f] == s.filePaths[f][..n] + [s.filePaths[f][n]];
  }

  /** A table index into the rest of a list. */
  ghost predicate Cursor(list: seq<nat>, k: nat, at: Option<nat>, last: Option<nat>) {
    k <= |list| && at == (if k < |list| then Some(list[k]) else None) && last == LastOf(list[..k])
  }

  class DirectoryIndexResource {
    var dirs: seq<DirectoryEntry>
    var files: seq<FileEntry>
    var strings: seq<string>
    ghost var shape: Shape
    ghost var contents: map<Path, nat>

    ghost function T(): Tables
      reads `dirs, `files, `strings
    {
      Tables(dirs, files, strings)
    }

    ghost predicate Valid()
      reads this
    {
      WellFormed(T(), shape) && ContentsOk(files, shape.filePaths, contents)
    }

    constructor ()
      ensures Valid() && contents == map[]
    {
      dirs, files, strings := [], [], [];
      shape, contents := Shape([], [], [], [], [], []), map[];
    }

    method EnsureRoot() returns (root: nat)
      requires Valid()
      modifies `dirs, `shape
      ensures Valid() && root < |dirs| && shape.paths[root] == []
    {
      if dirs == [] {
        assert files == [] by {
          assert files != [] ==> FileOk(T(), shape, 0);
        }
        dirs := [NEW_DIRECTORY];
        shape := Shape([0], [[]], [[]], [[]], shape.owners, shape.filePaths);
        assert ChildrenOk(T(), shape, 0) && FilesOk(T(), shape, 0) && DirOk(T(), shape, 0);
      }
      assert DirOk(T(), shape, 0);
      root := 0;
    }

    method GetOrCreateName(name: string) returns (n: nat)
      modifies `strings
      ensures Names(T(), n, name) && old(strings) <= strings
      ensures strings == if name in old(strings) then old(strings) else old(strings) + [name]
    {
      for i := 0 to |strings|
        invariant forall j :: 0 <= j < i ==> strings[j] != name
      {
        if strings[i] == name {
          return i;
        }
      }
      strings := strings + [name];
      n := |strings| - 1;
    }

    /** Finds the child directory with this name, or appends it. */
    method GetOrCreateDir(parent: nat, name: string) returns (id: nat)
      requires Valid() && parent < |dirs|
      modifies `dirs, `strings, `shape
      ensures Valid() && parent < |shape.paths| && id < |dirs|
      ensures shape.paths[id] == old(shape.paths[parent]) + [name] && old(shape.paths) <= shape.paths
    {
      ghost var list, path := shape.children[parent], shape.paths[parent] + [name];
      assert ChildrenOk(T(), shape, parent);
      var at, last := dirs[parent].firstChild, None;
      ghost var k := 0;
      while at.Some?
        invariant Valid() && Cursor(list, k, at, last)
        invariant forall j :: 0 <= j < k ==> list[j] < |shape.paths| && shape.paths[list[j]] != path
        modifies {}
        decreases |list| - k
      {
        ChildPath(T(), shape, parent, k);
        var i := at.value;
        if strings[dirs[i].name.value] == name {
          return i;
        }
        assert shape.paths[i][|shape.paths[i]| - 1] != name;
        last, at := at, dirs[i].nextSibling;
        k := k + 1;
      }
      assert list[..k] == list;
      id := AppendDir(parent, name, last);
    }

    method AppendDir(parent: nat, name: string, last: Option<nat>) returns (id: nat)
      requires Valid() && parent < |dirs| && last == LastOf(shape.children[parent])
      requires forall c :: c in shape.children[parent] ==>
                 c < |shape.paths| && shape.paths[c] != shape.paths[parent] + [name]
      modifies `dirs, `strings, `shape
      ensures Valid() && id < |dirs| && shape.paths == old(shape.paths) + [old(shape.paths[parent]) + [name]]
      ensures shape.paths[id] == old(shape.paths[parent]) + [name]
    {
      ghost var before := T();
      assert last.Some? ==> last.value in shape.children[parent];
      var n := GetOrCreateName(name);
      dirs := dirs + [NEW_DIRECTORY.(name := Some(n))];
      id := |dirs| - 1;
      if last.Some? {
        dirs := dirs[last.value := dirs[last.value].(nextSibling := Some(id))];
      } else {
        dirs := dirs[parent := dirs[parent].(firstChild := Some(id))];
      }
      AddChild(before, shape, parent, n, name, T());
      shape := WithChild(shape, parent, name);
    }

    /** Finds the file with this name, or appends it with user data 0. */
    method GetOrCreateFile(parent: nat, name: string) returns (f: nat)
      requires Valid() && parent < |dirs|
      modifies this
      ensures Valid() && f < |files| && shape.filePaths[f] == old(shape.paths[parent]) + [name]
      ensures contents == if shape.filePaths[f] in old(contents) then old(contents)
                else old(contents)[shape.filePaths[f] := 0]
    {
      ghost var list, path := shape.fileLists[parent], shape.paths[parent] + [name];
      assert FilesOk(T(), shape, parent);
      var at, last := dirs[parent].firstFile, None;
      ghost var k := 0;
      while at.Some?
        invariant Valid() && Cursor(list, k, at, last)
        invariant forall j :: 0 <= j < k ==> list[j] < |shape.filePaths| && shape.filePaths[list[j]] != path
        modifies {}
        decreases |list| - k
      {
        FilePath(T(), shape, parent, k);
        var i := at.value;
        if strings[files[i].name] == name {
          return i;
        }
        assert shape.filePaths[i][|shape.filePaths[i]| - 1] != name;
        last, at := at, files[i].nextFile;
        k := k + 1;
      }
      assert list[..k] == list;
      f := AppendFile(parent, name, last);
    }

    method AppendFile(parent: nat, name: string, last: Option<nat>) returns (f: nat)
      requires Valid() && parent < |dirs| && last == LastOf(shape.fileLists[parent])
      requires forall g :: g in shape.fileLists[parent] ==>
                 g < |shape.filePaths| && shape.filePaths[g] != shape.paths[parent] + [name]
      modifies this
      ensures Valid() && f < |files| && shape.filePaths[f] == old(shape.paths[parent]) + [name]
      ensures shape.filePaths[f] !in old(contents) && contents == old(contents)[shape.filePaths[f] := 0]
    {
      ghost var before, path := T(), shape.paths[parent] + [name];
      assert last.Some? ==> last.value in shape.fileLists[parent];
      var n := GetOrCreateName(name);
      f := |files|;
      files := files + [FileEntry(n, None, 0)];
      if last.Some? {
        files := files[last.value := files[last.value].(nextFile := Some(f))];
      } else {
        dirs := dirs[parent := dirs[parent].(firstFile := Some(f))];
      }
      AddFileOk(before, shape, parent, n, name, T());
      shape := WithFile(shape, parent, name);
      contents := contents[path := 0];
    }

    /** Adds a file or replaces its user data: the index refines a map from paths. */
    method AddFile(path: Path, userData: nat)
      requires Valid() && path != []
      modifies this
      ensures Valid() && contents == old(contents)[path := userData]
    {
      var n := |path| - 1;
      var d: nat := EnsureRoot();
      for i := 0 to n
        invariant Valid() && d < |dirs| == |shape.paths| && shape.paths[d] == path[..i] && contents == old(contents)
      {
        d := GetOrCreateDir(d, path[i]);
        assert path[..i + 1] == path[..i] + [path[i]];
      }
      var f := GetOrCreateFile(d, path[n]);
      assert path == path[..n] + [path[n]];
      SetUserData(f, userData);
    }

    method SetUserData(f: nat, userData: nat)
      requires Valid() && f < |files|
      modifies `files, `contents
      ensures Valid() && contents == old(contents)[shape.filePaths[f] := userData]
    {
      ghost var before := T();
      files := files[f := files[f].(userData := userData)];
      contents := contents[shape.filePaths[f] := userData];
      UserDataKeeps(before, T(), shape);
    }
  }

  lemma {:induction false} UserDataKeeps(t: Tables, t2: Tables, s: Shape)
    requires WellFormed(t, s) && t2.dirs == t.dirs && t2.strings == t.strings && |t2.files| == |t.files|
    requires forall f :: 0 <= f < |t.files| ==>
               t2.files[f].name == t.files[f].name && t2.files[f].nextFile == t.files[f].nextFile
    ensures WellFormed(t2, s)
  {
    forall d: nat | d < |t2.dirs|
      ensures ChildrenOk(t2, s, d) && FilesOk(t2, s, d) && DirOk(t2, s, d)
    {
      assert ChildrenOk(t, s, d) && FilesOk(t, s, d) && DirOk(t, s, d);
      forall i: nat | i < |s.children[d]|
        ensures ChildOk(t2, s, d, i)
      {
        assert ChildOk(t, s, d, i);
      }
      forall i: nat | i < |s.fileLists[d]|
        ensures FileLinked(t2, s, d, i)
      {
        assert FileLinked(t, s, d, i);
      }
    }
    forall f: nat | f < |t2.files|
      ensures FileOk(t2, s, f)
    {
      assert FileOk(t, s, f);
    }
  }

  // ------------------------------------------------------------------ iteration

  ghost predicate Ordered(s: Shape) {
    && |s.fileLists| == |s.children|
    && forall d: nat, i: nat {:trigger s.children[d][i]} ::
         d < |s.children| && i < |s.children[d]| ==> d < s.children[d][i] < |s.children|
  }

  lemma {:induction false} WellFormedOrdered(t: Tables, s: Shape)
    requires WellFormed(t, s)
    ensures Ordered(s)
  {
    forall d: nat, i: nat | d < |s.children| && i < |s.children[d]|
      ensures d < s.children[d][i] < |s.children|
    {
      assert ChildrenOk(t, s, d);
      assert ChildOk(t, s, d, i);
    }
  }

  /** The files below a directory, in the order of iteration. */
  ghost function FilesUnder(s: Shape, d: nat): seq<nat>
    requires Ordered(s) && d < |s.children|
    decreases |s.children| - d, |s.children[d]| + 1
  {
    s.fileLists[d] + UnderChildren(s, d, |s.children[d]|)
  }

  ghost function UnderChildren(s: Shape, d: nat, n: nat): seq<nat>
    requires Ordered(s) && d < |s.children| && n <= |s.children[d]|
    decreases |s.children| - d, n
  {
    if n == 0 then [] else UnderChildren(s, d, n - 1) + FilesUnder(s, s.children[d][n - 1])
  }

  /** `f` is a file whose path extends the path of directory `d`. */
  ghost predicate Below(t: Tables, s: Shape, d: nat, f: nat)
    requires Sized(t, s) && d < |t.dirs|
  {
    f < |t.files| && s.paths[d] <= s.filePaths[f] && |s.paths[d]| < |s.filePaths[f]|
  }

  lemma {:induction false} OwnFileBelow(t: Tables, s: Shape, d: nat, f: nat)
    requires WellFormed(t, s) && d < |t.dirs| && f in s.fileLists[d]
    ensures Below(t, s, d, f) && |s.filePaths[f]| == |s.paths[d]| + 1
  {
    var i :| 0 <= i < |s.fileLists[d]| && s.fileLists[d][i] == f;
    FilePath(t, s, d, i);
  }

  /** What lies below a child lies below its parent, deeper by its name. */
  lemma {:induction false} BelowChild(t: Tables, s: Shape, d: nat, i: nat, f: nat)
    requires WellFormed(t, s) && d < |t.dirs| && i < |s.children[d]|
    requires s.children[d][i] < |t.dirs| && Below(t, s, s.children[d][i], f)
    ensures Below(t, s, d, f) && |s.filePaths[f]| > |s.paths[d]| + 1
    ensures |s.paths[s.children[d][i]]| == |s.paths[d]| + 1
    ensures s.filePaths[f][|s.paths[d]|] == s.paths[s.children[d][i]][|s.paths[d]|]
  {
    ChildPath(t, s, d, i);
  }

  lemma {:induction false} FilesUnderBelow(t: Tables, s: Shape, d: nat, f: nat)
    requires WellFormed(t, s) && Ordered(s) && d < |t.dirs| && f in FilesUnder(s, d)
    ensures Below(t, s, d, f)
    decreases |s.children| - d, |s.children[d]| + 1
  {
    if f in s.fileLists[d] {
      OwnFileBelow(t, s, d, f);
    } else {
      var i := UnderChildrenBelow(t, s, d, |s.children[d]|, f);
    }
  }

  lemma {:induction false} UnderChildrenBelow(t: Tables, s: Shape, d: nat, n: nat, f: nat) returns (i: nat)
    requires WellFormed(t, s) && Ordered(s) && d < |t.dirs| && n <= |s.children[d]| && f in UnderChildren(s, d, n)
    ensures i < n && s.children[d][i] < |t.dirs| && Below(t, s, s.children[d][i], f)
    ensures Below(t, s, d, f) && |s.filePaths[f]| > |s.paths[d]| + 1
    decreases |s.children| - d, n
  {
    if f in UnderChildren(s, d, n - 1) {
      i := UnderChildrenBelow(t, s, d, n - 1, f);
    } else {
      i := n - 1;
      FilesUnderBelow(t, s, s.children[d][i], f);
      BelowChild(t, s, d, i, f);
    }
  }

  lemma {:induction false} DistinctConcat(a: seq<nat>, b: seq<nat>)
    requires Distinct(a) && Distinct(b) && forall x :: x in a ==> x !in b
    ensures Distinct(a + b)
  {
    forall i, j | 0 <= i < j < |a + b|
      ensures (a + b)[i] != (a + b)[j]
    {
      if i < |a| <= j {
        assert a[i] in a && b[j - |a|] in b;
      }
    }
  }

  /** No file lies below two children: their names differ. */
  lemma {:induction false} SiblingsApart(t: Tables, s: Shape, d: nat, i: nat, j: nat, f: nat)
    requires WellFormed(t, s) && d < |t.dirs| && i < j < |s.children[d]|
    requires s.children[d][i] < |t.dirs| && s.children[d][j] < |t.dirs|
    requires Below(t, s, s.children[d][i], f)
    ensures !Below(t, s, s.children[d][j], f)
  {
    ChildPath(t, s, d, i);
    ChildPath(t, s, d, j);
    assert ChildrenOk(t, s, d);
    var x, y := s.children[d][i], s.children[d][j];
    assert x < y && s.paths[x] != s.paths[y];
    BelowChild(t, s, d, i, f);
    if Below(t, s, y, f) {
      BelowChild(t, s, d, j, f);
    }
  }

  lemma {:induction false} FilesUnderDistinct(t: Tables, s: Shape, d: nat)
    requires WellFormed(t, s) && Ordered(s) && d < |t.dirs|
    ensures Distinct(FilesUnder(s, d))
    decreases |s.children| - d, |s.children[d]| + 1
  {
    var own, rest := s.fileLists[d], UnderChildren(s, d, |s.children[d]|);
    assert FilesOk(t, s, d);
    UnderChildrenDistinct(t, s, d, |s.children[d]|);
    forall x | x in own
      ensures x !in rest
    {
      OwnFileBelow(t, s, d, x);
      if x in rest {
        var i := UnderChildrenBelow(t, s, d, |s.children[d]|, x);
      }
    }
    DistinctConcat(own, rest);
  }

  lemma {:induction false} UnderChildrenDistinct(t: Tables, s: Shape, d: nat, n: nat)
    requires WellFormed(t, s) && Ordered(s) && d < |t.dirs| && n <= |s.children[d]|
    ensures Distinct(UnderChildren(s, d, n))
    decreases |s.children| - d, n
  {
    if n > 0 {
      var front, c := UnderChildren(s, d, n - 1), s.children[d][n - 1];
      UnderChildrenDistinct(t, s, d, n - 1);
      FilesUnderDistinct(t, s, c);
      forall x | x in front
        ensures x !in FilesUnder(s, c)
      {
        var i := UnderChildrenBelow(t, s, d, n - 1, x);
        SiblingsApart(t, s, d, i, n - 1, x);
        if x in FilesUnder(s, c) {
          FilesUnderBelow(t, s, c, x);
        }
      }
      DistinctConcat(front, FilesUnder(s, c));
    }
  }

  lemma {:induction false} ChildInUnder(s: Shape, d: nat, n: nat, i: nat, f: nat)
    requires Ordered(s) && d < |s.children| && i < n <= |s.children[d]| && f in FilesUnder(s, s.children[d][i])
    ensures f in UnderChildren(s, d, n)
    decreases n
  {
    if i < n - 1 {
      ChildInUnder(s, d, n - 1, i, f);
    }
  }

  /** Every directory is reached from the root, so every file is. */
  lemma {:induction false} ReachedFromRoot(t: Tables, s: Shape, d: nat, f: nat)
    requires WellFormed(t, s) && Ordered(s) && d < |t.dirs| && f in FilesUnder(s, d)
    ensures f in FilesUnder(s, 0)
    decreases d
  {
    if d > 0 {
      assert DirOk(t, s, d);
      var p := s.parents[d];
      var i :| 0 <= i < |s.children[p]| && s.children[p][i] == d;
      ChildInUnder(s, p, |s.children[p]|, i, f);
      ReachedFromRoot(t, s, p, f);
    }
  }

  lemma {:induction false} AllFilesReached(t: Tables, s: Shape, f: nat)
    requires WellFormed(t, s) && Ordered(s) && f < |t.files|
    ensures |t.dirs| > 0 && f in FilesUnder(s, 0)
  {
    assert FileOk(t, s, f);
    ReachedFromRoot(t, s, s.owners[f], f);
  }

  ghost predicate FileIds(t: Tables, s: Shape, ids: seq<nat>)
    requires Sized(t, s)
  {
    forall i :: 0 <= i < |ids| ==> ids[i] < |t.files|
  }

  /** What the visitor is given: each file's user data with its path. */
  ghost predicate Visited(t: Tables, s: Shape, ids: seq<nat>, visits: seq<(nat, Path)>)
    requires Sized(t, s)
  {
    && |visits| == |ids| && FileIds(t, s, ids)
    && forall i :: 0 <= i < |ids| ==> visits[i] == (t.files[ids[i]].userData, s.filePaths[ids[i]])
  }

  lemma {:induction false} VisitedPlus(t: Tables, s: Shape, a: seq<nat>, v: seq<(nat, Path)>, b: seq<nat>,
                                       w: seq<(nat, Path)>)
    requires Sized(t, s) && Visited(t, s, a, v) && Visited(t, s, b, w)
    ensures Visited(t, s, a + b, v + w)
  {
  }

  lemma {:induction false} VisitedChild(t: Tables, s: Shape, d: nat, k: nat, visits: seq<(nat, Path)>,
                                        more: seq<(nat, Path)>)
    requires Sized(t, s) && Ordered(s) && d < |s.children| && k < |s.children[d]|
    requires Visited(t, s, s.fileLists[d] + UnderChildren(s, d, k), visits)
    requires Visited(t, s, FilesUnder(s, s.children[d][k]), more)
    ensures Visited(t, s, s.fileLists[d] + UnderChildren(s, d, k + 1), visits + more)
  {
    var before, below := s.fileLists[d] + UnderChildren(s, d, k), FilesUnder(s, s.children[d][k]);
    VisitedPlus(t, s, before, visits, below, more);
    assert s.fileLists[d] + UnderChildren(s, d, k + 1) == before + below;
  }

  ghost predicate RestOf(list: seq<nat>, k: nat, at: Option<nat>) {
    k <= |list| && at == if k < |list| then Some(list[k]) else None
  }

  /** Visits the files below a directory, pushing and popping names on the way; the
      stack is back to what it was at the end. */
  method Iter(t: Tables, d: nat, stack0: Path, ghost s: Shape) returns (visits: seq<(nat, Path)>, stack: Path)
    requires WellFormed(t, s) && Ordered(s) && d < |t.dirs|
    requires stack0 == if s.paths[d] == [] then [] else s.paths[d][..|s.paths[d]| - 1]
    ensures stack == stack0 && Visited(t, s, FilesUnder(s, d), visits)
    decreases |t.dirs| - d
  {
    assert DirOk(t, s, d);
    stack := stack0;
    var dir := t.dirs[d];
    if dir.name.Some? {
      stack := stack + [t.strings[dir.name.value]];
    }
    assert stack == s.paths[d];
    visits := IterFiles(t, d, stack, s);
    assert ChildrenOk(t, s, d);
    var at := dir.firstChild;
    ghost var k := 0;
    while at.Some?
      invariant RestOf(s.children[d], k, at) && stack == s.paths[d]
      invariant Visited(t, s, s.fileLists[d] + UnderChildren(s, d, k), visits)
      decreases |s.children[d]| - k
    {
      var more;
      ChildPath(t, s, d, k);
      var c := at.value;
      more, stack := Iter(t, c, stack, s);
      VisitedChild(t, s, d, k, visits, more);
      visits := visits + more;
      at := t.dirs[c].nextSibling;
      k := k + 1;
    }
    if dir.name.Some? {
      stack := stack[..|stack| - 1];
    }
  }

  /** Visits the files of one directory. */
  method IterFiles(t: Tables, d: nat, stack: Path, ghost s: Shape) returns (visits: seq<(nat, Path)>)
    requires WellFormed(t, s) && d < |t.dirs| && stack == s.paths[d]
    ensures Visited(t, s, s.fileLists[d], visits)
  {
    visits := [];
    assert FilesOk(t, s, d);
    var at := t.dirs[d].firstFile;
    ghost var k := 0;
    while at.Some?
      invariant RestOf(s.fileLists[d], k, at)
      invariant Visited(t, s, s.fileLists[d][..k], visits)
      decreases |s.fileLists[d]| - k
    {
      FilePath(t, s, d, k);
      var file := t.files[at.value];
      visits := visits + [(file.userData, stack + [t.strings[file.name]])];
      assert s.fileLists[d][..k + 1] == s.fileLists[d][..k] + [s.fileLists[d][k]];
      at := file.nextFile;
      k := k + 1;
    }
    assert s.fileLists[d][..k] == s.fileLists[d];
  }

  /** Iteration ends and visits every path of the map exactly once, with its value. */
  method IterRoot(index: DirectoryIndexResource) returns (visits: seq<(nat, Path)>)
    requires index.Valid()
    ensures forall i, j :: 0 <= i < j < |visits| ==> visits[i].1 != visits[j].1
    ensures forall i :: 0 <= i < |visits| ==>
              visits[i].1 in index.contents && index.contents[visits[i].1] == visits[i].0
    ensures forall p :: p in index.contents ==> (index.contents[p], p) in visits
  {
    visits := [];
    ghost var t, s := index.T(), index.shape;
    WellFormedOrdered(t, s);
    if index.dirs != [] {
      var stack;
      assert DirOk(t, s, 0);
      visits, stack := Iter(Tables(index.dirs, index.files, index.strings), 0, [], s);
      FilesUnderDistinct(t, s, 0);
      forall p | p in index.contents
        ensures (index.contents[p], p) in visits
      {
        EveryPathVisited(t, s, index.contents, visits, p);
      }
    } else if p :| p in index.contents {
      var f :| 0 <= f < |s.filePaths| && s.filePaths[f] == p;
      AllFilesReached(t, s, f);
    }
  }

  lemma {:induction false} EveryPathVisited(t: Tables, s: Shape, contents: map<Path, nat>, visits: seq<(nat, Path)>,
                                            p: Path)
    requires WellFormed(t, s) && Ordered(s) && |t.dirs| > 0 && ContentsOk(t.files, s.filePaths, contents)
    requires Visited(t, s, FilesUnder(s, 0), visits) && p in contents
    ensures (contents[p], p) in visits
  {
    var f :| 0 <= f < |s.filePaths| && s.filePaths[f] == p;
    AllFilesReached(t, s, f);
    var i :| 0 <= i < |FilesUnder(s, 0)| && FilesUnder(s, 0)[i] == f;
    assert visits[i] == (contents[p], p);
  }
}
