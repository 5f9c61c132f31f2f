/** The shell's current path (src/user-program/shell/user-shell.c) and the way back along it. */
module ShellPath {
  import opened Fat32Types
  import opened Fat32Layout
  import opened Fat32Write
  import opened Fat32Codes
  import opened Fat32Runs
  import opened Fat32Driver

  const STRINGN_SIZE: nat := 256

  /** `struct StringN` and its appends (src/user-program/utils.h). */
  class StringN {
    const buf: array<char>
    var len: nat

    ghost predicate Valid()
      reads this, buf
    {
      && buf.Length == STRINGN_SIZE && len <= STRINGN_SIZE
      && (forall k :: len <= k < STRINGN_SIZE ==> buf[k] == NUL)
    }

    ghost function Contents(): string
      requires Valid()
      reads this, buf
    {
      buf[..len]
    }

    constructor ()
      ensures Valid() && fresh(buf) && Contents() == ""
    {
      buf := new char[STRINGN_SIZE](_ => NUL);
      len := 0;
    }

    method AppendChar(c: char)
      requires Valid() && len < STRINGN_SIZE
      modifies `len, buf
      ensures Valid() && Contents() == old(Contents()) + [c]
    {
      buf[len] := c;
      len := len + 1;
    }

    /** Appends the characters of `s` up to its first NUL. */
    method AppendString(s: string)
      requires Valid() && len + |CString(s)| <= STRINGN_SIZE
      modifies `len, buf
      ensures Valid() && Contents() == old(Contents()) + CString(s)
    {
      var i := 0;
      ghost var before := Contents();
      while i < |s| && s[i] != NUL
        invariant Valid() && i <= |CString(s)|
        invariant Contents() == before + CString(s)[..i]
        invariant len == |before| + i
      {
        AppendChar(s[i]);
        i := i + 1;
      }
      assert CString(s)[..i] == CString(s);
    }
  }

  // ---- The path of a directory ----------------------------------------------------------------

  /** The root is `./`; any other directory adds its stored name and a slash to its parent's path. */
  ghost function PathOf(v: Volume, L: Layout, d: nat): string
    requires Inv(v, L) && d in L.depth
    decreases L.depth[d]
  {
    if d == ROOT_CLUSTER then "./"
    else
      ParentCloser(v, L, d);
      PathOf(v, L, TreeOf(v, L)[d].parent) + CString(TreeOf(v, L)[d].name) + "/"
  }

  /** The root is `./`, and every path starts there and ends in a slash. */
  lemma {:induction false} PathStarts(v: Volume, L: Layout, d: nat)
    requires Inv(v, L) && d in L.depth
    ensures d == 2 ==> PathOf(v, L, d) == "./"
    ensures |PathOf(v, L, d)| >= 2 && PathOf(v, L, d)[..2] == "./" && PathOf(v, L, d)[|PathOf(v, L, d)| - 1] == '/'
    decreases L.depth[d]
  {
    if d != ROOT_CLUSTER {
      ParentCloser(v, L, d);
      PathStarts(v, L, TreeOf(v, L)[d].parent);
    }
  }

  /** What slots 0 and 1 of a live directory's table say. */
  lemma TableHeader(v: Volume, L: Layout, d: nat)
    requires Inv(v, L) && d in L.depth
    ensures d < |v.disk| && IsTable(v, d)
    ensures v.disk[d].entries[0].key.name == TreeOf(v, L)[d].name
    ensures v.disk[d].entries[1].cluster == TreeOf(v, L)[d].parent
  {
    assert DirOk(v, L, d);
  }

  /** The folder part of `create_path_recursive`: the stored name and a slash, as a C string buffer. */
  method FolderPart(name: Name) returns (text: string)
    ensures CString(text) == CString(name) + "/"
  {
    var current := new StringN();
    current.AppendString(name);
    current.AppendChar('/');
    text := current.buf[..];
    CStringIs(text, current.len);
  }

  /** `create_path_recursive`, for paths that fit a `StringN`. */
  method CreatePath(driver: Driver, cluster: nat) returns (path: StringN)
    requires driver.Valid() && cluster in driver.layout.depth
    requires |PathOf(driver.Vol(), driver.layout, cluster)| <= STRINGN_SIZE
    ensures fresh(path) && fresh(path.buf) && path.Valid()
    ensures path.Contents() == PathOf(driver.Vol(), driver.layout, cluster)
    decreases driver.layout.depth[cluster]
  {
    if cluster == ROOT_CLUSTER {
      path := new StringN();
      path.AppendString("./");
      CStringIs("./", 2);
      return;
    }
    TableHeader(driver.Vol(), driver.layout, cluster);
    ParentCloser(driver.Vol(), driver.layout, cluster);
    var folder := FolderPart(driver.disk[cluster].entries[0].key.name);
    path := CreatePath(driver, driver.disk[cluster].entries[1].cluster);
    path.AppendString(folder);
  }

  // ---- Walking a path -------------------------------------------------------------------------

  /** The parts of a path, each ended by a slash; `part` is what has been read of the current one. */
  function Parts(s: string, part: string): seq<string> {
    if s == "" then []
    else if s[0] == '/' then [part] + Parts(s[1..], "")
    else Parts(s[1..], part + [s[0]])
  }

  lemma {:induction false} PartsOfName(name: string, part: string)
    requires '/' !in name
    ensures Parts(name + "/", part) == [part + name]
  {
    if name == "" {
      assert name + "/" == "/" && part + name == part;
      assert "/"[1..] == "";
    } else {
      assert (name + "/")[1..] == name[1..] + "/";
      PartsOfName(name[1..], part + [name[0]]);
      assert part + [name[0]] + name[1..] == part + name;
    }
  }

  lemma {:induction false} PartsConcat(a: string, b: string, part: string)
    requires a != "" && a[|a| - 1] == '/'
    ensures Parts(a + b, part) == Parts(a, part) + Parts(b, "")
  {
    assert (a + b)[1..] == a[1..] + b;
    if |a| == 1 {
      assert a[1..] + b == b && a[1..] == "";
    } else if a[0] == '/' {
      PartsConcat(a[1..], b, "");
    } else {
      PartsConcat(a[1..], b, part + [a[0]]);
    }
  }

  /** The key `read_directory` is given for one part of a path. */
  function PartKey(part: string): Key
    requires |part| <= 8
  {
    Key(PadName(part), ZERO_EXT)
  }

  /** One `read_directory` from a live directory: the live directory found, if any. */
  function Enter(t: Tree, d: nat, part: string): nat {
    if d in t && |part| <= 8 then Resolve(t, d, PartKey(part)) else BOOT_CLUSTER
  }

  /** From `d`, one `read_directory` for each part; cluster 0 once a part leads nowhere. */
  function Walk(t: Tree, d: nat, parts: seq<string>): nat {
    if parts == [] then d
    else Enter(t, Walk(t, d, parts[..|parts| - 1]), parts[|parts| - 1])
  }

  /** Follow a path from the root, the part before the first slash being the root itself. */
  function WalkPath(t: Tree, path: string): nat {
    var parts := Parts(path, "");
    if parts == [] then BOOT_CLUSTER else Walk(t, ROOT_CLUSTER, parts[1..])
  }

  // ---- When a path leads back -----------------------------------------------------------------

  /** The key under which a directory other than the root is listed in its parent. */
  ghost function ListedAs(v: Volume, L: Layout, d: nat): Key
    requires Inv(v, L) && d in L.depth && d != ROOT_CLUSTER
  {
    assert DirOk(v, L, d);
    v.disk[L.owner[d].dir].entries[L.owner[d].index].key
  }

  /** A key that a part of a path can stand for: no extension, zero-padded, free of slashes. */
  predicate Plain(key: Key) {
    key.ext == ZERO_EXT && key.name == StoredName(key.name) && '/' !in key.name
  }

  /** Every directory on the way from the root to `d` is listed under a plain key. */
  ghost predicate PlainWay(v: Volume, L: Layout, d: nat)
    requires Inv(v, L) && d in L.depth
    decreases L.depth[d]
  {
    d == ROOT_CLUSTER || (ParentCloser(v, L, d); Plain(ListedAs(v, L, d)) && PlainWay(v, L, TreeOf(v, L)[d].parent))
  }

  /** How a directory is listed: under its key in its parent's table, found there by `read_directory`. */
  lemma Listing(v: Volume, L: Layout, d: nat)
    requires Inv(v, L) && d in L.depth && d != ROOT_CLUSTER
    ensures TreeOf(v, L)[d].parent in L.depth
    ensures TreeOf(v, L)[d].name == StoredName(ListedAs(v, L, d).name)
    ensures Resolve(TreeOf(v, L), TreeOf(v, L)[d].parent, ListedAs(v, L, d)) == d
  {
    assert DirOk(v, L, d);
    var s, key := L.owner[d], ListedAs(v, L, d);
    assert SlotOk(v, L, s);
    ReadDirMeaning(v, L, s.dir, key);
    UsedIsSlot(v.disk[s.dir].entries, s.index);
  }

  lemma UsedIsSlot(t: seq<DirEntry>, i: nat)
    requires TableOk(t) && 2 <= i < |t| && t[i].Live()
    ensures FindUsed(t, t[i].key, 0) == i
  {
  }

  lemma StoredTwice(name: Name)
    ensures CString(StoredName(name)) == CString(name)
    ensures |CString(name)| <= 8 && PadName(CString(name)) == StoredName(name)
  {
    CStringIs(StoredName(name), |CString(name)|);
  }

  lemma PathParts(v: Volume, L: Layout, d: nat)
    requires Inv(v, L) && d in L.depth && d != ROOT_CLUSTER && Plain(ListedAs(v, L, d))
    ensures TreeOf(v, L)[d].parent in L.depth
    ensures Parts(PathOf(v, L, d), "") ==
            Parts(PathOf(v, L, TreeOf(v, L)[d].parent), "") + [CString(ListedAs(v, L, d).name)]
  {
    Listing(v, L, d);
    ParentCloser(v, L, d);
    var up, name := TreeOf(v, L)[d].parent, CString(TreeOf(v, L)[d].name);
    StoredTwice(ListedAs(v, L, d).name);
    assert name == CString(ListedAs(v, L, d).name);
    assert '/' !in name;
    PathStarts(v, L, up);
    assert PathOf(v, L, d) == PathOf(v, L, up) + (name + "/");
    PartsConcat(PathOf(v, L, up), name + "/", "");
    PartsOfName(name, "");
    assert "" + name == name;
  }

  /** Round trip: along plain keys, the path of a directory leads back to it. */
  lemma {:induction false} PathLeadsBack(v: Volume, L: Layout, d: nat)
    requires Inv(v, L) && d in L.depth && PlainWay(v, L, d)
    ensures Parts(PathOf(v, L, d), "") != []
    ensures WalkPath(TreeOf(v, L), PathOf(v, L, d)) == d
    decreases L.depth[d]
  {
    if d == ROOT_CLUSTER {
      PartsOfName(".", "");
      assert "." + "/" == "./";
    } else {
      ParentCloser(v, L, d);
      var up, key := TreeOf(v, L)[d].parent, ListedAs(v, L, d);
      PathLeadsBack(v, L, up);
      PathParts(v, L, d);
      Listing(v, L, d);
      StoredTwice(key.name);
      var before, last := Parts(PathOf(v, L, up), ""), CString(key.name);
      assert (before + [last])[1..] == before[1..] + [last];
      assert (before[1..] + [last])[..|before| - 1] == before[1..];
      assert PartKey(last) == key;
    }
  }

  // ---- When it does not -----------------------------------------------------------------------

  /** `a` is `d` or lies on the way from the root to `d`. */
  ghost predicate OnWay(v: Volume, L: Layout, a: nat, d: nat)
    requires Inv(v, L) && d in L.depth
    decreases L.depth[d]
  {
    a == d || (d != ROOT_CLUSTER && (ParentCloser(v, L, d); OnWay(v, L, a, TreeOf(v, L)[d].parent)))
  }

  ghost predicate Clean(s: string) { NUL !in s && '/' !in s }

  lemma {:induction false} PartsClean(s: string, part: string)
    requires NUL !in s && Clean(part)
    ensures forall p :: p in Parts(s, part) ==> Clean(p)
  {
    if s != "" {
      if s[0] == '/' { PartsClean(s[1..], ""); } else { PartsClean(s[1..], part + [s[0]]); }
    }
  }

  lemma {:induction false} PathHasNoNul(v: Volume, L: Layout, d: nat)
    requires Inv(v, L) && d in L.depth
    ensures NUL !in PathOf(v, L, d)
    decreases L.depth[d]
  {
    if d != ROOT_CLUSTER {
      ParentCloser(v, L, d);
      PathHasNoNul(v, L, TreeOf(v, L)[d].parent);
    }
  }

  lemma PartKeyPlain(part: string)
    requires |part| <= 8 && Clean(part)
    ensures Plain(PartKey(part))
  {
    CStringIs(PadName(part), |part|);
  }

  /** A subdirectory entry leads to the directory listed there. */
  lemma EntryLists(v: Volume, L: Layout, d: nat, key: Key)
    requires Inv(v, L) && d in L.depth && key in TreeOf(v, L)[d].entries && TreeOf(v, L)[d].entries[key].SubDir?
    ensures var c := TreeOf(v, L)[d].entries[key].cluster;
            c in L.depth && c != ROOT_CLUSTER && TreeOf(v, L)[c].parent == d && ListedAs(v, L, c) == key
  {
    assert DirOk(v, L, d);
    EntryMeaning(v, L, d, key);
    var s := Slot(d, Find(v.disk[d].entries, key, 2));
    assert SlotOk(v, L, s);
    assert DirOk(v, L, TreeOf(v, L)[d].entries[key].cluster);
  }

  /** One step of a walk cannot enter the subtree of a directory whose key no part of a path can name. */
  lemma StaysOutside(v: Volume, L: Layout, a: nat, d: nat, part: string)
    requires Inv(v, L) && a in L.depth && a != ROOT_CLUSTER && !Plain(ListedAs(v, L, a))
    requires d in L.depth && !OnWay(v, L, a, d) && Clean(part)
    ensures var e := Enter(TreeOf(v, L), d, part); e in L.depth ==> !OnWay(v, L, a, e)
  {
    var t, e := TreeOf(v, L), Enter(TreeOf(v, L), d, part);
    if e in L.depth {
      assert DirOk(v, L, e);
      assert |part| <= 8;
      PartKeyPlain(part);
      var key := PartKey(part);
      if HeaderKey(t, d, key) {
        if d != ROOT_CLUSTER { ParentCloser(v, L, d); }
      } else {
        EntryLists(v, L, d, key);
      }
    }
  }

  lemma {:induction false} WalkOutside(v: Volume, L: Layout, a: nat, parts: seq<string>)
    requires Inv(v, L) && a in L.depth && a != ROOT_CLUSTER && !Plain(ListedAs(v, L, a))
    requires forall p :: p in parts ==> Clean(p)
    ensures var e := Walk(TreeOf(v, L), ROOT_CLUSTER, parts); e in L.depth ==> !OnWay(v, L, a, e)
  {
    if parts != [] {
      WalkOutside(v, L, a, parts[..|parts| - 1]);
      var d := Walk(TreeOf(v, L), ROOT_CLUSTER, parts[..|parts| - 1]);
      if d in L.depth {
        StaysOutside(v, L, a, d, parts[|parts| - 1]);
      } else {
        NotACluster(v, L);
      }
    }
  }

  lemma NotACluster(v: Volume, L: Layout)
    requires Inv(v, L)
    ensures BOOT_CLUSTER !in L.depth
  {
    assert BOOT_CLUSTER in L.depth ==> DirOk(v, L, BOOT_CLUSTER);
  }

  lemma {:induction false} OddKeyOnWay(v: Volume, L: Layout, d: nat) returns (a: nat)
    requires Inv(v, L) && d in L.depth && !PlainWay(v, L, d)
    ensures a in L.depth && a != ROOT_CLUSTER && !Plain(ListedAs(v, L, a)) && OnWay(v, L, a, d)
    decreases L.depth[d]
  {
    ParentCloser(v, L, d);
    if Plain(ListedAs(v, L, d)) {
      a := OddKeyOnWay(v, L, TreeOf(v, L)[d].parent);
    } else {
      a := d;
    }
  }

  /**
   * The path of a directory leads back to it if and only if every directory on the way was created
   * without extension, under a zero-padded name free of slashes.
   */
  lemma PathRoundTrip(v: Volume, L: Layout, d: nat)
    requires Inv(v, L) && d in L.depth
    ensures WalkPath(TreeOf(v, L), PathOf(v, L, d)) == d <==> PlainWay(v, L, d)
  {
    if PlainWay(v, L, d) {
      PathLeadsBack(v, L, d);
    } else {
      var a := OddKeyOnWay(v, L, d);
      PathHasNoNul(v, L, d);
      PartsClean(PathOf(v, L, d), "");
      var parts := Parts(PathOf(v, L, d), "");
      NotACluster(v, L);
      if parts != [] {
        WalkOutside(v, L, a, parts[1..]);
      }
    }
  }

  // ---- A folder with an extension -------------------------------------------------------------

  /** The request for a new folder in the root. */
  function NewFolder(key: Key): Request { Request(ROOT_CLUSTER, key, 0, []) }

  lemma FirstTaken(fat: seq<nat>)
    requires |fat| > 3 && fat[3] == EMPTY_ENTRY && forall c :: 0 <= c < 3 ==> fat[c] != EMPTY_ENTRY
    ensures FirstFit(fat, 1, 0) == [3]
  {
    assert FirstFit(fat, 1, 3) == [3] + FirstFit(fat, 0, 4);
    assert FirstFit(fat, 1, 2) == FirstFit(fat, 1, 3);
    assert FirstFit(fat, 1, 1) == FirstFit(fat, 1, 2);
  }

  /** A new folder is listed under its key with the first cluster it takes. */
  lemma FolderListed(st: State, req: Request)
    requires Healthy(st) && req.size == 0 && Goes(st, Write(req, 3))
    ensures Healthy(Step(st, Write(req, 3)))
    ensures Holds(Files(Step(st, Write(req, 3))), req.parent, req.key, SubDir(Taken(st.volume, req)[0]))
  {
    WriteTraceLength(st.volume, st.layout, req);
    StepAtomic(st, Write(req, 3));
    TakenFresh(st, req);
  }

  /** The path of directory `d` does not lead back to it. */
  ghost predicate Lost(st: State, d: nat) {
    Healthy(st) && d in st.layout.depth && WalkPath(Files(st), PathOf(st.volume, st.layout, d)) != d
  }

  /** No path leads back to a directory listed under an odd key. */
  lemma OddEntry(v: Volume, L: Layout, d: nat, key: Key)
    requires Inv(v, L) && d in L.depth && key in TreeOf(v, L)[d].entries && TreeOf(v, L)[d].entries[key].SubDir?
    requires !Plain(key)
    ensures var c := TreeOf(v, L)[d].entries[key].cluster;
            c in L.depth && WalkPath(TreeOf(v, L), PathOf(v, L, c)) != c
  {
    EntryLists(v, L, d, key);
    PathRoundTrip(v, L, TreeOf(v, L)[d].entries[key].cluster);
  }

  /** Any folder created under an odd key is lost to its path. */
  lemma OddFolderLost(st: State, req: Request)
    requires Healthy(st) && req.size == 0 && Goes(st, Write(req, 3)) && !Plain(req.key)
    ensures Lost(Step(st, Write(req, 3)), Taken(st.volume, req)[0])
  {
    FolderListed(st, req);
    OddEntry(Step(st, Write(req, 3)).volume, Step(st, Write(req, 3)).layout, req.parent, req.key);
  }

  /** Such a folder can be created: a formatted disk takes one whose key has an extension, in cluster 3. */
  lemma ExtensionLost(disk: seq<Cluster>, key: Key)
    requires |disk| >= CLUSTER_MAP_SIZE && key.ext != ZERO_EXT
    ensures Goes(State(Formatted(disk), FreshLayout()), Write(NewFolder(key), 3)) &&
            Taken(Formatted(disk), NewFolder(key)) == [3]
    ensures Lost(Step(State(Formatted(disk), FreshLayout()), Write(NewFolder(key), 3)), 3)
  {
    FormatHealthy(disk);
    FreshDiskAccepts(disk, NewFolder(key), 3);
    FirstTaken(FreshFat());
    OddFolderLost(State(Formatted(disk), FreshLayout()), NewFolder(key));
  }
}
