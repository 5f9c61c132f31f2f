/** The return codes, said in terms of the file tree and the number of empty clusters. */
module Fat32Codes {
  import opened Fat32Types
  import opened Fat32Layout
  import opened Fat32Frame
  import opened Fat32Write
  import opened Fat32Delete

  const DIRECTORY_CAPACITY: nat := TABLE_SIZE - 2

  /** The keys of slots 0 and 1: the directory's own name and its parent's, without extension. */
  predicate HeaderKey(tree: Tree, d: nat, key: Key)
    requires d in tree
  {
    || key == Key(tree[d].name, ZERO_EXT)
    || (tree[d].parent in tree && key == Key(tree[tree[d].parent].name, ZERO_EXT))
  }

  /** Some slot carries the key: an entry, a header slot, or an unused slot when the key is zero. */
  predicate KeyTaken(tree: Tree, d: nat, key: Key)
    requires d in tree
  {
    || key in tree[d].entries
    || HeaderKey(tree, d, key)
    || (key == ZERO_KEY && |tree[d].entries| < DIRECTORY_CAPACITY)
  }

  /** `write`: 2 for a bad parent, 1 for a taken key, -1 for no room, 0 exactly otherwise. */
  function TreeWriteCode(tree: Tree, empty: nat, req: Request): int {
    if req.parent !in tree then 2
    else if KeyTaken(tree, req.parent, req.key) then 1
    else if |tree[req.parent].entries| >= DIRECTORY_CAPACITY || empty < Required(req) then -1
    else 0
  }

  /** `delete`: 2 for a bad parent or a directory that holds something, 1 for a missing key. */
  function TreeDeleteCode(tree: Tree, parent: nat, key: Key): int {
    if parent !in tree then 2
    else if key !in tree[parent].entries then 1
    else match tree[parent].entries[key]
      case File(_, _) => 0
      case SubDir(c) => if c in tree && tree[c].entries != map[] then 2 else 0
  }

  /** `read`: 2 for a bad parent or a missing key, 1 for a directory, -1 for a short buffer. */
  function TreeReadCode(tree: Tree, parent: nat, key: Key, bufferSize: nat): int {
    if parent !in tree then 2
    else if HeaderKey(tree, parent, key) then 1
    else if key !in tree[parent].entries then 2
    else match tree[parent].entries[key]
      case SubDir(_) => 1
      case File(_, blocks) => if bufferSize / CLUSTER_SIZE < |blocks| then -1 else 0
  }

  // ---- The slots behind the file tree ---------------------------------------------------------

  lemma HeaderNames(v: Volume, L: Layout, d: nat)
    requires Inv(v, L) && d in L.depth
    ensures DirOk(v, L, d)
    ensures v.disk[d].entries[0].key == Key(TreeOf(v, L)[d].name, ZERO_EXT)
    ensures TreeOf(v, L)[d].parent in TreeOf(v, L)
    ensures v.disk[d].entries[1].key == Key(TreeOf(v, L)[TreeOf(v, L)[d].parent].name, ZERO_EXT)
  {
    assert DirOk(v, L, d);
    if d != ROOT_CLUSTER {
      assert SlotOk(v, L, L.owner[d]);
      assert DirOk(v, L, L.owner[d].dir);
    }
  }

  /** A key is found from slot 2 on exactly if it names an entry, given that no unused slot carries it. */
  lemma FoundIsEntry(v: Volume, L: Layout, d: nat, key: Key)
    requires Inv(v, L) && d in L.depth && DirOk(v, L, d)
    ensures key in TreeOf(v, L)[d].entries <==> key in LiveKeys(v.disk[d].entries)
    ensures KeyUsable(v, d, key) ==>
            (key in LiveKeys(v.disk[d].entries) <==> Find(v.disk[d].entries, key, 2) < TABLE_SIZE)
  {
    var t := v.disk[d].entries;
    var i := Find(t, key, 2);
    if KeyUsable(v, d, key) && i < TABLE_SIZE {
      assert t[i].Live();
    }
    if key in LiveKeys(t) {
      LiveKeySlot(v, L, d, key);
    }
  }

  function KeysUpTo(t: seq<DirEntry>, n: nat): set<Key>
    requires n <= |t|
  {
    set i | 2 <= i < n && t[i].Live() :: t[i].key
  }

  ghost predicate LiveUpTo(t: seq<DirEntry>, n: nat)
    requires n <= |t|
  {
    forall i :: 2 <= i < n ==> t[i].Live()
  }

  lemma KeysUpToNext(t: seq<DirEntry>, n: nat)
    requires KeysDistinct(t) && 2 <= n < |t|
    ensures |KeysUpTo(t, n + 1)| == |KeysUpTo(t, n)| + if t[n].Live() then 1 else 0
  {
    if t[n].Live() {
      assert KeysUpTo(t, n + 1) == KeysUpTo(t, n) + {t[n].key};
      assert t[n].key !in KeysUpTo(t, n);
    } else {
      assert KeysUpTo(t, n + 1) == KeysUpTo(t, n);
    }
  }

  lemma KeysUpToCard(t: seq<DirEntry>, n: nat)
    requires KeysDistinct(t) && 2 <= n <= |t|
    ensures |KeysUpTo(t, n)| <= n - 2
    ensures |KeysUpTo(t, n)| == n - 2 <==> LiveUpTo(t, n)
  {
    assert KeysUpTo(t, 2) == {};
    for i := 2 to n
      invariant |KeysUpTo(t, i)| <= i - 2
      invariant |KeysUpTo(t, i)| == i - 2 <==> LiveUpTo(t, i)
    {
      KeysUpToNext(t, i);
    }
  }

  /** A directory has a free slot exactly while it holds fewer than 62 entries. */
  lemma FullDirectory(v: Volume, L: Layout, d: nat)
    requires Inv(v, L) && d in L.depth && DirOk(v, L, d)
    ensures |TreeOf(v, L)[d].entries| <= DIRECTORY_CAPACITY
    ensures FreeSlot(v.disk[d].entries, 1) == 0 <==> |TreeOf(v, L)[d].entries| == DIRECTORY_CAPACITY
    ensures (exists i :: 2 <= i < TABLE_SIZE && !v.disk[d].entries[i].Live()) <==>
            |TreeOf(v, L)[d].entries| < DIRECTORY_CAPACITY
  {
    var t := v.disk[d].entries;
    KeysUpToCard(t, |t|);
    assert KeysUpTo(t, |t|) == LiveKeys(t) == TreeOf(v, L)[d].entries.Keys;
    assert |TreeOf(v, L)[d].entries| == |LiveKeys(t)|;
  }

  /** Some slot of the table carries the key exactly if the file tree says it is taken. */
  lemma TakenIsFound(v: Volume, L: Layout, d: nat, key: Key)
    requires Inv(v, L) && d in L.depth && DirOk(v, L, d)
    ensures KeyTaken(TreeOf(v, L), d, key) <==> Find(v.disk[d].entries, key, 0) < TABLE_SIZE
  {
    HeaderNames(v, L, d);
    FoundIsEntry(v, L, d, key);
    FullDirectory(v, L, d);
    FindFrom(v.disk[d].entries, key);
    var t := v.disk[d].entries;
    if key == ZERO_KEY && Find(t, key, 2) < TABLE_SIZE {
      assert !t[Find(t, key, 2)].Live();
    }
    if key == ZERO_KEY && |TreeOf(v, L)[d].entries| < DIRECTORY_CAPACITY {
      var i :| 2 <= i < TABLE_SIZE && !t[i].Live();
      assert t[i] == ZERO_ENTRY;
    }
  }

  lemma FindFrom(t: seq<DirEntry>, key: Key)
    requires |t| == TABLE_SIZE
    ensures Find(t, key, 0) == if t[0].key == key then 0 else if t[1].key == key then 1 else Find(t, key, 2)
  {
  }

  /**
   * The zero key can be asked for in a full directory only. In any other it is taken for an unused
   * slot, whose cluster number is 0, and the table entry of cluster 0 leads out of the table.
   */
  lemma ZeroKeyStrays(v: Volume, L: Layout, d: nat)
    requires Inv(v, L) && d in L.depth
    ensures KeyUsable(v, d, ZERO_KEY) <==> |TreeOf(v, L)[d].entries| == DIRECTORY_CAPACITY
    ensures !KeyUsable(v, d, ZERO_KEY) ==>
              && IsTable(v, d) && Find(v.disk[d].entries, ZERO_KEY, 2) < TABLE_SIZE
              && v.disk[d].entries[Find(v.disk[d].entries, ZERO_KEY, 2)] == ZERO_ENTRY
              && v.fat[ZERO_ENTRY.cluster] >= |v.fat| && v.fat[ZERO_ENTRY.cluster] != END_OF_FILE
  {
    assert DirOk(v, L, d);
    FullDirectory(v, L, d);
    var t := v.disk[d].entries;
    if i :| 2 <= i < TABLE_SIZE && !t[i].Live() {
      assert t[i] == ZERO_ENTRY;
      assert t[Find(t, ZERO_KEY, 2)] == ZERO_ENTRY;
    }
  }

  // ---- The codes ------------------------------------------------------------------------------

  /** The exact outcome of `write`: it succeeds if and only if the key is free and there is room. */
  lemma WriteCodeMeaning(v: Volume, L: Layout, req: Request)
    requires Inv(v, L) && WriteLegal(v, L, req)
    ensures v.fat[req.parent] == END_OF_FILE <==> req.parent in TreeOf(v, L)
    ensures req.parent in L.depth ==> DirOk(v, L, req.parent)
    ensures WriteCode(v, req) == TreeWriteCode(TreeOf(v, L), |EmptyClusters(v.fat)|, req)
  {
    if req.parent in L.depth {
      assert DirOk(v, L, req.parent);
      TakenIsFound(v, L, req.parent, req.key);
      FullDirectory(v, L, req.parent);
      FirstFitCount(v.fat, Required(req));
    }
  }

  lemma EmptyDirectoryMeaning(v: Volume, L: Layout, c: nat)
    requires Inv(v, L) && c in L.depth
    ensures EmptyDirectory(v, c) <==> TreeOf(v, L)[c].entries == map[]
  {
    assert DirOk(v, L, c);
    var t := v.disk[c].entries;
    assert TreeOf(v, L)[c].entries.Keys == LiveKeys(t);
    if i :| 2 <= i < |t| && t[i].Live() {
      assert t[i].key in LiveKeys(t);
    } else {
      assert LiveKeys(t) == {};
    }
  }

  /** The exact outcome of `delete`: it succeeds if and only if the key names a file or an empty directory. */
  lemma DeleteCodeMeaning(v: Volume, L: Layout, parent: nat, key: Key)
    requires Inv(v, L) && DeleteLegal(v, L, parent, key)
    ensures v.fat[parent] == END_OF_FILE <==> parent in TreeOf(v, L)
    ensures parent in L.depth ==> DirOk(v, L, parent)
    ensures DeleteCode(v, parent, key) == TreeDeleteCode(TreeOf(v, L), parent, key)
  {
    if parent in L.depth {
      assert DirOk(v, L, parent);
      FoundIsEntry(v, L, parent, key);
      if key in TreeOf(v, L)[parent].entries {
        EntryMeaning(v, L, parent, key);
        var e := v.disk[parent].entries[Find(v.disk[parent].entries, key, 2)];
        if e.IsDirectory() {
          EmptyDirectoryMeaning(v, L, e.cluster);
        }
      }
    }
  }

  /** What an entry of the file tree says about the slot that carries it. */
  lemma EntryMeaning(v: Volume, L: Layout, d: nat, key: Key)
    requires Inv(v, L) && d in L.depth && DirOk(v, L, d) && key in TreeOf(v, L)[d].entries
    ensures Find(v.disk[d].entries, key, 2) < TABLE_SIZE && Slot(d, Find(v.disk[d].entries, key, 2)) in L.chains
    ensures var e := v.disk[d].entries[Find(v.disk[d].entries, key, 2)];
            var chain := L.chains[Slot(d, Find(v.disk[d].entries, key, 2))];
            && e.Live() && IsChain(v.fat, chain) && chain[0] == e.cluster
            && TreeOf(v, L)[d].entries[key] == NewNode(e, Blocks(v, chain))
            && (e.IsDirectory() ==> e.cluster in L.depth)
            && (!e.IsDirectory() ==> FileOk(v, e, chain))
  {
    LiveKeySlot(v, L, d, key);
    assert SlotOk(v, L, Slot(d, Find(v.disk[d].entries, key, 2)));
  }

  // ---- Reading --------------------------------------------------------------------------------

  /** What `read` relies on: as `delete`, except that a header slot may carry the zero key. */
  ghost predicate ReadLegal(v: Volume, L: Layout, parent: nat, key: Key) {
    && parent < |v.fat|
    && (v.fat[parent] == END_OF_FILE ==>
          && parent in L.depth && IsTable(v, parent)
          && (KeyUsable(v, parent, key) || Find(v.disk[parent].entries, key, 0) < 2))
  }

  ghost function ReadCode(v: Volume, parent: nat, key: Key, bufferSize: nat): int
    requires parent < |v.fat|
    requires v.fat[parent] == END_OF_FILE ==> IsTable(v, parent)
  {
    if v.fat[parent] != END_OF_FILE then 2
    else
      var i := Find(v.disk[parent].entries, key, 0);
      if i == TABLE_SIZE then 2
      else if v.disk[parent].entries[i].IsDirectory() then 1
      else if bufferSize / CLUSTER_SIZE < ClusterCount(v.disk[parent].entries[i].filesize) then -1
      else 0
  }

  /** The exact outcome of `read`. */
  lemma ReadCodeMeaning(v: Volume, L: Layout, parent: nat, key: Key, bufferSize: nat)
    requires Inv(v, L) && ReadLegal(v, L, parent, key)
    ensures parent in L.depth ==> DirOk(v, L, parent)
    ensures ReadCode(v, parent, key, bufferSize) == TreeReadCode(TreeOf(v, L), parent, key, bufferSize)
  {
    if parent in L.depth {
      assert DirOk(v, L, parent);
      HeaderNames(v, L, parent);
      FoundIsEntry(v, L, parent, key);
      FindFrom(v.disk[parent].entries, key);
      if key in TreeOf(v, L)[parent].entries {
        EntryMeaning(v, L, parent, key);
      }
    }
  }

  /** The first slot at or after `i` that is in use and carries the key. */
  function FindUsed(t: seq<DirEntry>, key: Key, i: nat): (r: nat)
    requires i <= |t|
    ensures i <= r <= |t|
    ensures r < |t| ==> t[r].Live() && t[r].key == key
    ensures forall j :: i <= j < r ==> !(t[j].Live() && t[j].key == key)
    decreases |t| - i
  {
    if i == |t| || (t[i].Live() && t[i].key == key) then i else FindUsed(t, key, i + 1)
  }

  /** The cluster `read_directory` copies for a key that names a directory. */
  function Resolve(tree: Tree, d: nat, key: Key): nat
    requires d in tree
  {
    if key == Key(tree[d].name, ZERO_EXT) then
      if d == ROOT_CLUSTER then BOOT_CLUSTER else d
    else if HeaderKey(tree, d, key) then tree[d].parent
    else if key in tree[d].entries && tree[d].entries[key].SubDir? then tree[d].entries[key].cluster
    else 0
  }

  /** `read_directory`: 2 for a missing key, 1 for a file, -1 for a buffer below one entry. */
  function TreeReadDirCode(tree: Tree, d: nat, key: Key, bufferSize: nat): int
    requires d in tree
  {
    if !HeaderKey(tree, d, key) && key !in tree[d].entries then 2
    else if !HeaderKey(tree, d, key) && tree[d].entries[key].File? then 1
    else if bufferSize < 32 then -1
    else 0
  }

  /** The exact outcome of `read_directory`. */
  lemma ReadDirKind(v: Volume, L: Layout, d: nat, key: Key)
    requires Inv(v, L) && d in L.depth
    ensures DirOk(v, L, d)
    ensures var i := FindUsed(v.disk[d].entries, key, 0);
            && (i == TABLE_SIZE <==> !HeaderKey(TreeOf(v, L), d, key) && key !in TreeOf(v, L)[d].entries)
            && (i < TABLE_SIZE && !v.disk[d].entries[i].IsDirectory() <==>
                  && !HeaderKey(TreeOf(v, L), d, key)
                  && key in TreeOf(v, L)[d].entries && TreeOf(v, L)[d].entries[key].File?)
  {
    HeaderNames(v, L, d);
    UsedFrom(v, L, d, key);
    if key in TreeOf(v, L)[d].entries {
      EntryMeaning(v, L, d, key);
    }
  }

  /** The cluster that `read_directory` copies. */
  lemma ReadDirCluster(v: Volume, L: Layout, d: nat, key: Key)
    requires Inv(v, L) && d in L.depth && DirOk(v, L, d)
    ensures var i := FindUsed(v.disk[d].entries, key, 0);
            i < TABLE_SIZE && v.disk[d].entries[i].IsDirectory() ==>
              v.disk[d].entries[i].cluster == Resolve(TreeOf(v, L), d, key) < |v.disk|
  {
    HeaderNames(v, L, d);
    UsedFrom(v, L, d, key);
    HeaderClusters(v, L, d);
    if key in TreeOf(v, L)[d].entries {
      EntryMeaning(v, L, d, key);
      var e := v.disk[d].entries[Find(v.disk[d].entries, key, 2)];
      if e.IsDirectory() { assert DirOk(v, L, e.cluster); }
    }
  }

  /** The exact outcome of `read_directory`, and the cluster it copies. */
  lemma ReadDirMeaning(v: Volume, L: Layout, d: nat, key: Key)
    requires Inv(v, L) && d in L.depth
    ensures DirOk(v, L, d)
    ensures var i := FindUsed(v.disk[d].entries, key, 0);
            && (i == TABLE_SIZE <==> !HeaderKey(TreeOf(v, L), d, key) && key !in TreeOf(v, L)[d].entries)
            && (i < TABLE_SIZE && !v.disk[d].entries[i].IsDirectory() <==>
                  && !HeaderKey(TreeOf(v, L), d, key)
                  && key in TreeOf(v, L)[d].entries && TreeOf(v, L)[d].entries[key].File?)
            && (i < TABLE_SIZE && v.disk[d].entries[i].IsDirectory() ==>
                  v.disk[d].entries[i].cluster == Resolve(TreeOf(v, L), d, key) < |v.disk|)
  {
    ReadDirKind(v, L, d, key);
    ReadDirCluster(v, L, d, key);
  }

  lemma HeaderClusters(v: Volume, L: Layout, d: nat)
    requires Inv(v, L) && d in L.depth && DirOk(v, L, d)
    ensures v.disk[d].entries[0].cluster == (if d == ROOT_CLUSTER then BOOT_CLUSTER else d)
    ensures v.disk[d].entries[1].cluster == TreeOf(v, L)[d].parent < |v.disk|
  {
    if d != ROOT_CLUSTER {
      assert SlotOk(v, L, L.owner[d]);
    }
  }

  lemma UsedFrom(v: Volume, L: Layout, d: nat, key: Key)
    requires Inv(v, L) && d in L.depth && DirOk(v, L, d)
    ensures var t := v.disk[d].entries;
            FindUsed(t, key, 0) == if t[0].key == key then 0 else if t[1].key == key then 1
                                   else if key in TreeOf(v, L)[d].entries then Find(t, key, 2) else TABLE_SIZE
  {
    var t := v.disk[d].entries;
    assert key in TreeOf(v, L)[d].entries <==> key in LiveKeys(t);
    if key in LiveKeys(t) {
      LiveKeySlot(v, L, d, key);
    }
    var i := FindUsed(t, key, 0);
    if 2 <= i < TABLE_SIZE {
      assert t[i].key in LiveKeys(t);
      FindLive(t, i);
    }
  }
}
