/** What a healthy volume looks like, and the file tree it stands for. */
module Fat32Layout {
  import opened Fat32Types

  /** A place in a directory table, named by the directory's cluster and the index. */
  datatype Slot = Slot(dir: nat, index: nat)

  /**
   * Who owns what: the depth of every live directory, the cluster chain of every live slot at
   * index 2 or above, and the slot that owns each chained cluster. Nothing of this is stored;
   * clusters that are marked in the table and owned by no slot are leaked, which is allowed.
   */
  datatype Layout = Layout(depth: map<nat, nat>, chains: map<Slot, seq<nat>>, owner: map<nat, Slot>)

  // ---- Directory tables ----------------------------------------------------------------------

  /** The first index at or after `i` whose entry has the given name and extension. */
  function Find(t: seq<DirEntry>, key: Key, i: nat): (r: nat)
    requires i <= |t|
    ensures i <= r <= |t|
    ensures r < |t| ==> t[r].key == key
    ensures forall j :: i <= j < r ==> t[j].key != key
    decreases |t| - i
  {
    if i == |t| || t[i].key == key then i else Find(t, key, i + 1)
  }

  ghost predicate KeysDistinct(t: seq<DirEntry>) {
    forall i, j :: 0 <= i < j < |t| && 2 <= j && t[j].Live() ==> t[i].key != t[j].key
  }

  /** A table as the driver keeps it: two header entries, then live entries among zeroed ones. */
  ghost predicate TableOk(t: seq<DirEntry>) {
    && |t| == TABLE_SIZE
    && t[0].Live() && t[0].IsDirectory() && t[0].key.ext == ZERO_EXT && t[0].filesize == 0
    && t[1].Live() && t[1].IsDirectory() && t[1].key.ext == ZERO_EXT && t[1].filesize == 0
    && (forall i :: 2 <= i < |t| && !t[i].Live() ==> t[i] == ZERO_ENTRY)
    && (forall i :: 2 <= i < |t| && t[i].Live() ==> t[i].key != ZERO_KEY)
    && KeysDistinct(t)
  }

  lemma FindLive(t: seq<DirEntry>, i: nat)
    requires TableOk(t) && 2 <= i < |t| && t[i].Live()
    ensures Find(t, t[i].key, 0) == Find(t, t[i].key, 2) == i
  {
  }

  function LiveKeys(t: seq<DirEntry>): set<Key> {
    set i | 2 <= i < |t| && t[i].Live() :: t[i].key
  }

  // ---- The structural invariant --------------------------------------------------------------

  ghost predicate IsTable(v: Volume, d: nat) {
    d < |v.disk| && v.disk[d].Table? && |v.disk[d].entries| == TABLE_SIZE
  }

  /** Boot signature, reserved entries, and the memory table as a copy of cluster 1. */
  ghost predicate Header(v: Volume) {
    && |v.fat| == CLUSTER_MAP_SIZE <= |v.disk|
    && v.disk[BOOT_CLUSTER] == Boot(true)
    && v.disk[FAT_CLUSTER] == FatMap(v.fat)
    && v.fat[0] == CLUSTER_0_VALUE
    && v.fat[1] == END_OF_FILE
    && v.fat[2] == END_OF_FILE
  }

  /** The successor of `chain[i]`: the next cluster, or the end mark. */
  function Next(chain: seq<nat>, i: nat): nat
    requires i < |chain|
  {
    if i + 1 < |chain| then chain[i + 1] else END_OF_FILE
  }

  /** `chain` is what following the table from its first cluster visits, up to the end mark. */
  ghost predicate IsChain(fat: seq<nat>, chain: seq<nat>) {
    && chain != []
    && |fat| == CLUSTER_MAP_SIZE
    && (forall i :: 0 <= i < |chain| ==> 3 <= chain[i] < CLUSTER_MAP_SIZE)
    && (forall i {:trigger Next(chain, i)} :: 0 <= i < |chain| ==> fat[chain[i]] == Next(chain, i))
  }

  /** The table of a subdirectory: slot 0 names it and slot 1 names its parent. */
  ghost predicate ChildOk(v: Volume, L: Layout, s: Slot, c: nat)
    requires IsTable(v, s.dir) && s.index < TABLE_SIZE
  {
    && s.dir in L.depth && c in L.depth && L.depth[c] == L.depth[s.dir] + 1
    && IsTable(v, c)
    && v.disk[c].entries[0].key.name == StoredName(v.disk[s.dir].entries[s.index].key.name)
    && v.disk[c].entries[0].cluster == c
    && v.disk[c].entries[1].key.name == v.disk[s.dir].entries[0].key.name
    && v.disk[c].entries[1].cluster == s.dir
  }

  ghost predicate FileOk(v: Volume, e: DirEntry, chain: seq<nat>) {
    && e.attribute == 0
    && e.filesize > 0
    && |chain| == ClusterCount(e.filesize)
    && (forall i :: 0 <= i < |chain| ==> chain[i] < |v.disk| && v.disk[chain[i]].Data?)
  }

  /** Every cluster of `s`'s chain is owned by `s`. */
  ghost predicate Owns(L: Layout, s: Slot, chain: seq<nat>) {
    forall i :: 0 <= i < |chain| ==> chain[i] in L.owner && L.owner[chain[i]] == s
  }

  ghost predicate EntryOk(v: Volume, L: Layout, s: Slot, e: DirEntry, chain: seq<nat>)
    requires IsTable(v, s.dir) && s.index < TABLE_SIZE
  {
    && e.Live()
    && IsChain(v.fat, chain)
    && chain[0] == e.cluster
    && Owns(L, s, chain)
    && if e.IsDirectory() then e.filesize == 0 && |chain| == 1 && ChildOk(v, L, s, chain[0])
       else FileOk(v, e, chain)
  }

  ghost predicate SlotOk(v: Volume, L: Layout, s: Slot)
    requires s in L.chains
  {
    && s.dir in L.depth
    && IsTable(v, s.dir)
    && 2 <= s.index < TABLE_SIZE
    && EntryOk(v, L, s, v.disk[s.dir].entries[s.index], L.chains[s])
  }

  ghost predicate DirOk(v: Volume, L: Layout, d: nat)
    requires d in L.depth
  {
    && 2 <= d < |v.fat|
    && v.fat[d] == END_OF_FILE
    && IsTable(v, d)
    && TableOk(v.disk[d].entries)
    && (forall i :: 2 <= i < TABLE_SIZE && v.disk[d].entries[i].Live() ==> Slot(d, i) in L.chains)
    && (d != ROOT_CLUSTER ==>
          && d in L.owner && L.owner[d] in L.chains
          && L.chains[L.owner[d]] == [d]
          && IsTable(v, L.owner[d].dir) && L.owner[d].index < TABLE_SIZE
          && v.disk[L.owner[d].dir].entries[L.owner[d].index].IsDirectory())
  }

  ghost predicate RootOk(v: Volume, L: Layout) {
    && ROOT_CLUSTER in L.depth && L.depth[ROOT_CLUSTER] == 0
    && IsTable(v, ROOT_CLUSTER)
    && v.disk[ROOT_CLUSTER].entries[0].key.name == ROOT_NAME
    && v.disk[ROOT_CLUSTER].entries[0].cluster == 0
    && v.disk[ROOT_CLUSTER].entries[1].key.name == ROOT_NAME
    && v.disk[ROOT_CLUSTER].entries[1].cluster == ROOT_CLUSTER
  }

  ghost predicate OwnerOk(L: Layout) {
    forall c :: c in L.owner ==> L.owner[c] in L.chains && c in L.chains[L.owner[c]]
  }

  /** The volume is healthy, with ownership as `L` says. */
  ghost predicate Inv(v: Volume, L: Layout) {
    && Header(v)
    && RootOk(v, L)
    && OwnerOk(L)
    && (forall d {:trigger DirOk(v, L, d)} :: d in L.depth ==> DirOk(v, L, d))
    && (forall s {:trigger SlotOk(v, L, s)} :: s in L.chains ==> SlotOk(v, L, s))
  }

  // ---- The file tree -------------------------------------------------------------------------

  datatype Node = File(size: nat, blocks: seq<Block>) | SubDir(cluster: nat)

  /** A directory: its own name, its parent, and what it holds by name and extension. */
  datatype Directory = Directory(name: Name, parent: nat, entries: map<Key, Node>)

  /** The file tree: its directories by cluster number. */
  type Tree = map<nat, Directory>

  ghost function BlockAt(v: Volume, c: nat): Block {
    if c < |v.disk| && v.disk[c].Data? then v.disk[c].bytes else ZeroBlock()
  }

  ghost function Blocks(v: Volume, chain: seq<nat>): seq<Block> {
    seq(|chain|, i requires 0 <= i < |chain| => BlockAt(v, chain[i]))
  }

  ghost function NodeAt(v: Volume, L: Layout, s: Slot): Node
    requires IsTable(v, s.dir) && s.index < TABLE_SIZE && s in L.chains
  {
    var e := v.disk[s.dir].entries[s.index];
    if e.IsDirectory() then SubDir(e.cluster) else File(e.filesize, Blocks(v, L.chains[s]))
  }

  ghost function DirectoryAt(v: Volume, L: Layout, d: nat): Directory
    requires d in L.depth && DirOk(v, L, d)
  {
    Directory(v.disk[d].entries[0].key.name, v.disk[d].entries[1].cluster, EntriesAt(v, L, d))
  }

  ghost function EntriesAt(v: Volume, L: Layout, d: nat): map<Key, Node>
    requires d in L.depth && DirOk(v, L, d)
  {
    map k | k in LiveKeys(v.disk[d].entries) :: NodeOf(v, L, d, k)
  }

  ghost function NodeOf(v: Volume, L: Layout, d: nat, k: Key): Node
    requires d in L.depth && DirOk(v, L, d) && k in LiveKeys(v.disk[d].entries)
  {
    LiveKeySlot(v, L, d, k);
    NodeAt(v, L, Slot(d, Find(v.disk[d].entries, k, 2)))
  }

  ghost function TreeOf(v: Volume, L: Layout): Tree
    requires Inv(v, L)
  {
    map d | d in L.depth :: DirectoryAt(v, L, d)
  }

  /** The clusters the table still counts as empty. */
  function EmptyClusters(fat: seq<nat>): set<nat> {
    set c | 0 <= c < |fat| && fat[c] == EMPTY_ENTRY
  }

  /** Clusters marked in the table that no directory leads to. */
  ghost function Leaked(v: Volume, L: Layout): set<nat> {
    set c | 3 <= c < |v.fat| && v.fat[c] != EMPTY_ENTRY && c !in L.owner
  }

  // ---- Consequences --------------------------------------------------------------------------

  /** Live chains are acyclic and pairwise disjoint. */
  lemma ChainsDisjoint(v: Volume, L: Layout, s: Slot, t: Slot, i: nat, j: nat)
    requires Inv(v, L) && s in L.chains && t in L.chains
    requires i < |L.chains[s]| && j < |L.chains[t]|
    requires L.chains[s][i] == L.chains[t][j]
    ensures s == t && i == j
  {
    assert SlotOk(v, L, s) && SlotOk(v, L, t);
    ChainAcyclic(v.fat, L.chains[s], i, j);
  }

  lemma {:induction false} ChainAcyclic(fat: seq<nat>, chain: seq<nat>, i: nat, j: nat)
    requires IsChain(fat, chain) && i < |chain| && j < |chain| && chain[i] == chain[j]
    ensures i == j
    decreases |chain| - i
  {
    assert fat[chain[i]] == Next(chain, i) && fat[chain[j]] == Next(chain, j);
    if i + 1 < |chain| && j + 1 < |chain| {
      ChainAcyclic(fat, chain, i + 1, j + 1);
    }
  }

  /** A chain is determined by its first cluster and the table. */
  lemma ChainUnique(fat: seq<nat>, a: seq<nat>, b: seq<nat>)
    requires IsChain(fat, a) && IsChain(fat, b) && a[0] == b[0]
    ensures a == b
  {
    forall i | 0 <= i < |a| ensures i < |b| && a[i] == b[i] { ChainAgrees(fat, a, b, i); }
    ChainAgrees(fat, a, b, |a| - 1);
    ChainAgrees(fat, b, a, |b| - 1);
  }

  lemma {:induction false} ChainAgrees(fat: seq<nat>, a: seq<nat>, b: seq<nat>, i: nat)
    requires IsChain(fat, a) && IsChain(fat, b) && a[0] == b[0] && i < |a|
    ensures i < |b| && a[i] == b[i]
  {
    if i > 0 {
      ChainAgrees(fat, a, b, i - 1);
      assert fat[a[i - 1]] == Next(a, i - 1) && fat[b[i - 1]] == Next(b, i - 1);
    }
  }

  /** Following the parent links from any live directory climbs to the root. */
  lemma ParentCloser(v: Volume, L: Layout, d: nat)
    requires Inv(v, L) && d in L.depth && d != ROOT_CLUSTER
    ensures TreeOf(v, L)[d].parent in L.depth
    ensures L.depth[TreeOf(v, L)[d].parent] + 1 == L.depth[d]
  {
    assert DirOk(v, L, d);
    var s := L.owner[d];
    assert SlotOk(v, L, s);
  }

  /** Every live entry is either a directory, of size 0, or a file, of a positive size. */
  lemma EntrySizes(v: Volume, L: Layout, d: nat, i: nat)
    requires Inv(v, L) && d in L.depth && i < 64
    ensures IsTable(v, d)
    ensures var e := v.disk[d].entries[i];
            e.userAttribute == 0xAA ==> (e.attribute == 0x10 && e.filesize == 0) || (e.attribute == 0 && e.filesize > 0)
  {
    assert DirOk(v, L, d);
    if i >= 2 && v.disk[d].entries[i].Live() { assert SlotOk(v, L, Slot(d, i)); }
  }

  /** Two readings of the same volume agree on which directories are live. */
  lemma {:induction false} LiveDirsDetermined(v: Volume, L: Layout, M: Layout, d: nat)
    requires Inv(v, L) && Inv(v, M) && d in L.depth
    ensures d in M.depth
    decreases L.depth[d]
  {
    assert DirOk(v, L, d);
    if d != ROOT_CLUSTER {
      var s := L.owner[d];
      assert SlotOk(v, L, s);
      LiveDirsDetermined(v, L, M, s.dir);
      assert DirOk(v, M, s.dir);
      assert SlotOk(v, M, s);
      assert M.chains[s][0] == d;
    }
  }

  /** The file tree depends on the volume alone, not on how its ownership is written down. */
  lemma TreeDetermined(v: Volume, L: Layout, M: Layout)
    requires Inv(v, L) && Inv(v, M)
    ensures TreeOf(v, L) == TreeOf(v, M)
  {
    forall d | d in L.depth ensures d in M.depth { LiveDirsDetermined(v, L, M, d); }
    forall d | d in M.depth ensures d in L.depth { LiveDirsDetermined(v, M, L, d); }
    forall d | d in L.depth ensures DirectoryAt(v, L, d) == DirectoryAt(v, M, d) { DirectoryDetermined(v, L, M, d); }
  }

  lemma DirectoryDetermined(v: Volume, L: Layout, M: Layout, d: nat)
    requires Inv(v, L) && Inv(v, M) && d in L.depth && d in M.depth
    ensures DirectoryAt(v, L, d) == DirectoryAt(v, M, d)
  {
    assert DirOk(v, L, d) && DirOk(v, M, d);
    forall k | k in LiveKeys(v.disk[d].entries)
      ensures NodeOf(v, L, d, k) == NodeOf(v, M, d, k)
    {
      NodeDetermined(v, L, M, d, k);
    }
  }

  lemma NodeDetermined(v: Volume, L: Layout, M: Layout, d: nat, k: Key)
    requires Inv(v, L) && Inv(v, M) && d in L.depth && d in M.depth
    requires DirOk(v, L, d) && DirOk(v, M, d) && k in LiveKeys(v.disk[d].entries)
    ensures NodeOf(v, L, d, k) == NodeOf(v, M, d, k)
  {
    LiveKeySlot(v, L, d, k);
    LiveKeySlot(v, M, d, k);
    var s := Slot(d, Find(v.disk[d].entries, k, 2));
    assert SlotOk(v, L, s) && SlotOk(v, M, s);
    ChainUnique(v.fat, L.chains[s], M.chains[s]);
  }

  /** A key of a directory is found at a live slot. */
  lemma LiveKeySlot(v: Volume, L: Layout, d: nat, k: Key)
    requires d in L.depth && DirOk(v, L, d) && k in LiveKeys(v.disk[d].entries)
    ensures var i := Find(v.disk[d].entries, k, 2);
            2 <= i < TABLE_SIZE && v.disk[d].entries[i].Live() && v.disk[d].entries[i].key == k
            && Slot(d, i) in L.chains
  {
    var t := v.disk[d].entries;
    var i :| 2 <= i < |t| && t[i].Live() && t[i].key == k;
    FindLive(t, i);
  }
}
