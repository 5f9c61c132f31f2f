/** Two ways the driver moves between healthy volumes: touch nothing owned, or add a slot. */
module Fat32Frame {
  import opened Fat32Types
  import opened Fat32Layout

  // ---- Changes outside everything owned ------------------------------------------------------

  ghost predicate SameAt(v: Volume, w: Volume, c: nat) {
    c < |v.fat| && c < |w.fat| && c < |v.disk| && c < |w.disk| && w.fat[c] == v.fat[c] && w.disk[c] == v.disk[c]
  }

  /** `w` agrees with `v` on every live directory and every owned cluster. */
  ghost predicate SameOwned(v: Volume, w: Volume, L: Layout) {
    && (forall d {:trigger SameAt(v, w, d)} :: d in L.depth ==> SameAt(v, w, d))
    && (forall c {:trigger SameAt(v, w, c)} :: c in L.owner ==> SameAt(v, w, c))
  }

  lemma FrameChain(v: Volume, w: Volume, L: Layout, s: Slot, chain: seq<nat>)
    requires SameOwned(v, w, L) && Owns(L, s, chain) && IsChain(v.fat, chain) && |w.fat| == CLUSTER_MAP_SIZE
    ensures IsChain(w.fat, chain)
    ensures Blocks(w, chain) == Blocks(v, chain)
    ensures forall i :: 0 <= i < |chain| ==> SameAt(v, w, chain[i])
  {
    forall i | 0 <= i < |chain|
      ensures SameAt(v, w, chain[i])
    {
      assert chain[i] in L.owner;
    }
  }

  lemma FrameSlot(v: Volume, w: Volume, L: Layout, s: Slot)
    requires Inv(v, L) && Header(w) && SameOwned(v, w, L) && s in L.chains
    ensures SlotOk(v, L, s) && SlotOk(w, L, s)
    ensures NodeAt(w, L, s) == NodeAt(v, L, s)
  {
    assert SlotOk(v, L, s);
    assert SameAt(v, w, s.dir);
    FrameChain(v, w, L, s, L.chains[s]);
  }

  lemma FrameDir(v: Volume, w: Volume, L: Layout, d: nat)
    requires Inv(v, L) && Header(w) && SameOwned(v, w, L) && d in L.depth
    ensures DirOk(v, L, d) && DirOk(w, L, d)
    ensures DirectoryAt(w, L, d) == DirectoryAt(v, L, d)
  {
    assert DirOk(v, L, d);
    assert SameAt(v, w, d);
    if d != ROOT_CLUSTER {
      assert SlotOk(v, L, L.owner[d]);
      assert SameAt(v, w, L.owner[d].dir);
    }
    forall k | k in LiveKeys(v.disk[d].entries)
      ensures NodeOf(w, L, d, k) == NodeOf(v, L, d, k)
    {
      LiveKeySlot(v, L, d, k);
      FrameSlot(v, w, L, Slot(d, Find(v.disk[d].entries, k, 2)));
    }
    EntriesSame(v, L, w, L, d);
  }

  /** A change that keeps every owned cluster keeps the volume healthy and the file tree the same. */
  lemma Frame(v: Volume, w: Volume, L: Layout)
    requires Inv(v, L) && Header(w) && SameOwned(v, w, L)
    ensures Inv(w, L)
    ensures TreeOf(w, L) == TreeOf(v, L)
  {
    assert SameAt(v, w, ROOT_CLUSTER);
    forall s | s in L.chains ensures SlotOk(w, L, s) { FrameSlot(v, w, L, s); }
    forall d | d in L.depth
      ensures DirOk(w, L, d) && DirectoryAt(w, L, d) == DirectoryAt(v, L, d)
    {
      FrameDir(v, w, L, d);
    }
  }

  // ---- Comparing the entries of one directory in two volumes ----------------------------------

  ghost predicate NodesAgree(v: Volume, L: Layout, w: Volume, M: Layout, d: nat, keys: set<Key>)
    requires d in L.depth && DirOk(v, L, d) && d in M.depth && DirOk(w, M, d)
    requires keys <= LiveKeys(v.disk[d].entries) && keys <= LiveKeys(w.disk[d].entries)
  {
    forall k :: k in keys ==> NodeOf(w, M, d, k) == NodeOf(v, L, d, k)
  }

  lemma EntriesSame(v: Volume, L: Layout, w: Volume, M: Layout, d: nat)
    requires d in L.depth && DirOk(v, L, d) && d in M.depth && DirOk(w, M, d)
    requires LiveKeys(w.disk[d].entries) == LiveKeys(v.disk[d].entries)
    requires NodesAgree(v, L, w, M, d, LiveKeys(v.disk[d].entries))
    ensures EntriesAt(w, M, d) == EntriesAt(v, L, d)
  {
  }

  lemma EntriesAdded(v: Volume, L: Layout, w: Volume, M: Layout, d: nat, key: Key)
    requires d in L.depth && DirOk(v, L, d) && d in M.depth && DirOk(w, M, d)
    requires LiveKeys(w.disk[d].entries) == LiveKeys(v.disk[d].entries) + {key}
    requires key !in LiveKeys(v.disk[d].entries)
    requires NodesAgree(v, L, w, M, d, LiveKeys(v.disk[d].entries))
    ensures EntriesAt(w, M, d) == EntriesAt(v, L, d)[key := NodeOf(w, M, d, key)]
    ensures EntriesAt(v, L, d) == EntriesAt(w, M, d) - {key}
  {
    var small, large := EntriesAt(v, L, d), EntriesAt(w, M, d);
    forall k | k in small ensures large[k] == small[k] { assert k in LiveKeys(v.disk[d].entries); }
    MapAdded(small, large, key);
  }

  lemma MapAdded<K, V>(small: map<K, V>, large: map<K, V>, key: K)
    requires large.Keys == small.Keys + {key} && key !in small
    requires forall k :: k in small ==> large[k] == small[k]
    ensures large == small[key := large[key]] && small == large - {key}
  {
  }

  lemma TreeIs(v: Volume, L: Layout, tree: Tree)
    requires Inv(v, L) && L.depth.Keys == tree.Keys
    requires forall d {:trigger DirOk(v, L, d)} :: d in L.depth && DirOk(v, L, d) ==> DirectoryAt(v, L, d) == tree[d]
    ensures TreeOf(v, L) == tree
  {
    forall d | d in L.depth ensures TreeOf(v, L)[d] == tree[d] { assert DirOk(v, L, d); }
  }

  // ---- Adding and dropping an entry of the file tree ------------------------------------------

  function AddNode(tree: Tree, d: nat, key: Key, node: Node): Tree
    requires d in tree
  {
    tree[d := tree[d].(entries := tree[d].entries[key := node])]
  }

  function AddDirectory(tree: Tree, d: nat, key: Key, c: nat): Tree
    requires d in tree
  {
    AddNode(tree, d, key, SubDir(c))[c := Directory(StoredName(key.name), d, map[])]
  }

  function RemoveNode(tree: Tree, d: nat, key: Key): Tree
    requires d in tree
  {
    tree[d := tree[d].(entries := tree[d].entries - {key})]
  }

  // ---- Writing an entry into a free slot ------------------------------------------------------

  /** The table after an entry is stored in slot `s`. */
  ghost function PutEntry(v: Volume, s: Slot, e: DirEntry): Volume
    requires IsTable(v, s.dir) && s.index < TABLE_SIZE
  {
    v.(disk := v.disk[s.dir := Table(v.disk[s.dir].entries[s.index := e])])
  }

  ghost function AddSlot(L: Layout, s: Slot, chain: seq<nat>, isDir: bool): Layout
    requires s.dir in L.depth && chain != []
  {
    Layout(
      if isDir then L.depth[chain[0] := L.depth[s.dir] + 1] else L.depth,
      L.chains[s := chain],
      L.owner + map c | c in chain :: s)
  }

  /** A fresh subdirectory table: two header entries and nothing else. */
  ghost predicate FreshTable(t: seq<DirEntry>) {
    TableOk(t) && forall i :: 2 <= i < |t| ==> !t[i].Live()
  }

  /** Slot `s` is unused, and `e` is a live entry whose key no slot of that table carries. */
  ghost predicate ReadyParent(v: Volume, L: Layout, s: Slot, e: DirEntry) {
    && s.dir in L.depth && IsTable(v, s.dir) && 2 <= s.index < TABLE_SIZE
    && !v.disk[s.dir].entries[s.index].Live()
    && e.Live() && e.key != ZERO_KEY
    && (forall i :: 0 <= i < TABLE_SIZE ==> v.disk[s.dir].entries[i].key != e.key)
  }

  /** Cluster `c` holds the fresh table of the subdirectory that `e` is about to name. */
  ghost predicate ReadyChild(v: Volume, s: Slot, e: DirEntry, c: nat)
    requires IsTable(v, s.dir)
  {
    && IsTable(v, c)
    && FreshTable(v.disk[c].entries)
    && v.disk[c].entries[0].key.name == StoredName(e.key.name)
    && v.disk[c].entries[0].cluster == c
    && v.disk[c].entries[1].key.name == v.disk[s.dir].entries[0].key.name
    && v.disk[c].entries[1].cluster == s.dir
  }

  /** `chain` holds what `e` is about to name, and nobody owns it yet. */
  ghost predicate ReadyChain(v: Volume, L: Layout, s: Slot, e: DirEntry, chain: seq<nat>)
    requires IsTable(v, s.dir)
  {
    && IsChain(v.fat, chain) && chain[0] == e.cluster
    && (forall i :: 0 <= i < |chain| ==> chain[i] !in L.owner)
    && if e.IsDirectory() then e.filesize == 0 && |chain| == 1 && ReadyChild(v, s, e, chain[0])
       else FileOk(v, e, chain)
  }

  /** Everything that must be in place before the parent entry for `chain` is written. */
  ghost predicate ReadyToLink(v: Volume, L: Layout, s: Slot, e: DirEntry, chain: seq<nat>) {
    ReadyParent(v, L, s, e) && ReadyChain(v, L, s, e, chain)
  }

  /** Every live directory but the root is owned by a slot. */
  lemma DirsOwned(v: Volume, L: Layout)
    requires Inv(v, L)
    ensures forall d :: d in L.depth ==> d == ROOT_CLUSTER || d in L.owner
  {
    forall d | d in L.depth
      ensures d == ROOT_CLUSTER || d in L.owner
    {
      assert DirOk(v, L, d);
    }
  }

  lemma LinkTableOk(t: seq<DirEntry>, i: nat, e: DirEntry)
    requires TableOk(t) && 2 <= i < TABLE_SIZE && !t[i].Live() && e.Live() && e.key != ZERO_KEY
    requires forall j :: 0 <= j < TABLE_SIZE ==> t[j].key != e.key
    ensures TableOk(t[i := e])
    ensures LiveKeys(t[i := e]) == LiveKeys(t) + {e.key}
    ensures e.key !in LiveKeys(t)
    ensures Find(t[i := e], e.key, 2) == i
    ensures forall k :: k in LiveKeys(t) ==> Find(t[i := e], k, 2) == Find(t, k, 2)
  {
    var u := t[i := e];
    forall k | k in LiveKeys(t)
      ensures k in LiveKeys(u) && Find(u, k, 2) == Find(t, k, 2)
    {
      var j :| 2 <= j < |t| && t[j].Live() && t[j].key == k;
      assert u[j] == t[j];
      FindLive(t, j);
      FindLive(u, j);
    }
    assert u[i].key in LiveKeys(u);
    FindLive(u, i);
    forall k | k in LiveKeys(u)
      ensures k in LiveKeys(t) + {e.key}
    {
      var j :| 2 <= j < |u| && u[j].Live() && u[j].key == k;
      assert j != i ==> u[j] == t[j];
    }
  }

  /** Storing a directory entry changes no file contents. */
  lemma PutEntryBlocks(v: Volume, s: Slot, e: DirEntry, chain: seq<nat>)
    requires IsTable(v, s.dir) && s.index < TABLE_SIZE
    ensures Blocks(PutEntry(v, s, e), chain) == Blocks(v, chain)
  {
  }

  /** The clusters of `chain` have no owner and are no live directories. */
  ghost predicate Unclaimed(L: Layout, chain: seq<nat>) {
    forall i :: 0 <= i < |chain| ==> chain[i] !in L.owner && chain[i] !in L.depth
  }

  lemma ReadyUnclaimed(v: Volume, L: Layout, s: Slot, e: DirEntry, chain: seq<nat>)
    requires Inv(v, L) && ReadyToLink(v, L, s, e, chain)
    ensures Unclaimed(L, chain) && s !in L.chains
  {
    DirsOwned(v, L);
    assert s in L.chains ==> SlotOk(v, L, s);
  }

  lemma LinkNewSlot(v: Volume, L: Layout, s: Slot, e: DirEntry, chain: seq<nat>)
    requires ReadyToLink(v, L, s, e, chain) && Unclaimed(L, chain)
    ensures SlotOk(PutEntry(v, s, e), AddSlot(L, s, chain, e.IsDirectory()), s)
  {
    var w, M := PutEntry(v, s, e), AddSlot(L, s, chain, e.IsDirectory());
    assert s.dir !in chain;
    assert Owns(M, s, chain);
    if e.IsDirectory() {
      assert w.disk[chain[0]] == v.disk[chain[0]];
      assert ChildOk(w, M, s, chain[0]);
    } else {
      assert FileOk(w, e, chain);
    }
    assert EntryOk(w, M, s, e, chain);
  }

  lemma LinkOldSlot(v: Volume, L: Layout, s: Slot, e: DirEntry, chain: seq<nat>, isDir: bool, t: Slot)
    requires IsTable(v, s.dir) && s.dir in L.depth && 2 <= s.index < TABLE_SIZE
    requires chain != [] && Unclaimed(L, chain)
    requires t in L.chains && SlotOk(v, L, t) && s != t
    ensures SlotOk(PutEntry(v, s, e), AddSlot(L, s, chain, isDir), t)
    ensures NodeAt(PutEntry(v, s, e), AddSlot(L, s, chain, isDir), t) == NodeAt(v, L, t)
  {
    var w, M := PutEntry(v, s, e), AddSlot(L, s, chain, isDir);
    PutEntryBlocks(v, s, e, L.chains[t]);
    assert Owns(M, t, L.chains[t]);
    assert w.disk[t.dir].entries[t.index] == v.disk[t.dir].entries[t.index];
  }

  lemma LinkOtherDir(v: Volume, L: Layout, s: Slot, e: DirEntry, chain: seq<nat>, d: nat)
    requires Inv(v, L) && ReadyToLink(v, L, s, e, chain) && d in L.depth
    ensures DirOk(v, L, d)
    ensures d != s.dir ==> DirOk(PutEntry(v, s, e), AddSlot(L, s, chain, e.IsDirectory()), d)
    ensures d != ROOT_CLUSTER ==>
      && d !in chain && L.owner[d] != s
      && v.disk[L.owner[d].dir].entries[L.owner[d].index].IsDirectory()
  {
    assert DirOk(v, L, d);
    if d != ROOT_CLUSTER {
      assert SlotOk(v, L, L.owner[d]);
    }
  }

  lemma LinkParentDir(v: Volume, L: Layout, s: Slot, e: DirEntry, chain: seq<nat>)
    requires Inv(v, L) && ReadyToLink(v, L, s, e, chain)
    ensures DirOk(v, L, s.dir) && DirOk(PutEntry(v, s, e), AddSlot(L, s, chain, e.IsDirectory()), s.dir)
  {
    LinkOtherDir(v, L, s, e, chain, s.dir);
    LinkTableOk(v.disk[s.dir].entries, s.index, e);
    var t := v.disk[s.dir].entries;
    var w, M := PutEntry(v, s, e), AddSlot(L, s, chain, e.IsDirectory());
    assert w.disk[s.dir].entries == t[s.index := e];
    forall i | 2 <= i < TABLE_SIZE && t[s.index := e][i].Live()
      ensures Slot(s.dir, i) in M.chains
    {
      assert i != s.index ==> t[i].Live();
    }
  }

  lemma LinkChildDir(v: Volume, L: Layout, s: Slot, e: DirEntry, chain: seq<nat>)
    requires ReadyToLink(v, L, s, e, chain) && Unclaimed(L, chain) && e.IsDirectory()
    ensures DirOk(PutEntry(v, s, e), AddSlot(L, s, chain, true), chain[0])
    ensures DirectoryAt(PutEntry(v, s, e), AddSlot(L, s, chain, true), chain[0])
         == Directory(StoredName(e.key.name), s.dir, map[])
  {
    assert chain == [chain[0]] && v.fat[chain[0]] == Next(chain, 0);
    var w := PutEntry(v, s, e);
    assert w.disk[chain[0]] == v.disk[chain[0]];
    assert LiveKeys(w.disk[chain[0]].entries) == {};
  }

  lemma LinkNode(v: Volume, L: Layout, s: Slot, e: DirEntry, chain: seq<nat>, d: nat, k: Key)
    requires Inv(v, L) && ReadyToLink(v, L, s, e, chain) && d in L.depth && DirOk(v, L, d)
    requires DirOk(PutEntry(v, s, e), AddSlot(L, s, chain, e.IsDirectory()), d)
    requires k in LiveKeys(v.disk[d].entries) && k in LiveKeys(PutEntry(v, s, e).disk[d].entries)
    requires Find(PutEntry(v, s, e).disk[d].entries, k, 2) == Find(v.disk[d].entries, k, 2)
    ensures NodeOf(PutEntry(v, s, e), AddSlot(L, s, chain, e.IsDirectory()), d, k) == NodeOf(v, L, d, k)
  {
    LiveKeySlot(v, L, d, k);
    var t := Slot(d, Find(v.disk[d].entries, k, 2));
    assert SlotOk(v, L, t);
    ReadyUnclaimed(v, L, s, e, chain);
    LinkOldSlot(v, L, s, e, chain, e.IsDirectory(), t);
  }

  lemma LinkOtherEntries(v: Volume, L: Layout, s: Slot, e: DirEntry, chain: seq<nat>, d: nat)
    requires Inv(v, L) && ReadyToLink(v, L, s, e, chain) && d in L.depth && d != s.dir
    ensures DirOk(v, L, d) && DirOk(PutEntry(v, s, e), AddSlot(L, s, chain, e.IsDirectory()), d)
    ensures DirectoryAt(PutEntry(v, s, e), AddSlot(L, s, chain, e.IsDirectory()), d) == DirectoryAt(v, L, d)
  {
    LinkOtherDir(v, L, s, e, chain, d);
    var w, M := PutEntry(v, s, e), AddSlot(L, s, chain, e.IsDirectory());
    assert w.disk[d] == v.disk[d];
    forall k | k in LiveKeys(v.disk[d].entries)
      ensures NodeOf(w, M, d, k) == NodeOf(v, L, d, k)
    {
      LinkNode(v, L, s, e, chain, d, k);
    }
    EntriesSame(v, L, w, M, d);
  }

  function NewNode(e: DirEntry, blocks: seq<Block>): Node {
    if e.IsDirectory() then SubDir(e.cluster) else File(e.filesize, blocks)
  }

  lemma LinkParentEntries(v: Volume, L: Layout, s: Slot, e: DirEntry, chain: seq<nat>)
    requires Inv(v, L) && ReadyToLink(v, L, s, e, chain)
    ensures DirOk(v, L, s.dir) && DirOk(PutEntry(v, s, e), AddSlot(L, s, chain, e.IsDirectory()), s.dir)
    ensures EntriesAt(PutEntry(v, s, e), AddSlot(L, s, chain, e.IsDirectory()), s.dir)
         == EntriesAt(v, L, s.dir)[e.key := NewNode(e, Blocks(v, chain))]
  {
    LinkParentDir(v, L, s, e, chain);
    var w, M := PutEntry(v, s, e), AddSlot(L, s, chain, e.IsDirectory());
    var t := v.disk[s.dir].entries;
    LinkTableOk(t, s.index, e);
    PutEntryBlocks(v, s, e, chain);
    forall k | k in LiveKeys(t)
      ensures NodeOf(w, M, s.dir, k) == NodeOf(v, L, s.dir, k)
    {
      LinkNode(v, L, s, e, chain, s.dir, k);
    }
    EntriesAdded(v, L, w, M, s.dir, e.key);
  }

  lemma LinkInvSlot(v: Volume, L: Layout, s: Slot, e: DirEntry, chain: seq<nat>, t: Slot)
    requires Inv(v, L) && ReadyToLink(v, L, s, e, chain)
    requires t in AddSlot(L, s, chain, e.IsDirectory()).chains
    ensures SlotOk(PutEntry(v, s, e), AddSlot(L, s, chain, e.IsDirectory()), t)
  {
    ReadyUnclaimed(v, L, s, e, chain);
    if t == s {
      LinkNewSlot(v, L, s, e, chain);
    } else {
      assert SlotOk(v, L, t);
      LinkOldSlot(v, L, s, e, chain, e.IsDirectory(), t);
    }
  }

  lemma LinkInvDir(v: Volume, L: Layout, s: Slot, e: DirEntry, chain: seq<nat>, d: nat)
    requires Inv(v, L) && ReadyToLink(v, L, s, e, chain)
    requires d in AddSlot(L, s, chain, e.IsDirectory()).depth
    ensures DirOk(PutEntry(v, s, e), AddSlot(L, s, chain, e.IsDirectory()), d)
  {
    if d == s.dir {
      LinkParentDir(v, L, s, e, chain);
    } else if d in L.depth {
      LinkOtherDir(v, L, s, e, chain, d);
    } else {
      ReadyUnclaimed(v, L, s, e, chain);
      LinkChildDir(v, L, s, e, chain);
    }
  }

  lemma LinkFrame(v: Volume, L: Layout, s: Slot, e: DirEntry, chain: seq<nat>)
    requires Inv(v, L) && ReadyToLink(v, L, s, e, chain)
    ensures Header(PutEntry(v, s, e))
    ensures RootOk(PutEntry(v, s, e), AddSlot(L, s, chain, e.IsDirectory()))
    ensures OwnerOk(AddSlot(L, s, chain, e.IsDirectory()))
  {
    assert DirOk(v, L, s.dir);
    ReadyUnclaimed(v, L, s, e, chain);
  }

  lemma LinkInv(v: Volume, L: Layout, s: Slot, e: DirEntry, chain: seq<nat>)
    requires Inv(v, L) && ReadyToLink(v, L, s, e, chain)
    ensures Inv(PutEntry(v, s, e), AddSlot(L, s, chain, e.IsDirectory()))
  {
    var w, M := PutEntry(v, s, e), AddSlot(L, s, chain, e.IsDirectory());
    LinkFrame(v, L, s, e, chain);
    forall t | t in M.chains ensures SlotOk(w, M, t) { LinkInvSlot(v, L, s, e, chain, t); }
    forall d | d in M.depth ensures DirOk(w, M, d) { LinkInvDir(v, L, s, e, chain, d); }
  }

  /** The file tree with the entry `e`, holding `blocks` if it is a file, added to directory `d`. */
  function LinkedTree(tree: Tree, d: nat, e: DirEntry, blocks: seq<Block>): Tree
    requires d in tree
  {
    if e.IsDirectory() then AddDirectory(tree, d, e.key, e.cluster)
    else AddNode(tree, d, e.key, File(e.filesize, blocks))
  }

  lemma LinkDirectory(v: Volume, L: Layout, s: Slot, e: DirEntry, chain: seq<nat>, d: nat)
    requires Inv(v, L) && ReadyToLink(v, L, s, e, chain)
    requires d in AddSlot(L, s, chain, e.IsDirectory()).depth
    requires DirOk(PutEntry(v, s, e), AddSlot(L, s, chain, e.IsDirectory()), d)
    ensures d in LinkedTree(TreeOf(v, L), s.dir, e, Blocks(v, chain))
    ensures DirectoryAt(PutEntry(v, s, e), AddSlot(L, s, chain, e.IsDirectory()), d)
         == LinkedTree(TreeOf(v, L), s.dir, e, Blocks(v, chain))[d]
  {
    ReadyUnclaimed(v, L, s, e, chain);
    if d == s.dir {
      LinkParentEntries(v, L, s, e, chain);
    } else if d in L.depth {
      LinkOtherEntries(v, L, s, e, chain, d);
    } else {
      LinkChildDir(v, L, s, e, chain);
    }
  }

  /** Once a chain is in place, writing its parent entry adds exactly that one file or directory. */
  lemma Link(v: Volume, L: Layout, s: Slot, e: DirEntry, chain: seq<nat>)
    requires Inv(v, L) && ReadyToLink(v, L, s, e, chain)
    ensures Inv(PutEntry(v, s, e), AddSlot(L, s, chain, e.IsDirectory()))
    ensures TreeOf(PutEntry(v, s, e), AddSlot(L, s, chain, e.IsDirectory()))
         == LinkedTree(TreeOf(v, L), s.dir, e, Blocks(v, chain))
  {
    LinkInv(v, L, s, e, chain);
    LinkKeys(v, L, s, e, chain);
    var w, M := PutEntry(v, s, e), AddSlot(L, s, chain, e.IsDirectory());
    forall d | d in M.depth && DirOk(w, M, d)
      ensures DirectoryAt(w, M, d) == LinkedTree(TreeOf(v, L), s.dir, e, Blocks(v, chain))[d]
    {
      LinkDirectory(v, L, s, e, chain, d);
    }
    TreeIs(w, M, LinkedTree(TreeOf(v, L), s.dir, e, Blocks(v, chain)));
  }

  lemma LinkKeys(v: Volume, L: Layout, s: Slot, e: DirEntry, chain: seq<nat>)
    requires Inv(v, L) && ReadyToLink(v, L, s, e, chain)
    ensures LinkedTree(TreeOf(v, L), s.dir, e, Blocks(v, chain)).Keys ==
            AddSlot(L, s, chain, e.IsDirectory()).depth.Keys
  {
  }
}
