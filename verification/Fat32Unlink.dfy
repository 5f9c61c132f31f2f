/** Clearing a parent entry: the inverse of linking. */
module Fat32Unlink {
  import opened Fat32Types
  import opened Fat32Layout
  import opened Fat32Frame

  ghost function DropSlot(L: Layout, s: Slot, isDir: bool): Layout
    requires s in L.chains && L.chains[s] != []
  {
    Layout(
      if isDir then L.depth - {L.chains[s][0]} else L.depth,
      L.chains - {s},
      L.owner - (set c | c in L.chains[s]))
  }

  ghost function EntryAt(v: Volume, s: Slot): DirEntry
    requires IsTable(v, s.dir) && s.index < TABLE_SIZE
  {
    v.disk[s.dir].entries[s.index]
  }

  /** The slot holds a file, or a directory whose slots from 2 on are all unused. */
  ghost predicate Removable(v: Volume, L: Layout, s: Slot) {
    && s in L.chains && L.chains[s] != [] && SlotOk(v, L, s)
    && (EntryAt(v, s).IsDirectory() ==>
          FreshTable(v.disk[L.chains[s][0]].entries))
  }

  ghost function Unlinked(v: Volume, s: Slot): Volume
    requires IsTable(v, s.dir) && s.index < TABLE_SIZE
  {
    PutEntry(v, s, ZERO_ENTRY)
  }

  lemma UnlinkTableOk(t: seq<DirEntry>, i: nat)
    requires TableOk(t) && 2 <= i < TABLE_SIZE && t[i].Live()
    ensures TableOk(t[i := ZERO_ENTRY])
    ensures forall e :: e in t[i := ZERO_ENTRY] ==> e.key != t[i].key
  {
  }

  /** No other live slot sits in a directory that is about to be removed. */
  lemma OthersOutside(v: Volume, L: Layout, s: Slot, t: Slot)
    requires Removable(v, L, s) && EntryAt(v, s).IsDirectory()
    requires t in L.chains && SlotOk(v, L, t)
    ensures t.dir != L.chains[s][0]
  {
    assert ChildOk(v, L, s, L.chains[s][0]);
    assert EntryAt(v, t).Live();
  }

  lemma UnlinkSlot(v: Volume, L: Layout, s: Slot, t: Slot)
    requires Removable(v, L, s) && t in L.chains && t != s && SlotOk(v, L, t)
    ensures SlotOk(Unlinked(v, s), DropSlot(L, s, EntryAt(v, s).IsDirectory()), t)
  {
    var w, M := Unlinked(v, s), DropSlot(L, s, EntryAt(v, s).IsDirectory());
    if EntryAt(v, s).IsDirectory() {
      OthersOutside(v, L, s, t);
    }
    assert L.chains[s][0] != L.chains[t][0];
    assert Owns(M, t, L.chains[t]);
    assert w.disk[t.dir].entries[t.index] == v.disk[t.dir].entries[t.index];
  }

  lemma UnlinkDir(v: Volume, L: Layout, s: Slot, d: nat)
    requires Inv(v, L) && Removable(v, L, s)
    requires d in DropSlot(L, s, EntryAt(v, s).IsDirectory()).depth
    ensures DirOk(Unlinked(v, s), DropSlot(L, s, EntryAt(v, s).IsDirectory()), d)
  {
    var w, M := Unlinked(v, s), DropSlot(L, s, EntryAt(v, s).IsDirectory());
    assert DirOk(v, L, d);
    if d == s.dir {
      UnlinkTableOk(v.disk[d].entries, s.index);
    }
    if d != ROOT_CLUSTER {
      var u := L.owner[d];
      assert SlotOk(v, L, u);
      assert u != s;
      UnlinkSlot(v, L, s, u);
      assert d !in L.chains[s];
    }
  }

  lemma UnlinkFrame(v: Volume, L: Layout, s: Slot)
    requires Inv(v, L) && Removable(v, L, s)
    ensures Header(Unlinked(v, s))
    ensures RootOk(Unlinked(v, s), DropSlot(L, s, EntryAt(v, s).IsDirectory()))
    ensures OwnerOk(DropSlot(L, s, EntryAt(v, s).IsDirectory()))
  {
    assert DirOk(v, L, s.dir);
    var M := DropSlot(L, s, EntryAt(v, s).IsDirectory());
    forall c | c in M.owner
      ensures M.owner[c] in M.chains && c in M.chains[M.owner[c]]
    {
      assert L.owner[c] in L.chains && c in L.chains[L.owner[c]];
    }
  }

  lemma UnlinkInv(v: Volume, L: Layout, s: Slot)
    requires Inv(v, L) && Removable(v, L, s)
    ensures Inv(Unlinked(v, s), DropSlot(L, s, EntryAt(v, s).IsDirectory()))
  {
    var w, M := Unlinked(v, s), DropSlot(L, s, EntryAt(v, s).IsDirectory());
    UnlinkFrame(v, L, s);
    forall t | t in M.chains ensures SlotOk(w, M, t) { assert SlotOk(v, L, t); UnlinkSlot(v, L, s, t); }
    forall d | d in M.depth ensures DirOk(w, M, d) { UnlinkDir(v, L, s, d); }
  }

  // ---- Unlinking undoes linking ---------------------------------------------------------------

  /** The file tree without the entry `key` of directory `d`, nor the directory it named. */
  function UnlinkedTree(tree: Tree, d: nat, key: Key): Tree
    requires d in tree && key in tree[d].entries
  {
    match tree[d].entries[key]
    case File(_, _) => RemoveNode(tree, d, key)
    case SubDir(c) => RemoveNode(tree, d, key) - {c}
  }

  lemma RemoveAdded(tree: Tree, d: nat, e: DirEntry, blocks: seq<Block>)
    requires d in tree && e.key !in tree[d].entries
    requires e.IsDirectory() ==> e.cluster !in tree
    ensures var added := LinkedTree(tree, d, e, blocks);
            d in added && e.key in added[d].entries && UnlinkedTree(added, d, e.key) == tree
  {
    var added := LinkedTree(tree, d, e, blocks);
    assert added[d].entries - {e.key} == tree[d].entries;
    assert UnlinkedTree(added, d, e.key).Keys == tree.Keys;
  }

  lemma RelinkLayout(v: Volume, L: Layout, s: Slot)
    requires Inv(v, L) && Removable(v, L, s)
    ensures var e := EntryAt(v, s);
            var M := DropSlot(L, s, e.IsDirectory());
            s.dir in M.depth && AddSlot(M, s, L.chains[s], e.IsDirectory()) == L
  {
    var e := EntryAt(v, s);
    var M := DropSlot(L, s, e.IsDirectory());
    if e.IsDirectory() {
      OthersOutside(v, L, s, s);
    }
    var N := AddSlot(M, s, L.chains[s], e.IsDirectory());
    MapRestored(L.owner, L.chains[s], s);
    assert N.depth == L.depth;
  }

  lemma MapRestored(owner: map<nat, Slot>, chain: seq<nat>, s: Slot)
    requires forall c :: c in chain ==> c in owner && owner[c] == s
    ensures (owner - (set c | c in chain)) + (map c | c in chain :: s) == owner
  {
  }

  lemma RelinkReady(v: Volume, L: Layout, s: Slot)
    requires Inv(v, L) && Removable(v, L, s)
    ensures var e := EntryAt(v, s);
            && ReadyToLink(Unlinked(v, s), DropSlot(L, s, e.IsDirectory()), s, e, L.chains[s])
            && PutEntry(Unlinked(v, s), s, e) == v
  {
    assert DirOk(v, L, s.dir);
    var e, w, t := EntryAt(v, s), Unlinked(v, s), v.disk[s.dir].entries;
    UnlinkTableOk(t, s.index);
    RelinkLayout(v, L, s);
    assert w.disk[s.dir].entries[s.index := e] == t;
    assert PutEntry(w, s, e).disk == v.disk;
    if e.IsDirectory() {
      OthersOutside(v, L, s, s);
    }
  }

  /** Clearing the entry of a file or of an empty directory removes exactly that from the file tree. */
  lemma Unlink(v: Volume, L: Layout, s: Slot)
    requires Inv(v, L) && Removable(v, L, s)
    ensures Inv(Unlinked(v, s), DropSlot(L, s, EntryAt(v, s).IsDirectory()))
    ensures s.dir in TreeOf(v, L) && EntryAt(v, s).key in TreeOf(v, L)[s.dir].entries
    ensures TreeOf(Unlinked(v, s), DropSlot(L, s, EntryAt(v, s).IsDirectory()))
         == UnlinkedTree(TreeOf(v, L), s.dir, EntryAt(v, s).key)
  {
    var e := EntryAt(v, s);
    var w, M, chain := Unlinked(v, s), DropSlot(L, s, e.IsDirectory()), L.chains[s];
    UnlinkInv(v, L, s);
    RelinkReady(v, L, s);
    RelinkLayout(v, L, s);
    Link(w, M, s, e, chain);
    ReadyKeyFresh(w, M, s, e, chain);
    RemoveAdded(TreeOf(w, M), s.dir, e, Blocks(w, chain));
  }

  lemma ReadyKeyFresh(v: Volume, L: Layout, s: Slot, e: DirEntry, chain: seq<nat>)
    requires Inv(v, L) && ReadyToLink(v, L, s, e, chain)
    ensures e.key !in TreeOf(v, L)[s.dir].entries
    ensures e.IsDirectory() ==> e.cluster !in TreeOf(v, L)
  {
    assert DirOk(v, L, s.dir);
    ReadyUnclaimed(v, L, s, e, chain);
  }
}
