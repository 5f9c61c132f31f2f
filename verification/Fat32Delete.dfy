/** `delete`: what it decides, what it puts on disk in which order, and what that does to the file tree. */
module Fat32Delete {
  import opened Fat32Types
  import opened Fat32Layout
  import opened Fat32Unlink
  import opened Fat32Disk
  import opened Fat32Write

  // ---- Clearing the chain ---------------------------------------------------------------------

  ghost predicate Clusters(fat: seq<nat>, chain: seq<nat>) {
    |fat| == CLUSTER_MAP_SIZE && forall k :: 0 <= k < |chain| ==> 3 <= chain[k] < |fat|
  }

  /** The table after the first `j` clusters of the walk have been freed. */
  function ClearFat(fat: seq<nat>, chain: seq<nat>, j: nat): (r: seq<nat>)
    requires j <= |chain| && Clusters(fat, chain)
    ensures |r| == |fat|
    ensures forall c :: 0 <= c < |fat| ==> r[c] == if c in chain[..j] then EMPTY_ENTRY else fat[c]
  {
    if j == 0 then fat
    else
      assert chain[..j] == chain[..j - 1] + [chain[j - 1]];
      ClearFat(fat, chain, j - 1)[chain[j - 1] := EMPTY_ENTRY]
  }

  /** The zeroed data clusters of the first `j` steps of the walk. */
  function ZeroWrites(chain: seq<nat>, j: nat): (r: seq<DiskWrite>)
    requires j <= |chain|
    ensures |r| == j
    ensures forall k :: 0 <= k < j ==> r[k] == DiskWrite(chain[k], Data(ZeroBlock()))
  {
    if j == 0 then [] else ZeroWrites(chain, j - 1) + [DiskWrite(chain[j - 1], Data(ZeroBlock()))]
  }

  // ---- What `delete` decides ------------------------------------------------------------------

  /** No slot from `j` on is in use. */
  function NoLiveFrom(t: seq<DirEntry>, j: nat): (r: bool)
    requires j <= |t|
    ensures r <==> forall i :: j <= i < |t| ==> !t[i].Live()
    decreases |t| - j
  {
    if j == |t| then true else !t[j].Live() && NoLiveFrom(t, j + 1)
  }

  /** The key is not all zero, or no slot that could be taken for it is unused. */
  ghost predicate KeyUsable(v: Volume, d: nat, key: Key) {
    key == ZERO_KEY ==> IsTable(v, d) && AllLive(v.disk[d].entries)
  }

  /** Every slot from index 2 on is in use. */
  ghost predicate AllLive(t: seq<DirEntry>) {
    forall i :: 2 <= i < |t| ==> t[i].Live()
  }

  /** The driver's reliance: as for `write`, and a key that no unused slot carries. */
  ghost predicate DeleteLegal(v: Volume, L: Layout, parent: nat, key: Key) {
    && parent < |v.fat|
    && (v.fat[parent] == END_OF_FILE ==> parent in L.depth && KeyUsable(v, parent, key))
  }

  ghost function DeleteCode(v: Volume, parent: nat, key: Key): int
    requires parent < |v.fat|
    requires v.fat[parent] == END_OF_FILE ==> IsTable(v, parent)
  {
    if v.fat[parent] != END_OF_FILE then 2
    else
      var i := Find(v.disk[parent].entries, key, 2);
      if i == TABLE_SIZE then 1
      else if v.disk[parent].entries[i].IsDirectory() && !EmptyDirectory(v, v.disk[parent].entries[i].cluster) then 2
      else 0
  }

  ghost predicate EmptyDirectory(v: Volume, c: nat) {
    IsTable(v, c) && NoLiveFrom(v.disk[c].entries, 2)
  }

  // ---- What `delete` does ---------------------------------------------------------------------

  ghost function DeleteSlot(v: Volume, parent: nat, key: Key): Slot
    requires IsTable(v, parent)
  {
    Slot(parent, Find(v.disk[parent].entries, key, 2))
  }

  ghost predicate DeleteGoes(v: Volume, L: Layout, parent: nat, key: Key) {
    && Inv(v, L) && DeleteLegal(v, L, parent, key)
    && v.fat[parent] == END_OF_FILE && DirOk(v, L, parent)
    && DeleteCode(v, parent, key) == 0
  }

  /** The writes after the parent entry is cleared: the zeroed clusters, then the table. */
  function Cleanup(fat: seq<nat>, chain: seq<nat>): seq<DiskWrite>
    requires Clusters(fat, chain)
  {
    ZeroWrites(chain, |chain|) + [DiskWrite(FAT_CLUSTER, FatMap(ClearFat(fat, chain, |chain|)))]
  }

  ghost predicate DeleteTraceOk(v: Volume, L: Layout, parent: nat, key: Key) {
    && IsTable(v, parent) && Find(v.disk[parent].entries, key, 2) < TABLE_SIZE
    && DeleteSlot(v, parent, key) in L.chains
    && Clusters(v.fat, L.chains[DeleteSlot(v, parent, key)])
    && L.chains[DeleteSlot(v, parent, key)] != []
  }

  /** The clusters a successful `delete` frees. */
  ghost function Freed(v: Volume, L: Layout, parent: nat, key: Key): seq<nat>
    requires DeleteTraceOk(v, L, parent, key)
  {
    L.chains[DeleteSlot(v, parent, key)]
  }

  /** All cluster writes of a successful `delete`, in order. */
  ghost function DeleteTrace(v: Volume, L: Layout, parent: nat, key: Key): seq<DiskWrite>
    requires DeleteTraceOk(v, L, parent, key)
  {
    [DiskWrite(parent, Table(v.disk[parent].entries[Find(v.disk[parent].entries, key, 2) := ZERO_ENTRY]))]
    + Cleanup(v.fat, Freed(v, L, parent, key))
  }

  ghost function DeleteLayout(v: Volume, L: Layout, parent: nat, key: Key): Layout
    requires DeleteTraceOk(v, L, parent, key)
  {
    var s := DeleteSlot(v, parent, key);
    DropSlot(L, s, EntryAt(v, s).IsDirectory())
  }

  lemma DeleteRemovable(v: Volume, L: Layout, parent: nat, key: Key)
    requires DeleteGoes(v, L, parent, key)
    ensures DeleteTraceOk(v, L, parent, key)
    ensures Removable(v, L, DeleteSlot(v, parent, key)) && EntryAt(v, DeleteSlot(v, parent, key)).key == key
  {
    var s := DeleteSlot(v, parent, key);
    assert EntryAt(v, s).Live();
    assert SlotOk(v, L, s);
    if EntryAt(v, s).IsDirectory() {
      assert DirOk(v, L, L.chains[s][0]);
    }
  }

  lemma CleanupSafe(w: Volume, M: Layout, chain: seq<nat>)
    requires |w.disk| >= |w.fat| && Clusters(w.fat, chain)
    requires forall c :: c in chain ==> c !in M.owner
    ensures SafeWrites(w, M, Cleanup(w.fat, chain))
  {
    assert SafeTable(w, M, ClearFat(w.fat, chain, |chain|));
  }

  /** The writes `ws` leave on disk a healthy volume whose file tree lacks exactly the deleted key. */
  ghost predicate DeletedOnDisk(v: Volume, L: Layout, parent: nat, key: Key, ws: seq<DiskWrite>)
    requires Inv(v, L) && DeleteTraceOk(v, L, parent, key)
  {
    && InRange(v.disk, ws) && Apply(v.disk, ws)[FAT_CLUSTER].FatMap?
    && Inv(Mount(Apply(v.disk, ws)), DeleteLayout(v, L, parent, key))
    && parent in TreeOf(v, L) && key in TreeOf(v, L)[parent].entries
    && TreeOf(Mount(Apply(v.disk, ws)), DeleteLayout(v, L, parent, key)) == UnlinkedTree(TreeOf(v, L), parent, key)
  }

  lemma FirstThenRest(disk: seq<Cluster>, first: DiskWrite, rest: seq<DiskWrite>)
    requires first.cluster < |disk| && InRange(disk, rest)
    ensures InRange(disk, [first] + rest)
    ensures Apply(disk, [first] + rest) == Apply(disk[first.cluster := first.content], rest)
  {
    ApplyOne(disk, [], first);
    assert [] + [first] == [first];
    ApplyConcat(disk, [first], rest);
  }

  /** The first write clears the parent entry; the rest is the cleanup. */
  lemma DeleteTracePrefix(v: Volume, L: Layout, parent: nat, key: Key, k: nat)
    requires DeleteTraceOk(v, L, parent, key) && 1 <= k <= |DeleteTrace(v, L, parent, key)|
    requires |v.disk| >= CLUSTER_MAP_SIZE
    ensures InRange(v.disk, DeleteTrace(v, L, parent, key)[..k])
    ensures InRange(v.disk, Cleanup(v.fat, Freed(v, L, parent, key))[..k - 1])
    ensures Apply(v.disk, DeleteTrace(v, L, parent, key)[..k])
         == Apply(Unlinked(v, DeleteSlot(v, parent, key)).disk, Cleanup(v.fat, Freed(v, L, parent, key))[..k - 1])
  {
    var rest := Cleanup(v.fat, Freed(v, L, parent, key))[..k - 1];
    var first := DeleteTrace(v, L, parent, key)[0];
    assert DeleteTrace(v, L, parent, key)[..k] == [first] + rest;
    FirstThenRest(v.disk, first, rest);
  }

  lemma DeleteUnlinks(v: Volume, L: Layout, parent: nat, key: Key)
    requires DeleteGoes(v, L, parent, key)
    ensures DeleteTraceOk(v, L, parent, key)
    ensures Inv(Unlinked(v, DeleteSlot(v, parent, key)), DeleteLayout(v, L, parent, key))
    ensures parent in TreeOf(v, L) && key in TreeOf(v, L)[parent].entries
    ensures TreeOf(Unlinked(v, DeleteSlot(v, parent, key)), DeleteLayout(v, L, parent, key))
         == UnlinkedTree(TreeOf(v, L), parent, key)
    ensures SafeWrites(Unlinked(v, DeleteSlot(v, parent, key)), DeleteLayout(v, L, parent, key),
                       Cleanup(v.fat, Freed(v, L, parent, key)))
  {
    DeleteRemovable(v, L, parent, key);
    var s := DeleteSlot(v, parent, key);
    Unlink(v, L, s);
    CleanupSafe(Unlinked(v, s), DeleteLayout(v, L, parent, key), Freed(v, L, parent, key));
  }

  /** From the first cluster write of a `delete` on, the disk holds the new file tree. */
  lemma DeletePrefix(v: Volume, L: Layout, parent: nat, key: Key, k: nat)
    requires DeleteGoes(v, L, parent, key) && DeleteTraceOk(v, L, parent, key)
    requires 1 <= k <= |DeleteTrace(v, L, parent, key)|
    ensures DeletedOnDisk(v, L, parent, key, DeleteTrace(v, L, parent, key)[..k])
  {
    DeleteTracePrefix(v, L, parent, key, k);
    DeleteUnlinks(v, L, parent, key);
    SafeMount(Unlinked(v, DeleteSlot(v, parent, key)), DeleteLayout(v, L, parent, key),
              Cleanup(v.fat, Freed(v, L, parent, key))[..k - 1]);
  }

  /** The table on disk stays the old one until the last write, which is the cleared one. */
  lemma DeleteTables(v: Volume, L: Layout, parent: nat, key: Key, k: nat)
    requires Header(v) && DeleteTraceOk(v, L, parent, key) && 2 <= parent
    requires 1 <= k <= |DeleteTrace(v, L, parent, key)|
    ensures InRange(v.disk, DeleteTrace(v, L, parent, key)[..k])
    ensures Apply(v.disk, DeleteTrace(v, L, parent, key)[..k])[FAT_CLUSTER]
         == FatMap(if k < |DeleteTrace(v, L, parent, key)| then v.fat
                   else ClearFat(v.fat, Freed(v, L, parent, key), |Freed(v, L, parent, key)|))
  {
    DeleteTracePrefix(v, L, parent, key, k);
    var chain := Freed(v, L, parent, key);
    var disk := Unlinked(v, DeleteSlot(v, parent, key)).disk;
    var zeros := ZeroWrites(chain, |chain|);
    if k < |DeleteTrace(v, L, parent, key)| {
      assert Cleanup(v.fat, chain)[..k - 1] == zeros[..k - 1];
      ApplyElsewhere(disk, zeros[..k - 1], FAT_CLUSTER);
    } else {
      var last := DiskWrite(FAT_CLUSTER, FatMap(ClearFat(v.fat, chain, |chain|)));
      assert Cleanup(v.fat, chain)[..k - 1] == zeros + [last];
      assert InRange(disk, zeros);
      ApplyOne(disk, zeros, last);
    }
  }

  /**
   * A successful `delete` leaves a healthy volume whose file tree lacks exactly the deleted key,
   * and whose table has exactly the freed chain emptied.
   */
  lemma DeleteEffect(v: Volume, L: Layout, parent: nat, key: Key)
    requires DeleteGoes(v, L, parent, key)
    ensures DeleteTraceOk(v, L, parent, key)
    ensures DeletedOnDisk(v, L, parent, key, DeleteTrace(v, L, parent, key))
    ensures Apply(v.disk, DeleteTrace(v, L, parent, key))[FAT_CLUSTER]
         == FatMap(ClearFat(v.fat, Freed(v, L, parent, key), |Freed(v, L, parent, key)|))
  {
    DeleteRemovable(v, L, parent, key);
    var ws := DeleteTrace(v, L, parent, key);
    assert ws[..|ws|] == ws;
    DeletePrefix(v, L, parent, key, |ws|);
    DeleteTables(v, L, parent, key, |ws|);
  }

  lemma {:induction false} ZeroWritesZero(disk: seq<Cluster>, chain: seq<nat>, n: nat, k: nat)
    requires k < n <= |chain| && InRange(disk, ZeroWrites(chain, n))
    ensures chain[k] < |disk| && Apply(disk, ZeroWrites(chain, n))[chain[k]] == Data(ZeroBlock())
  {
    var zeros := ZeroWrites(chain, n);
    assert zeros[k] == DiskWrite(chain[k], Data(ZeroBlock()));
    ApplyLast(disk, zeros);
    assert zeros[..n - 1] == ZeroWrites(chain, n - 1);
    if k < n - 1 { ZeroWritesZero(disk, chain, n - 1, k); }
  }

  lemma CleanupZero(disk: seq<Cluster>, fat: seq<nat>, chain: seq<nat>, k: nat)
    requires Clusters(fat, chain) && k < |chain| && InRange(disk, Cleanup(fat, chain))
    ensures chain[k] < |disk| && Apply(disk, Cleanup(fat, chain))[chain[k]] == Data(ZeroBlock())
  {
    var zeros, last := ZeroWrites(chain, |chain|), DiskWrite(FAT_CLUSTER, FatMap(ClearFat(fat, chain, |chain|)));
    assert Cleanup(fat, chain)[|chain|] == last;
    assert forall i :: 0 <= i < |zeros| ==> zeros[i] == Cleanup(fat, chain)[i];
    ZeroWritesZero(disk, chain, |chain|, k);
    ApplyOne(disk, zeros, last);
  }

  /** A finished `delete` has overwritten every cluster it freed with zeros. */
  lemma DeleteZeroes(v: Volume, L: Layout, parent: nat, key: Key, k: nat, i: nat)
    requires DeleteGoes(v, L, parent, key) && DeleteTraceOk(v, L, parent, key)
    requires k < |Freed(v, L, parent, key)| && i < 2048
    ensures InRange(v.disk, DeleteTrace(v, L, parent, key)) && Freed(v, L, parent, key)[k] < |v.disk|
    ensures var c := Apply(v.disk, DeleteTrace(v, L, parent, key))[Freed(v, L, parent, key)[k]];
            c.Data? && |c.bytes| == 2048 && c.bytes[i] == 0
  {
    var ws, chain := DeleteTrace(v, L, parent, key), Freed(v, L, parent, key);
    DeleteTracePrefix(v, L, parent, key, |ws|);
    assert ws[..|ws|] == ws && Cleanup(v.fat, chain)[..|ws| - 1] == Cleanup(v.fat, chain);
    CleanupZero(Unlinked(v, DeleteSlot(v, parent, key)).disk, v.fat, chain, k);
  }

  /** A cut-off `delete` leaks exactly the chain it was freeing; a finished one leaks nothing. */
  lemma DeleteLeaks(v: Volume, L: Layout, parent: nat, key: Key, k: nat)
    requires DeleteGoes(v, L, parent, key) && DeleteTraceOk(v, L, parent, key)
    requires 1 <= k <= |DeleteTrace(v, L, parent, key)|
    ensures InRange(v.disk, DeleteTrace(v, L, parent, key)[..k])
    ensures Apply(v.disk, DeleteTrace(v, L, parent, key)[..k])[FAT_CLUSTER].FatMap?
    ensures Leaked(Mount(Apply(v.disk, DeleteTrace(v, L, parent, key)[..k])), DeleteLayout(v, L, parent, key))
         == if k == |DeleteTrace(v, L, parent, key)| then Leaked(v, L)
            else Leaked(v, L) + Elements(Freed(v, L, parent, key))
  {
    DeleteTables(v, L, parent, key, k);
    DeleteRemovable(v, L, parent, key);
    var chain := Freed(v, L, parent, key);
    assert chain[..|chain|] == chain;
    LeakedAfter(v, L, DeleteSlot(v, parent, key));
  }

  lemma LeakedAfter(v: Volume, L: Layout, s: Slot)
    requires Inv(v, L) && s in L.chains
    ensures forall c :: c in L.chains[s] ==> 3 <= c < |v.fat| && v.fat[c] != EMPTY_ENTRY && c in L.owner
  {
    assert SlotOk(v, L, s);
    forall c | c in L.chains[s]
      ensures 3 <= c < |v.fat| && v.fat[c] != EMPTY_ENTRY && c in L.owner
    {
      var i :| 0 <= i < |L.chains[s]| && L.chains[s][i] == c;
      OwnedRange(v, L, c);
    }
  }

  lemma {:induction false} ChainCard(fat: seq<nat>, chain: seq<nat>, n: nat)
    requires IsChain(fat, chain) && n <= |chain|
    ensures |Elements(chain[..n])| == n
  {
    if n == 0 {
      assert Elements(chain[..n]) == {};
    } else {
      ChainCard(fat, chain, n - 1);
      assert Elements(chain[..n]) == Elements(chain[..n - 1]) + {chain[n - 1]};
      forall i | 0 <= i < n - 1 ensures chain[i] != chain[n - 1] {
        if chain[i] == chain[n - 1] { ChainAcyclic(fat, chain, i, n - 1); }
      }
    }
  }

  /** Conservation: a successful `delete` returns exactly its chain to the empty clusters. */
  lemma DeleteConserves(v: Volume, L: Layout, parent: nat, key: Key)
    requires DeleteGoes(v, L, parent, key) && DeleteTraceOk(v, L, parent, key)
    ensures var chain := Freed(v, L, parent, key);
            var fat := ClearFat(v.fat, chain, |chain|);
            && EmptyClusters(fat) == EmptyClusters(v.fat) + Elements(chain)
            && |EmptyClusters(fat)| == |EmptyClusters(v.fat)| + |chain|
  {
    DeleteRemovable(v, L, parent, key);
    var chain := Freed(v, L, parent, key);
    LeakedAfter(v, L, DeleteSlot(v, parent, key));
    ChainCard(v.fat, chain, |chain|);
    assert chain[..|chain|] == chain;
    ClearedEmpties(v.fat, chain);
  }

  lemma ClearedEmpties(fat: seq<nat>, chain: seq<nat>)
    requires Clusters(fat, chain) && forall c :: c in chain ==> c < |fat| && fat[c] != EMPTY_ENTRY
    ensures EmptyClusters(ClearFat(fat, chain, |chain|)) == EmptyClusters(fat) + Elements(chain)
    ensures EmptyClusters(fat) !! Elements(chain)
  {
    assert chain[..|chain|] == chain;
  }
}
