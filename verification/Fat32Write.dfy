/** `write`: what it decides, what it puts on disk in which order, and what that does to the file tree. */
module Fat32Write {
  import opened Numbers
  import opened Fat32Types
  import opened Fat32Layout
  import opened Fat32Frame
  import opened Fat32Disk

  // ---- First fit ------------------------------------------------------------------------------

  ghost predicate Ascending(s: seq<nat>) {
    forall i, j :: 0 <= i < j < |s| ==> s[i] < s[j]
  }

  /** The first `required` empty clusters at or after `i`, fewer if there are not as many. */
  function FirstFit(fat: seq<nat>, required: nat, i: nat): (r: seq<nat>)
    requires i <= |fat|
    ensures |r| <= required
    decreases |fat| - i
  {
    if required == 0 || i == |fat| then []
    else if fat[i] == EMPTY_ENTRY then [i] + FirstFit(fat, required - 1, i + 1)
    else FirstFit(fat, required, i + 1)
  }

  /** `r` holds empty clusters from `i` on, in order, and lacks one only if it is full and the cluster lies behind. */
  ghost predicate LeastEmpty(fat: seq<nat>, required: nat, i: nat, r: seq<nat>) {
    && Ascending(r)
    && (forall k :: 0 <= k < |r| ==> i <= r[k] < |fat| && fat[r[k]] == EMPTY_ENTRY)
    && (forall c :: i <= c < |fat| && fat[c] == EMPTY_ENTRY ==>
          c in r || (|r| == required && forall k :: 0 <= k < |r| ==> r[k] < c))
  }

  lemma LeastEmptyFirst(fat: seq<nat>, required: nat, i: nat, rest: seq<nat>)
    requires i < |fat| && fat[i] == EMPTY_ENTRY && required > 0 && LeastEmpty(fat, required - 1, i + 1, rest)
    ensures LeastEmpty(fat, required, i, [i] + rest)
  {
    var r := [i] + rest;
    forall c | i <= c < |fat| && fat[c] == EMPTY_ENTRY && c !in r
      ensures |r| == required && forall k :: 0 <= k < |r| ==> r[k] < c
    {
      assert r[0] == i && c != i;
      assert c !in rest;
    }
  }

  /** The scan returns the least empty clusters. */
  lemma {:induction false} FirstFitLeast(fat: seq<nat>, required: nat, i: nat)
    requires i <= |fat|
    ensures LeastEmpty(fat, required, i, FirstFit(fat, required, i))
    decreases |fat| - i
  {
    if required > 0 && i < |fat| {
      if fat[i] == EMPTY_ENTRY {
        FirstFitLeast(fat, required - 1, i + 1);
        LeastEmptyFirst(fat, required, i, FirstFit(fat, required - 1, i + 1));
      } else {
        FirstFitLeast(fat, required, i + 1);
      }
    }
  }

  function Elements(s: seq<nat>): set<nat> { set c | c in s }

  lemma {:induction false} AscendingCard(s: seq<nat>)
    requires Ascending(s)
    ensures |Elements(s)| == |s|
  {
    if s == [] {
      assert Elements(s) == {};
    } else {
      var k := |s| - 1;
      AscendingCard(s[..k]);
      assert Elements(s) == Elements(s[..k]) + {s[k]};
    }
  }

  /** The scan finds as many clusters as asked for, or all there are. */
  lemma FirstFitCount(fat: seq<nat>, required: nat)
    ensures Elements(FirstFit(fat, required, 0)) <= EmptyClusters(fat)
    ensures |FirstFit(fat, required, 0)| == if required <= |EmptyClusters(fat)| then required else |EmptyClusters(fat)|
  {
    var r := FirstFit(fat, required, 0);
    FirstFitLeast(fat, required, 0);
    AscendingCard(r);
    SubsetCard(Elements(r), EmptyClusters(fat));
    if |r| < required {
      assert Elements(r) == EmptyClusters(fat);
    }
  }

  // ---- Linking the chain ----------------------------------------------------------------------

  ghost predicate Slots(fat: seq<nat>, slots: seq<nat>) {
    && |fat| == CLUSTER_MAP_SIZE
    && Ascending(slots)
    && (forall k :: 0 <= k < |slots| ==> 3 <= slots[k] < |fat|)
  }

  /** The table after the first `j` clusters of `slots` have been linked. */
  function LinkFat(fat: seq<nat>, slots: seq<nat>, j: nat): (r: seq<nat>)
    requires j <= |slots| && Slots(fat, slots)
    ensures |r| == |fat|
    ensures forall k {:trigger Next(slots, k)} :: 0 <= k < j ==> r[slots[k]] == Next(slots, k)
    ensures forall c :: 0 <= c < |fat| && c !in slots[..j] ==> r[c] == fat[c]
  {
    if j == 0 then fat else LinkFat(fat, slots, j - 1)[slots[j - 1] := Next(slots, j - 1)]
  }

  /** The `i`th cluster write of the file branch: in each round the table, then the data cluster. */
  function FileWrite(fat: seq<nat>, slots: seq<nat>, buf: seq<Block>, i: nat): DiskWrite
    requires i < 2 * |slots| <= 2 * |buf| && Slots(fat, slots)
  {
    if i % 2 == 0 then DiskWrite(FAT_CLUSTER, FatMap(LinkFat(fat, slots, i / 2 + 1)))
    else DiskWrite(slots[i / 2], Data(buf[i / 2]))
  }

  /** The cluster writes of the first `j` rounds of the file branch. */
  function FileWrites(fat: seq<nat>, slots: seq<nat>, buf: seq<Block>, j: nat): seq<DiskWrite>
    requires j <= |slots| <= |buf| && Slots(fat, slots)
  {
    seq(2 * j, i requires 0 <= i < 2 * j => FileWrite(fat, slots, buf, i))
  }

  lemma FileWritesStep(fat: seq<nat>, slots: seq<nat>, buf: seq<Block>, j: nat)
    requires j < |slots| <= |buf| && Slots(fat, slots)
    ensures FileWrites(fat, slots, buf, j + 1)
         == FileWrites(fat, slots, buf, j)
            + [DiskWrite(FAT_CLUSTER, FatMap(LinkFat(fat, slots, j + 1))), DiskWrite(slots[j], Data(buf[j]))]
  {
  }

  lemma FileWritesSafe(v: Volume, L: Layout, slots: seq<nat>, buf: seq<Block>, j: nat)
    requires j <= |slots| <= |buf| && Slots(v.fat, slots) && |v.disk| >= |v.fat|
    requires forall k :: 0 <= k < |slots| ==> slots[k] !in L.owner
    ensures SafeWrites(v, L, FileWrites(v.fat, slots, buf, j))
  {
    forall i | 0 <= i < 2 * j
      ensures SafeWrite(v, L, FileWrite(v.fat, slots, buf, i))
    {
      LinkFatSafe(v, L, slots, i / 2 + 1);
    }
  }

  lemma LinkFatSafe(v: Volume, L: Layout, slots: seq<nat>, j: nat)
    requires j <= |slots| && Slots(v.fat, slots)
    requires forall k :: 0 <= k < |slots| ==> slots[k] !in L.owner
    ensures SafeTable(v, L, LinkFat(v.fat, slots, j))
  {
    assert 0 !in slots[..j] && 1 !in slots[..j] && 2 !in slots[..j];
    forall c | c in L.owner && c < |v.fat|
      ensures LinkFat(v.fat, slots, j)[c] == v.fat[c]
    {
      assert c !in slots[..j];
    }
  }

  /** The disk after the first `j` rounds: the linked table in cluster 1, data in the chained clusters. */
  function FileDisk(disk: seq<Cluster>, fat: seq<nat>, slots: seq<nat>, buf: seq<Block>, j: nat): (r: seq<Cluster>)
    requires j <= |slots| <= |buf| && Slots(fat, slots) && |disk| >= |fat|
    ensures |r| == |disk|
  {
    if j == 0 then disk
    else FileDisk(disk, fat, slots, buf, j - 1)
           [FAT_CLUSTER := FatMap(LinkFat(fat, slots, j))][slots[j - 1] := Data(buf[j - 1])]
  }

  lemma {:induction false} FileDiskContents(
    disk: seq<Cluster>, fat: seq<nat>, slots: seq<nat>, buf: seq<Block>, j: nat, k: nat)
    requires k < j <= |slots| <= |buf| && Slots(fat, slots) && |disk| >= |fat|
    ensures FileDisk(disk, fat, slots, buf, j)[FAT_CLUSTER] == FatMap(LinkFat(fat, slots, j))
    ensures FileDisk(disk, fat, slots, buf, j)[slots[k]] == Data(buf[k])
  {
    if k + 1 < j {
      FileDiskContents(disk, fat, slots, buf, j - 1, k);
      assert slots[k] < slots[j - 1];
    }
  }

  lemma {:induction false} FileWritesResult(disk: seq<Cluster>, fat: seq<nat>, slots: seq<nat>, buf: seq<Block>, j: nat)
    requires j <= |slots| <= |buf| && Slots(fat, slots) && |disk| >= |fat|
    ensures InRange(disk, FileWrites(fat, slots, buf, j))
    ensures Apply(disk, FileWrites(fat, slots, buf, j)) == FileDisk(disk, fat, slots, buf, j)
  {
    if j > 0 {
      FileWritesResult(disk, fat, slots, buf, j - 1);
      FileWritesStep(fat, slots, buf, j - 1);
      var table := DiskWrite(FAT_CLUSTER, FatMap(LinkFat(fat, slots, j)));
      var data := DiskWrite(slots[j - 1], Data(buf[j - 1]));
      ApplyTwo(disk, FileWrites(fat, slots, buf, j - 1), table, data);
    }
  }

  lemma ApplyTwo(disk: seq<Cluster>, ws: seq<DiskWrite>, a: DiskWrite, b: DiskWrite)
    requires InRange(disk, ws) && a.cluster < |disk| && b.cluster < |disk|
    ensures InRange(disk, ws + [a, b])
    ensures Apply(disk, ws + [a, b]) == Apply(disk, ws)[a.cluster := a.content][b.cluster := b.content]
  {
    ApplyOne(disk, ws, a);
    ApplyOne(disk, ws + [a], b);
    assert ws + [a, b] == (ws + [a]) + [b];
  }

  // ---- What `write` decides -------------------------------------------------------------------

  /** The slot `write` picks: the first unused index from 1 on, or 0 when there is none. */
  function FreeSlot(t: seq<DirEntry>, i: nat): (r: nat)
    requires 1 <= i <= |t|
    ensures r == 0 || i <= r < |t|
    ensures r != 0 ==> !t[r].Live() && forall j :: i <= j < r ==> t[j].Live()
    ensures r == 0 ==> forall j :: i <= j < |t| ==> t[j].Live()
    decreases |t| - i
  {
    if i == |t| then 0 else if !t[i].Live() then i else FreeSlot(t, i + 1)
  }

  /** The number of clusters a request takes: a folder, asked for by size 0, takes one. */
  function Required(req: Request): nat {
    if req.size == 0 then 1 else ClusterCount(req.size)
  }

  /**
   * What the driver relies on: a parent number inside the table that, if it carries an end mark,
   * is a live directory; and a buffer that covers the clusters to be stored. A positive size whose
   * eight-bit cluster count is 0 makes the driver read an empty array, so it is excluded.
   */
  ghost predicate WriteLegal(v: Volume, L: Layout, req: Request) {
    && req.parent < |v.fat|
    && (v.fat[req.parent] == END_OF_FILE ==> req.parent in L.depth)
    && (req.size > 0 ==> 0 < ClusterCount(req.size) <= |req.buf|)
  }

  function WriteCode(v: Volume, req: Request): int
    requires req.parent < |v.fat| && req.parent < |v.disk|
    requires v.fat[req.parent] == END_OF_FILE ==>
             v.disk[req.parent].Table? && |v.disk[req.parent].entries| == TABLE_SIZE
  {
    if v.fat[req.parent] != END_OF_FILE then 2
    else if Find(v.disk[req.parent].entries, req.key, 0) < TABLE_SIZE then 1
    else if FreeSlot(v.disk[req.parent].entries, 1) == 0 then -1
    else if |FirstFit(v.fat, Required(req), 0)| < Required(req) then -1
    else 0
  }

  /** The table of a new directory. */
  function ChildTable(name: Name, parentName: Name, parent: nat, c: nat): (t: seq<DirEntry>)
    ensures |t| == TABLE_SIZE
  {
    [DirEntry(Key(StoredName(name), ZERO_EXT), ATTR_SUBDIRECTORY, UATTR_NOT_EMPTY, c, 0),
     DirEntry(Key(parentName, ZERO_EXT), ATTR_SUBDIRECTORY, UATTR_NOT_EMPTY, parent, 0)]
    + seq(TABLE_SIZE - 2, _ => ZERO_ENTRY)
  }

  lemma ChildTableFresh(name: Name, parentName: Name, parent: nat, c: nat)
    ensures FreshTable(ChildTable(name, parentName, parent, c))
  {
    var t := ChildTable(name, parentName, parent, c);
    assert forall i :: 2 <= i < |t| ==> t[i] == ZERO_ENTRY;
  }

  /** The entry `write` stores in the parent. */
  function NewEntry(req: Request, c: nat): DirEntry
  {
    DirEntry(req.key, if req.size == 0 then ATTR_SUBDIRECTORY else 0, UATTR_NOT_EMPTY, c, req.size)
  }

  /** Everything `write` puts on disk before it touches the parent directory. */
  ghost function Preparation(v: Volume, req: Request, slots: seq<nat>): seq<DiskWrite>
    requires Slots(v.fat, slots) && slots != [] && IsTable(v, req.parent) && req.parent < |v.fat|
    requires req.size > 0 ==> |slots| <= |req.buf|
  {
    if req.size == 0 then
      var child := ChildTable(req.key.name, v.disk[req.parent].entries[0].key.name, req.parent, slots[0]);
      [DiskWrite(slots[0], Table(child)),
       DiskWrite(FAT_CLUSTER, FatMap(v.fat[slots[0] := END_OF_FILE]))]
    else FileWrites(v.fat, slots, req.buf, |slots|)
  }

  /** The last write: the parent directory with the new entry. */
  ghost function Commit(v: Volume, req: Request, c: nat): DiskWrite
    requires IsTable(v, req.parent) && c < CLUSTER_MAP_SIZE
  {
    var t := v.disk[req.parent].entries;
    DiskWrite(req.parent, Table(t[FreeSlot(t, 1) := NewEntry(req, c)]))
  }

  lemma WriteSlots(v: Volume, L: Layout, req: Request)
    requires Inv(v, L)
    ensures var slots := FirstFit(v.fat, Required(req), 0);
            Slots(v.fat, slots) && forall k :: 0 <= k < |slots| ==> slots[k] !in L.owner
  {
    FirstFitLeast(v.fat, Required(req), 0);
    forall c | c in L.owner ensures c < |v.fat| && v.fat[c] != EMPTY_ENTRY { OwnedRange(v, L, c); }
  }

  // ---- What `write` does ----------------------------------------------------------------------

  /** `write` will succeed: the request is legal and every check passes. */
  ghost predicate WriteGoes(v: Volume, L: Layout, req: Request) {
    && Inv(v, L) && WriteLegal(v, L, req)
    && v.fat[req.parent] == END_OF_FILE && DirOk(v, L, req.parent)
    && WriteCode(v, req) == 0
  }

  ghost function WriteSlot(v: Volume, req: Request): Slot
    requires IsTable(v, req.parent)
  {
    Slot(req.parent, FreeSlot(v.disk[req.parent].entries, 1))
  }

  /** The chain is in place on `w` and only the parent entry is missing. */
  ghost predicate Prepared(v: Volume, L: Layout, req: Request, slots: seq<nat>, w: Volume)
    requires IsTable(v, req.parent) && Slots(v.fat, slots) && slots != []
    requires req.size > 0 ==> |slots| <= |req.buf|
  {
    && ReadyToLink(w, L, WriteSlot(v, req), NewEntry(req, slots[0]), slots)
    && w.disk[req.parent] == v.disk[req.parent]
    && w.fat == LinkFat(v.fat, slots, |slots|)
    && (req.size > 0 ==> Blocks(w, slots) == req.buf[..|slots|])
  }

  /** The parent's side of readiness: an unused slot at index 2 or above, and a fresh non-zero key. */
  ghost predicate ParentReady(v: Volume, L: Layout, req: Request) {
    && req.parent in L.depth && IsTable(v, req.parent)
    && 2 <= FreeSlot(v.disk[req.parent].entries, 1)
    && !v.disk[req.parent].entries[FreeSlot(v.disk[req.parent].entries, 1)].Live()
    && req.key != ZERO_KEY
    && (forall i :: 0 <= i < TABLE_SIZE ==> v.disk[req.parent].entries[i].key != req.key)
  }

  lemma WriteParentReady(v: Volume, L: Layout, req: Request)
    requires WriteGoes(v, L, req)
    ensures ParentReady(v, L, req)
  {
    var t := v.disk[req.parent].entries;
    assert t[FreeSlot(t, 1)] == ZERO_ENTRY;
  }

  lemma AgreesDirectory(v: Volume, L: Layout, disk: seq<Cluster>, d: nat)
    requires Inv(v, L) && Agrees(v, L, disk) && d in L.depth
    ensures d < |disk| && disk[d] == v.disk[d]
  {
    assert DirOk(v, L, d);
  }

  lemma LinkedChain(fat: seq<nat>, slots: seq<nat>)
    requires Slots(fat, slots) && slots != []
    ensures IsChain(LinkFat(fat, slots, |slots|), slots)
  {
  }

  lemma StoredBlocks(w: Volume, slots: seq<nat>, buf: seq<Block>)
    requires |slots| <= |buf|
    requires forall k :: 0 <= k < |slots| ==> slots[k] < |w.disk| && w.disk[slots[k]] == Data(buf[k])
    ensures Blocks(w, slots) == buf[..|slots|]
  {
  }

  lemma StillReadyParent(v: Volume, L: Layout, req: Request, c: nat, w: Volume)
    requires ParentReady(v, L, req)
    requires req.parent < |w.disk| && w.disk[req.parent] == v.disk[req.parent]
    ensures ReadyParent(w, L, WriteSlot(v, req), NewEntry(req, c))
  {
  }

  /** The rounds of the file branch are over: `w` has the linked table and the data. */
  ghost predicate FileStored(v: Volume, L: Layout, req: Request, slots: seq<nat>, w: Volume) {
    && req.size > 0 && 0 < |slots| == ClusterCount(req.size) <= |req.buf|
    && Slots(v.fat, slots) && (forall k :: 0 <= k < |slots| ==> slots[k] !in L.owner)
    && w.fat == LinkFat(v.fat, slots, |slots|)
    && req.parent < |w.disk| && IsTable(v, req.parent) && w.disk[req.parent] == v.disk[req.parent]
    && (forall k :: 0 <= k < |slots| ==> slots[k] < |w.disk| && w.disk[slots[k]] == Data(req.buf[k]))
  }

  lemma FileChainReady(v: Volume, L: Layout, req: Request, slots: seq<nat>, w: Volume)
    requires FileStored(v, L, req, slots, w)
    ensures ReadyChain(w, L, WriteSlot(v, req), NewEntry(req, slots[0]), slots)
    ensures Blocks(w, slots) == req.buf[..|slots|]
  {
    LinkedChain(v.fat, slots);
    StoredBlocks(w, slots, req.buf);
  }

  lemma FilePrepared(v: Volume, L: Layout, req: Request, slots: seq<nat>, w: Volume)
    requires ParentReady(v, L, req) && FileStored(v, L, req, slots, w)
    ensures Prepared(v, L, req, slots, w)
  {
    StillReadyParent(v, L, req, slots[0], w);
    FileChainReady(v, L, req, slots, w);
  }

  lemma PrepareFile(v: Volume, L: Layout, req: Request, slots: seq<nat>)
    requires WriteGoes(v, L, req) && req.size > 0 && |slots| == ClusterCount(req.size)
    requires Slots(v.fat, slots) && forall k :: 0 <= k < |slots| ==> slots[k] !in L.owner
    ensures SafeWrites(v, L, Preparation(v, req, slots))
    ensures InRange(v.disk, Preparation(v, req, slots))
    ensures Apply(v.disk, Preparation(v, req, slots))[FAT_CLUSTER].FatMap?
    ensures Prepared(v, L, req, slots, Mount(Apply(v.disk, Preparation(v, req, slots))))
  {
    var prep := Preparation(v, req, slots);
    FileWritesSafe(v, L, slots, req.buf, |slots|);
    FileWritesResult(v.disk, v.fat, slots, req.buf, |slots|);
    SafeAgrees(v, L, prep);
    var disk := FileDisk(v.disk, v.fat, slots, req.buf, |slots|);
    forall k | 0 <= k < |slots|
      ensures disk[FAT_CLUSTER] == FatMap(LinkFat(v.fat, slots, |slots|)) && disk[slots[k]] == Data(req.buf[k])
    {
      FileDiskContents(v.disk, v.fat, slots, req.buf, |slots|, k);
    }
    AgreesDirectory(v, L, disk, req.parent);
    WriteParentReady(v, L, req);
    FilePrepared(v, L, req, slots, Mount(disk));
  }

  lemma FolderSafe(v: Volume, L: Layout, req: Request, c: nat)
    requires |v.fat| == CLUSTER_MAP_SIZE <= |v.disk| && IsTable(v, req.parent) && req.parent < |v.fat|
    requires 3 <= c < CLUSTER_MAP_SIZE && c !in L.owner && req.size == 0
    ensures SafeWrites(v, L, Preparation(v, req, [c]))
  {
    assert SafeTable(v, L, v.fat[c := END_OF_FILE]);
  }

  lemma FolderResult(v: Volume, req: Request, c: nat)
    requires |v.fat| == CLUSTER_MAP_SIZE <= |v.disk| && IsTable(v, req.parent) && req.parent < |v.fat|
    requires 3 <= c < CLUSTER_MAP_SIZE && req.size == 0
    ensures InRange(v.disk, Preparation(v, req, [c]))
    ensures Apply(v.disk, Preparation(v, req, [c]))
         == v.disk[c := Table(ChildTable(req.key.name, v.disk[req.parent].entries[0].key.name, req.parent, c))]
                  [FAT_CLUSTER := FatMap(v.fat[c := END_OF_FILE])]
  {
    var prep := Preparation(v, req, [c]);
    assert prep == ([] + [prep[0]]) + [prep[1]];
    ApplyOne(v.disk, [], prep[0]);
    ApplyOne(v.disk, [prep[0]], prep[1]);
    assert [] + [prep[0]] == [prep[0]];
  }

  /** The folder branch is over: `w` has the marked table and the new directory's cluster. */
  ghost predicate FolderStored(v: Volume, L: Layout, req: Request, c: nat, w: Volume) {
    && req.size == 0 && |v.fat| == CLUSTER_MAP_SIZE
    && 3 <= c < CLUSTER_MAP_SIZE && c !in L.owner
    && w.fat == v.fat[c := END_OF_FILE]
    && req.parent < |w.disk| && IsTable(v, req.parent) && w.disk[req.parent] == v.disk[req.parent]
    && c < |w.disk|
    && w.disk[c] == Table(ChildTable(req.key.name, v.disk[req.parent].entries[0].key.name, req.parent, c))
  }

  lemma FolderPrepared(v: Volume, L: Layout, req: Request, c: nat, w: Volume)
    requires ParentReady(v, L, req) && FolderStored(v, L, req, c, w)
    ensures Prepared(v, L, req, [c], w)
  {
    StillReadyParent(v, L, req, c, w);
    ChildTableFresh(req.key.name, v.disk[req.parent].entries[0].key.name, req.parent, c);
    assert ReadyChild(w, WriteSlot(v, req), NewEntry(req, c), c);
    assert LinkFat(v.fat, [c], 0) == v.fat;
    LinkedChain(v.fat, [c]);
  }

  lemma PrepareFolder(v: Volume, L: Layout, req: Request, slots: seq<nat>)
    requires WriteGoes(v, L, req) && req.size == 0 && |slots| == 1
    requires Slots(v.fat, slots) && forall k :: 0 <= k < |slots| ==> slots[k] !in L.owner
    ensures SafeWrites(v, L, Preparation(v, req, slots))
    ensures InRange(v.disk, Preparation(v, req, slots))
    ensures Apply(v.disk, Preparation(v, req, slots))[FAT_CLUSTER].FatMap?
    ensures Prepared(v, L, req, slots, Mount(Apply(v.disk, Preparation(v, req, slots))))
  {
    var c := slots[0];
    assert slots == [c];
    FolderSafe(v, L, req, c);
    FolderResult(v, req, c);
    SafeAgrees(v, L, Preparation(v, req, slots));
    AgreesDirectory(v, L, Apply(v.disk, Preparation(v, req, slots)), req.parent);
    WriteParentReady(v, L, req);
    FolderPrepared(v, L, req, c, Mount(Apply(v.disk, Preparation(v, req, slots))));
  }

  // ---- The whole of `write` -------------------------------------------------------------------

  /** The clusters a successful `write` takes. */
  function Taken(v: Volume, req: Request): seq<nat> { FirstFit(v.fat, Required(req), 0) }

  ghost predicate TraceOk(v: Volume, req: Request) {
    && Slots(v.fat, Taken(v, req)) && Taken(v, req) != []
    && IsTable(v, req.parent) && req.parent < |v.fat|
    && (req.size > 0 ==> |Taken(v, req)| <= |req.buf|)
  }

  /** All cluster writes of a successful `write`, in order. */
  ghost function WriteTrace(v: Volume, req: Request): seq<DiskWrite>
    requires TraceOk(v, req)
  {
    Preparation(v, req, Taken(v, req)) + [Commit(v, req, Taken(v, req)[0])]
  }

  ghost function WriteLayout(v: Volume, L: Layout, req: Request): Layout
    requires TraceOk(v, req) && req.parent in L.depth
  {
    AddSlot(L, WriteSlot(v, req), Taken(v, req), req.size == 0)
  }

  /** What `write` means: a new empty directory, or a file with the clusters its count covers. */
  function WrittenTree(tree: Tree, req: Request, c: nat): Tree
    requires req.parent in tree && (req.size > 0 ==> ClusterCount(req.size) <= |req.buf|)
  {
    if req.size == 0 then AddDirectory(tree, req.parent, req.key, c)
    else AddNode(tree, req.parent, req.key, File(req.size, req.buf[..ClusterCount(req.size)]))
  }

  lemma Prepare(v: Volume, L: Layout, req: Request)
    requires WriteGoes(v, L, req)
    ensures TraceOk(v, req)
    ensures SafeWrites(v, L, Preparation(v, req, Taken(v, req)))
    ensures InRange(v.disk, Preparation(v, req, Taken(v, req)))
    ensures Apply(v.disk, Preparation(v, req, Taken(v, req)))[FAT_CLUSTER].FatMap?
    ensures Prepared(v, L, req, Taken(v, req), Mount(Apply(v.disk, Preparation(v, req, Taken(v, req)))))
  {
    WriteSlots(v, L, req);
    if req.size == 0 {
      PrepareFolder(v, L, req, Taken(v, req));
    } else {
      PrepareFile(v, L, req, Taken(v, req));
    }
  }

  /**
   * A successful `write` leaves a healthy volume whose file tree has exactly the new entry added,
   * in every other respect the old one, and whose table has exactly the taken clusters linked.
   */
  lemma WriteEffect(v: Volume, L: Layout, req: Request)
    requires WriteGoes(v, L, req)
    ensures TraceOk(v, req) && InRange(v.disk, WriteTrace(v, req))
    ensures Apply(v.disk, WriteTrace(v, req))[FAT_CLUSTER] == FatMap(LinkFat(v.fat, Taken(v, req), |Taken(v, req)|))
    ensures Inv(Mount(Apply(v.disk, WriteTrace(v, req))), WriteLayout(v, L, req))
    ensures TreeOf(Mount(Apply(v.disk, WriteTrace(v, req))), WriteLayout(v, L, req))
         == WrittenTree(TreeOf(v, L), req, Taken(v, req)[0])
  {
    Prepare(v, L, req);
    var slots := Taken(v, req);
    var prep := Preparation(v, req, slots);
    SafeMount(v, L, prep);
    var w := Mount(Apply(v.disk, prep));
    var s, e := WriteSlot(v, req), NewEntry(req, slots[0]);
    Link(w, L, s, e, slots);
    ApplyOne(v.disk, prep, Commit(v, req, slots[0]));
    assert Apply(v.disk, WriteTrace(v, req)) == PutEntry(w, s, e).disk;
    assert PutEntry(w, s, e) == Mount(PutEntry(w, s, e).disk);
  }

  // ---- The table on disk along the way --------------------------------------------------------

  /** How many clusters the table on disk has linked once `n` cluster writes of a `write` got through. */
  function Marked(req: Request, n: nat): (r: nat)
    ensures r <= Required(req)
  {
    if req.size == 0 then (if n >= 2 then 1 else 0)
    else if n >= 2 * Required(req) then Required(req)
    else if n % 2 == 0 then n / 2 else n / 2 + 1
  }

  /** After the writes `ws` the disk has the table `fat` in cluster 1. */
  ghost predicate TableAfter(disk: seq<Cluster>, ws: seq<DiskWrite>, fat: seq<nat>) {
    |disk| > FAT_CLUSTER && InRange(disk, ws) && Apply(disk, ws)[FAT_CLUSTER] == FatMap(fat)
  }

  lemma TableAfterOne(disk: seq<Cluster>, ws: seq<DiskWrite>, fat: seq<nat>, w: DiskWrite, next: seq<nat>)
    requires TableAfter(disk, ws, fat) && w.cluster < |disk|
    requires if w.cluster == FAT_CLUSTER then w.content == FatMap(next) else next == fat
    ensures TableAfter(disk, ws + [w], next)
  {
    ApplyOne(disk, ws, w);
  }

  lemma RoundTable(disk: seq<Cluster>, fat: seq<nat>, slots: seq<nat>, buf: seq<Block>, j: nat)
    requires j <= |slots| <= |buf| && Slots(fat, slots)
    requires |disk| >= |fat| && disk[FAT_CLUSTER] == FatMap(fat)
    ensures TableAfter(disk, FileWrites(fat, slots, buf, j), LinkFat(fat, slots, j))
  {
    FileWritesResult(disk, fat, slots, buf, j);
    if j > 0 { FileDiskContents(disk, fat, slots, buf, j, j - 1); }
  }

  /** The `j`th table write of the file branch. */
  function TableWrite(fat: seq<nat>, slots: seq<nat>, j: nat): DiskWrite
    requires j < |slots| && Slots(fat, slots)
  {
    DiskWrite(FAT_CLUSTER, FatMap(LinkFat(fat, slots, j + 1)))
  }

  /** A cut in the file branch falls between two rounds, or between the table and the data of a round. */
  lemma FilePrefix(fat: seq<nat>, slots: seq<nat>, buf: seq<Block>, j: nat)
    requires j <= |slots| <= |buf| && Slots(fat, slots)
    ensures FileWrites(fat, slots, buf, |slots|)[..2 * j] == FileWrites(fat, slots, buf, j)
  {
  }

  lemma FilePrefixOdd(fat: seq<nat>, slots: seq<nat>, buf: seq<Block>, j: nat)
    requires j < |slots| <= |buf| && Slots(fat, slots)
    ensures FileWrites(fat, slots, buf, |slots|)[..2 * j + 1] ==
            FileWrites(fat, slots, buf, j) + [TableWrite(fat, slots, j)]
  {
    var ws := FileWrites(fat, slots, buf, |slots|);
    assert ws[..2 * j + 1] == ws[..2 * j] + [ws[2 * j]];
    assert ws[2 * j] == FileWrite(fat, slots, buf, 2 * j);
    FilePrefix(fat, slots, buf, j);
  }

  lemma FileTablesEven(disk: seq<Cluster>, fat: seq<nat>, slots: seq<nat>, buf: seq<Block>, n: nat, j: nat)
    requires j <= |slots| <= |buf| && Slots(fat, slots) && n == 2 * j
    requires |disk| >= |fat| && disk[FAT_CLUSTER] == FatMap(fat)
    ensures TableAfter(disk, FileWrites(fat, slots, buf, |slots|)[..n], LinkFat(fat, slots, j))
  {
    RoundTable(disk, fat, slots, buf, j);
    FilePrefix(fat, slots, buf, j);
  }

  lemma FileTablesOdd(disk: seq<Cluster>, fat: seq<nat>, slots: seq<nat>, buf: seq<Block>, n: nat, j: nat)
    requires j < |slots| <= |buf| && Slots(fat, slots) && n == 2 * j + 1
    requires |disk| >= |fat| && disk[FAT_CLUSTER] == FatMap(fat)
    ensures TableAfter(disk, FileWrites(fat, slots, buf, |slots|)[..n], LinkFat(fat, slots, j + 1))
  {
    RoundTable(disk, fat, slots, buf, j);
    TableAfterOne(disk, FileWrites(fat, slots, buf, j), LinkFat(fat, slots, j),
                  TableWrite(fat, slots, j), LinkFat(fat, slots, j + 1));
    FilePrefixOdd(fat, slots, buf, j);
  }

  lemma FolderTables(v: Volume, req: Request, slots: seq<nat>, n: nat)
    requires Header(v) && Slots(v.fat, slots) && |slots| == 1 && n <= 2 && req.size == 0
    requires IsTable(v, req.parent) && req.parent < |v.fat|
    ensures TableAfter(v.disk, Preparation(v, req, slots)[..n], LinkFat(v.fat, slots, Marked(req, n)))
  {
    var prep := Preparation(v, req, slots);
    assert LinkFat(v.fat, slots, 0) == v.fat && prep[..0] == [];
    if n > 0 {
      assert prep[..1] == prep[..0] + [prep[0]];
      TableAfterOne(v.disk, prep[..0], v.fat, prep[0], v.fat);
    }
    if n == 2 {
      assert prep[..2] == prep[..1] + [prep[1]];
      TableAfterOne(v.disk, prep[..1], v.fat, prep[1], LinkFat(v.fat, slots, 1));
    }
  }

  lemma PreparationTables(v: Volume, req: Request, slots: seq<nat>, n: nat)
    requires Header(v) && Slots(v.fat, slots) && 0 < |slots| == Required(req)
    requires IsTable(v, req.parent) && req.parent < |v.fat| && (req.size > 0 ==> |slots| <= |req.buf|)
    requires n <= |Preparation(v, req, slots)|
    ensures TableAfter(v.disk, Preparation(v, req, slots)[..n], LinkFat(v.fat, slots, Marked(req, n)))
  {
    if req.size == 0 {
      FolderTables(v, req, slots, n);
    } else {
      FilePreparationTables(v, req, slots, n, Marked(req, n));
    }
  }

  lemma FilePreparationTables(v: Volume, req: Request, slots: seq<nat>, n: nat, m: nat)
    requires Header(v) && Slots(v.fat, slots) && m <= |slots| <= |req.buf| && (n == 2 * m || n + 1 == 2 * m)
    ensures n <= |FileWrites(v.fat, slots, req.buf, |slots|)|
    ensures TableAfter(v.disk, FileWrites(v.fat, slots, req.buf, |slots|)[..n], LinkFat(v.fat, slots, m))
  {
    if n == 2 * m {
      FileTablesEven(v.disk, v.fat, slots, req.buf, n, m);
    } else {
      var j := m - 1;
      FileTablesOdd(v.disk, v.fat, slots, req.buf, n, j);
      assert m == j + 1;
    }
  }

  /** After any prefix of the cluster writes of a `write`, the table on disk links that many of its clusters. */
  lemma WriteTables(v: Volume, L: Layout, req: Request, n: nat)
    requires WriteGoes(v, L, req) && TraceOk(v, req) && n < |WriteTrace(v, req)|
    ensures |Taken(v, req)| == Required(req)
    ensures TableAfter(v.disk, WriteTrace(v, req)[..n], LinkFat(v.fat, Taken(v, req), Marked(req, n)))
  {
    assert WriteTrace(v, req)[..n] == Preparation(v, req, Taken(v, req))[..n];
    PreparationTables(v, req, Taken(v, req), n);
  }

  /** Linking clusters that nobody owns leaks exactly these. */
  lemma LinkFatLeaks(v: Volume, w: Volume, L: Layout, slots: seq<nat>, j: nat)
    requires Slots(v.fat, slots) && j <= |slots| && w.fat == LinkFat(v.fat, slots, j)
    requires forall k :: 0 <= k < |slots| ==> slots[k] !in L.owner
    ensures Leaked(w, L) == Leaked(v, L) + Elements(slots[..j])
  {
    forall k | 0 <= k < j
      ensures w.fat[slots[k]] != EMPTY_ENTRY
    {
      assert w.fat[slots[k]] == Next(slots, k);
    }
    forall c | c in slots[..j]
      ensures 3 <= c < |w.fat| && w.fat[c] != EMPTY_ENTRY && c !in L.owner
    {
      var k :| 0 <= k < j && slots[..j][k] == c;
    }
  }

  /**
   * Cut `write` off after any proper prefix of its cluster writes and mount again: the volume is
   * healthy, the file tree is the old one, and exactly the clusters linked by then are leaked.
   */
  lemma WriteCrash(v: Volume, L: Layout, req: Request, k: nat)
    requires WriteGoes(v, L, req) && TraceOk(v, req) && k < |WriteTrace(v, req)|
    ensures var ws := WriteTrace(v, req)[..k];
            && InRange(v.disk, ws) && Apply(v.disk, ws)[FAT_CLUSTER].FatMap?
            && Inv(Mount(Apply(v.disk, ws)), L)
            && TreeOf(Mount(Apply(v.disk, ws)), L) == TreeOf(v, L)
            && Marked(req, k) <= |Taken(v, req)|
            && Leaked(Mount(Apply(v.disk, ws)), L) == Leaked(v, L) + Elements(Taken(v, req)[..Marked(req, k)])
  {
    Prepare(v, L, req);
    var prep := Preparation(v, req, Taken(v, req));
    assert WriteTrace(v, req)[..k] == prep[..k];
    SafeMount(v, L, prep[..k]);
    WriteTables(v, L, req, k);
    WriteSlots(v, L, req);
    LinkFatLeaks(v, Mount(Apply(v.disk, prep[..k])), L, Taken(v, req), Marked(req, k));
  }

  /** Linking takes exactly the linked clusters from the empty ones. */
  lemma LinkFatEmpties(fat: seq<nat>, slots: seq<nat>, j: nat)
    requires Slots(fat, slots) && j <= |slots| && forall k :: 0 <= k < |slots| ==> fat[slots[k]] == EMPTY_ENTRY
    ensures EmptyClusters(LinkFat(fat, slots, j)) == EmptyClusters(fat) - Elements(slots[..j])
    ensures |EmptyClusters(LinkFat(fat, slots, j))| + j == |EmptyClusters(fat)|
  {
    var linked := LinkFat(fat, slots, j);
    forall k | 0 <= k < j ensures linked[slots[k]] != EMPTY_ENTRY {
      assert linked[slots[k]] == Next(slots, k);
    }
    assert EmptyClusters(linked) == EmptyClusters(fat) - Elements(slots[..j]);
    AscendingCard(slots[..j]);
    assert EmptyClusters(fat) == EmptyClusters(linked) + Elements(slots[..j]);
  }

  /** Conservation: a `write` has taken exactly the clusters linked so far from the empty ones. */
  lemma WriteConserves(v: Volume, L: Layout, req: Request, j: nat)
    requires WriteGoes(v, L, req) && TraceOk(v, req) && j <= |Taken(v, req)|
    ensures |Taken(v, req)| == Required(req)
    ensures EmptyClusters(LinkFat(v.fat, Taken(v, req), j)) == EmptyClusters(v.fat) - Elements(Taken(v, req)[..j])
    ensures |EmptyClusters(LinkFat(v.fat, Taken(v, req), j))| + j == |EmptyClusters(v.fat)|
  {
    FirstFitLeast(v.fat, Required(req), 0);
    LinkFatEmpties(v.fat, Taken(v, req), j);
  }
}
