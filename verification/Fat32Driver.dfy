/** The driver itself (src/fat32.c): the cached table and the disk, updated in place. */
module Fat32Driver {
  import opened Fat32Types
  import opened Fat32Layout
  import opened Fat32Unlink
  import opened Fat32Disk
  import opened Fat32Write
  import opened Fat32Delete
  import opened Fat32Codes
  import opened Fat32Runs

  lemma CStringIs(s: string, i: nat)
    requires i <= |s| && NUL !in s[..i] && (i < |s| ==> s[i] == NUL)
    ensures CString(s) == s[..i]
  {
    var r := CString(s);
    forall k | 0 <= k < i ensures s[k] != NUL { assert s[k] in s[..i]; }
    forall k | 0 <= k < |r| ensures s[k] != NUL { assert r[k] in r; }
  }

  /** The name loops of `init_directory_table`: eight zeros, then characters up to the first NUL. */
  method CopyName(name: Name) returns (copy: Name)
    ensures copy == StoredName(name)
  {
    copy := ZERO_NAME;
    var i := 0;
    while i < 8 && name[i] != NUL
      invariant 0 <= i <= 8
      invariant NUL !in name[..i]
      invariant copy == name[..i] + seq(8 - i, _ => NUL)
    {
      copy := copy[i := name[i]];
      i := i + 1;
    }
    CStringIs(name, i);
  }

  /** The scan for empty clusters has reached `i` and found `found`. */
  ghost predicate Scanned(fat: seq<nat>, required: nat, i: nat, found: seq<nat>) {
    && i <= |fat| && |found| <= required
    && FirstFit(fat, required, 0) == found + FirstFit(fat, required - |found|, i)
  }

  lemma FirstFitNext(fat: seq<nat>, more: nat, i: nat)
    requires i < |fat| && more > 0
    ensures FirstFit(fat, more, i)
         == if fat[i] == EMPTY_ENTRY then [i] + FirstFit(fat, more - 1, i + 1) else FirstFit(fat, more, i + 1)
  {
  }

  lemma ConcatFirst(a: seq<nat>, i: nat, b: seq<nat>)
    ensures a + ([i] + b) == (a + [i]) + b
  {
  }

  lemma ScanStep(fat: seq<nat>, required: nat, i: nat, found: seq<nat>)
    requires Scanned(fat, required, i, found) && i < |fat| && |found| < required
    ensures Scanned(fat, required, i + 1, if fat[i] == EMPTY_ENTRY then found + [i] else found)
  {
    FirstFitNext(fat, required - |found|, i);
    ConcatFirst(found, i, FirstFit(fat, required - |found| - 1, i + 1));
  }

  /** What the checks of `write` hand to its writing part. */
  ghost predicate Planned(v: Volume, req: Request, slot: nat, slots: seq<nat>) {
    && TraceOk(v, req) && slots == Taken(v, req) && (req.size == 0 ==> |slots| == 1)
    && 1 <= slot == FreeSlot(v.disk[req.parent].entries, 1)
  }

  /** `w` has all writes of the trace on disk, and the linked table in memory. */
  ghost predicate CarriedOut(v: Volume, req: Request, w: Volume) {
    && TraceOk(v, req) && InRange(v.disk, WriteTrace(v, req))
    && w.disk == Apply(v.disk, WriteTrace(v, req))
    && w.fat == LinkFat(v.fat, Taken(v, req), |Taken(v, req)|)
  }

  /** The two cluster writes of one round of the file branch. */
  function RoundWrites(fat: seq<nat>, c: nat, next: nat, block: Block): seq<DiskWrite>
    requires c < |fat|
  {
    [DiskWrite(FAT_CLUSTER, FatMap(fat[c := next])), DiskWrite(c, Data(block))]
  }

  ghost predicate RoundsDone(v: Volume, slots: seq<nat>, buf: seq<Block>, j: nat, w: Volume, ws: seq<DiskWrite>) {
    && j <= |slots| <= |buf| && Slots(v.fat, slots) && |v.disk| >= |v.fat|
    && w.fat == LinkFat(v.fat, slots, j)
    && w.disk == FileDisk(v.disk, v.fat, slots, buf, j)
    && ws == FileWrites(v.fat, slots, buf, j)
  }

  /** The volume after one round of the file branch. */
  function AfterRound(w: Volume, c: nat, next: nat, block: Block): Volume
    requires c < |w.fat| <= |w.disk| && FAT_CLUSTER < |w.disk|
  {
    var fat := w.fat[c := next];
    Volume(fat, w.disk[FAT_CLUSTER := FatMap(fat)][c := Data(block)])
  }

  lemma RoundStep(v: Volume, slots: seq<nat>, buf: seq<Block>, j: nat, w: Volume, ws: seq<DiskWrite>)
    requires RoundsDone(v, slots, buf, j, w, ws) && j < |slots|
    ensures RoundsDone(v, slots, buf, j + 1, AfterRound(w, slots[j], Next(slots, j), buf[j]),
                       ws + RoundWrites(w.fat, slots[j], Next(slots, j), buf[j]))
  {
    FileWritesStep(v.fat, slots, buf, j);
  }

  /**
   * The outcome of `write` from the healthy volume `v` to `w`: the code the file tree calls for;
   * on failure nothing changed and nothing was written; on success the writes `ws` of the trace,
   * and the file tree with exactly the new entry.
   */
  ghost predicate WriteResult(v: Volume, L: Layout, req: Request, code: int, w: Volume, M: Layout, ws: seq<DiskWrite>) {
    && Inv(v, L) && Inv(w, M)
    && code == TreeWriteCode(TreeOf(v, L), |EmptyClusters(v.fat)|, req)
    && (code != 0 ==> w == v && M == L && ws == [])
    && (code == 0 ==>
          && TraceOk(v, req) && req.parent in L.depth && (req.size > 0 ==> ClusterCount(req.size) <= |req.buf|)
          && ws == WriteTrace(v, req) && w == AfterWrites(v, ws) && M == WriteLayout(v, L, req)
          && TreeOf(w, M) == WrittenTree(TreeOf(v, L), req, Taken(v, req)[0]))
  }

  lemma WriteChecks(v: Volume, L: Layout, req: Request)
    requires Inv(v, L) && WriteLegal(v, L, req)
    ensures v.fat[req.parent] == END_OF_FILE ==> IsTable(v, req.parent)
    ensures if WriteCode(v, req) == 0 then WriteGoes(v, L, req) else WriteResult(v, L, req, WriteCode(v, req), v, L, [])
  {
    WriteCodeMeaning(v, L, req);
  }

  lemma WritePlanned(v: Volume, L: Layout, req: Request)
    requires WriteGoes(v, L, req)
    ensures TraceOk(v, req)
    ensures Planned(v, req, FreeSlot(v.disk[req.parent].entries, 1), Taken(v, req))
  {
    Prepare(v, L, req);
  }

  lemma WriteSucceeds(v: Volume, L: Layout, req: Request, w: Volume)
    requires WriteGoes(v, L, req) && CarriedOut(v, req, w)
    ensures WriteResult(v, L, req, 0, w, WriteLayout(v, L, req), WriteTrace(v, req))
  {
    WriteEffect(v, L, req);
    WriteCodeMeaning(v, L, req);
  }

  /** The volume after one step of the freeing walk. */
  function AfterFree(w: Volume, c: nat): Volume
    requires c < |w.fat| <= |w.disk|
  {
    Volume(w.fat[c := EMPTY_ENTRY], w.disk[c := Data(ZeroBlock())])
  }

  /** After `j` steps of the freeing walk: that much of the chain emptied in the table and zeroed on disk. */
  ghost predicate WalkDone(v: Volume, chain: seq<nat>, j: nat, w: Volume, ws: seq<DiskWrite>) {
    && j <= |chain| && IsChain(v.fat, chain) && Clusters(v.fat, chain) && |v.disk| >= |v.fat|
    && w.fat == ClearFat(v.fat, chain, j)
    && ws == ZeroWrites(chain, j) && InRange(v.disk, ws)
    && w.disk == Apply(v.disk, ws)
  }

  lemma WalkStep(v: Volume, chain: seq<nat>, j: nat, w: Volume, ws: seq<DiskWrite>)
    requires WalkDone(v, chain, j, w, ws) && j < |chain|
    ensures w.fat[chain[j]] == Next(chain, j)
    ensures WalkDone(v, chain, j + 1, AfterFree(w, chain[j]), ws + [DiskWrite(chain[j], Data(ZeroBlock()))])
    ensures Next(chain, j) == END_OF_FILE <==> j + 1 == |chain|
  {
    ApplyOne(v.disk, ws, DiskWrite(chain[j], Data(ZeroBlock())));
    WalkUnvisited(v.fat, chain, j);
  }

  /** The walk has not yet touched the table entry it is about to follow. */
  lemma WalkUnvisited(fat: seq<nat>, chain: seq<nat>, j: nat)
    requires IsChain(fat, chain) && j < |chain|
    ensures ClearFat(fat, chain, j)[chain[j]] == Next(chain, j)
  {
    forall i | 0 <= i < j ensures chain[i] != chain[j] {
      if chain[i] == chain[j] { ChainAcyclic(fat, chain, i, j); }
    }
    assert fat[chain[j]] == Next(chain, j);
  }

  /** Where `delete` looks: the parent table, and the table of a directory found there. */
  ghost predicate Searchable(v: Volume, parent: nat, key: Key) {
    parent < |v.fat| && v.fat[parent] == END_OF_FILE ==>
      && IsTable(v, parent)
      && var i := Find(v.disk[parent].entries, key, 2);
         i < TABLE_SIZE && v.disk[parent].entries[i].IsDirectory() ==> IsTable(v, v.disk[parent].entries[i].cluster)
  }

  ghost function EntryDeleteTrace(v: Volume, parent: nat, i: nat, chain: seq<nat>): seq<DiskWrite>
    requires IsTable(v, parent) && i < TABLE_SIZE && Clusters(v.fat, chain)
  {
    [DiskWrite(parent, Table(v.disk[parent].entries[i := ZERO_ENTRY]))] + Cleanup(v.fat, chain)
  }

  /** `w` has the entry, its clusters and the table cleared, on disk and in memory. */
  ghost predicate EntryDeleted(v: Volume, parent: nat, i: nat, chain: seq<nat>, w: Volume) {
    && IsTable(v, parent) && i < TABLE_SIZE && Clusters(v.fat, chain)
    && InRange(v.disk, EntryDeleteTrace(v, parent, i, chain))
    && w.disk == Apply(v.disk, EntryDeleteTrace(v, parent, i, chain))
    && w.fat == ClearFat(v.fat, chain, |chain|)
  }

  /** The volume after the parent entry is cleared. */
  ghost function EntryCleared(v: Volume, parent: nat, i: nat): Volume
    requires IsTable(v, parent) && i < TABLE_SIZE
  {
    v.(disk := v.disk[parent := Table(v.disk[parent].entries[i := ZERO_ENTRY])])
  }

  lemma ApplyAround(disk: seq<Cluster>, first: DiskWrite, ws: seq<DiskWrite>, last: DiskWrite)
    requires first.cluster < |disk| && last.cluster < |disk| && InRange(disk, ws)
    ensures InRange(disk, [first] + (ws + [last]))
    ensures Apply(disk, [first] + (ws + [last]))
         == Apply(disk[first.cluster := first.content], ws)[last.cluster := last.content]
  {
    FirstThenRest(disk, first, ws + [last]);
    ApplyOne(disk[first.cluster := first.content], ws, last);
  }

  lemma EntryDeletedIs(v: Volume, parent: nat, i: nat, chain: seq<nat>, x: Volume, zeros: seq<DiskWrite>)
    requires IsTable(v, parent) && i < TABLE_SIZE
    requires WalkDone(EntryCleared(v, parent, i), chain, |chain|, x, zeros)
    ensures EntryDeleted(v, parent, i, chain, x.(disk := x.disk[FAT_CLUSTER := FatMap(x.fat)]))
  {
    var first := DiskWrite(parent, Table(v.disk[parent].entries[i := ZERO_ENTRY]));
    ApplyAround(v.disk, first, zeros, DiskWrite(FAT_CLUSTER, FatMap(x.fat)));
  }

  lemma EntryDeleteLog(before: seq<DiskWrite>, v: Volume, parent: nat, i: nat, chain: seq<nat>, fat: seq<nat>)
    requires IsTable(v, parent) && i < TABLE_SIZE && Clusters(v.fat, chain) && fat == ClearFat(v.fat, chain, |chain|)
    ensures before + [DiskWrite(parent, EntryCleared(v, parent, i).disk[parent])] + ZeroWrites(chain, |chain|)
            + [DiskWrite(FAT_CLUSTER, FatMap(fat))]
         == before + EntryDeleteTrace(v, parent, i, chain)
  {
    ConcatFour(before, [DiskWrite(parent, EntryCleared(v, parent, i).disk[parent])], ZeroWrites(chain, |chain|),
               [DiskWrite(FAT_CLUSTER, FatMap(fat))]);
  }

  lemma ConcatThree(a: seq<DiskWrite>, b: seq<DiskWrite>, c: seq<DiskWrite>)
    ensures a + b + c == a + (b + c)
  {
  }

  lemma ConcatFour(a: seq<DiskWrite>, b: seq<DiskWrite>, c: seq<DiskWrite>, d: seq<DiskWrite>)
    ensures a + b + c + d == a + (b + (c + d))
  {
  }

  /** The outcome of `delete`, as for `write`. */
  ghost predicate DeleteResult(
    v: Volume, L: Layout, parent: nat, key: Key, code: int, w: Volume, M: Layout, ws: seq<DiskWrite>)
  {
    && Inv(v, L) && Inv(w, M)
    && code == TreeDeleteCode(TreeOf(v, L), parent, key)
    && (code != 0 ==> w == v && M == L && ws == [])
    && (code == 0 ==>
          && DeleteTraceOk(v, L, parent, key) && parent in TreeOf(v, L) && key in TreeOf(v, L)[parent].entries
          && ws == DeleteTrace(v, L, parent, key) && w == AfterWrites(v, ws) && M == DeleteLayout(v, L, parent, key)
          && TreeOf(w, M) == UnlinkedTree(TreeOf(v, L), parent, key))
  }

  lemma DeleteChecks(v: Volume, L: Layout, parent: nat, key: Key)
    requires Inv(v, L) && DeleteLegal(v, L, parent, key)
    ensures Searchable(v, parent, key)
    ensures if DeleteCode(v, parent, key) == 0 then DeleteGoes(v, L, parent, key)
            else DeleteResult(v, L, parent, key, DeleteCode(v, parent, key), v, L, [])
  {
    DeleteCodeMeaning(v, L, parent, key);
    if parent in L.depth {
      FoundIsEntry(v, L, parent, key);
      if key in TreeOf(v, L)[parent].entries {
        EntryMeaning(v, L, parent, key);
        var e := v.disk[parent].entries[Find(v.disk[parent].entries, key, 2)];
        if e.IsDirectory() { assert DirOk(v, L, e.cluster); }
      }
    }
  }

  lemma DeletePlanned(v: Volume, L: Layout, parent: nat, key: Key)
    requires DeleteGoes(v, L, parent, key)
    ensures DeleteTraceOk(v, L, parent, key) && IsChain(v.fat, Freed(v, L, parent, key))
    ensures Freed(v, L, parent, key)[0] == v.disk[parent].entries[Find(v.disk[parent].entries, key, 2)].cluster
  {
    DeleteRemovable(v, L, parent, key);
  }

  lemma DeleteSucceeds(v: Volume, L: Layout, parent: nat, key: Key, w: Volume)
    requires DeleteGoes(v, L, parent, key) && DeleteTraceOk(v, L, parent, key)
    requires EntryDeleted(v, parent, Find(v.disk[parent].entries, key, 2), Freed(v, L, parent, key), w)
    ensures DeleteResult(v, L, parent, key, 0, w, DeleteLayout(v, L, parent, key), DeleteTrace(v, L, parent, key))
  {
    DeleteEffect(v, L, parent, key);
    DeleteCodeMeaning(v, L, parent, key);
  }

  ghost predicate AllData(disk: seq<Cluster>, chain: seq<nat>) {
    forall k :: 0 <= k < |chain| ==> chain[k] < |disk| && disk[chain[k]].Data?
  }

  /** The copying walk after `n` clusters: the buffer `now`, once `whole`, and the cluster to read next. */
  ghost predicate Copied(v: Volume, chain: seq<nat>, n: nat, whole: seq<Block>, now: seq<Block>, current: nat) {
    && n <= |chain| <= |whole| && IsChain(v.fat, chain) && AllData(v.disk, chain)
    && now == Blocks(v, chain)[..n] + whole[n..]
    && current == if n < |chain| then chain[n] else END_OF_FILE
  }

  lemma CopyEnds(v: Volume, chain: seq<nat>, whole: seq<Block>)
    requires IsChain(v.fat, chain) && AllData(v.disk, chain) && |chain| <= |whole|
    ensures Copied(v, chain, 0, whole, whole, chain[0])
    ensures forall n, now :: Copied(v, chain, n, whole, now, END_OF_FILE) ==> now == Blocks(v, chain) + whole[|chain|..]
  {
    assert Blocks(v, chain)[..0] + whole[0..] == whole;
    assert Blocks(v, chain)[..|chain|] == Blocks(v, chain);
  }

  lemma CopyStep(v: Volume, chain: seq<nat>, n: nat, whole: seq<Block>, now: seq<Block>, current: nat)
    requires Copied(v, chain, n, whole, now, current) && current != END_OF_FILE
    ensures n < |chain| && n < |now| == |whole| && current < |v.fat| && current < |v.disk| && v.disk[current].Data?
    ensures Copied(v, chain, n + 1, whole, now[n := v.disk[current].bytes], v.fat[current])
  {
    assert v.fat[chain[n]] == Next(chain, n);
    var next := now[n := v.disk[current].bytes];
    assert Blocks(v, chain)[n] == BlockAt(v, chain[n]);
    assert next == Blocks(v, chain)[..n + 1] + whole[n + 1..];
  }

  /** Behind the key of a non-directory slot is a readable chain with the file's blocks. */
  lemma ReadableFile(v: Volume, L: Layout, d: nat, key: Key)
    requires Inv(v, L) && d in L.depth && DirOk(v, L, d) && ReadLegal(v, L, d, key)
    requires Find(v.disk[d].entries, key, 0) < TABLE_SIZE
    requires !v.disk[d].entries[Find(v.disk[d].entries, key, 0)].IsDirectory()
    ensures Slot(d, Find(v.disk[d].entries, key, 0)) in L.chains
    ensures var i := Find(v.disk[d].entries, key, 0);
            var e, chain := v.disk[d].entries[i], L.chains[Slot(d, i)];
            && IsChain(v.fat, chain) && chain[0] == e.cluster && |chain| == ClusterCount(e.filesize)
            && AllData(v.disk, chain)
            && Holds(TreeOf(v, L), d, key, File(e.filesize, Blocks(v, chain)))
  {
    FindFrom(v.disk[d].entries, key);
    FoundIsEntry(v, L, d, key);
    EntryMeaning(v, L, d, key);
  }

  class Driver {
    const clusterMap: array<nat>
    const disk: array<Cluster>
    /** Ownership on the current volume. */
    ghost var layout: Layout
    /** All cluster writes so far. */
    ghost var log: seq<DiskWrite>

    ghost predicate Sized()
    {
      clusterMap.Length == CLUSTER_MAP_SIZE <= disk.Length
    }

    ghost function Vol(): Volume
      reads clusterMap, disk
    {
      Volume(clusterMap[..], disk[..])
    }

    ghost predicate Valid()
      reads this, clusterMap, disk
    {
      Sized() && Inv(Vol(), layout)
    }

    ghost function Tree(): Tree
      requires Valid()
      reads this, clusterMap, disk
    {
      TreeOf(Vol(), layout)
    }

    constructor (image: array<Cluster>)
      requires image.Length >= CLUSTER_MAP_SIZE
      ensures disk == image && fresh(clusterMap) && Sized()
    {
      clusterMap := new nat[CLUSTER_MAP_SIZE](_ => 0);
      disk := image;
      layout := FreshLayout();
      log := [];
    }

    /** `write_clusters` of one cluster. */
    method WriteCluster(content: Cluster, c: nat)
      requires c < disk.Length
      modifies disk, `log
      ensures disk[..] == old(disk[..])[c := content]
      ensures log == old(log) + [DiskWrite(c, content)]
    {
      disk[c] := content;
      log := log + [DiskWrite(c, content)];
    }

    /** `count_empty_fat_slots`. */
    method CountEmptyFatSlots(buf: array<nat>, required: nat) returns (count: nat)
      requires buf.Length >= required && buf != clusterMap
      modifies buf
      ensures count <= required && buf[..count] == FirstFit(clusterMap[..], required, 0)
    {
      count := 0;
      var i := 0;
      while count < required && i < clusterMap.Length
        invariant count <= required && Scanned(clusterMap[..], required, i, buf[..count])
      {
        ScanStep(clusterMap[..], required, i, buf[..count]);
        if clusterMap[i] == EMPTY_ENTRY {
          ghost var found := buf[..count];
          buf[count] := i;
          count := count + 1;
          assert buf[..count] == found + [i];
        }
        i := i + 1;
      }
    }

    /** `init_directory_table` on a zeroed table. */
    method InitDirectoryTable(name: Name, parent: nat) returns (t: seq<DirEntry>)
      requires parent < disk.Length && disk[parent].Table? && |disk[parent].entries| == TABLE_SIZE
      ensures t == ChildTable(name, disk[parent].entries[0].key.name, parent, 0)
    {
      t := seq(TABLE_SIZE, _ => ZERO_ENTRY);
      var copy := CopyName(name);
      t := t[0 := t[0].(key := t[0].key.(name := copy), attribute := ATTR_SUBDIRECTORY,
                        userAttribute := UATTR_NOT_EMPTY)];
      var parentName := disk[parent].entries[0].key.name;
      t := t[1 := t[1].(key := t[1].key.(name := parentName), attribute := ATTR_SUBDIRECTORY,
                        userAttribute := UATTR_NOT_EMPTY, cluster := parent)];
    }

    // ---- write --------------------------------------------------------------------------------

    /** The scan of `write` over the parent table: whether the key is there, and the slot to use. */
    method ScanForWrite(t: seq<DirEntry>, key: Key) returns (found: bool, slot: nat)
      requires |t| == TABLE_SIZE
      ensures found <==> Find(t, key, 0) < TABLE_SIZE
      ensures !found ==> slot == FreeSlot(t, 1)
    {
      slot := 0;
      found := false;
      var i := 0;
      while i < TABLE_SIZE
        invariant 0 <= i <= TABLE_SIZE
        invariant Find(t, key, 0) == Find(t, key, i)
        invariant slot == 0 && i >= 1 ==> FreeSlot(t, 1) == FreeSlot(t, i)
        invariant slot != 0 ==> FreeSlot(t, 1) == slot
      {
        if !t[i].Live() && slot == 0 {
          slot := i;
        }
        if t[i].key == key {
          found := true;
          return;
        }
        i := i + 1;
      }
    }

    /** The folder branch: the child table, then the marked allocation table. */
    method StoreFolder(req: Request, c: nat)
      requires Sized() && req.size == 0 && 3 <= c < CLUSTER_MAP_SIZE && IsTable(Vol(), req.parent)
      requires req.parent < CLUSTER_MAP_SIZE
      modifies clusterMap, disk, `log
      ensures clusterMap[..] == old(clusterMap[..])[c := END_OF_FILE]
      ensures InRange(old(disk[..]), Preparation(old(Vol()), req, [c]))
      ensures disk[..] == Apply(old(disk[..]), Preparation(old(Vol()), req, [c]))
      ensures log == old(log) + Preparation(old(Vol()), req, [c])
    {
      ghost var v := Vol();
      var child := InitDirectoryTable(req.key.name, req.parent);
      child := child[0 := child[0].(cluster := c)];
      assert child == ChildTable(req.key.name, v.disk[req.parent].entries[0].key.name, req.parent, c);
      WriteCluster(Table(child), c);
      clusterMap[c] := END_OF_FILE;
      WriteCluster(FatMap(clusterMap[..]), FAT_CLUSTER);
      FolderResult(v, req, c);
    }

    /** Link a cluster in the table, write the table, write the data. */
    method StoreBlock(c: nat, next: nat, block: Block)
      requires Sized() && c < CLUSTER_MAP_SIZE
      modifies clusterMap, disk, `log
      ensures Vol() == AfterRound(old(Vol()), c, next, block)
      ensures log == old(log) + RoundWrites(old(clusterMap[..]), c, next, block)
    {
      clusterMap[c] := next;
      WriteCluster(FatMap(clusterMap[..]), FAT_CLUSTER);
      WriteCluster(Data(block), c);
    }

    /** One round of the file branch. */
    method StoreRound(slots: seq<nat>, buf: seq<Block>, j: nat, ghost v: Volume, ghost ws: seq<DiskWrite>)
      returns (ghost more: seq<DiskWrite>)
      requires Sized() && RoundsDone(v, slots, buf, j, Vol(), ws) && j < |slots|
      modifies clusterMap, disk, `log
      ensures RoundsDone(v, slots, buf, j + 1, Vol(), ws + more)
      ensures log == old(log) + more
    {
      RoundStep(v, slots, buf, j, Vol(), ws);
      var next := if j < |slots| - 1 then slots[j + 1] else END_OF_FILE;
      more := RoundWrites(clusterMap[..], slots[j], next, buf[j]);
      StoreBlock(slots[j], next, buf[j]);
    }

    /** The file branch. */
    method StoreFile(slots: seq<nat>, buf: seq<Block>)
      requires Sized() && Slots(clusterMap[..], slots) && |slots| <= |buf|
      modifies clusterMap, disk, `log
      ensures RoundsDone(old(Vol()), slots, buf, |slots|, Vol(), FileWrites(old(clusterMap[..]), slots, buf, |slots|))
      ensures log == old(log) + FileWrites(old(clusterMap[..]), slots, buf, |slots|)
    {
      ghost var v, before := Vol(), log;
      ghost var ws: seq<DiskWrite> := [];
      for j := 0 to |slots|
        invariant RoundsDone(v, slots, buf, j, Vol(), ws) && log == before + ws
      {
        ghost var more := StoreRound(slots, buf, j, v, ws);
        ConcatThree(before, ws, more);
        ws := ws + more;
      }
    }

    /** The checks of `write`, up to the choice of directory slot and clusters. */
    method PlanWrite(req: Request) returns (code: int, slot: nat, slots: seq<nat>)
      requires Sized() && req.parent < CLUSTER_MAP_SIZE
      requires clusterMap[req.parent] == END_OF_FILE ==> IsTable(Vol(), req.parent)
      ensures code == WriteCode(Vol(), req)
      ensures code == 0 ==> slot == FreeSlot(disk[req.parent].entries, 1) && slots == Taken(Vol(), req)
    {
      slot, slots := 0, [];
      if clusterMap[req.parent] != END_OF_FILE { return 2, slot, slots; }
      var found;
      found, slot := ScanForWrite(disk[req.parent].entries, req.key);
      if found { return 1, slot, slots; }
      if slot == 0 { return -1, slot, slots; }
      var required := ClusterCount(req.size);
      if req.size == 0 { required := 1; }
      var slotBuf := new nat[required](_ => 0);
      var count := CountEmptyFatSlots(slotBuf, required);
      slots := slotBuf[..count];
      code := if count < required then -1 else 0;
    }

    /** The writing part of `write`. */
    method CarryOutWrite(req: Request, slot: nat, slots: seq<nat>)
      requires Sized() && Planned(Vol(), req, slot, slots)
      modifies clusterMap, disk, `log
      ensures CarriedOut(old(Vol()), req, Vol())
      ensures log == old(log) + WriteTrace(old(Vol()), req)
    {
      ghost var v, before := Vol(), log;
      var table := disk[req.parent].entries;
      ghost var prep := Preparation(v, req, slots);
      if req.size == 0 {
        assert slots == [slots[0]];
        StoreFolder(req, slots[0]);
        assert LinkFat(v.fat, slots, 0) == v.fat;
      } else {
        StoreFile(slots, req.buf);
        FileWritesResult(v.disk, v.fat, slots, req.buf, |slots|);
      }
      assert log == before + prep && disk[..] == Apply(v.disk, prep);
      ghost var commit := Commit(v, req, slots[0]);
      WriteCluster(Table(table[slot := NewEntry(req, slots[0])]), req.parent);
      ApplyOne(v.disk, prep, commit);
      assert before + (prep + [commit]) == (before + prep) + [commit];
    }

    /** A planned write goes through. */
    method CompleteWrite(req: Request, slot: nat, slots: seq<nat>) returns (ghost ws: seq<DiskWrite>)
      requires Valid() && WriteGoes(Vol(), layout, req)
      requires slot == FreeSlot(disk[req.parent].entries, 1) && slots == Taken(Vol(), req)
      modifies clusterMap, disk, `layout, `log
      ensures Valid() && log == old(log) + ws
      ensures WriteResult(old(Vol()), old(layout), req, 0, Vol(), layout, ws)
    {
      ghost var v, L := Vol(), layout;
      WritePlanned(v, L, req);
      CarryOutWrite(req, slot, slots);
      layout := WriteLayout(v, L, req);
      WriteSucceeds(v, L, req, Vol());
      ws := WriteTrace(v, req);
    }

    /** `write`. */
    method Write(req: Request) returns (code: int, ghost ws: seq<DiskWrite>)
      requires Valid() && WriteLegal(Vol(), layout, req)
      modifies clusterMap, disk, `layout, `log
      ensures Valid() && log == old(log) + ws
      ensures WriteResult(old(Vol()), old(layout), req, code, Vol(), layout, ws)
    {
      WriteChecks(Vol(), layout, req);
      ws := [];
      var slot, slots;
      code, slot, slots := PlanWrite(req);
      if code == 0 {
        ws := CompleteWrite(req, slot, slots);
      }
    }

    // ---- delete -------------------------------------------------------------------------------

    /** The emptiness test of `delete`, from slot 2 on. */
    method IsEmptyTable(t: seq<DirEntry>) returns (isEmpty: bool)
      requires |t| == TABLE_SIZE
      ensures isEmpty == NoLiveFrom(t, 2)
    {
      isEmpty := true;
      var j := 2;
      while isEmpty && j < TABLE_SIZE
        invariant 2 <= j <= TABLE_SIZE
        invariant NoLiveFrom(t, 2) == (isEmpty && NoLiveFrom(t, j))
      {
        if t[j].Live() {
          isEmpty := false;
        }
        j := j + 1;
      }
    }

    /** One step of the walk of `delete`: free the cluster in the table, zero it on disk. */
    method FreeCluster(c: nat) returns (next: nat)
      requires Sized() && c < CLUSTER_MAP_SIZE
      modifies clusterMap, disk, `log
      ensures next == old(clusterMap[c])
      ensures Vol() == AfterFree(old(Vol()), c)
      ensures log == old(log) + [DiskWrite(c, Data(ZeroBlock()))]
    {
      next := clusterMap[c];
      clusterMap[c] := EMPTY_ENTRY;
      WriteCluster(Data(ZeroBlock()), c);
    }

    /** The walk of `delete`. */
    method FreeChain(head: nat, ghost chain: seq<nat>)
      requires Sized() && IsChain(clusterMap[..], chain) && chain[0] == head
      modifies clusterMap, disk, `log
      ensures WalkDone(old(Vol()), chain, |chain|, Vol(), ZeroWrites(chain, |chain|))
      ensures log == old(log) + ZeroWrites(chain, |chain|)
    {
      ghost var v, before, j := Vol(), log, 0;
      ghost var ws: seq<DiskWrite> := [];
      var current := head;
      while true
        invariant j < |chain| && current == chain[j]
        invariant WalkDone(v, chain, j, Vol(), ws) && log == before + ws
        decreases |chain| - j
      {
        WalkStep(v, chain, j, Vol(), ws);
        ws := ws + [DiskWrite(current, Data(ZeroBlock()))];
        current := FreeCluster(current);
        j := j + 1;
        if current == END_OF_FILE { break; }
      }
    }

    /** The search and the emptiness test of `delete`. */
    method PlanDelete(parent: nat, key: Key) returns (code: int, i: nat)
      requires Sized() && parent < CLUSTER_MAP_SIZE && Searchable(Vol(), parent, key)
      ensures code == DeleteCode(Vol(), parent, key)
      ensures code == 0 ==> i == Find(disk[parent].entries, key, 2) < TABLE_SIZE
    {
      i := 2;
      if clusterMap[parent] != END_OF_FILE { return 2, i; }
      var t := disk[parent].entries;
      while i < TABLE_SIZE
        invariant 2 <= i <= TABLE_SIZE
        invariant Find(t, key, 2) == Find(t, key, i)
      {
        if t[i].key == key {
          if t[i].IsDirectory() {
            var isEmpty := IsEmptyTable(disk[t[i].cluster].entries);
            if !isEmpty { return 2, i; }
          }
          return 0, i;
        }
        i := i + 1;
      }
      return 1, i;
    }

    /** The writing part of `delete`. */
    method CarryOutDelete(parent: nat, i: nat, ghost chain: seq<nat>)
      requires Sized() && parent < CLUSTER_MAP_SIZE && IsTable(Vol(), parent) && i < TABLE_SIZE
      requires IsChain(clusterMap[..], chain) && chain[0] == disk[parent].entries[i].cluster
      modifies clusterMap, disk, `log
      ensures EntryDeleted(old(Vol()), parent, i, chain, Vol())
      ensures log == old(log) + EntryDeleteTrace(old(Vol()), parent, i, chain)
    {
      ghost var v, before := Vol(), log;
      var table, current := disk[parent].entries, disk[parent].entries[i].cluster;
      WriteCluster(Table(table[i := ZERO_ENTRY]), parent);
      assert Vol() == EntryCleared(v, parent, i);
      FreeChain(current, chain);
      EntryDeletedIs(v, parent, i, chain, Vol(), ZeroWrites(chain, |chain|));
      EntryDeleteLog(before, v, parent, i, chain, clusterMap[..]);
      WriteCluster(FatMap(clusterMap[..]), FAT_CLUSTER);
    }

    /** `delete`. */
    method Delete(parent: nat, key: Key) returns (code: int, ghost ws: seq<DiskWrite>)
      requires Valid() && DeleteLegal(Vol(), layout, parent, key)
      modifies clusterMap, disk, `layout, `log
      ensures Valid() && log == old(log) + ws
      ensures DeleteResult(old(Vol()), old(layout), parent, key, code, Vol(), layout, ws)
    {
      ghost var v, L := Vol(), layout;
      ws := [];
      DeleteChecks(v, L, parent, key);
      var i;
      code, i := PlanDelete(parent, key);
      if code == 0 {
        DeletePlanned(v, L, parent, key);
        CarryOutDelete(parent, i, Freed(v, L, parent, key));
        layout := DeleteLayout(v, L, parent, key);
        DeleteSucceeds(v, L, parent, key, Vol());
        ws := DeleteTrace(v, L, parent, key);
      }
    }

    // ---- read and read_directory --------------------------------------------------------------

    /** The first slot of `t` that carries the key, as the loops of `read` look for it. */
    method FindEntry(t: seq<DirEntry>, key: Key) returns (i: nat)
      requires |t| == TABLE_SIZE
      ensures i == Find(t, key, 0)
    {
      i := 0;
      while i < TABLE_SIZE && t[i].key != key
        invariant 0 <= i <= TABLE_SIZE
        invariant Find(t, key, 0) == Find(t, key, i)
      {
        i := i + 1;
      }
    }

    /** The copying walk of `read`. */
    method CopyChain(head: nat, buf: array<Block>, ghost chain: seq<nat>)
      requires Sized() && IsChain(clusterMap[..], chain) && chain[0] == head && |chain| <= buf.Length
      requires AllData(disk[..], chain)
      modifies buf
      ensures buf[..] == Blocks(Vol(), chain) + old(buf[..])[|chain|..]
    {
      ghost var v, whole := Vol(), buf[..];
      CopyEnds(v, chain, whole);
      var current, clustersRead := head, 0;
      while current != END_OF_FILE
        invariant Vol() == v
        invariant Copied(v, chain, clustersRead, whole, buf[..], current)
        decreases |chain| - clustersRead
      {
        CopyStep(v, chain, clustersRead, whole, buf[..], current);
        buf[clustersRead] := disk[current].bytes;
        current := clusterMap[current];
        clustersRead := clustersRead + 1;
      }
    }

    /** `read`. */
    method Read(parent: nat, key: Key, bufferSize: nat, buf: array<Block>) returns (code: int)
      requires Valid() && ReadLegal(Vol(), layout, parent, key)
      requires bufferSize / CLUSTER_SIZE <= buf.Length
      modifies buf
      ensures Valid() && Vol() == old(Vol())
      ensures code == TreeReadCode(Tree(), parent, key, bufferSize)
      ensures code != 0 ==> buf[..] == old(buf[..])
      ensures code == 0 ==>
        && Holds(Tree(), parent, key, File(Tree()[parent].entries[key].size, Tree()[parent].entries[key].blocks))
        && |Tree()[parent].entries[key].blocks| <= bufferSize / CLUSTER_SIZE
        && buf[..] == Tree()[parent].entries[key].blocks + old(buf[..])[|Tree()[parent].entries[key].blocks|..]
    {
      ghost var v, L := Vol(), layout;
      ReadCodeMeaning(v, L, parent, key, bufferSize);
      if clusterMap[parent] != END_OF_FILE { return 2; }
      var i := FindEntry(disk[parent].entries, key);
      if i == TABLE_SIZE { return 2; }
      var entry := disk[parent].entries[i];
      if entry.IsDirectory() { return 1; }
      if bufferSize / CLUSTER_SIZE < ClusterCount(entry.filesize) { return -1; }
      ReadableFile(v, L, parent, key);
      CopyChain(entry.cluster, buf, L.chains[Slot(parent, i)]);
      assert Vol() == v;
      return 0;
    }

    /** `read_directory`. */
    method ReadDirectory(parent: nat, key: Key, bufferSize: nat, buf: array<Cluster>) returns (code: int)
      requires Valid() && parent in layout.depth && buf != disk && buf.Length >= 1
      modifies buf
      ensures Valid() && Vol() == old(Vol())
      ensures code == TreeReadDirCode(Tree(), parent, key, bufferSize)
      ensures code != 0 ==> buf[..] == old(buf[..])
      ensures code == 0 ==> Resolve(Tree(), parent, key) < disk.Length
      ensures code == 0 ==> buf[..] == old(buf[..])[0 := disk[Resolve(Tree(), parent, key)]]
    {
      ghost var v, L := Vol(), layout;
      ReadDirMeaning(v, L, parent, key);
      var t := disk[parent].entries;
      var i := 0;
      while i < TABLE_SIZE && !(t[i].Live() && t[i].key == key)
        invariant 0 <= i <= TABLE_SIZE
        invariant FindUsed(t, key, 0) == FindUsed(t, key, i)
      {
        i := i + 1;
      }
      if i == TABLE_SIZE { return 2; }
      if !t[i].IsDirectory() { return 1; }
      if bufferSize < ENTRY_SIZE { return -1; }
      buf[0] := disk[t[i].cluster];
      assert Vol() == v;
      return 0;
    }

    // ---- initialize_filesystem_fat32 ----------------------------------------------------------

    /**
     * `create_fat32`. `rest` is what the last three blocks of cluster 2 hold when only its first block
     * has been overwritten with the name of the root.
     */
    method CreateFat32(rest: seq<DirEntry>)
      requires Sized() && |rest| == TABLE_SIZE - 16
      modifies clusterMap, disk, `layout, `log
      ensures Vol() == Formatted(old(disk[..])) && layout == FreshLayout() && Valid()
      ensures var n := |old(log)|;
              && |log| == n + 4 && log[..n] == old(log)
              && log[n].cluster == 0 && log[n + 1].cluster == 1 && log[n + 2].cluster == 2 && log[n + 3].cluster == 2
    {
      ghost var image := disk[..];
      WriteCluster(Boot(true), BOOT_CLUSTER);
      ClearClusterMap();
      clusterMap[0], clusterMap[1], clusterMap[2] := CLUSTER_0_VALUE, END_OF_FILE, END_OF_FILE;
      assert clusterMap[..] == FreshFat();
      WriteCluster(FatMap(clusterMap[..]), FAT_CLUSTER);
      var block := seq(16, _ => ZERO_ENTRY)[0 := ZERO_ENTRY.(key := Key(ROOT_NAME, ZERO_EXT))];
      WriteCluster(Table(block + rest), ROOT_CLUSTER);
      var root := InitDirectoryTable(ROOT_NAME, ROOT_CLUSTER);
      WriteCluster(Table(root), ROOT_CLUSTER);
      layout := FreshLayout();
      assert disk[..] == Formatted(image).disk;
      FormatHealthy(image);
    }

    /** The `memset` of the cached table. */
    method ClearClusterMap()
      modifies clusterMap
      ensures forall i :: 0 <= i < clusterMap.Length ==> clusterMap[i] == EMPTY_ENTRY
    {
      for i := 0 to clusterMap.Length
        invariant forall j :: 0 <= j < i ==> clusterMap[j] == EMPTY_ENTRY
      {
        clusterMap[i] := EMPTY_ENTRY;
      }
    }

    /** `read_clusters` of the allocation table into the cache. */
    method LoadClusterMap(next: seq<nat>)
      requires |next| == clusterMap.Length
      modifies clusterMap
      ensures clusterMap[..] == next
    {
      for i := 0 to clusterMap.Length
        invariant clusterMap[..i] == next[..i]
      {
        clusterMap[i] := next[i];
      }
    }

    /** `initialize_filesystem_fat32`: format a disk without the signature, load the table of one with it. */
    method Initialize(rest: seq<DirEntry>, ghost L: Layout)
      requires Sized() && |rest| == TABLE_SIZE - 16
      requires disk[BOOT_CLUSTER] == Boot(true) ==> disk[FAT_CLUSTER].FatMap? && Inv(Mount(disk[..]), L)
      modifies clusterMap, disk, `layout, `log
      ensures Valid()
      ensures if old(disk[BOOT_CLUSTER]) == Boot(true)
              then Vol() == Mount(old(disk[..])) && layout == L && log == old(log)
              else Vol() == Formatted(old(disk[..])) && layout == FreshLayout()
    {
      if disk[BOOT_CLUSTER] != Boot(true) {
        CreateFat32(rest);
      } else {
        LoadClusterMap(disk[FAT_CLUSTER].next);
        layout := L;
        assert Vol() == Mount(old(disk[..]));
      }
    }
  }
}
