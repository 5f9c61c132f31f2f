/** Laws that relate several operations: leaks over runs, undo, and replace-on-insert. */
module Fat32Laws {
  import opened Fat32Types
  import opened Fat32Layout
  import opened Fat32Frame
  import opened Fat32Unlink
  import opened Fat32Disk
  import opened Fat32Write
  import opened Fat32Delete
  import opened Fat32Codes
  import opened Fat32Runs

  // ---- Leaks ----------------------------------------------------------------------------------

  /** No power cut: nothing was to be written, or all of it was. */
  ghost predicate Finished(st: State, ev: Event) {
    Goes(st, ev) ==> ev.written >= |Trace(st, ev)|
  }

  /** The clusters that a power cut in an operation leaves marked and unowned. */
  ghost function LeftBehind(st: State, ev: Event): set<nat> {
    if !Goes(st, ev) || Finished(st, ev) then {}
    else
      match ev
      case Write(req, n) =>
        if Marked(req, n) <= |Taken(st.volume, req)| then Elements(Taken(st.volume, req)[..Marked(req, n)]) else {}
      case Delete(parent, key, n) => if n == 0 then {} else Elements(Freed(st.volume, st.layout, parent, key))
  }

  ghost function Leaks(st: State): set<nat> { Leaked(st.volume, st.layout) }

  lemma LinkedNotLeaked(v: Volume, w: Volume, L: Layout, s: Slot, slots: seq<nat>, isDir: bool)
    requires Slots(v.fat, slots) && slots != [] && s.dir in L.depth
    requires forall k :: 0 <= k < |slots| ==> v.fat[slots[k]] == EMPTY_ENTRY
    requires w.fat == LinkFat(v.fat, slots, |slots|)
    ensures Leaked(w, AddSlot(L, s, slots, isDir)) == Leaked(v, L)
  {
    assert slots[..|slots|] == slots;
  }

  lemma WrittenLeaks(st: State, req: Request, n: nat)
    requires Healthy(st) && Goes(st, Write(req, n)) && Finished(st, Write(req, n))
    ensures Leaks(Step(st, Write(req, n))) == Leaks(st)
  {
    WriteEffect(st.volume, st.layout, req);
    FirstFitLeast(st.volume.fat, Required(req), 0);
    LinkedNotLeaked(st.volume, Step(st, Write(req, n)).volume, st.layout, WriteSlot(st.volume, req),
                    Taken(st.volume, req), req.size == 0);
  }

  lemma WriteLeaks(st: State, req: Request, n: nat)
    requires Healthy(st) && Goes(st, Write(req, n))
    ensures Leaks(Step(st, Write(req, n))) == Leaks(st) + LeftBehind(st, Write(req, n))
  {
    if Finished(st, Write(req, n)) {
      WrittenLeaks(st, req, n);
    } else {
      WriteCrash(st.volume, st.layout, req, n);
    }
  }

  lemma DeleteStepLeaks(st: State, parent: nat, key: Key, n: nat)
    requires Healthy(st) && Goes(st, Delete(parent, key, n))
    ensures Leaks(Step(st, Delete(parent, key, n))) == Leaks(st) + LeftBehind(st, Delete(parent, key, n))
  {
    var ws := DeleteTrace(st.volume, st.layout, parent, key);
    if n == 0 {
      assert ws[..0] == [];
      NothingWritten(st.volume);
    } else if n < |ws| {
      DeleteLeaks(st.volume, st.layout, parent, key, n);
    } else {
      assert ws[..|ws|] == ws;
      DeleteLeaks(st.volume, st.layout, parent, key, |ws|);
    }
  }

  /** The only damage of a power cut is leaked clusters: those of the operation's own chain that are marked by then. */
  lemma StepLeaks(st: State, ev: Event)
    requires Healthy(st)
    ensures Leaks(Step(st, ev)) == Leaks(st) + LeftBehind(st, ev)
  {
    NothingWritten(st.volume);
    if Goes(st, ev) {
      match ev
      case Write(req, n) => WriteLeaks(st, req, n);
      case Delete(parent, key, n) => DeleteStepLeaks(st, parent, key, n);
    }
  }

  /** All that the power cuts of the first `n` events of a run left behind. */
  ghost function LeftBehindIn(sts: seq<State>, evs: seq<Event>, n: nat): set<nat>
    requires n <= |evs| < |sts|
  {
    if n == 0 then {} else LeftBehindIn(sts, evs, n - 1) + LeftBehind(sts[n - 1], evs[n - 1])
  }

  ghost predicate LeaksGrow(sts: seq<State>, evs: seq<Event>, n: nat) {
    n < |evs| < |sts| && Leaks(sts[n + 1]) == Leaks(sts[n]) + LeftBehind(sts[n], evs[n])
  }

  lemma RunStepLeaks(sts: seq<State>, evs: seq<Event>, i: nat)
    requires IsRun(sts, evs) && Healthy(sts[0]) && i < |evs|
    ensures LeaksGrow(sts, evs, i)
  {
    RunHealthy(sts, evs, i);
    assert Follows(sts, evs, i);
    StepLeaks(sts[i], evs[i]);
  }

  lemma UnionOfNone(a: set<nat>)
    ensures a + {} == a
  {
  }

  lemma UnionOfParts(a: set<nat>, b: set<nat>, c: set<nat>, x: set<nat>, y: set<nat>)
    requires b == a + x && c == b + y
    ensures c == a + (x + y)
  {
  }

  /** The leaks are exactly those at the start and what the power cuts of the first `n` events left behind. */
  ghost predicate LeaksAre(sts: seq<State>, evs: seq<Event>, n: nat) {
    n <= |evs| < |sts| && Leaks(sts[n]) == Leaks(sts[0]) + LeftBehindIn(sts, evs, n)
  }

  lemma LeaksFirst(sts: seq<State>, evs: seq<Event>)
    requires |evs| < |sts|
    ensures LeaksAre(sts, evs, 0)
  {
    UnionOfNone(Leaks(sts[0]));
  }

  lemma LeaksNext(sts: seq<State>, evs: seq<Event>, n: nat)
    requires LeaksAre(sts, evs, n) && LeaksGrow(sts, evs, n)
    ensures LeaksAre(sts, evs, n + 1)
  {
    UnionOfParts(Leaks(sts[0]), Leaks(sts[n]), Leaks(sts[n + 1]),
                 LeftBehindIn(sts, evs, n), LeftBehind(sts[n], evs[n]));
  }

  lemma RunLeaksNext(sts: seq<State>, evs: seq<Event>, i: nat)
    requires IsRun(sts, evs) && Healthy(sts[0]) && i < |evs| && LeaksAre(sts, evs, i)
    ensures LeaksAre(sts, evs, i + 1)
  {
    RunStepLeaks(sts, evs, i);
    LeaksNext(sts, evs, i);
  }

  /** Over a run, nothing leaks but what its power cuts leave behind, and nothing heals. */
  lemma RunLeaks(sts: seq<State>, evs: seq<Event>, i: nat)
    requires IsRun(sts, evs) && Healthy(sts[0]) && i <= |evs|
    ensures LeaksAre(sts, evs, i)
  {
    LeaksFirst(sts, evs);
    for j := 0 to i
      invariant LeaksAre(sts, evs, j)
    {
      RunLeaksNext(sts, evs, j);
    }
  }

  lemma {:induction false} NothingLeft(sts: seq<State>, evs: seq<Event>, i: nat)
    requires i <= |evs| < |sts| && forall j :: 0 <= j < i ==> Finished(sts[j], evs[j])
    ensures LeftBehindIn(sts, evs, i) == {}
  {
    if i > 0 { NothingLeft(sts, evs, i - 1); }
  }

  /** A run without power cuts leaks nothing: every marked cluster stays reachable from a directory. */
  lemma RunWithoutCuts(sts: seq<State>, evs: seq<Event>, i: nat)
    requires IsRun(sts, evs) && Healthy(sts[0]) && i <= |evs|
    requires forall j :: 0 <= j < i ==> Finished(sts[j], evs[j])
    ensures Leaks(sts[i]) == Leaks(sts[0])
  {
    RunLeaks(sts, evs, i);
    NothingLeft(sts, evs, i);
  }

  /** From a formatted disk on, without power cuts, every cluster is reserved, empty or owned by an entry. */
  lemma FormatLeaksNothing(disk: seq<Cluster>, sts: seq<State>, evs: seq<Event>, i: nat)
    requires |disk| >= CLUSTER_MAP_SIZE && sts != [] && sts[0] == State(Formatted(disk), FreshLayout())
    requires IsRun(sts, evs) && i <= |evs| && forall j :: 0 <= j < i ==> Finished(sts[j], evs[j])
    ensures |sts[i].volume.fat| == 512
    ensures forall c :: 3 <= c < 512 ==> sts[i].volume.fat[c] == 0 || c in sts[i].layout.owner
  {
    FormatHealthy(disk);
    RunWithoutCuts(sts, evs, i);
    RunHealthy(sts, evs, i);
    forall c | 3 <= c < 512
      ensures sts[i].volume.fat[c] == 0 || c in sts[i].layout.owner
    {
      assert c !in Leaks(sts[i]);
    }
  }

  // ---- Undo -----------------------------------------------------------------------------------

  lemma ClearLinked(fat: seq<nat>, slots: seq<nat>)
    requires Slots(fat, slots) && forall k :: 0 <= k < |slots| ==> fat[slots[k]] == EMPTY_ENTRY
    ensures Clusters(LinkFat(fat, slots, |slots|), slots)
    ensures ClearFat(LinkFat(fat, slots, |slots|), slots, |slots|) == fat
  {
    assert slots[..|slots|] == slots;
  }

  lemma WriteThenFound(v: Volume, L: Layout, req: Request)
    requires WriteGoes(v, L, req) && TraceOk(v, req)
    ensures InRange(v.disk, WriteTrace(v, req))
    ensures Apply(v.disk, WriteTrace(v, req))[req.parent]
         == Table(v.disk[req.parent].entries
                    [FreeSlot(v.disk[req.parent].entries, 1) := NewEntry(req, Taken(v, req)[0])])
    ensures Find(Apply(v.disk, WriteTrace(v, req))[req.parent].entries, req.key, 2) ==
            FreeSlot(v.disk[req.parent].entries, 1)
    ensures v.disk[req.parent].entries[FreeSlot(v.disk[req.parent].entries, 1)] == ZERO_ENTRY
  {
    WriteEffect(v, L, req);
    Prepare(v, L, req);
    var prep := Preparation(v, req, Taken(v, req));
    ApplyOne(v.disk, prep, Commit(v, req, Taken(v, req)[0]));
    WriteParentReady(v, L, req);
    var t := v.disk[req.parent].entries;
    LinkTableOk(t, FreeSlot(t, 1), NewEntry(req, Taken(v, req)[0]));
  }

  /** What a successful `write` stores in the parent: the new entry in the free slot, field by field. */
  lemma WrittenEntry(v: Volume, L: Layout, req: Request)
    requires WriteGoes(v, L, req) && TraceOk(v, req)
    ensures InRange(v.disk, WriteTrace(v, req)) && Apply(v.disk, WriteTrace(v, req))[req.parent].Table?
    ensures var t, u := v.disk[req.parent].entries, Apply(v.disk, WriteTrace(v, req))[req.parent].entries;
            var i := FreeSlot(t, 1);
            && 2 <= i < 64 == |t| == |u| && (forall j :: 0 <= j < 64 && j != i ==> u[j] == t[j])
            && u[i].key == req.key && u[i].userAttribute == 0xAA
            && u[i].attribute == (if req.size == 0 then 0x10 else 0)
            && u[i].filesize == req.size && u[i].cluster == Taken(v, req)[0]
  {
    WriteThenFound(v, L, req);
    WriteParentReady(v, L, req);
  }

  /** Round `j` of the file branch: the table, then the `j`th cluster of the buffer. */
  ghost predicate RoundAt(ws: seq<DiskWrite>, req: Request, cs: seq<nat>, j: nat) {
    && j < |cs| <= |req.buf| && 2 * j + 1 < |ws|
    && ws[2 * j].cluster == 1 && ws[2 * j + 1] == DiskWrite(cs[j], Data(req.buf[j]))
  }

  lemma RoundOrder(fat: seq<nat>, cs: seq<nat>, req: Request, last: DiskWrite, j: nat)
    requires j < |cs| <= |req.buf| && Slots(fat, cs)
    ensures RoundAt(FileWrites(fat, cs, req.buf, |cs|) + [last], req, cs, j)
  {
    var ws := FileWrites(fat, cs, req.buf, |cs|);
    assert ws[2 * j] == FileWrite(fat, cs, req.buf, 2 * j);
    assert ws[2 * j + 1] == FileWrite(fat, cs, req.buf, 2 * j + 1);
  }

  /** The order of the cluster writes of a successful `write`: its clusters, table first for a file, then the parent. */
  lemma WriteOrder(v: Volume, L: Layout, req: Request)
    requires WriteGoes(v, L, req) && TraceOk(v, req)
    ensures var ws, cs := WriteTrace(v, req), Taken(v, req);
            && |cs| == Required(req) && |ws| == WriteLength(req) && ws[|ws| - 1].cluster == req.parent
            && if req.size == 0 then ws[0].cluster == cs[0] && ws[0].content.Table? && ws[1].cluster == 1
               else forall j :: 0 <= j < |cs| ==> RoundAt(ws, req, cs, j)
  {
    WriteTraceLength(v, L, req);
    if req.size > 0 {
      forall j | 0 <= j < |Taken(v, req)|
        ensures RoundAt(WriteTrace(v, req), req, Taken(v, req), j)
      {
        RoundOrder(v.fat, Taken(v, req), req, Commit(v, req, Taken(v, req)[0]), j);
      }
    }
  }

  /** The order of the cluster writes of a successful `delete`: parent, the chain from its head on, table. */
  lemma DeleteOrder(v: Volume, L: Layout, parent: nat, key: Key)
    requires DeleteGoes(v, L, parent, key) && DeleteTraceOk(v, L, parent, key)
    ensures var ws, chain := DeleteTrace(v, L, parent, key), Freed(v, L, parent, key);
            && |ws| == |chain| + 2 && ws[0].cluster == parent && ws[|chain| + 1].cluster == 1
            && chain[0] == v.disk[parent].entries[Find(v.disk[parent].entries, key, 2)].cluster
            && forall k :: 0 <= k < |chain| ==> ws[k + 1].cluster == chain[k]
  {
    DeleteRemovable(v, L, parent, key);
    var ws, chain := DeleteTrace(v, L, parent, key), Freed(v, L, parent, key);
    forall k | 0 <= k < |chain| ensures ws[k + 1].cluster == chain[k] {
      assert ws[k + 1] == Cleanup(v.fat, chain)[k] == ZeroWrites(chain, |chain|)[k];
    }
  }

  lemma WriteThenDeletable(v: Volume, L: Layout, req: Request)
    requires WriteGoes(v, L, req) && TraceOk(v, req)
    ensures InRange(v.disk, WriteTrace(v, req)) && Apply(v.disk, WriteTrace(v, req))[FAT_CLUSTER].FatMap?
    ensures DeleteGoes(Mount(Apply(v.disk, WriteTrace(v, req))), WriteLayout(v, L, req), req.parent, req.key)
  {
    WriteEffect(v, L, req);
    WriteParentReady(v, L, req);
    var w, M := Mount(Apply(v.disk, WriteTrace(v, req))), WriteLayout(v, L, req);
    assert DirOk(w, M, req.parent);
    DeleteCodeMeaning(w, M, req.parent, req.key);
  }

  /** The volume after a successful `write`. */
  ghost function Written(v: Volume, req: Request): Volume
    requires TraceOk(v, req)
  {
    AfterWrites(v, WriteTrace(v, req))
  }

  /** The disk after that `write` and the `delete` of the same key. */
  ghost predicate UndoOk(v: Volume, L: Layout, req: Request) {
    && TraceOk(v, req) && req.parent in L.depth
    && DeleteTraceOk(Written(v, req), WriteLayout(v, L, req), req.parent, req.key)
    && InRange(Written(v, req).disk, DeleteTrace(Written(v, req), WriteLayout(v, L, req), req.parent, req.key))
  }

  ghost function Undone(v: Volume, L: Layout, req: Request): seq<Cluster>
    requires UndoOk(v, L, req)
  {
    Apply(Written(v, req).disk, DeleteTrace(Written(v, req), WriteLayout(v, L, req), req.parent, req.key))
  }

  lemma UndoChain(v: Volume, L: Layout, req: Request)
    requires WriteGoes(v, L, req) && TraceOk(v, req)
    ensures UndoOk(v, L, req)
    ensures DeleteGoes(Written(v, req), WriteLayout(v, L, req), req.parent, req.key)
    ensures Freed(Written(v, req), WriteLayout(v, L, req), req.parent, req.key) == Taken(v, req)
  {
    WriteThenDeletable(v, L, req);
    WriteThenFound(v, L, req);
    DeleteEffect(Written(v, req), WriteLayout(v, L, req), req.parent, req.key);
  }

  lemma UndoTable(v: Volume, L: Layout, req: Request)
    requires WriteGoes(v, L, req) && UndoOk(v, L, req)
    ensures Undone(v, L, req)[FAT_CLUSTER] == FatMap(v.fat)
  {
    UndoChain(v, L, req);
    WriteEffect(v, L, req);
    DeleteEffect(Written(v, req), WriteLayout(v, L, req), req.parent, req.key);
    FirstFitLeast(v.fat, Required(req), 0);
    ClearLinked(v.fat, Taken(v, req));
  }

  lemma UndoParent(v: Volume, L: Layout, req: Request)
    requires WriteGoes(v, L, req) && UndoOk(v, L, req)
    ensures Undone(v, L, req)[req.parent] == v.disk[req.parent]
  {
    UndoChain(v, L, req);
    WriteThenFound(v, L, req);
    DeletedParent(Written(v, req), WriteLayout(v, L, req), req.parent, req.key);
    var t := v.disk[req.parent].entries;
    assert t[FreeSlot(t, 1) := NewEntry(req, Taken(v, req)[0])][FreeSlot(t, 1) := ZERO_ENTRY] == t;
  }

  lemma WriteElsewhere(v: Volume, req: Request, c: nat)
    requires TraceOk(v, req) && InRange(v.disk, WriteTrace(v, req))
    requires c < |v.disk| && c != FAT_CLUSTER && c != req.parent && c !in Taken(v, req)
    ensures Apply(v.disk, WriteTrace(v, req))[c] == v.disk[c]
  {
    ApplyElsewhere(v.disk, WriteTrace(v, req), c);
  }

  lemma DeleteElsewhere(v: Volume, L: Layout, parent: nat, key: Key, c: nat)
    requires DeleteTraceOk(v, L, parent, key) && InRange(v.disk, DeleteTrace(v, L, parent, key))
    requires c < |v.disk| && c != FAT_CLUSTER && c != parent && c !in Freed(v, L, parent, key)
    ensures Apply(v.disk, DeleteTrace(v, L, parent, key))[c] == v.disk[c]
  {
    ApplyElsewhere(v.disk, DeleteTrace(v, L, parent, key), c);
  }

  lemma UndoElsewhere(v: Volume, L: Layout, req: Request, c: nat)
    requires WriteGoes(v, L, req) && UndoOk(v, L, req)
    requires c < |v.disk| && c != FAT_CLUSTER && c != req.parent && c !in Taken(v, req)
    ensures |Undone(v, L, req)| == |v.disk| && Undone(v, L, req)[c] == v.disk[c]
  {
    UndoChain(v, L, req);
    WriteEffect(v, L, req);
    WriteElsewhere(v, req, c);
    DeleteElsewhere(Written(v, req), WriteLayout(v, L, req), req.parent, req.key, c);
  }

  /** Cluster `c` is all zero after the undoing `delete`. */
  ghost predicate UndoneZero(v: Volume, L: Layout, req: Request, c: nat) {
    && UndoOk(v, L, req) && c < |Undone(v, L, req)| && Undone(v, L, req)[c].Data?
    && (forall i :: 0 <= i < 2048 ==> Undone(v, L, req)[c].bytes[i] == 0)
  }

  lemma UndoZero(v: Volume, L: Layout, req: Request, k: nat)
    requires WriteGoes(v, L, req) && UndoOk(v, L, req) && k < |Taken(v, req)|
    ensures UndoneZero(v, L, req, Taken(v, req)[k])
  {
    UndoChain(v, L, req);
    forall i | 0 <= i < 2048
      ensures Taken(v, req)[k] < |Undone(v, L, req)| && Undone(v, L, req)[Taken(v, req)[k]].Data?
      ensures Undone(v, L, req)[Taken(v, req)[k]].bytes[i] == 0
    {
      DeleteZeroes(Written(v, req), WriteLayout(v, L, req), req.parent, req.key, k, i);
    }
    DeleteZeroes(Written(v, req), WriteLayout(v, L, req), req.parent, req.key, k, 0);
  }

  /**
   * Undo: after a successful `write`, `delete` of the same key succeeds and restores the whole
   * allocation table, the parent directory table and every cluster but the ones taken in between,
   * which are left zero.
   */
  lemma Undo(v: Volume, L: Layout, req: Request)
    requires WriteGoes(v, L, req) && TraceOk(v, req)
    ensures UndoOk(v, L, req) && DeleteGoes(Written(v, req), WriteLayout(v, L, req), req.parent, req.key)
    ensures |Undone(v, L, req)| == |v.disk|
    ensures Undone(v, L, req)[FAT_CLUSTER] == FatMap(v.fat)
    ensures Undone(v, L, req)[req.parent] == v.disk[req.parent]
    ensures forall c :: 0 <= c < |v.disk| && c !in Taken(v, req) ==> Undone(v, L, req)[c] == v.disk[c]
    ensures forall k :: 0 <= k < |Taken(v, req)| ==> UndoneZero(v, L, req, Taken(v, req)[k])
  {
    UndoChain(v, L, req);
    forall k | 0 <= k < |Taken(v, req)| ensures UndoneZero(v, L, req, Taken(v, req)[k]) { UndoZero(v, L, req, k); }
    UndoTable(v, L, req);
    UndoParent(v, L, req);
    forall c | 0 <= c < |v.disk| && c !in Taken(v, req)
      ensures Undone(v, L, req)[c] == v.disk[c]
    {
      if c != FAT_CLUSTER && c != req.parent { UndoElsewhere(v, L, req, c); }
    }
    WriteEffect(v, L, req);
  }

  /** After a successful `delete`, the parent table is the old one with the entry zeroed. */
  lemma DeletedParent(v: Volume, L: Layout, parent: nat, key: Key)
    requires DeleteGoes(v, L, parent, key) && DeleteTraceOk(v, L, parent, key)
    ensures InRange(v.disk, DeleteTrace(v, L, parent, key))
    ensures Apply(v.disk, DeleteTrace(v, L, parent, key))[parent]
         == Table(v.disk[parent].entries[Find(v.disk[parent].entries, key, 2) := ZERO_ENTRY])
  {
    DeleteRemovable(v, L, parent, key);
    var ws, chain := DeleteTrace(v, L, parent, key), Freed(v, L, parent, key);
    DeleteTracePrefix(v, L, parent, key, |ws|);
    assert ws[..|ws|] == ws && Cleanup(v.fat, chain)[..|ws| - 1] == Cleanup(v.fat, chain);
    ParentNotInChain(v, L, DeleteSlot(v, parent, key));
    ApplyElsewhere(Unlinked(v, DeleteSlot(v, parent, key)).disk, Cleanup(v.fat, chain), parent);
  }

  lemma ParentNotInChain(v: Volume, L: Layout, s: Slot)
    requires Inv(v, L) && s in L.chains
    ensures s.dir !in L.chains[s] && s.dir != FAT_CLUSTER
  {
    assert SlotOk(v, L, s);
    assert DirOk(v, L, s.dir);
  }

  // ---- Insertion: delete, then write ----------------------------------------------------------

  /** The file tree without the directory, if any, that the key names. */
  function WithoutOldDirectory(t: Tree, d: nat, key: Key): Tree
    requires d in t
  {
    if key in t[d].entries && t[d].entries[key].SubDir? then t - {t[d].entries[key].cluster} else t
  }

  lemma RewriteTree(t: Tree, req: Request, c: nat)
    requires req.parent in t && req.key in t[req.parent].entries
    requires req.parent in UnlinkedTree(t, req.parent, req.key)
    requires req.size > 0 ==> ClusterCount(req.size) <= |req.buf|
    ensures req.parent in WithoutOldDirectory(t, req.parent, req.key)
    ensures WrittenTree(UnlinkedTree(t, req.parent, req.key), req, c)
         == WrittenTree(WithoutOldDirectory(t, req.parent, req.key), req, c)
  {
    var d := t[req.parent];
    var a, b := UnlinkedTree(t, req.parent, req.key), WithoutOldDirectory(t, req.parent, req.key);
    assert a.Keys == b.Keys;
    var node := if req.size == 0 then SubDir(c) else File(req.size, req.buf[..ClusterCount(req.size)]);
    assert a[req.parent].entries[req.key := node] == d.entries[req.key := node];
  }

  /** The inserter's sequence: a finished `delete` of the key, whatever its outcome, then a finished `write`. */
  ghost predicate Inserts(st: State, req: Request, n: nat, m: nat) {
    && Healthy(st) && WriteLegal(st.volume, st.layout, req) && Legal(st, Delete(req.parent, req.key, n))
    && Finished(st, Delete(req.parent, req.key, n))
    && Finished(Step(st, Delete(req.parent, req.key, n)), Write(req, m))
  }

  lemma FinishedDeleteTree(st: State, parent: nat, key: Key, n: nat)
    requires Healthy(st) && Legal(st, Delete(parent, key, n)) && Finished(st, Delete(parent, key, n))
    ensures Healthy(Step(st, Delete(parent, key, n)))
    ensures TreeDeleteCode(Files(st), parent, key) == 0 ==>
              && parent in Files(st) && key in Files(st)[parent].entries
              && Files(Step(st, Delete(parent, key, n))) == UnlinkedTree(Files(st), parent, key)
    ensures TreeDeleteCode(Files(st), parent, key) != 0 ==> Step(st, Delete(parent, key, n)) == st
  {
    var ev := Delete(parent, key, n);
    StepAtomic(st, ev);
    GoesMeaning(st, ev);
    NothingWritten(st.volume);
  }

  /**
   * Upsert: if the `write` of an insertion goes through, the file tree is the old one with exactly
   * that key replaced, whether or not it was there before.
   */
  lemma Upsert(st: State, req: Request, n: nat, m: nat)
    requires Inserts(st, req, n, m)
    requires Goes(Step(st, Delete(req.parent, req.key, n)), Write(req, m))
    ensures var mid := Step(st, Delete(req.parent, req.key, n));
            && Healthy(Step(mid, Write(req, m)))
            && req.parent in Files(st) && req.parent in WithoutOldDirectory(Files(st), req.parent, req.key)
            && Files(Step(mid, Write(req, m)))
               == WrittenTree(WithoutOldDirectory(Files(st), req.parent, req.key), req, Taken(mid.volume, req)[0])
  {
    FinishedDeleteTree(st, req.parent, req.key, n);
    var mid := Step(st, Delete(req.parent, req.key, n));
    StepAtomic(mid, Write(req, m));
    var t := Files(st);
    if TreeDeleteCode(t, req.parent, req.key) == 0 {
      RewriteTree(t, req, Taken(mid.volume, req)[0]);
    } else {
      WrittenKeyFresh(mid, req);
    }
  }

  lemma WrittenKeyFresh(st: State, req: Request)
    requires Healthy(st) && WriteGoes(st.volume, st.layout, req)
    ensures req.parent in Files(st) && req.key !in Files(st)[req.parent].entries
  {
    WriteCodeMeaning(st.volume, st.layout, req);
  }

  /** The clusters a finished `delete` hands back: its chain, or none if it refuses. */
  ghost function HandedBack(st: State, parent: nat, key: Key): nat {
    if Goes(st, Delete(parent, key, 0)) then |Freed(st.volume, st.layout, parent, key)| else 0
  }

  /** A finished `delete` that goes through: the table it leaves, and the parent still being there. */
  lemma DeletedTable(st: State, parent: nat, key: Key, n: nat)
    requires Healthy(st) && Goes(st, Delete(parent, key, n)) && Finished(st, Delete(parent, key, n))
    ensures Step(st, Delete(parent, key, n)).volume.fat
         == ClearFat(st.volume.fat, Freed(st.volume, st.layout, parent, key),
                     |Freed(st.volume, st.layout, parent, key)|)
    ensures parent in Step(st, Delete(parent, key, n)).layout.depth && parent in st.layout.depth
  {
    DeleteEffect(st.volume, st.layout, parent, key);
    DeleteRemovable(st.volume, st.layout, parent, key);
    RelinkLayout(st.volume, st.layout, DeleteSlot(st.volume, parent, key));
  }

  lemma LegalAfterDelete(st: State, req: Request, n: nat)
    requires Healthy(st) && WriteLegal(st.volume, st.layout, req) && Finished(st, Delete(req.parent, req.key, n))
    ensures WriteLegal(Step(st, Delete(req.parent, req.key, n)).volume,
                       Step(st, Delete(req.parent, req.key, n)).layout, req)
    ensures |EmptyClusters(Step(st, Delete(req.parent, req.key, n)).volume.fat)|
         == |EmptyClusters(st.volume.fat)| + HandedBack(st, req.parent, req.key)
    ensures req.parent in Step(st, Delete(req.parent, req.key, n)).layout.depth <==> req.parent in st.layout.depth
  {
    NothingWritten(st.volume);
    if Goes(st, Delete(req.parent, req.key, n)) {
      DeletedTable(st, req.parent, req.key, n);
      DeleteConserves(st.volume, st.layout, req.parent, req.key);
    }
  }

  /** The key names a directory that holds something, which `delete` refuses to remove. */
  predicate Occupied(t: Tree, d: nat, key: Key)
    requires d in t
  {
    key in t[d].entries && t[d].entries[key].SubDir? && t[d].entries[key].cluster in t
    && t[t[d].entries[key].cluster].entries != map[]
  }

  /** When an insertion goes through, said of the file tree before it and the clusters then free. */
  ghost predicate InsertFits(t: Tree, empty: nat, req: Request) {
    && req.parent in t && !Occupied(t, req.parent, req.key) && !HeaderKey(t, req.parent, req.key)
    && |t[req.parent].entries - {req.key}| < DIRECTORY_CAPACITY
    && Required(req) <= empty
  }

  /** `u` is `t` after `delete`, which may have refused. */
  ghost predicate DeletedFrom(t: Tree, u: Tree, d: nat, key: Key) {
    if TreeDeleteCode(t, d, key) == 0 then u == UnlinkedTree(t, d, key) else u == t
  }

  lemma InsertCode(t: Tree, u: Tree, empty: nat, req: Request)
    requires DeletedFrom(t, u, req.parent, req.key)
    requires req.key == ZERO_KEY && req.parent in t ==>
               req.key !in t[req.parent].entries && |t[req.parent].entries| >= DIRECTORY_CAPACITY
    requires req.parent in t ==>
             req.parent in u && HeaderKey(u, req.parent, req.key) == HeaderKey(t, req.parent, req.key)
    ensures TreeWriteCode(u, empty, req) == 0 <==> InsertFits(t, empty, req)
  {
    if req.parent in t && req.key !in t[req.parent].entries {
      assert t[req.parent].entries - {req.key} == t[req.parent].entries;
    }
  }

  /** An insertion of the zero key is legal in a full directory only, which does not hold it. */
  lemma ZeroKeyInsert(st: State, req: Request)
    requires Healthy(st) && DeleteLegal(st.volume, st.layout, req.parent, req.key) && req.parent in Files(st)
    ensures req.key == ZERO_KEY ==>
              req.key !in Files(st)[req.parent].entries && |Files(st)[req.parent].entries| >= DIRECTORY_CAPACITY
  {
    assert DirOk(st.volume, st.layout, req.parent);
    FoundIsEntry(st.volume, st.layout, req.parent, req.key);
    ZeroKeyStrays(st.volume, st.layout, req.parent);
  }

  lemma HeaderKeyKept(st: State, u: State, d: nat, key: Key)
    requires Healthy(st) && Healthy(u) && d in Files(st) && d in Files(u)
    requires DeletedFrom(Files(st), Files(u), d, key)
    ensures HeaderKey(Files(u), d, key) == HeaderKey(Files(st), d, key)
  {
    HeaderNames(st.volume, st.layout, d);
    HeaderNames(u.volume, u.layout, d);
    SameHeaderKey(Files(st), Files(u), d, key);
  }

  lemma SameHeaderKey(t: Tree, u: Tree, d: nat, key: Key)
    requires DeletedFrom(t, u, d, key) && d in t && d in u && t[d].parent in t && u[d].parent in u
    ensures HeaderKey(u, d, key) == HeaderKey(t, d, key)
  {
  }

  /**
   * The exact success condition of an insertion: the parent exists, the key is neither a header name
   * nor a directory that holds something, and there is room once the old entry is gone.
   */
  lemma UpsertGoes(st: State, req: Request, n: nat, m: nat)
    requires Inserts(st, req, n, m)
    ensures Goes(Step(st, Delete(req.parent, req.key, n)), Write(req, m)) <==>
            InsertFits(Files(st), |EmptyClusters(st.volume.fat)| + HandedBack(st, req.parent, req.key), req)
  {
    FinishedDeleteTree(st, req.parent, req.key, n);
    LegalAfterDelete(st, req, n);
    var mid := Step(st, Delete(req.parent, req.key, n));
    GoesMeaning(mid, Write(req, m));
    if req.parent in Files(st) {
      HeaderKeyKept(st, mid, req.parent, req.key);
      ZeroKeyInsert(st, req);
    }
    InsertCode(Files(st), Files(mid), |EmptyClusters(mid.volume.fat)|, req);
  }
}
