/** Whole runs of the driver: formatting, operations, power cuts and remounts in any order. */
module Fat32Runs {
  import opened Numbers
  import opened Fat32Types
  import opened Fat32Layout
  import opened Fat32Frame
  import opened Fat32Unlink
  import opened Fat32Disk
  import opened Fat32Write
  import opened Fat32Delete
  import opened Fat32Codes

  // ---- Formatting -----------------------------------------------------------------------------

  /** The table `create_fat32` writes. */
  function FreshFat(): (fat: seq<nat>)
    ensures |fat| == CLUSTER_MAP_SIZE
  {
    [CLUSTER_0_VALUE, END_OF_FILE, END_OF_FILE] + seq(CLUSTER_MAP_SIZE - 3, _ => EMPTY_ENTRY)
  }

  /** The root directory `create_fat32` writes; slot 0 keeps cluster number 0. */
  function RootTable(): (t: seq<DirEntry>)
    ensures |t| == TABLE_SIZE
  {
    ChildTable(ROOT_NAME, ROOT_NAME, ROOT_CLUSTER, 0)
  }

  function Formatted(disk: seq<Cluster>): Volume
    requires |disk| >= CLUSTER_MAP_SIZE
  {
    Volume(FreshFat(),
           disk[BOOT_CLUSTER := Boot(true)][FAT_CLUSTER := FatMap(FreshFat())][ROOT_CLUSTER := Table(RootTable())])
  }

  ghost function FreshLayout(): Layout { Layout(map[ROOT_CLUSTER := 0], map[], map[]) }

  lemma RootNameStored()
    ensures StoredName(ROOT_NAME) == ROOT_NAME
  {
    var s: string := ROOT_NAME;
    assert CString(s[4..]) == [];
    assert CString(s[3..]) == ['t'] by { assert s[3..][1..] == s[4..]; }
    assert CString(s[2..]) == ['o', 't'] by { assert s[2..][1..] == s[3..]; }
    assert CString(s[1..]) == ['o', 'o', 't'] by { assert s[1..][1..] == s[2..]; }
    assert CString(s) == ['r', 'o', 'o', 't'];
  }

  /** An empty root directory, which is its own parent. */
  function EmptyTree(): Tree { map[ROOT_CLUSTER := Directory(ROOT_NAME, ROOT_CLUSTER, map[])] }

  /** Formatting any disk gives a healthy volume with an empty root directory and all other clusters empty. */
  lemma FormatHealthy(disk: seq<Cluster>)
    requires |disk| >= CLUSTER_MAP_SIZE
    ensures Inv(Formatted(disk), FreshLayout())
    ensures TreeOf(Formatted(disk), FreshLayout()) == EmptyTree()
    ensures forall c :: c in EmptyClusters(Formatted(disk).fat) <==> 3 <= c < 512
    ensures Leaked(Formatted(disk), FreshLayout()) == {}
  {
    RootNameStored();
    ChildTableFresh(ROOT_NAME, ROOT_NAME, ROOT_CLUSTER, 0);
    var v, L := Formatted(disk), FreshLayout();
    assert DirOk(v, L, ROOT_CLUSTER);
    assert LiveKeys(RootTable()) == {};
    assert EntriesAt(v, L, ROOT_CLUSTER) == map[];
  }

  /** The root directory of a formatted disk, field by field. */
  lemma FormatRoot(disk: seq<Cluster>)
    requires |disk| >= CLUSTER_MAP_SIZE
    ensures Formatted(disk).disk[0] == Boot(true) && Formatted(disk).disk[2].Table?
    ensures var t := Formatted(disk).disk[2].entries;
            && |t| == 64
            && t[0].key.name == ['r', 'o', 'o', 't', '\0', '\0', '\0', '\0'] == t[1].key.name
            && t[0].key.ext == ['\0', '\0', '\0'] == t[1].key.ext
            && t[0].attribute == t[1].attribute == 0x10 && t[0].userAttribute == t[1].userAttribute == 0xAA
            && t[0].cluster == 0 && t[1].cluster == 2 && t[0].filesize == t[1].filesize == 0
            && (forall i :: 2 <= i < 64 ==> t[i] == ZERO_ENTRY && t[i].userAttribute == 0)
    ensures forall c :: 3 <= c < |disk| ==> Formatted(disk).disk[c] == disk[c]
  {
    RootNameStored();
  }

  // ---- Steps ----------------------------------------------------------------------------------

  /**
   * An operation. Of `write` and `delete`, `written` cluster writes reach the disk before the machine
   * stops and the disk is mounted again; with all of them written, the operation has simply finished.
   */
  datatype Event =
    | Write(req: Request, written: nat)
    | Delete(parent: nat, key: Key, written: nat)
    | Read(parent: nat, key: Key, bufferSize: nat)
    | ReadDirectory(parent: nat, key: Key, bufferSize: nat)
    | Remount
  {
    predicate Changes() { Write? || Delete? }
  }

  datatype State = State(volume: Volume, layout: Layout)

  /** The volume found on disk after the writes `ws`. */
  ghost function AfterWrites(v: Volume, ws: seq<DiskWrite>): Volume {
    if InRange(v.disk, ws) && |v.disk| > FAT_CLUSTER && Apply(v.disk, ws)[FAT_CLUSTER].FatMap?
    then Mount(Apply(v.disk, ws)) else v
  }

  ghost function Cut(ws: seq<DiskWrite>, n: nat): seq<DiskWrite> {
    if n < |ws| then ws[..n] else ws
  }

  ghost predicate Legal(st: State, ev: Event) {
    match ev
    case Write(req, _) => WriteLegal(st.volume, st.layout, req)
    case Delete(parent, key, _) => DeleteLegal(st.volume, st.layout, parent, key)
    case Read(parent, key, _) => ReadLegal(st.volume, st.layout, parent, key)
    case ReadDirectory(parent, _, _) => parent in st.layout.depth
    case Remount => true
  }

  /** The operation passes all its checks. */
  ghost predicate Goes(st: State, ev: Event) {
    match ev
    case Write(req, _) => WriteGoes(st.volume, st.layout, req) && TraceOk(st.volume, req)
    case Delete(parent, key, _) =>
      DeleteGoes(st.volume, st.layout, parent, key) && DeleteTraceOk(st.volume, st.layout, parent, key)
    case _ => false
  }

  ghost function Trace(st: State, ev: Event): seq<DiskWrite>
    requires Goes(st, ev)
  {
    match ev
    case Write(req, _) => WriteTrace(st.volume, req)
    case Delete(parent, key, _) => DeleteTrace(st.volume, st.layout, parent, key)
  }

  /** The change shows in the file tree: the last write of `write`, the first of `delete`, got through. */
  ghost predicate Commits(st: State, ev: Event) {
    Goes(st, ev) && if ev.Write? then ev.written >= |Trace(st, ev)| else ev.written >= 1
  }

  ghost function Step(st: State, ev: Event): State {
    if !Goes(st, ev) then State(AfterWrites(st.volume, []), st.layout)
    else
      State(AfterWrites(st.volume, Cut(Trace(st, ev), ev.written)),
            if !Commits(st, ev) then st.layout
            else if ev.Write? then WriteLayout(st.volume, st.layout, ev.req)
            else DeleteLayout(st.volume, st.layout, ev.parent, ev.key))
  }

  ghost predicate Healthy(st: State) { Inv(st.volume, st.layout) }

  ghost function Files(st: State): Tree
    requires Healthy(st)
  {
    TreeOf(st.volume, st.layout)
  }

  /** The file tree after an event that commits. */
  ghost function CommittedTree(st: State, ev: Event): Tree
    requires Healthy(st) && Commits(st, ev)
    requires ev.Write? ==> ev.req.parent in Files(st)
    requires ev.Delete? ==> ev.parent in Files(st) && ev.key in Files(st)[ev.parent].entries
  {
    if ev.Write? then WrittenTree(Files(st), ev.req, Taken(st.volume, ev.req)[0])
    else UnlinkedTree(Files(st), ev.parent, ev.key)
  }

  lemma GoesInTree(st: State, ev: Event)
    requires Healthy(st) && Goes(st, ev)
    ensures ev.Write? ==> ev.req.parent in Files(st)
    ensures ev.Delete? ==> ev.parent in Files(st) && ev.key in Files(st)[ev.parent].entries
  {
    match ev
    case Write(req, _) =>
    case Delete(parent, key, _) => DeleteUnlinks(st.volume, st.layout, parent, key);
  }

  lemma NothingWritten(v: Volume)
    requires Header(v)
    ensures AfterWrites(v, []) == v
  {
    assert Apply(v.disk, []) == v.disk;
  }

  /**
   * Crash atomicity: wherever an operation is cut off, what is then mounted is healthy and shows
   * exactly the old file tree or exactly the new one.
   */
  lemma StepAtomic(st: State, ev: Event)
    requires Healthy(st)
    ensures Healthy(Step(st, ev))
    ensures Goes(st, ev) ==> (ev.Write? ==> ev.req.parent in Files(st))
    ensures Goes(st, ev) ==> (ev.Delete? ==> ev.parent in Files(st) && ev.key in Files(st)[ev.parent].entries)
    ensures Files(Step(st, ev)) == if Commits(st, ev) then CommittedTree(st, ev) else Files(st)
  {
    NothingWritten(st.volume);
    if Goes(st, ev) {
      GoesInTree(st, ev);
      match ev
      case Write(req, _) => WriteStep(st, req, ev.written);
      case Delete(parent, key, _) => DeleteStep(st, parent, key, ev.written);
    }
  }

  lemma WriteStep(st: State, req: Request, n: nat)
    requires Healthy(st) && Goes(st, Write(req, n)) && req.parent in Files(st)
    ensures Healthy(Step(st, Write(req, n)))
    ensures Files(Step(st, Write(req, n)))
         == if Commits(st, Write(req, n)) then CommittedTree(st, Write(req, n)) else Files(st)
  {
    if n < |WriteTrace(st.volume, req)| {
      WriteCrash(st.volume, st.layout, req, n);
    } else {
      WriteEffect(st.volume, st.layout, req);
    }
  }

  lemma DeleteStep(st: State, parent: nat, key: Key, n: nat)
    requires Healthy(st) && Goes(st, Delete(parent, key, n)) && parent in Files(st) && key in Files(st)[parent].entries
    ensures Healthy(Step(st, Delete(parent, key, n)))
    ensures Files(Step(st, Delete(parent, key, n)))
         == if Commits(st, Delete(parent, key, n)) then CommittedTree(st, Delete(parent, key, n)) else Files(st)
  {
    var ws := DeleteTrace(st.volume, st.layout, parent, key);
    if n == 0 {
      assert ws[..0] == [];
      NothingWritten(st.volume);
    } else if n < |ws| {
      DeletePrefix(st.volume, st.layout, parent, key, n);
    } else {
      DeleteEffect(st.volume, st.layout, parent, key);
    }
  }

  /** The return code, as the file tree and the number of empty clusters determine it. */
  ghost function Code(st: State, ev: Event): int
    requires Healthy(st) && ev.Changes()
  {
    if ev.Write? then TreeWriteCode(Files(st), |EmptyClusters(st.volume.fat)|, ev.req)
    else TreeDeleteCode(Files(st), ev.parent, ev.key)
  }

  /** An operation goes through exactly when the file tree and the space allow it. */
  lemma GoesMeaning(st: State, ev: Event)
    requires Healthy(st) && Legal(st, ev) && ev.Changes()
    ensures Goes(st, ev) <==> Code(st, ev) == 0
  {
    match ev
    case Write(req, _) =>
      WriteCodeMeaning(st.volume, st.layout, req);
      if WriteGoes(st.volume, st.layout, req) { Prepare(st.volume, st.layout, req); }
    case Delete(parent, key, _) =>
      DeleteCodeMeaning(st.volume, st.layout, parent, key);
      if DeleteGoes(st.volume, st.layout, parent, key) { DeleteRemovable(st.volume, st.layout, parent, key); }
  }

  /** The clusters from 3 to `n`, of which there are `n - 3`. */
  function ClustersBelow(n: nat): (r: set<nat>)
    requires n >= 3
    ensures |r| == n - 3
    ensures forall c :: c in r <==> 3 <= c < n
  {
    if n == 3 then {} else ClustersBelow(n - 1) + {n - 1}
  }

  lemma FreshEmpties(fat: seq<nat>)
    requires |fat| >= 3 && forall c :: 0 <= c < |fat| ==> (fat[c] == EMPTY_ENTRY <==> c >= 3)
    ensures |EmptyClusters(fat)| == |fat| - 3
  {
    assert EmptyClusters(fat) == ClustersBelow(|fat|);
  }

  lemma EmptyTreeCode(empty: nat, req: Request)
    requires req.parent == ROOT_CLUSTER && empty >= 255
    ensures TreeWriteCode(EmptyTree(), empty, req) == 0 <==> req.key != Key(ROOT_NAME, ZERO_EXT) && req.key != ZERO_KEY
  {
  }

  /** A fresh disk takes any file or folder into its root, except under the root's own name or the zero key. */
  lemma FreshDiskAccepts(disk: seq<Cluster>, req: Request, n: nat)
    requires |disk| >= CLUSTER_MAP_SIZE && req.parent == ROOT_CLUSTER
    requires req.size > 0 ==> 0 < ClusterCount(req.size) <= |req.buf|
    ensures Goes(State(Formatted(disk), FreshLayout()), Write(req, n)) <==>
            req.key != Key(ROOT_NAME, ZERO_EXT) && req.key != ZERO_KEY
  {
    FormatHealthy(disk);
    FreshEmpties(FreshFat());
    EmptyTreeCode(CLUSTER_MAP_SIZE - 3, req);
    GoesMeaning(State(Formatted(disk), FreshLayout()), Write(req, n));
  }

  // ---- Simulation of a plain tree of files ----------------------------------------------------

  /** What a run shows of a volume: the file tree and the number of empty clusters. */
  datatype View = View(files: Tree, free: nat)

  ghost function ViewOf(st: State): View
    requires Healthy(st)
  {
    View(Files(st), |EmptyClusters(st.volume.fat)|)
  }

  /** The answer to an operation: its code, the clusters `read` copies, the cluster `read_directory` copies. */
  datatype Reply = Reply(code: int, blocks: seq<Block>, cluster: nat)

  function CodeOnly(code: int): Reply { Reply(code, [], 0) }

  /** The answer that the file tree and the number of empty clusters call for. */
  function ViewReply(a: View, ev: Event): Reply {
    match ev
    case Write(req, _) => CodeOnly(TreeWriteCode(a.files, a.free, req))
    case Delete(parent, key, _) => CodeOnly(TreeDeleteCode(a.files, parent, key))
    case Read(parent, key, size) =>
      var code := TreeReadCode(a.files, parent, key, size);
      if code == 0 then Reply(0, a.files[parent].entries[key].blocks, 0) else CodeOnly(code)
    case ReadDirectory(parent, key, size) =>
      if parent !in a.files then CodeOnly(2)
      else
        var code := TreeReadDirCode(a.files, parent, key, size);
        if code == 0 then Reply(0, [], Resolve(a.files, parent, key)) else CodeOnly(code)
    case Remount => CodeOnly(0)
  }

  /** The number of cluster writes of a successful `write`: table and data per cluster, then the parent. */
  function WriteLength(req: Request): nat { if req.size == 0 then 3 else 2 * Required(req) + 1 }

  /** The number of clusters behind an entry. */
  function NodeLength(node: Node): nat { if node.File? then |node.blocks| else 1 }

  /**
   * The clusters a `delete` has handed back once `n` of its cluster writes got through: all with the last,
   * else none.
   */
  function Returned(node: Node, n: nat): nat { if n >= NodeLength(node) + 2 then NodeLength(node) else 0 }

  /**
   * What an event does to a plain file tree and the number of empty clusters. Nothing, unless the code
   * is 0. A `write` shows in the tree if its last cluster write got through, and has taken as many
   * clusters as the table on disk links; a new directory gets some unused number. A `delete` shows if
   * its first cluster write got through, and has handed its clusters back if its last one did.
   */
  ghost predicate ViewStep(a: View, ev: Event, b: View) {
    if !ev.Changes() || ViewReply(a, ev).code != 0 then b == a
    else if ev.Write? then
      && b.free + Marked(ev.req, ev.written) == a.free
      && if ev.written < WriteLength(ev.req) then b.files == a.files
         else (ev.req.size > 0 ==> ClusterCount(ev.req.size) <= |ev.req.buf|)
              && exists c :: c !in a.files && b.files == WrittenTree(a.files, ev.req, c)
    else
      && b.free == a.free + Returned(a.files[ev.parent].entries[ev.key], ev.written)
      && b.files == if ev.written < 1 then a.files else UnlinkedTree(a.files, ev.parent, ev.key)
  }

  lemma WriteTraceLength(v: Volume, L: Layout, req: Request)
    requires WriteGoes(v, L, req) && TraceOk(v, req)
    ensures |WriteTrace(v, req)| == WriteLength(req)
  {
  }

  lemma TakenFresh(st: State, req: Request)
    requires Healthy(st) && WriteGoes(st.volume, st.layout, req) && TraceOk(st.volume, req)
    ensures Taken(st.volume, req)[0] !in Files(st)
  {
    WriteSlots(st.volume, st.layout, req);
    DirsOwned(st.volume, st.layout);
  }

  /** How the number of empty clusters moves with a `write`, cut off or not. */
  lemma WriteFree(st: State, req: Request, n: nat)
    requires Healthy(st) && Goes(st, Write(req, n))
    ensures |EmptyClusters(Step(st, Write(req, n)).volume.fat)| + Marked(req, n) == |EmptyClusters(st.volume.fat)|
  {
    var v, L := st.volume, st.layout;
    WriteTraceLength(v, L, req);
    if n < |WriteTrace(v, req)| {
      WriteTables(v, L, req, n);
      WriteConserves(v, L, req, Marked(req, n));
    } else {
      WriteEffect(v, L, req);
      WriteConserves(v, L, req, Required(req));
    }
  }

  lemma FreedLength(v: Volume, L: Layout, parent: nat, key: Key)
    requires DeleteGoes(v, L, parent, key) && DeleteTraceOk(v, L, parent, key)
    ensures parent in TreeOf(v, L) && key in TreeOf(v, L)[parent].entries
    ensures |Freed(v, L, parent, key)| == NodeLength(TreeOf(v, L)[parent].entries[key])
    ensures |DeleteTrace(v, L, parent, key)| == NodeLength(TreeOf(v, L)[parent].entries[key]) + 2
  {
    DeleteUnlinks(v, L, parent, key);
    EntryMeaning(v, L, parent, key);
    assert SlotOk(v, L, DeleteSlot(v, parent, key));
  }

  /** How the number of empty clusters moves with a `delete`, cut off or not. */
  lemma DeleteFree(st: State, parent: nat, key: Key, n: nat)
    requires Healthy(st) && Goes(st, Delete(parent, key, n))
    ensures parent in Files(st) && key in Files(st)[parent].entries
    ensures |EmptyClusters(Step(st, Delete(parent, key, n)).volume.fat)|
         == |EmptyClusters(st.volume.fat)| + Returned(Files(st)[parent].entries[key], n)
  {
    var v, L := st.volume, st.layout;
    FreedLength(v, L, parent, key);
    var ws := DeleteTrace(v, L, parent, key);
    if n == 0 {
      assert ws[..0] == [];
      NothingWritten(v);
    } else if n < |ws| {
      DeleteTables(v, L, parent, key, n);
    } else {
      DeleteEffect(v, L, parent, key);
      DeleteConserves(v, L, parent, key);
    }
  }

  /** One step of the driver, cut off or not, is one step of the plain file tree and the free count. */
  lemma StepSimulates(st: State, ev: Event)
    requires Healthy(st) && Legal(st, ev)
    ensures Healthy(Step(st, ev))
    ensures ViewStep(ViewOf(st), ev, ViewOf(Step(st, ev)))
  {
    StepAtomic(st, ev);
    if ev.Changes() {
      GoesMeaning(st, ev);
      if Goes(st, ev) {
        if ev.Write? { WriteSimulates(st, ev); } else { DeleteSimulates(st, ev); }
      } else {
        NothingWritten(st.volume);
      }
    } else {
      NothingWritten(st.volume);
    }
  }

  lemma WriteSimulates(st: State, ev: Event)
    requires Healthy(st) && ev.Write? && Legal(st, ev) && Goes(st, ev)
    ensures Healthy(Step(st, ev)) && ViewStep(ViewOf(st), ev, ViewOf(Step(st, ev)))
  {
    StepAtomic(st, ev);
    GoesMeaning(st, ev);
    WriteFree(st, ev.req, ev.written);
    WriteTraceLength(st.volume, st.layout, ev.req);
    TakenFresh(st, ev.req);
  }

  lemma DeleteSimulates(st: State, ev: Event)
    requires Healthy(st) && ev.Delete? && Legal(st, ev) && Goes(st, ev)
    ensures Healthy(Step(st, ev)) && ViewStep(ViewOf(st), ev, ViewOf(Step(st, ev)))
  {
    StepAtomic(st, ev);
    GoesMeaning(st, ev);
    DeleteFree(st, ev.parent, ev.key, ev.written);
  }

  // ---- What the driver answers ----------------------------------------------------------------

  lemma ParentTable(st: State, d: nat)
    requires Healthy(st) && d < |st.volume.fat| && (st.volume.fat[d] == END_OF_FILE ==> d in st.layout.depth)
    ensures d < |st.volume.disk| && (st.volume.fat[d] == END_OF_FILE ==> IsTable(st.volume, d))
  {
    assert d in st.layout.depth ==> DirOk(st.volume, st.layout, d);
  }

  lemma LiveTable(st: State, d: nat)
    requires Healthy(st) && d in st.layout.depth
    ensures IsTable(st.volume, d)
  {
    assert DirOk(st.volume, st.layout, d);
  }

  /** What `read` answers: the code of its checks, and the clusters its walk visits. */
  ghost function ReadReply(st: State, parent: nat, key: Key, size: nat): Reply
    requires parent < |st.volume.fat| && (st.volume.fat[parent] == END_OF_FILE ==> IsTable(st.volume, parent))
  {
    var code := ReadCode(st.volume, parent, key, size);
    if code != 0 then CodeOnly(code)
    else
      var s := Slot(parent, Find(st.volume.disk[parent].entries, key, 0));
      Reply(0, if s in st.layout.chains then Blocks(st.volume, st.layout.chains[s]) else [], 0)
  }

  /** What `read_directory` answers: its code and the cluster of the entry it finds. */
  ghost function ReadDirectoryReply(st: State, parent: nat, key: Key, size: nat): Reply
    requires IsTable(st.volume, parent)
  {
    var t := st.volume.disk[parent].entries;
    var i := FindUsed(t, key, 0);
    if i == TABLE_SIZE then CodeOnly(2)
    else if !t[i].IsDirectory() then CodeOnly(1)
    else if size < ENTRY_SIZE then CodeOnly(-1)
    else Reply(0, [], t[i].cluster)
  }

  /** What the driver answers on this volume. */
  ghost function DriverReply(st: State, ev: Event): Reply
    requires Healthy(st) && Legal(st, ev)
  {
    match ev
    case Write(req, _) => ParentTable(st, req.parent); CodeOnly(WriteCode(st.volume, req))
    case Delete(parent, key, _) => ParentTable(st, parent); CodeOnly(DeleteCode(st.volume, parent, key))
    case Read(parent, key, size) => ParentTable(st, parent); ReadReply(st, parent, key, size)
    case ReadDirectory(parent, key, size) => LiveTable(st, parent); ReadDirectoryReply(st, parent, key, size)
    case Remount => CodeOnly(0)
  }

  lemma ReadAnswers(st: State, parent: nat, key: Key, size: nat)
    requires Healthy(st) && Legal(st, Read(parent, key, size))
    ensures DriverReply(st, Read(parent, key, size)) == ViewReply(ViewOf(st), Read(parent, key, size))
  {
    ParentTable(st, parent);
    ReadCodeMeaning(st.volume, st.layout, parent, key, size);
    if TreeReadCode(Files(st), parent, key, size) == 0 {
      var node := Files(st)[parent].entries[key];
      ReadBack(st, parent, key, node.size, node.blocks, size);
    }
  }

  lemma ReadDirectoryAnswers(st: State, parent: nat, key: Key, size: nat)
    requires Healthy(st) && parent in st.layout.depth
    ensures DriverReply(st, ReadDirectory(parent, key, size)) == ViewReply(ViewOf(st), ReadDirectory(parent, key, size))
  {
    LiveTable(st, parent);
    ReadDirMeaning(st.volume, st.layout, parent, key);
  }

  /** Every answer of the driver is the one the file tree and the free count call for. */
  lemma DriverAnswers(st: State, ev: Event)
    requires Healthy(st) && Legal(st, ev)
    ensures DriverReply(st, ev) == ViewReply(ViewOf(st), ev)
  {
    match ev
    case Write(req, _) => WriteCodeMeaning(st.volume, st.layout, req);
    case Delete(parent, key, _) => DeleteCodeMeaning(st.volume, st.layout, parent, key);
    case Read(parent, key, size) => ReadAnswers(st, parent, key, size);
    case ReadDirectory(parent, key, size) => ReadDirectoryAnswers(st, parent, key, size);
    case Remount =>
  }

  /** When `write` returns which code. */
  lemma WriteCodes(st: State, req: Request, n: nat)
    requires Healthy(st) && Legal(st, Write(req, n))
    ensures var code, t, d := DriverReply(st, Write(req, n)).code, Files(st), req.parent;
            && (code == 2 <==> d !in t)
            && (code == 1 <==> d in t && KeyTaken(t, d, req.key))
            && (code == -1 <==>
                  && d in t && !KeyTaken(t, d, req.key)
                  && (|t[d].entries| >= 62 || |EmptyClusters(st.volume.fat)| < Required(req)))
            && (code == 0 <==>
                  && d in t && !KeyTaken(t, d, req.key)
                  && |t[d].entries| < 62 && |EmptyClusters(st.volume.fat)| >= Required(req))
  {
    DriverAnswers(st, Write(req, n));
  }

  /** The key names a directory that holds something. */
  ghost predicate HoldsSomething(t: Tree, d: nat, key: Key) {
    && d in t && key in t[d].entries && t[d].entries[key].SubDir?
    && t[d].entries[key].cluster in t && t[t[d].entries[key].cluster].entries != map[]
  }

  /** When `delete` returns which code. */
  lemma DeleteCodes(st: State, d: nat, key: Key, n: nat)
    requires Healthy(st) && Legal(st, Delete(d, key, n))
    ensures var code, t := DriverReply(st, Delete(d, key, n)).code, Files(st);
            && (code == 2 <==> d !in t || HoldsSomething(t, d, key))
            && (code == 1 <==> d in t && key !in t[d].entries)
            && (code == 0 <==> d in t && key in t[d].entries && !HoldsSomething(t, d, key))
  {
    DriverAnswers(st, Delete(d, key, n));
  }

  /** When `read` returns which code. */
  lemma ReadCodes(st: State, d: nat, key: Key, size: nat)
    requires Healthy(st) && Legal(st, Read(d, key, size))
    ensures var code, t := DriverReply(st, Read(d, key, size)).code, Files(st);
            && (code == 2 <==> d !in t || (!HeaderKey(t, d, key) && key !in t[d].entries))
            && (code == 1 <==> d in t && (HeaderKey(t, d, key) || (key in t[d].entries && t[d].entries[key].SubDir?)))
            && (code == -1 <==>
                  && d in t && !HeaderKey(t, d, key) && key in t[d].entries && t[d].entries[key].File?
                  && size / 2048 < |t[d].entries[key].blocks|)
            && (code == 0 <==>
                  && d in t && !HeaderKey(t, d, key) && key in t[d].entries && t[d].entries[key].File?
                  && size / 2048 >= |t[d].entries[key].blocks|)
  {
    DriverAnswers(st, Read(d, key, size));
  }

  /** When `read_directory` returns which code. */
  lemma ReadDirectoryCodes(st: State, d: nat, key: Key, size: nat)
    requires Healthy(st) && d in st.layout.depth
    ensures var code, t := DriverReply(st, ReadDirectory(d, key, size)).code, Files(st);
            var isDir := HeaderKey(t, d, key) || (key in t[d].entries && t[d].entries[key].SubDir?);
            && (code == 2 <==> !HeaderKey(t, d, key) && key !in t[d].entries)
            && (code == 1 <==> !HeaderKey(t, d, key) && key in t[d].entries && t[d].entries[key].File?)
            && (code == -1 <==> isDir && size < 32)
            && (code == 0 <==> isDir && size >= 32)
  {
    DriverAnswers(st, ReadDirectory(d, key, size));
  }

  // ---- Runs -----------------------------------------------------------------------------------

  /** State `i + 1` follows from the one before by an event the driver may be given there. */
  ghost predicate Follows(sts: seq<State>, evs: seq<Event>, i: nat) {
    i < |evs| && i + 1 < |sts| && Legal(sts[i], evs[i]) && sts[i + 1] == Step(sts[i], evs[i])
  }

  /** A run: each state follows from the one before. */
  ghost predicate IsRun(sts: seq<State>, evs: seq<Event>) {
    |sts| == |evs| + 1 && forall i {:trigger Follows(sts, evs, i)} :: 0 <= i < |evs| ==> Follows(sts, evs, i)
  }

  /** Every state of every run that starts on a healthy volume is healthy. */
  lemma {:induction false} RunHealthy(sts: seq<State>, evs: seq<Event>, i: nat)
    requires IsRun(sts, evs) && Healthy(sts[0]) && i <= |evs|
    ensures Healthy(sts[i])
  {
    if i > 0 {
      RunHealthy(sts, evs, i - 1);
      assert Follows(sts, evs, i - 1);
      StepAtomic(sts[i - 1], evs[i - 1]);
    }
  }

  /**
   * Refinement: every run of the driver, power cuts included, is a run of the plain file tree with a
   * count of empty clusters, and answers every operation as that tree and count call for.
   */
  lemma RunSimulates(sts: seq<State>, evs: seq<Event>, i: nat)
    requires IsRun(sts, evs) && Healthy(sts[0]) && i < |evs|
    ensures Healthy(sts[i]) && Healthy(sts[i + 1]) && Legal(sts[i], evs[i])
    ensures ViewStep(ViewOf(sts[i]), evs[i], ViewOf(sts[i + 1]))
    ensures DriverReply(sts[i], evs[i]) == ViewReply(ViewOf(sts[i]), evs[i])
  {
    RunHealthy(sts, evs, i);
    assert Follows(sts, evs, i);
    StepSimulates(sts[i], evs[i]);
    DriverAnswers(sts[i], evs[i]);
  }

  /** The reserved part of a disk: the signature, and the entries of clusters 0 to 2 in the table on it. */
  ghost predicate ReservedIntact(v: Volume) {
    && |v.fat| == CLUSTER_MAP_SIZE <= |v.disk|
    && v.disk[BOOT_CLUSTER] == Boot(true) && v.disk[FAT_CLUSTER] == FatMap(v.fat)
    && v.fat[..3] == [0x0FFF_FFF0, 0x0FFF_FFFF, 0x0FFF_FFFF]
  }

  /**
   * Every run from a formatted disk is healthy at all times; the cached table equals the one on disk
   * and the reserved clusters are intact, so mounting again loads the very same volume.
   */
  lemma RunFromFormat(disk: seq<Cluster>, sts: seq<State>, evs: seq<Event>, i: nat)
    requires |disk| >= CLUSTER_MAP_SIZE && IsRun(sts, evs) && i <= |evs|
    requires sts[0] == State(Formatted(disk), FreshLayout())
    ensures Healthy(sts[i]) && ReservedIntact(sts[i].volume)
    ensures Mount(sts[i].volume.disk) == sts[i].volume && Step(sts[i], Remount) == sts[i]
  {
    FormatHealthy(disk);
    RunHealthy(sts, evs, i);
    NothingWritten(sts[i].volume);
  }

  // ---- Round trip over a run ------------------------------------------------------------------

  ghost predicate Holds(t: Tree, d: nat, key: Key, node: Node) {
    d in t && key in t[d].entries && t[d].entries[key] == node
  }

  /** No event but the deletion of that very key removes or changes an entry. */
  lemma ViewStepKeeps(a: View, ev: Event, b: View, d: nat, key: Key, node: Node)
    requires ViewStep(a, ev, b) && Holds(a.files, d, key, node)
    requires !(ev.Delete? && ev.parent == d && ev.key == key)
    ensures Holds(b.files, d, key, node)
  {
  }

  ghost predicate NeverDeleted(evs: seq<Event>, from: nat, to: nat, d: nat, key: Key)
    requires to <= |evs|
  {
    forall j :: from <= j < to ==> !(evs[j].Delete? && evs[j].parent == d && evs[j].key == key)
  }

  lemma {:induction false} FileSurvives(
    sts: seq<State>, evs: seq<Event>, from: nat, i: nat, d: nat, key: Key, node: Node)
    requires IsRun(sts, evs) && Healthy(sts[0]) && from <= i <= |evs|
    requires Healthy(sts[from]) && Holds(Files(sts[from]), d, key, node)
    requires NeverDeleted(evs, from, i, d, key)
    ensures Healthy(sts[i]) && Holds(Files(sts[i]), d, key, node)
  {
    if i > from {
      FileSurvives(sts, evs, from, i - 1, d, key, node);
      RunSimulates(sts, evs, i - 1);
      ViewStepKeeps(ViewOf(sts[i - 1]), evs[i - 1], ViewOf(sts[i]), d, key, node);
    }
  }

  /** `read` with this buffer size copies exactly `blocks`, or reports that they do not fit. */
  ghost predicate FileReads(st: State, d: nat, key: Key, blocks: seq<Block>, bufferSize: nat) {
    var v, L := st.volume, st.layout;
    && d < |v.fat| && v.fat[d] == END_OF_FILE && IsTable(v, d)
    && ReadCode(v, d, key, bufferSize) == (if bufferSize / CLUSTER_SIZE < |blocks| then -1 else 0)
    && var s := Slot(d, Find(v.disk[d].entries, key, 0));
       && s.index < TABLE_SIZE && s in L.chains
       && IsChain(v.fat, L.chains[s]) && L.chains[s][0] == v.disk[d].entries[s.index].cluster
       && Blocks(v, L.chains[s]) == blocks
  }

  /** A file of the tree can be read, whole and in order, into any buffer with room for its clusters. */
  lemma ReadBack(st: State, d: nat, key: Key, size: nat, blocks: seq<Block>, bufferSize: nat)
    requires Healthy(st) && Holds(Files(st), d, key, File(size, blocks))
    ensures FileReads(st, d, key, blocks, bufferSize)
  {
    var v, L := st.volume, st.layout;
    assert DirOk(v, L, d);
    EntryMeaning(v, L, d, key);
    FindLive(v.disk[d].entries, Find(v.disk[d].entries, key, 2));
  }

  /** What a successful file `write` stores: the first clusters of the buffer, as many as its count says. */
  function StoredNode(req: Request): Node
    requires ClusterCount(req.size) <= |req.buf|
  {
    File(req.size, req.buf[..ClusterCount(req.size)])
  }

  lemma CommitHolds(st: State, ev: Event)
    requires Healthy(st) && ev.Write? && ev.req.size > 0 && Commits(st, ev)
    ensures Healthy(Step(st, ev)) && ClusterCount(ev.req.size) <= |ev.req.buf|
    ensures Holds(Files(Step(st, ev)), ev.req.parent, ev.req.key, StoredNode(ev.req))
  {
    StepAtomic(st, ev);
  }

  lemma WrittenSurvives(sts: seq<State>, evs: seq<Event>, i: nat)
    requires IsRun(sts, evs) && Healthy(sts[0]) && 1 <= i <= |evs|
    requires evs[0].Write? && evs[0].req.size > 0 && Commits(sts[0], evs[0])
    requires NeverDeleted(evs, 1, i, evs[0].req.parent, evs[0].req.key)
    ensures Healthy(sts[i]) && ClusterCount(evs[0].req.size) <= |evs[0].req.buf|
    ensures Holds(Files(sts[i]), evs[0].req.parent, evs[0].req.key, StoredNode(evs[0].req))
  {
    assert Follows(sts, evs, 0);
    CommitHolds(sts[0], evs[0]);
    FileSurvives(sts, evs, 1, i, evs[0].req.parent, evs[0].req.key, StoredNode(evs[0].req));
  }

  /**
   * Round trip across a run: a file written successfully reads back, after any later events that do
   * not delete its key, as the clusters written; these are all of the file's clusters exactly if its
   * size is at most 255 clusters.
   */
  lemma RoundTrip(sts: seq<State>, evs: seq<Event>, i: nat, bufferSize: nat)
    requires IsRun(sts, evs) && Healthy(sts[0]) && 1 <= i <= |evs|
    requires evs[0].Write? && evs[0].req.size > 0 && Commits(sts[0], evs[0])
    requires NeverDeleted(evs, 1, i, evs[0].req.parent, evs[0].req.key)
    ensures Healthy(sts[i]) && ClusterCount(evs[0].req.size) <= |evs[0].req.buf|
    ensures Holds(Files(sts[i]), evs[0].req.parent, evs[0].req.key, StoredNode(evs[0].req))
    ensures FileReads(sts[i], evs[0].req.parent, evs[0].req.key, StoredNode(evs[0].req).blocks, bufferSize)
    ensures |StoredNode(evs[0].req).blocks| == CeilDiv(evs[0].req.size, CLUSTER_SIZE) <==>
            evs[0].req.size <= 255 * CLUSTER_SIZE
  {
    WrittenSurvives(sts, evs, i);
    ReadBack(sts[i], evs[0].req.parent, evs[0].req.key, evs[0].req.size, StoredNode(evs[0].req).blocks, bufferSize);
    ClusterCountExact(evs[0].req.size);
  }
}
