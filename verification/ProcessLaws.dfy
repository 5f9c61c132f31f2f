/** What every run of creating and destroying processes keeps: slots, directories and frames agree. */
module ProcessLaws {
  import opened Numbers
  import opened Paging
  import opened Process

  // ---- Counting -------------------------------------------------------------------------------

  function Trues(s: seq<bool>): set<nat> { set i | 0 <= i < |s| && s[i] }

  lemma TruesUpdate(s: seq<bool>, i: nat)
    requires i < |s|
    ensures !s[i] ==> |Trues(s[i := true])| == |Trues(s)| + 1
    ensures s[i] ==> |Trues(s[i := false])| + 1 == |Trues(s)|
  {
    if s[i] {
      assert Trues(s) == Trues(s[i := false]) + {i};
    } else {
      assert Trues(s[i := true]) == Trues(s) + {i};
    }
  }

  lemma {:induction false} TruesAll(s: seq<bool>)
    ensures |Trues(s)| <= |s|
    ensures FirstFalse(s, 0) == |s| ==> |Trues(s)| == |s|
  {
    if s == [] {
      assert Trues(s) == {};
    } else {
      var k := |s| - 1;
      TruesAll(s[..k]);
      if s[k] {
        assert Trues(s) == Trues(s[..k]) + {k};
      } else {
        assert Trues(s) == Trues(s[..k]);
      }
      if FirstFalse(s, 0) == |s| {
        assert forall j :: 0 <= j < k ==> s[..k][j];
      }
    }
  }

  /** Fewer true entries than entries means there is a false one. */
  lemma RoomLeft(s: seq<bool>)
    requires |Trues(s)| < |s|
    ensures FirstFalse(s, 0) < |s|
  {
    TruesAll(s);
  }

  // ---- The invariant --------------------------------------------------------------------------

  function Dir(k: Kernel, p: nat): int
    requires p < |k.pcbs|
  {
    k.pcbs[p].context.dir
  }

  /** Slots, page directories and the active count agree. */
  ghost predicate Agreement(k: Kernel) {
    && Sized(k)
    && k.active == |Trues(k.used)| == |Trues(k.mem.dirUsed)|
    && (forall p :: 0 <= p < PROCESS_COUNT_MAX && k.used[p] ==>
         0 <= Dir(k, p) < DIRECTORY_MAX_COUNT && k.mem.dirUsed[Dir(k, p)])
    && (forall p, q :: 0 <= p < q < PROCESS_COUNT_MAX && k.used[p] && k.used[q] ==> Dir(k, p) != Dir(k, q))
  }

  /** Page records of a live process: the load address, the stack, and nothing else. */
  ghost predicate RecordsOk(pcb: Pcb) {
    && |pcb.pages| == PAGE_RECORD_COUNT && pcb.pageCount == 2
    && pcb.pages[0].used && pcb.pages[1] == PageRecord(true, STACK_ADDRESS)
    && (forall i :: 2 <= i < PAGE_RECORD_COUNT ==> !pcb.pages[i].used)
  }

  /** Every frame that a live process's directory names is recorded. */
  ghost predicate MappingsRecorded(m: Memory, pcb: Pcb)
    requires |pcb.pages| == PAGE_RECORD_COUNT
  {
    && 0 <= pcb.context.dir
    && forall i :: Frame(m, pcb.context.dir, i) != 0 ==>
         i == PageIndex(pcb.pages[0].addr) || i == PageIndex(STACK_ADDRESS)
  }

  ghost predicate KernelInv(k: Kernel) {
    && Agreement(k) && Isolated(k.mem)
    && (forall p :: 0 <= p < PROCESS_COUNT_MAX && k.used[p] ==>
         RecordsOk(k.pcbs[p]) && MappingsRecorded(k.mem, k.pcbs[p]))
    && (forall p :: 0 <= p < PROCESS_COUNT_MAX && !k.used[p] ==>
         Dir(k, p) == NO_DIRECTORY && k.pcbs[p].pages == NoPages())
    && (forall d :: 0 <= d < DIRECTORY_MAX_COUNT && !k.mem.dirUsed[d] ==> k.mem.dirs[d] == EmptyDirectory())
  }

  // ---- Creating -------------------------------------------------------------------------------

  /** The search for a slot never yields -1 and the search for a directory never yields null. */
  lemma CreateHasRoom(k: Kernel, load: Load)
    requires Agreement(k) && CreateChecks(k, load) == CREATE_SUCCESS
    ensures HasRoom(k)
  {
    RoomLeft(k.used);
    RoomLeft(k.mem.dirUsed);
  }

  lemma EquipRecords(pcb: Pcb, m: Memory, d: nat, addr: nat)
    requires Shaped(m) && d < DIRECTORY_COUNT
    ensures RecordsOk(Equip(pcb, m, d, addr).0)
    ensures Equip(pcb, m, d, addr).0.pages[0] == PageRecord(true, addr)
    ensures Equip(pcb, m, d, addr).0.context.dir == d
    ensures Equip(pcb, m, d, addr).1 == TwoFrames(m, d, addr)
  {
    assert FirstUnused(NoPages(), 0) == 0;
    assert FirstUnused(NoPages()[0 := PageRecord(true, addr)], 0) == 1;
  }

  /** The memory of a kernel that is about to host a process in directory `d`. */
  ghost function WithDirectory(m: Memory, d: nat): Memory
    requires Shaped(m) && d < DIRECTORY_MAX_COUNT
  {
    m.(dirUsed := m.dirUsed[d := true], dirs := m.dirs[d := NewDirectory()])
  }

  /** Two allocations in a blank directory. */
  ghost function TwoFrames(m: Memory, d: nat, addr: nat): Memory
    requires Shaped(m) && d < DIRECTORY_COUNT
  {
    Allocate(Allocate(m, d, addr).0, d, STACK_ADDRESS).0
  }

  lemma TwoFramesIsolated(m: Memory, d: nat, addr: nat)
    requires Isolated(m) && d < DIRECTORY_COUNT && Blank(m, d)
    ensures Isolated(TwoFrames(m, d, addr)) && TwoFrames(m, d, addr).dirUsed == m.dirUsed
    ensures forall x, y :: x != d ==> Frame(TwoFrames(m, d, addr), x, y) == Frame(m, x, y)
    ensures forall y :: Frame(TwoFrames(m, d, addr), d, y) != 0 ==>
            y == PageIndex(addr) || y == PageIndex(STACK_ADDRESS)
    ensures m.free >= 3 && PageIndex(addr) != PageIndex(STACK_ADDRESS) ==>
      && TwoFrames(m, d, addr).free == m.free - 2
      && Frame(TwoFrames(m, d, addr), d, PageIndex(addr)) != 0
      && Frame(TwoFrames(m, d, addr), d, PageIndex(STACK_ADDRESS)) != 0
  {
    AllocateIsolated(m, d, addr);
    AllocateIsolated(Allocate(m, d, addr).0, d, STACK_ADDRESS);
    Exhausted(m);
    Exhausted(Allocate(m, d, addr).0);
  }

  /** Loading into the stack's own page orphans a frame whenever there are frames to spare, and nothing else does. */
  lemma TwoFramesOrphans(m: Memory, d: nat, addr: nat)
    requires Isolated(m) && NoOrphans(m) && d < DIRECTORY_COUNT && Blank(m, d)
    ensures NoOrphans(TwoFrames(m, d, addr)) <==> PageIndex(addr) != PageIndex(STACK_ADDRESS) || m.free <= 2
  {
    AllocateIsolated(m, d, addr);
    AllocateOrphans(m, d, addr);
    AllocateOrphans(Allocate(m, d, addr).0, d, STACK_ADDRESS);
    Exhausted(m);
  }

  /**
   * What a process starts with: its entry point, an empty stack at the top of user space, the user data
   * segments with privilege 3, interrupts enabled, and zero in every other register.
   */
  function FirstContext(addr: nat, d: int): Context {
    Context(
      Cpu(edi := 0, esi := 0, ebp := 0xBFFF_FFFC, esp := 0xBFFF_FFFC, ebx := 0, edx := 0, ecx := 0, eax := 0,
          gs := 0x23, fs := 0x23, es := 0x23, ds := 0x23),
      eip := addr, eflags := 0x202, dir := d)
  }

  /** The state after a creation that passes its checks, piece by piece. */
  ghost predicate Created(k: Kernel, load: Load, readOk: bool, p: nat, d: nat, j: Kernel) {
    && Sized(k) && p == FirstFalse(k.used, 0) < PROCESS_COUNT_MAX
    && d == FirstFalse(k.mem.dirUsed, 0) < DIRECTORY_MAX_COUNT
    && j.used == k.used[p := true] && j.active == k.active + 1 && j.current == k.current && j.cr3 == k.cr3
    && j.mem == TwoFrames(WithDirectory(k.mem, d), d, load.addr)
    && |j.pcbs| == |k.pcbs| && (forall q :: 0 <= q < |k.pcbs| && q != p ==> j.pcbs[q] == k.pcbs[q])
    && RecordsOk(j.pcbs[p]) && j.pcbs[p].pages[0].addr == load.addr && Dir(j, p) == d
    && (readOk ==> j.pcbs[p].context == FirstContext(load.addr, d) && j.pcbs[p].state == Ready)
    && (readOk ==> j.pcbs[p].pid == p && j.pcbs[p].name == load.name)
    && (!readOk ==> j.pcbs[p].state == k.pcbs[p].state && j.pcbs[p].context == k.pcbs[p].context.(dir := d))
  }

  lemma CreateIs(k: Kernel, load: Load, readOk: bool)
    requires Agreement(k) && CreateChecks(k, load) == CREATE_SUCCESS
    ensures HasRoom(k)
    ensures Created(k, load, readOk, FirstFalse(k.used, 0), FirstFalse(k.mem.dirUsed, 0), Create(k, load, readOk).0)
  {
    CreateHasRoom(k, load);
    var p, d := FirstFalse(k.used, 0), FirstFalse(k.mem.dirUsed, 0);
    EquipRecords(k.pcbs[p], WithDirectory(k.mem, d), d, load.addr);
  }

  /** The control block of a new process, field by field. */
  lemma NewBlock(k: Kernel, load: Load)
    requires KernelInv(k) && CreateChecks(k, load) == CREATE_SUCCESS
    ensures HasRoom(k) && |Create(k, load, true).0.pcbs| == 16 && FirstFalse(k.used, 0) < 16
    ensures var p := FirstFalse(k.used, 0);
            var b := Create(k, load, true).0.pcbs[p];
            && b.pid == p && b.name == load.name && b.state == Ready
            && b.context.eip == load.addr && b.context.eflags == 0x202
            && b.context.dir == FirstFalse(k.mem.dirUsed, 0)
            && b.context.cpu.ds == b.context.cpu.es == b.context.cpu.fs == b.context.cpu.gs == 0x23
            && b.context.cpu.ebp == b.context.cpu.esp == 0xBFFF_FFFC
            && b.context.cpu.eax == b.context.cpu.ebx == b.context.cpu.ecx == b.context.cpu.edx == 0
            && b.context.cpu.esi == b.context.cpu.edi == 0
  {
    CreateIs(k, load, true);
  }

  lemma NewDirectoryMemory(m: Memory, d: nat)
    requires Isolated(m) && d < DIRECTORY_MAX_COUNT && m.dirs[d] == EmptyDirectory()
    ensures Blank(m, d) && Isolated(WithDirectory(m, d)) && Blank(WithDirectory(m, d), d)
    ensures NoOrphans(m) ==> NoOrphans(WithDirectory(m, d))
    ensures forall x, y :: Frame(WithDirectory(m, d), x, y) == Frame(m, x, y)
  {
    ReplaceBlank(m, d, NewDirectory(), true);
  }

  /** The memory side of a creation. */
  lemma CreatedMemory(m: Memory, d: nat, addr: nat)
    requires Isolated(m) && d < DIRECTORY_MAX_COUNT && m.dirs[d] == EmptyDirectory()
    ensures Isolated(TwoFrames(WithDirectory(m, d), d, addr))
    ensures TwoFrames(WithDirectory(m, d), d, addr).dirUsed == m.dirUsed[d := true]
    ensures forall x, y :: x != d ==> Frame(TwoFrames(WithDirectory(m, d), d, addr), x, y) == Frame(m, x, y)
    ensures forall x :: 0 <= x < DIRECTORY_COUNT && x != d ==>
            TwoFrames(WithDirectory(m, d), d, addr).dirs[x] == m.dirs[x]
    ensures forall y :: Frame(TwoFrames(WithDirectory(m, d), d, addr), d, y) != 0 ==>
            y == PageIndex(addr) || y == PageIndex(STACK_ADDRESS)
  {
    NewDirectoryMemory(m, d);
    TwoFramesIsolated(WithDirectory(m, d), d, addr);
  }

  lemma CreatedAgreement(k: Kernel, load: Load, readOk: bool, p: nat, d: nat, j: Kernel)
    requires KernelInv(k) && Created(k, load, readOk, p, d, j)
    ensures Agreement(j)
  {
    CreatedMemory(k.mem, d, load.addr);
    TruesUpdate(k.used, p);
    TruesUpdate(k.mem.dirUsed, d);
  }

  /** Creating keeps the invariant, whatever the outcome of loading the file. */
  lemma CreateKeeps(k: Kernel, load: Load, readOk: bool)
    requires KernelInv(k)
    ensures CreateChecks(k, load) == CREATE_SUCCESS ==> HasRoom(k)
    ensures KernelInv(Create(k, load, readOk).0)
  {
    if CreateChecks(k, load) == CREATE_SUCCESS {
      CreateIs(k, load, readOk);
      var p, d, j := FirstFalse(k.used, 0), FirstFalse(k.mem.dirUsed, 0), Create(k, load, readOk).0;
      CreatedAgreement(k, load, readOk, p, d, j);
      CreatedMemory(k.mem, d, load.addr);
      forall q | 0 <= q < PROCESS_COUNT_MAX && j.used[q]
        ensures RecordsOk(j.pcbs[q]) && MappingsRecorded(j.mem, j.pcbs[q])
      {
        if q != p { assert RecordsOk(k.pcbs[q]) && MappingsRecorded(k.mem, k.pcbs[q]); }
      }
    }
  }

  // ---- Destroying -----------------------------------------------------------------------------

  lemma {:induction false} UnusedRecordsFreeNothing(m: Memory, d: nat, pages: seq<PageRecord>, n: nat, junk: seq<Flags>)
    requires Isolated(m) && d < DIRECTORY_COUNT && 2 <= n <= |pages| && n <= |junk|
    requires forall i :: 2 <= i < |pages| ==> !pages[i].used
    ensures ReleaseRecords(m, d, pages, n, junk) == ReleaseRecords(m, d, pages, 2, junk)
  {
    if n > 2 {
      UnusedRecordsFreeNothing(m, d, pages, n - 1, junk);
    }
  }

  /** Freeing two addresses of a directory. */
  ghost function ReleaseTwo(m: Memory, d: nat, a: nat, b: nat, f: Flags, g: Flags): (n: Memory)
    requires Isolated(m) && d < DIRECTORY_COUNT
    ensures Isolated(n)
  {
    ReleaseIsolated(m, d, a, f);
    ReleaseIsolated(Release(m, d, a, f).0, d, b, g);
    Release(Release(m, d, a, f).0, d, b, g).0
  }

  /** How many of the two pages, counted once if they are the same, name a frame. */
  ghost function Mapped(m: Memory, d: nat, a: nat, b: nat): nat {
    (if Frame(m, d, PageIndex(a)) != 0 then 1 else 0)
    + (if PageIndex(b) != PageIndex(a) && Frame(m, d, PageIndex(b)) != 0 then 1 else 0)
  }

  lemma ReleaseTwoFrames(m: Memory, d: nat, a: nat, b: nat, f: Flags, g: Flags)
    requires Isolated(m) && d < DIRECTORY_COUNT
    ensures var n := ReleaseTwo(m, d, a, b, f, g);
            && Isolated(n) && n.dirUsed == m.dirUsed && n.free == m.free + Mapped(m, d, a, b)
            && (forall x, y :: Frame(n, x, y)
                  == if x == d && (y == PageIndex(a) || y == PageIndex(b)) then 0 else Frame(m, x, y))
            && (forall x :: 0 <= x < DIRECTORY_COUNT && x != d ==> n.dirs[x] == m.dirs[x])
  {
    ReleaseIsolated(m, d, a, f);
    ReleaseIsolated(Release(m, d, a, f).0, d, b, g);
  }

  /** The memory after the records of a live process are freed and its directory given back. */
  ghost function Emptied(m: Memory, pcb: Pcb, junk: seq<Flags>): Memory
    requires Isolated(m) && RecordsOk(pcb) && 0 <= pcb.context.dir < DIRECTORY_MAX_COUNT && |junk| == PAGE_RECORD_COUNT
  {
    FreeDirectory(ReleaseTwo(m, pcb.context.dir, pcb.pages[0].addr, STACK_ADDRESS, junk[0], junk[1]), pcb.context.dir).0
  }

  lemma DestroyIs(k: Kernel, pid: nat, junk: seq<Flags>)
    requires KernelInv(k) && pid < PROCESS_COUNT_MAX && k.used[pid] && |junk| == PAGE_RECORD_COUNT
    ensures Destroyable(k, pid) && RecordsOk(k.pcbs[pid]) && 0 <= Dir(k, pid) < DIRECTORY_MAX_COUNT && k.active >= 1
    ensures Destroy(k, pid, junk)
         == (k.(used := k.used[pid := false], pcbs := k.pcbs[pid := ZeroPcb()],
                mem := Emptied(k.mem, k.pcbs[pid], junk), active := k.active - 1), true)
  {
    var pcb := k.pcbs[pid];
    UnusedRecordsFreeNothing(k.mem, pcb.context.dir, pcb.pages, PAGE_RECORD_COUNT, junk);
    assert ReleaseRecords(k.mem, pcb.context.dir, pcb.pages, 0, junk) == k.mem;
    assert ReleaseRecords(k.mem, pcb.context.dir, pcb.pages, 1, junk) ==
        Release(k.mem, pcb.context.dir, pcb.pages[0].addr, junk[0]).0;
    TruesUpdate(k.used, pid);
  }

  /** All frames that the directory of a live process names come back, and only those. */
  lemma EmptiedMemory(m: Memory, pcb: Pcb, junk: seq<Flags>)
    requires Isolated(m) && RecordsOk(pcb) && 0 <= pcb.context.dir < DIRECTORY_MAX_COUNT && |junk| == PAGE_RECORD_COUNT
    requires MappingsRecorded(m, pcb)
    ensures var n, d := Emptied(m, pcb, junk), pcb.context.dir;
            && Isolated(n) && n.dirUsed == m.dirUsed[d := false] && n.dirs[d] == EmptyDirectory()
            && n.free == m.free + Mapped(m, d, pcb.pages[0].addr, STACK_ADDRESS)
            && (forall x, y :: x != d ==> Frame(n, x, y) == Frame(m, x, y))
            && (forall x :: 0 <= x < DIRECTORY_COUNT && x != d ==> n.dirs[x] == m.dirs[x])
  {
    var d, addr := pcb.context.dir, pcb.pages[0].addr;
    ReleaseTwoFrames(m, d, addr, STACK_ADDRESS, junk[0], junk[1]);
    var mid := ReleaseTwo(m, d, addr, STACK_ADDRESS, junk[0], junk[1]);
    ReplaceBlank(mid, d, EmptyDirectory(), false);
  }

  lemma DestroyAgreement(k: Kernel, pid: nat, junk: seq<Flags>)
    requires KernelInv(k) && pid < PROCESS_COUNT_MAX && k.used[pid] && |junk| == PAGE_RECORD_COUNT
    ensures Destroyable(k, pid) && Agreement(Destroy(k, pid, junk).0)
  {
    DestroyIs(k, pid, junk);
    EmptiedMemory(k.mem, k.pcbs[pid], junk);
    TruesUpdate(k.used, pid);
    TruesUpdate(k.mem.dirUsed, Dir(k, pid));
  }

  /** Destroying a live process keeps the invariant. */
  lemma DestroyKeeps(k: Kernel, pid: nat, junk: seq<Flags>)
    requires KernelInv(k) && pid < PROCESS_COUNT_MAX && k.used[pid] && |junk| == PAGE_RECORD_COUNT
    ensures Destroyable(k, pid) && KernelInv(Destroy(k, pid, junk).0)
  {
    DestroyAgreement(k, pid, junk);
    DestroyIs(k, pid, junk);
    EmptiedMemory(k.mem, k.pcbs[pid], junk);
    var j := Destroy(k, pid, junk).0;
    forall q | 0 <= q < PROCESS_COUNT_MAX && j.used[q]
      ensures RecordsOk(j.pcbs[q]) && MappingsRecorded(j.mem, j.pcbs[q])
    {
      assert RecordsOk(k.pcbs[q]) && MappingsRecorded(k.mem, k.pcbs[q]);
    }
  }

  /** Destroying a slot, used or not, leaves its control block all zero, and every other block as it was. */
  lemma DestroyClears(k: Kernel, pid: nat, junk: seq<Flags>)
    requires KernelInv(k) && pid < PROCESS_COUNT_MAX && |junk| == PAGE_RECORD_COUNT
    ensures Destroyable(k, pid) && |Destroy(k, pid, junk).0.pcbs| == |k.pcbs| == 16
    ensures var b := Destroy(k, pid, junk).0.pcbs[pid];
            && b.pid == 0 && b.name == "" && b.state == Running && b.pageCount == 0 && |b.pages| == 8
            && b.context == Context(Cpu(0, 0, 0, 0, 0, 0, 0, 0, 0, 0, 0, 0), 0, 0, -1)
            && (forall i :: 0 <= i < 8 ==> !b.pages[i].used && b.pages[i].addr == 0)
    ensures forall q :: 0 <= q < 16 && q != pid ==> Destroy(k, pid, junk).0.pcbs[q] == k.pcbs[q]
  {
    if k.used[pid] { DestroyIs(k, pid, junk); }
  }

  /** `process_destroy` does not look whether the slot is in use; the counts stay right exactly if it is. */
  lemma DestroyExact(k: Kernel, pid: nat, junk: seq<Flags>)
    requires KernelInv(k) && pid < PROCESS_COUNT_MAX && |junk| == PAGE_RECORD_COUNT
    ensures Destroyable(k, pid)
    ensures KernelInv(Destroy(k, pid, junk).0) <==> k.used[pid]
  {
    if k.used[pid] {
      DestroyKeeps(k, pid, junk);
    } else {
      assert k.used[pid := false] == k.used;
      TruesAll(k.used);
    }
  }

  // ---- Two frames each ------------------------------------------------------------------------

  /** The load page and the stack page of a process are different and both name a frame. */
  ghost predicate OwnsTwo(m: Memory, pcb: Pcb)
    requires |pcb.pages| == PAGE_RECORD_COUNT
  {
    && 0 <= pcb.context.dir && PageIndex(pcb.pages[0].addr) != PageIndex(STACK_ADDRESS)
    && Frame(m, pcb.context.dir, PageIndex(pcb.pages[0].addr)) != 0
    && Frame(m, pcb.context.dir, PageIndex(STACK_ADDRESS)) != 0
  }

  /** Every live process owns two frames; with the kernel's one and frame 0 these are all that is not free. */
  ghost predicate Balanced(k: Kernel)
    requires Sized(k)
  {
    && k.mem.free + 2 * k.active == PAGE_FRAME_MAX_COUNT - 1
    && (forall p :: 0 <= p < PROCESS_COUNT_MAX && k.used[p] ==> OwnsTwo(k.mem, k.pcbs[p]))
  }

  /** The indices below `n`, of which there are `n`. */
  function Indices(n: nat): (r: set<nat>)
    ensures |r| == n
    ensures forall i :: i in r <==> 0 <= i < n
  {
    if n == 0 then {} else Indices(n - 1) + {n - 1}
  }

  lemma MarkedAndUnmarked(frames: seq<bool>)
    ensures |Trues(frames)| + |Unmarked(frames)| == |frames|
  {
    assert Indices(|frames|) == Trues(frames) + Unmarked(frames);
    assert Trues(frames) !! Unmarked(frames);
  }

  /** In a balanced kernel, one plus twice the number of live processes frames are marked. */
  lemma MarkedFrames(k: Kernel)
    requires KernelInv(k) && Balanced(k)
    ensures |Trues(k.mem.frames)| == 1 + 2 * |Trues(k.used)|
  {
    MarkedAndUnmarked(k.mem.frames);
  }

  /** The memory check of `process_create_user_process` never refuses; only the count of pages does. */
  lemma CheckNeverRefuses(k: Kernel, load: Load)
    requires KernelInv(k)
    ensures CreateChecks(k, load) == CREATE_FAIL_NOT_ENOUGH_MEMORY <==>
            && k.active < PROCESS_COUNT_MAX && load.addr < KERNEL_VIRTUAL_ADDRESS_BASE
            && FramesNeeded(load.size) > PAGE_RECORD_COUNT
  {
    Exhausted(k.mem);
  }

  lemma CreatedBalanced(k: Kernel, load: Load, readOk: bool, p: nat, d: nat, j: Kernel)
    requires KernelInv(k) && Balanced(k) && Created(k, load, readOk, p, d, j) && Sized(j)
    ensures Balanced(j) <==> k.active <= 14 && PageIndex(load.addr) != PageIndex(STACK_ADDRESS)
  {
    CreatedMemory(k.mem, d, load.addr);
    NewDirectoryMemory(k.mem, d);
    TwoFramesIsolated(WithDirectory(k.mem, d), d, load.addr);
    if k.active <= 14 && PageIndex(load.addr) != PageIndex(STACK_ADDRESS) {
      assert OwnsTwo(j.mem, j.pcbs[p]);
      forall q | 0 <= q < PROCESS_COUNT_MAX && j.used[q] && q != p
        ensures OwnsTwo(j.mem, j.pcbs[q])
      {
        assert OwnsTwo(k.mem, k.pcbs[q]);
      }
    } else if k.active <= 14 {
      assert !OwnsTwo(j.mem, j.pcbs[p]);
    }
  }

  /**
   * A creation keeps every process at two frames exactly if at most 14 processes were live before it
   * and the load page is not the stack page.
   */
  lemma CreateBalanced(k: Kernel, load: Load, readOk: bool)
    requires KernelInv(k) && Balanced(k) && CreateChecks(k, load) == CREATE_SUCCESS
    ensures HasRoom(k) && Sized(Create(k, load, readOk).0)
    ensures Balanced(Create(k, load, readOk).0) <==> k.active <= 14 && PageIndex(load.addr) != PageIndex(STACK_ADDRESS)
  {
    CreateIs(k, load, readOk);
    CreateKeeps(k, load, readOk);
    var p, d := FirstFalse(k.used, 0), FirstFalse(k.mem.dirUsed, 0);
    CreatedBalanced(k, load, readOk, p, d, Create(k, load, readOk).0);
  }

  /** The sixteenth process gets no frame at all: nothing is mapped in its page directory but the kernel. */
  lemma SixteenthGetsNone(k: Kernel, load: Load, readOk: bool)
    requires KernelInv(k) && Balanced(k) && k.active == 15 && CreateChecks(k, load) == CREATE_SUCCESS
    ensures HasRoom(k) && var p, j := FirstFalse(k.used, 0), Create(k, load, readOk).0;
            && Sized(j) && j.used[p] && Dir(j, p) >= 0 && Blank(j.mem, Dir(j, p)) && j.mem.frames == k.mem.frames
  {
    CreateIs(k, load, readOk);
    CreateKeeps(k, load, readOk);
    var d := FirstFalse(k.mem.dirUsed, 0);
    NewDirectoryMemory(k.mem, d);
    var m := WithDirectory(k.mem, d);
    AllocateIsolated(m, d, load.addr);
    AllocateIsolated(m, d, STACK_ADDRESS);
  }

  /** What a caller can see of an executable before it is loaded: below the kernel, and few enough pages. */
  predicate Loadable(load: Load) {
    load.addr < KERNEL_VIRTUAL_ADDRESS_BASE && FramesNeeded(load.size) <= PAGE_RECORD_COUNT
  }

  /**
   * Which executables are loadable, in bytes: up to seven pages, the rounding of the size allowing two
   * bytes more, and sizes so large that adding a page wraps around.
   */
  lemma LoadableMeaning(load: Load)
    requires load.size < 0x1_0000_0000
    ensures Loadable(load) <==>
            load.addr < 0xC000_0000 && (load.size <= 7 * 0x40_0000 + 2 || load.size >= 0x1_0000_0000 - 0x40_0000)
  {
    EightPages((load.size + PAGE_FRAME_SIZE) % UINT32);
    PageAdded(load.size);
  }

  lemma PageAdded(size: nat)
    requires size < 0x1_0000_0000
    ensures (size + PAGE_FRAME_SIZE) % UINT32 <= 8 * 0x40_0000 + 2 <==>
            size <= 7 * 0x40_0000 + 2 || size >= 0x1_0000_0000 - 0x40_0000
  {
  }

  /** At most eight pages are counted exactly up to eight pages and two bytes. */
  lemma EightPages(n: nat)
    ensures CeilDiv(Binary32(n), PAGE_FRAME_SIZE) <= PAGE_RECORD_COUNT <==> n <= 8 * 0x40_0000 + 2
  {
    RoundedTo25Bits(n);
  }

  /** The code of a creation, for every 32-bit size. */
  lemma CreateCode(k: Kernel, load: Load, readOk: bool)
    requires KernelInv(k) && load.size < 0x1_0000_0000
    ensures CreateChecks(k, load) == CREATE_SUCCESS ==> HasRoom(k)
    ensures Create(k, load, readOk).1
         == if k.active >= 16 then 1
            else if load.addr >= 0xC000_0000 then 2
            else if 7 * 0x40_0000 + 2 < load.size < 0x1_0000_0000 - 0x40_0000 then 3
            else if !readOk then 4
            else 0
  {
    LoadableMeaning(load);
    ChecksMeaning(k, load);
    CheckNeverRefuses(k, load);
    CreateKeeps(k, load, readOk);
  }

  /** The checks of a creation pass exactly if the executable is loadable and fewer than 16 processes are live. */
  lemma ChecksMeaning(k: Kernel, load: Load)
    requires KernelInv(k)
    ensures CreateChecks(k, load) == CREATE_SUCCESS <==> Loadable(load) && k.active < PROCESS_COUNT_MAX
  {
    CheckNeverRefuses(k, load);
  }

  /** Destroying a live process of a balanced kernel gives back exactly two frames. */
  lemma DestroyBalanced(k: Kernel, pid: nat, junk: seq<Flags>)
    requires KernelInv(k) && Balanced(k) && pid < PROCESS_COUNT_MAX && k.used[pid] && |junk| == PAGE_RECORD_COUNT
    ensures Destroyable(k, pid) && Sized(Destroy(k, pid, junk).0)
    ensures Balanced(Destroy(k, pid, junk).0)
  {
    DestroyIs(k, pid, junk);
    EmptiedMemory(k.mem, k.pcbs[pid], junk);
    DestroyKeeps(k, pid, junk);
    var j := Destroy(k, pid, junk).0;
    assert OwnsTwo(k.mem, k.pcbs[pid]);
    forall q | 0 <= q < PROCESS_COUNT_MAX && j.used[q]
      ensures OwnsTwo(j.mem, j.pcbs[q])
    {
      assert OwnsTwo(k.mem, k.pcbs[q]);
    }
  }

  // ---- Creating, then destroying --------------------------------------------------------------

  /** Two allocations in a fresh directory, freed again, restore the memory unless they hit the same page. */
  lemma TwoFramesReturned(m: Memory, d: nat, addr: nat, pcb: Pcb, junk: seq<Flags>)
    requires Isolated(m) && d < DIRECTORY_MAX_COUNT && m.dirs[d] == EmptyDirectory() && !m.dirUsed[d]
    requires RecordsOk(pcb) && pcb.pages[0].addr == addr && pcb.context.dir == d && |junk| == PAGE_RECORD_COUNT
    ensures Isolated(TwoFrames(WithDirectory(m, d), d, addr))
    ensures Emptied(TwoFrames(WithDirectory(m, d), d, addr), pcb, junk) == m <==>
            PageIndex(addr) != PageIndex(STACK_ADDRESS) || m.free <= 2
  {
    var w, n := WithDirectory(m, d), TwoFrames(WithDirectory(m, d), d, addr);
    CreatedMemory(m, d, addr);
    NewDirectoryMemory(m, d);
    EmptiedMemory(n, pcb, junk);
    var e := Emptied(n, pcb, junk);
    assert e.dirs == m.dirs;
    assert e.dirUsed == m.dirUsed;
    FramesReturned(w, d, addr, junk[0], junk[1]);
  }

  /** Allocate two pages of a blank directory, free them: the frame map is back, unless both are the same page. */
  lemma FramesReturned(m: Memory, d: nat, addr: nat, f: Flags, g: Flags)
    requires Isolated(m) && d < DIRECTORY_COUNT && Blank(m, d)
    ensures Isolated(TwoFrames(m, d, addr))
    ensures var e := ReleaseTwo(TwoFrames(m, d, addr), d, addr, STACK_ADDRESS, f, g);
            (e.frames == m.frames && e.free == m.free) <==> PageIndex(addr) != PageIndex(STACK_ADDRESS) || m.free <= 2
  {
    TwoFramesIsolated(m, d, addr);
    Exhausted(m);
    var one := Allocate(m, d, addr).0;
    AllocateIsolated(m, d, addr);
    Exhausted(one);
    AllocateIsolated(one, d, STACK_ADDRESS);
    var two := TwoFrames(m, d, addr);
    ReleaseIsolated(two, d, addr, f);
    ReleaseIsolated(Release(two, d, addr, f).0, d, STACK_ADDRESS, g);
  }

  lemma CreatedThenDestroyed(k: Kernel, load: Load, readOk: bool, p: nat, d: nat, c: Kernel, junk: seq<Flags>)
    requires KernelInv(k) && Created(k, load, readOk, p, d, c) && KernelInv(c) && |junk| == PAGE_RECORD_COUNT
    ensures Destroyable(c, p)
    ensures var j := Destroy(c, p, junk).0;
            && j.used == k.used && j.active == k.active && |j.pcbs| == |k.pcbs|
            && (forall q :: 0 <= q < PROCESS_COUNT_MAX && q != p ==> j.pcbs[q] == k.pcbs[q])
            && (j.mem == k.mem <==> PageIndex(load.addr) != PageIndex(STACK_ADDRESS) || k.mem.free <= 2)
  {
    DestroyIs(c, p, junk);
    TwoFramesReturned(k.mem, d, load.addr, c.pcbs[p], junk);
    assert k.used[p := true][p := false] == k.used;
  }

  /**
   * Creating a process and destroying it again restores the used slots, the counters and the whole
   * memory state, unless its load page was the stack page while frames were to spare.
   */
  lemma CreateThenDestroy(k: Kernel, load: Load, readOk: bool, junk: seq<Flags>)
    requires KernelInv(k) && CreateChecks(k, load) == CREATE_SUCCESS && |junk| == PAGE_RECORD_COUNT
    ensures HasRoom(k) && Destroyable(Create(k, load, readOk).0, FirstFalse(k.used, 0))
    ensures var j := Destroy(Create(k, load, readOk).0, FirstFalse(k.used, 0), junk).0;
            && j.used == k.used && j.active == k.active && |j.pcbs| == |k.pcbs|
            && (forall q :: 0 <= q < PROCESS_COUNT_MAX && q != FirstFalse(k.used, 0) ==> j.pcbs[q] == k.pcbs[q])
            && (j.mem == k.mem <==> PageIndex(load.addr) != PageIndex(STACK_ADDRESS) || k.mem.free <= 2)
  {
    CreateIs(k, load, readOk);
    CreateKeeps(k, load, readOk);
    var p, d := FirstFalse(k.used, 0), FirstFalse(k.mem.dirUsed, 0);
    CreatedThenDestroyed(k, load, readOk, p, d, Create(k, load, readOk).0, junk);
  }

  // ---- Orphans --------------------------------------------------------------------------------

  /**
   * A creation leaves a marked frame that nothing names exactly if it loads into the stack page with frames
   * to spare.
   */
  lemma CreateOrphans(k: Kernel, load: Load, readOk: bool)
    requires KernelInv(k) && NoOrphans(k.mem) && CreateChecks(k, load) == CREATE_SUCCESS
    ensures HasRoom(k)
    ensures NoOrphans(Create(k, load, readOk).0.mem) <==>
            PageIndex(load.addr) != PageIndex(STACK_ADDRESS) || k.mem.free <= 2
  {
    CreateIs(k, load, readOk);
    var d := FirstFalse(k.mem.dirUsed, 0);
    NewDirectoryMemory(k.mem, d);
    TwoFramesOrphans(WithDirectory(k.mem, d), d, load.addr);
  }

  lemma DestroyOrphans(k: Kernel, pid: nat, junk: seq<Flags>)
    requires KernelInv(k) && NoOrphans(k.mem) && pid < PROCESS_COUNT_MAX && k.used[pid] && |junk| == PAGE_RECORD_COUNT
    ensures Destroyable(k, pid) && NoOrphans(Destroy(k, pid, junk).0.mem)
  {
    DestroyIs(k, pid, junk);
    var m, pcb, d := k.mem, k.pcbs[pid], Dir(k, pid);
    ReleaseOrphans(m, d, pcb.pages[0].addr, junk[0]);
    ReleaseIsolated(m, d, pcb.pages[0].addr, junk[0]);
    ReleaseOrphans(Release(m, d, pcb.pages[0].addr, junk[0]).0, d, STACK_ADDRESS, junk[1]);
    ReleaseTwoFrames(m, d, pcb.pages[0].addr, STACK_ADDRESS, junk[0], junk[1]);
    ReplaceBlank(ReleaseTwo(m, d, pcb.pages[0].addr, STACK_ADDRESS, junk[0], junk[1]), d, EmptyDirectory(), false);
  }

  // ---- One page frame -------------------------------------------------------------------------

  /** A process may ask for a page at `addr`: a record is free and the address has neither record nor frame. */
  ghost predicate PageFree(pcb: Pcb, m: Memory, addr: nat) {
    && |pcb.pages| == PAGE_RECORD_COUNT && pcb.pageCount < PAGE_RECORD_COUNT
    && FirstUnused(pcb.pages, 0) < PAGE_RECORD_COUNT
    && PageRecord(true, addr) !in pcb.pages && pcb.pages[FirstUnused(pcb.pages, 0)] == NO_PAGE
    && Isolated(m) && 0 <= pcb.context.dir < DIRECTORY_COUNT && Frame(m, pcb.context.dir, PageIndex(addr)) == 0
  }

  /** The records `after` are those `before` with the one at `i` replaced. */
  ghost predicate OneRecord(before: seq<PageRecord>, after: seq<PageRecord>, i: nat, r: PageRecord) {
    i < |before| == |after| && after[i] == r && forall j :: 0 <= j < |before| && j != i ==> after[j] == before[j]
  }

  /**
   * Asking for a page: with fewer than eight pages counted and a record free, the first free record
   * takes the address and the count rises; otherwise nothing happens.
   */
  lemma PageAsked(pcb: Pcb, m: Memory, addr: nat)
    requires |pcb.pages| == 8 && Isolated(m) && 0 <= pcb.context.dir < DIRECTORY_COUNT
    ensures var (after, n) := AllocatePage(pcb, m, addr);
            if pcb.pageCount >= 8 || (forall j :: 0 <= j < 8 ==> pcb.pages[j].used) then after == pcb && n == m
            else
              && after.pageCount == pcb.pageCount + 1 && after.context == pcb.context && after.pid == pcb.pid
              && n == Allocate(m, pcb.context.dir, addr).0
              && exists i: nat ::
                   && OneRecord(pcb.pages, after.pages, i, PageRecord(true, addr))
                   && !pcb.pages[i].used && forall j :: 0 <= j < i ==> pcb.pages[j].used
  {
    var i := FirstUnused(pcb.pages, 0);
    var after := AllocatePage(pcb, m, addr).0;
    if pcb.pageCount < 8 && i < 8 {
      assert OneRecord(pcb.pages, after.pages, i, PageRecord(true, addr));
    }
  }

  /**
   * Asking for a page and giving it back restores the control block, the frame map and what every
   * entry names, whether or not there was a frame to give.
   */
  lemma PageReturned(pcb: Pcb, m: Memory, addr: nat, junk: Flags)
    requires PageFree(pcb, m, addr)
    ensures var (asked, n) := AllocatePage(pcb, m, addr);
            && Frame(n, pcb.context.dir, PageIndex(addr)) < PAGE_FRAME_MAX_COUNT
            && var (back, r) := DeallocatePage(asked, n, addr, junk);
               && back == pcb && Isolated(r) && r.frames == m.frames && r.free == m.free && r.dirUsed == m.dirUsed
               && (forall x, y :: Frame(r, x, y) == Frame(m, x, y))
  {
    var (asked, n) := AllocatePage(pcb, m, addr);
    var i := FirstUnused(pcb.pages, 0);
    AllocateIsolated(m, pcb.context.dir, addr);
    Exhausted(m);
    ReleaseIsolated(n, pcb.context.dir, addr, junk);
    assert forall j :: 0 <= j < PAGE_RECORD_COUNT ==> pcb.pages[j] in pcb.pages;
    assert asked.pages[i] == PageRecord(true, addr);
    assert FindRecord(asked.pages, addr, 0) == i;
    assert asked.pages[i := NO_PAGE] == pcb.pages;
  }

  // ---- Booting --------------------------------------------------------------------------------

  /** The kernel's page directory at start: its first 4 MiB, at both ends of the address space. */
  function KernelDirectory(): (s: seq<Pde>)
    ensures |s| == PAGE_ENTRY_COUNT && forall i :: 0 <= i < |s| ==> s[i].lower == 0
  {
    EmptyDirectory()[0 := Pde(KERNEL_FLAGS, 0)][KERNEL_ENTRY := Pde(KERNEL_FLAGS, 0)]
  }

  function StaticMemory(): (m: Memory)
    ensures Shaped(m)
  {
    Memory(seq(PAGE_FRAME_MAX_COUNT, _ => false), 32,
           seq(DIRECTORY_MAX_COUNT, _ => EmptyDirectory()) + [KernelDirectory()],
           seq(DIRECTORY_MAX_COUNT, _ => false))
  }

  /** The state `kernel_setup` has reached before it creates the first process. */
  function Boot(): Kernel {
    Kernel(seq(PROCESS_COUNT_MAX, _ => false), seq(PROCESS_COUNT_MAX, _ => ZeroPcb()), 0, NO_PROCESS_RUNNING,
           Allocate(StaticMemory(), KERNEL_DIRECTORY, 0).0, KERNEL_DIRECTORY)
  }

  lemma AllFalse(s: seq<bool>)
    requires forall i :: 0 <= i < |s| ==> !s[i]
    ensures |Trues(s)| == 0 && |Unmarked(s)| == |s|
  {
    assert Trues(s) == {};
    MarkedAndUnmarked(s);
  }

  lemma StaticIsolated()
    ensures Isolated(StaticMemory()) && NoOrphans(StaticMemory()) && Blank(StaticMemory(), KERNEL_DIRECTORY)
  {
    AllFalse(StaticMemory().frames);
  }

  /**
   * What the booted kernel runs on: its own directory, with the kernel's first 4 MiB in the upper half
   * and the frame that `kernel_setup` maps at address 0; all other frames and all directories are free.
   */
  lemma BootMapped()
    ensures var t := Boot().mem.dirs[32];
            && Boot().cr3 == 32 && |t| == 1024
            && t[0x300] == Pde(Flags(true, true, false, false, false, false, false, true), 0)
            && t[0] == Pde(Flags(true, true, true, false, false, false, false, true), 1)
            && (forall i :: 0 <= i < 1024 && i != 0 && i != 0x300 ==> !t[i].flags.present && t[i].lower == 0)
    ensures forall f :: 0 <= f < 32 ==> (Boot().mem.frames[f] <==> f == 1)
    ensures forall d :: 0 <= d < 32 ==> !Boot().mem.dirUsed[d]
  {
    StaticIsolated();
    Exhausted(StaticMemory());
  }

  /** The booted kernel satisfies the invariant, is balanced, and no marked frame is orphaned. */
  lemma BootOk()
    ensures KernelInv(Boot()) && Balanced(Boot()) && NoOrphans(Boot().mem)
  {
    StaticIsolated();
    AllocateIsolated(StaticMemory(), KERNEL_DIRECTORY, 0);
    AllocateOrphans(StaticMemory(), KERNEL_DIRECTORY, 0);
    AllFalse(Boot().used);
    AllFalse(Boot().mem.dirUsed);
  }
}
