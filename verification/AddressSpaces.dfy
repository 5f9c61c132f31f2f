/** What a process can reach in user mode: the address spaces that src/paging.c and src/process.c build. */
module AddressSpaces {
  import opened Paging
  import opened Process
  import opened ProcessLaws
  import opened Scheduler
  import opened KernelRuns

  /**
   * The frame that a user-mode access to `addr` reaches through a page directory, or -1 for a fault:
   * the entry must be present and open to user mode.
   */
  function Reach(t: seq<Pde>, addr: nat): int
    requires |t| == PAGE_ENTRY_COUNT
  {
    var e := t[PageIndex(addr)];
    if e.flags.present && e.flags.user then e.lower else -1
  }

  /** The frame that a user-mode store to `addr` reaches: the entry must also be writable and map 4 MiB itself. */
  function Store(t: seq<Pde>, addr: nat): int
    requires |t| == PAGE_ENTRY_COUNT
  {
    var e := t[PageIndex(addr)];
    if e.flags.present && e.flags.user && e.flags.write && e.flags.largePage then e.lower else -1
  }

  predicate PlainFlags(f: Flags) { !f.writeThrough && !f.disableCache && !f.accessed && !f.dirty }

  /** A 4 MiB page that user mode may read and write. */
  predicate UserEntry(e: Pde) {
    e.flags.present && e.flags.write && e.flags.user && e.flags.largePage && PlainFlags(e.flags) && e.lower >= 1
  }

  /** The kernel's own 4 MiB at frame 0, which it may write and user mode may not touch. */
  predicate KernelEntry(e: Pde) {
    e.flags.present && e.flags.write && !e.flags.user && e.flags.largePage && PlainFlags(e.flags) && e.lower == 0
  }

  predicate NoEntry(e: Pde) { !e.flags.present && !e.flags.user && e.lower == 0 }

  /** A process's directory: the kernel's entry, closed to user mode, and user pages below it; all else absent. */
  ghost predicate SpaceOk(t: seq<Pde>) {
    && |t| == PAGE_ENTRY_COUNT && KernelEntry(t[KERNEL_ENTRY])
    && (forall i :: 0 <= i < |t| && i != KERNEL_ENTRY ==> NoEntry(t[i]) || (i < KERNEL_ENTRY && UserEntry(t[i])))
  }

  ghost predicate SpacesOk(k: Kernel)
    requires Agreement(k)
  {
    forall p :: 0 <= p < PROCESS_COUNT_MAX && k.used[p] ==> SpaceOk(k.mem.dirs[Dir(k, p)])
  }

  /** Mapping a page below the kernel keeps the shape of an address space, and opens the page if a frame is left. */
  lemma AllocateSpace(m: Memory, d: nat, addr: nat)
    requires Isolated(m) && d < DIRECTORY_COUNT && addr < KERNEL_VIRTUAL_ADDRESS_BASE && SpaceOk(m.dirs[d])
    ensures Isolated(Allocate(m, d, addr).0) && SpaceOk(Allocate(m, d, addr).0.dirs[d])
    ensures m.free >= 2 ==>
              UserEntry(Allocate(m, d, addr).0.dirs[d][PageIndex(addr)])
  {
    AllocateIsolated(m, d, addr);
    assert PageIndex(addr) < KERNEL_ENTRY;
  }

  /** The address space of a new process is well-formed. */
  lemma NewSpace(m: Memory, d: nat, addr: nat)
    requires Isolated(m) && d < DIRECTORY_MAX_COUNT && m.dirs[d] == EmptyDirectory()
    requires addr < KERNEL_VIRTUAL_ADDRESS_BASE
    ensures SpaceOk(TwoFrames(WithDirectory(m, d), d, addr).dirs[d])
  {
    NewDirectoryMemory(m, d);
    AllocateSpace(WithDirectory(m, d), d, addr);
    AllocateSpace(Allocate(WithDirectory(m, d), d, addr).0, d, STACK_ADDRESS);
  }

  lemma CreateSpaces(k: Kernel, load: Load, readOk: bool)
    requires KernelInv(k) && SpacesOk(k) && CreateChecks(k, load) == CREATE_SUCCESS
    ensures HasRoom(k) && Agreement(Create(k, load, readOk).0) && SpacesOk(Create(k, load, readOk).0)
  {
    CreateIs(k, load, readOk);
    CreateKeeps(k, load, readOk);
    var d := FirstFalse(k.mem.dirUsed, 0);
    CreatedMemory(k.mem, d, load.addr);
    NewSpace(k.mem, d, load.addr);
  }

  lemma DestroySpaces(k: Kernel, pid: nat, junk: seq<Flags>)
    requires KernelInv(k) && SpacesOk(k) && pid < PROCESS_COUNT_MAX && k.used[pid] && |junk| == PAGE_RECORD_COUNT
    ensures Destroyable(k, pid) && Agreement(Destroy(k, pid, junk).0) && SpacesOk(Destroy(k, pid, junk).0)
  {
    DestroyIs(k, pid, junk);
    DestroyKeeps(k, pid, junk);
    EmptiedMemory(k.mem, k.pcbs[pid], junk);
  }

  /** Every event keeps the shape of every address space, whatever the uninitialised flags held. */
  lemma StepSpaces(k: Kernel, ev: Event)
    requires KernelOk(k) && Legal(k, ev) && SpacesOk(k)
    ensures KernelOk(Step(k, ev)) && SpacesOk(Step(k, ev))
  {
    StepKeeps(k, ev);
    match ev
    case Spawn(load, readOk) => if CreateChecks(k, load) == CREATE_SUCCESS { CreateSpaces(k, load, readOk); }
    case Kill(pid, junk) => if pid < PROCESS_COUNT_MAX { DestroySpaces(k, pid, junk); }
    case Timer(ctx) => TickKeeps(k, ctx);
  }

  lemma {:induction false} RunSpaces(ks: seq<Kernel>, evs: seq<Event>, i: nat)
    requires IsRun(ks, evs) && ks[0] == Boot() && i <= |evs|
    ensures KernelOk(ks[i]) && SpacesOk(ks[i])
  {
    if i == 0 {
      BootOk();
    } else {
      RunSpaces(ks, evs, i - 1);
      assert Follows(ks, evs, i - 1);
      StepSpaces(ks[i - 1], evs[i - 1]);
    }
  }

  /** The frame reached by process `p` at `addr`. */
  ghost function ReachOf(k: Kernel, p: nat, addr: nat): int
    requires Agreement(k) && p < PROCESS_COUNT_MAX && k.used[p]
  {
    Reach(k.mem.dirs[Dir(k, p)], addr)
  }

  /** The frame process `p` can store to at `addr`. */
  ghost function StoreOf(k: Kernel, p: nat, addr: nat): int
    requires Agreement(k) && p < PROCESS_COUNT_MAX && k.used[p]
  {
    Store(k.mem.dirs[Dir(k, p)], addr)
  }

  /**
   * What user mode reaches at one page: exactly the frame the entry names, if it names one, always a
   * marked frame other than the kernel's frame 0, and nothing at or above the kernel's half.
   */
  lemma ReachIs(k: Kernel, p: nat, addr: nat)
    requires KernelOk(k) && SpacesOk(k) && p < PROCESS_COUNT_MAX && k.used[p]
    ensures var f := Frame(k.mem, Dir(k, p), PageIndex(addr));
            && ReachOf(k, p, addr) == StoreOf(k, p, addr) == (if f != 0 then f else -1)
            && (f != 0 ==> f < PAGE_FRAME_MAX_COUNT && k.mem.frames[f] && PageIndex(addr) < KERNEL_ENTRY)
  {
    assert SpaceOk(k.mem.dirs[Dir(k, p)]);
  }

  /** Two user-mode accesses meet in a frame only if they are the same page of the same process. */
  lemma Protection(k: Kernel, p: nat, q: nat, a: nat, b: nat)
    requires KernelOk(k) && SpacesOk(k) && p < PROCESS_COUNT_MAX && q < PROCESS_COUNT_MAX && k.used[p] && k.used[q]
    requires ReachOf(k, p, a) == ReachOf(k, q, b) != -1
    ensures p == q && PageIndex(a) == PageIndex(b)
  {
    ReachIs(k, p, a);
    ReachIs(k, q, b);
  }

  /**
   * Memory protection over every run from boot: whatever was created, destroyed and scheduled, a
   * process in user mode reaches only frames of its own, none of the kernel's frame 0, and every
   * process has the kernel mapped in its upper half, closed to user mode.
   */
  lemma RunProtection(ks: seq<Kernel>, evs: seq<Event>, i: nat, p: nat, q: nat, a: nat, b: nat)
    requires IsRun(ks, evs) && ks[0] == Boot() && i <= |evs|
    requires p < PROCESS_COUNT_MAX && q < PROCESS_COUNT_MAX
    requires |ks[i].used| == PROCESS_COUNT_MAX && ks[i].used[p] && ks[i].used[q]
    ensures KernelOk(ks[i]) && ReachOf(ks[i], p, a) != 0
    ensures ReachOf(ks[i], p, a) == ReachOf(ks[i], q, b) != -1 ==> p == q && PageIndex(a) == PageIndex(b)
    ensures KernelEntry(ks[i].mem.dirs[Dir(ks[i], p)][PageIndex(0xC000_0000)])
  {
    RunSpaces(ks, evs, i);
    ReachIs(ks[i], p, a);
    if ReachOf(ks[i], p, a) == ReachOf(ks[i], q, b) != -1 {
      Protection(ks[i], p, q, a, b);
    }
    assert SpaceOk(ks[i].mem.dirs[Dir(ks[i], p)]) && PageIndex(0xC000_0000) == KERNEL_ENTRY;
  }

  /** In a run with at most 15 live processes, a process can write its load page and its stack page. */
  lemma RunReaches(ks: seq<Kernel>, evs: seq<Event>, i: nat, p: nat)
    requires IsRun(ks, evs) && ks[0] == Boot() && i <= |evs| && (forall j :: 0 <= j < i ==> Gentle(ks[j], evs[j]))
    requires p < PROCESS_COUNT_MAX && |ks[i].used| == PROCESS_COUNT_MAX && ks[i].used[p]
    ensures KernelOk(ks[i])
    ensures StoreOf(ks[i], p, STACK_ADDRESS) >= 1 && StoreOf(ks[i], p, ks[i].pcbs[p].pages[0].addr) >= 1
  {
    RunSpaces(ks, evs, i);
    RunBalanced(ks, evs, i);
    assert OwnsTwo(ks[i].mem, ks[i].pcbs[p]);
    ReachIs(ks[i], p, STACK_ADDRESS);
    ReachIs(ks[i], p, ks[i].pcbs[p].pages[0].addr);
  }

  // ---- The image of a process -----------------------------------------------------------------

  /** Every byte of an image of the given size at the given address can be read and written. */
  ghost predicate ImageReached(k: Kernel, p: nat, addr: nat, size: nat)
    requires Agreement(k) && p < PROCESS_COUNT_MAX && k.used[p]
  {
    forall b :: addr <= b < addr + size ==> StoreOf(k, p, b) >= 1
  }

  /** The image ends in the page it starts in, or it starts right below the stack page and ends there. */
  predicate ImageFits(addr: nat, size: nat) {
    || addr % PAGE_FRAME_SIZE + size <= PAGE_FRAME_SIZE
    || (PageIndex(addr) + 1 == PageIndex(STACK_ADDRESS) && addr % PAGE_FRAME_SIZE + size <= 2 * PAGE_FRAME_SIZE)
  }

  /** The page `n` pages on from `addr` has the index `n` on, below the wrap-around. */
  lemma PagesOn(addr: nat, b: nat, n: nat)
    requires PageIndex(addr) + n < PAGE_ENTRY_COUNT
    requires addr <= b && n * PAGE_FRAME_SIZE <= addr % PAGE_FRAME_SIZE + (b - addr) < (n + 1) * PAGE_FRAME_SIZE
    ensures PageIndex(b) == PageIndex(addr) + n
  {
    var F := PAGE_FRAME_SIZE;
    assert b == addr / F * F + (addr % F + (b - addr));
    assert b / F == addr / F + n;
  }

  /** Where a live process's directory names frames: in its load page, below the kernel, and its stack page. */
  lemma ReachedPages(k: Kernel, p: nat, b: nat)
    requires KernelOk(k) && SpacesOk(k) && p < PROCESS_COUNT_MAX && k.used[p] && OwnsTwo(k.mem, k.pcbs[p])
    ensures PageIndex(k.pcbs[p].pages[0].addr) < KERNEL_ENTRY
    ensures StoreOf(k, p, b) >= 1 <==>
            PageIndex(b) == PageIndex(k.pcbs[p].pages[0].addr) || PageIndex(b) == PageIndex(STACK_ADDRESS)
  {
    ReachIs(k, p, b);
    ReachIs(k, p, k.pcbs[p].pages[0].addr);
  }

  lemma FittingReached(k: Kernel, p: nat, size: nat)
    requires KernelOk(k) && SpacesOk(k) && p < PROCESS_COUNT_MAX && k.used[p] && OwnsTwo(k.mem, k.pcbs[p])
    requires ImageFits(k.pcbs[p].pages[0].addr, size)
    ensures ImageReached(k, p, k.pcbs[p].pages[0].addr, size)
  {
    var addr := k.pcbs[p].pages[0].addr;
    forall b | addr <= b < addr + size
      ensures StoreOf(k, p, b) >= 1
    {
      ReachedPages(k, p, b);
      if addr % PAGE_FRAME_SIZE + (b - addr) < PAGE_FRAME_SIZE { PagesOn(addr, b, 0); } else { PagesOn(addr, b, 1); }
    }
  }

  lemma UnfittingFaults(k: Kernel, p: nat, size: nat) returns (b: nat)
    requires KernelOk(k) && SpacesOk(k) && p < PROCESS_COUNT_MAX && k.used[p] && OwnsTwo(k.mem, k.pcbs[p])
    requires !ImageFits(k.pcbs[p].pages[0].addr, size)
    ensures k.pcbs[p].pages[0].addr <= b < k.pcbs[p].pages[0].addr + size && StoreOf(k, p, b) < 1
  {
    var addr := k.pcbs[p].pages[0].addr;
    var n := if PageIndex(addr) + 1 == PageIndex(STACK_ADDRESS) then 2 else 1;
    b := addr - addr % PAGE_FRAME_SIZE + n * PAGE_FRAME_SIZE;
    ReachedPages(k, p, b);
    PagesOn(addr, b, n);
  }

  /** A process with its two frames reaches its whole image exactly if the image fits, whatever its size. */
  lemma ImageReach(k: Kernel, p: nat, size: nat)
    requires KernelOk(k) && SpacesOk(k) && p < PROCESS_COUNT_MAX && k.used[p] && OwnsTwo(k.mem, k.pcbs[p])
    ensures ImageReached(k, p, k.pcbs[p].pages[0].addr, size) <==> ImageFits(k.pcbs[p].pages[0].addr, size)
  {
    if ImageFits(k.pcbs[p].pages[0].addr, size) {
      FittingReached(k, p, size);
    } else {
      var b := UnfittingFaults(k, p, size);
    }
  }

  /** A process keeps its page records as long as it lives. */
  lemma StepRecords(k: Kernel, ev: Event, p: nat)
    requires KernelOk(k) && Legal(k, ev) && p < PROCESS_COUNT_MAX && k.used[p]
    ensures KernelOk(Step(k, ev)) && (Step(k, ev).used[p] ==> Step(k, ev).pcbs[p].pages == k.pcbs[p].pages)
  {
    StepKeeps(k, ev);
    match ev
    case Spawn(load, readOk) => if CreateChecks(k, load) == CREATE_SUCCESS { CreateIs(k, load, readOk); }
    case Kill(pid, junk) => if pid < PROCESS_COUNT_MAX { DestroyIs(k, pid, junk); }
    case Timer(ctx) => TickKeeps(k, ctx);
  }

  lemma RecordsKept(ks: seq<Kernel>, evs: seq<Event>, p: nat, c: nat, i: nat)
    requires IsRun(ks, evs) && c <= i <= |evs| && KernelOk(ks[c]) && StaysLive(ks, p, c, i)
    ensures KernelOk(ks[i]) && ks[i].pcbs[p].pages == ks[c].pcbs[p].pages
  {
    for x := c to i
      invariant KernelOk(ks[x]) && ks[x].pcbs[p].pages == ks[c].pcbs[p].pages
    {
      RunStepRecords(ks, evs, p, x);
    }
  }

  lemma RunStepRecords(ks: seq<Kernel>, evs: seq<Event>, p: nat, x: nat)
    requires IsRun(ks, evs) && x < |evs| && KernelOk(ks[x]) && StaysLive(ks, p, x, x + 1)
    ensures KernelOk(ks[x + 1]) && ks[x + 1].pcbs[p].pages == ks[x].pcbs[p].pages
  {
    assert Follows(ks, evs, x);
    StepRecords(ks[x], evs[x], p);
  }

  /** The creation at step `c` of a run put the executable `load` into slot `p`. */
  ghost predicate CreatedAt(ks: seq<Kernel>, evs: seq<Event>, c: nat, load: Load, p: nat) {
    && |ks| == |evs| + 1 && c < |evs| && evs[c].Spawn? && evs[c].load == load
    && CreateChecks(ks[c], load) == CREATE_SUCCESS
    && |ks[c].used| == PROCESS_COUNT_MAX && p == FirstFalse(ks[c].used, 0)
  }

  lemma LoadRecorded(ks: seq<Kernel>, evs: seq<Event>, c: nat, load: Load, p: nat)
    requires IsRun(ks, evs) && CreatedAt(ks, evs, c, load, p) && KernelOk(ks[c])
    ensures KernelOk(ks[c + 1]) && p < PROCESS_COUNT_MAX && ks[c + 1].pcbs[p].pages[0].addr == load.addr
  {
    assert Follows(ks, evs, c);
    StepKeeps(ks[c], evs[c]);
    CreateIs(ks[c], load, evs[c].readOk);
  }

  /**
   * In a run with at most 15 live processes and none loaded into the stack page, a process reaches its
   * whole image exactly if the image fits: only the page of its load address is ever mapped for it.
   */
  lemma RunImage(ks: seq<Kernel>, evs: seq<Event>, c: nat, i: nat, load: Load, p: nat)
    requires IsRun(ks, evs) && ks[0] == Boot() && c < i <= |evs| && (forall j :: 0 <= j < i ==> Gentle(ks[j], evs[j]))
    requires CreatedAt(ks, evs, c, load, p) && StaysLive(ks, p, c + 1, i)
    ensures KernelOk(ks[i]) && (ImageReached(ks[i], p, load.addr, load.size) <==> ImageFits(load.addr, load.size))
  {
    RunKeeps(ks, evs, c);
    LoadRecorded(ks, evs, c, load, p);
    RecordsKept(ks, evs, p, c + 1, i);
    RunSpaces(ks, evs, i);
    RunBalanced(ks, evs, i);
    assert OwnsTwo(ks[i].mem, ks[i].pcbs[p]);
    ImageReach(ks[i], p, load.size);
  }
}
