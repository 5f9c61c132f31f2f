/** Inputs on which the kernel falls short: one for each condition that the laws of the kernel carry. */
module KernelExamples {
  import opened Numbers
  import opened Paging
  import opened Process
  import opened ProcessLaws
  import opened Scheduler
  import opened KernelRuns
  import opened AddressSpaces

  // ---- A slot destroyed and reused within one tick --------------------------------------------

  /** A first process has been created, in slot 0, and nothing has run. */
  ghost predicate OneCreated(w: World) { WorldOk(w) && Alone(w.kernel, 0) && w.kernel.current == NO_PROCESS_RUNNING }

  /** The only process, in slot 0, has been switched to. */
  ghost predicate OneRuns(w: World) { WorldOk(w) && w.onCpu && w.kernel.current == 0 && Alone(w.kernel, 0) }

  /** It has been destroyed, and the timer has not fired since. */
  ghost predicate OneGone(w: World) {
    WorldOk(w) && !w.onCpu && w.kernel.current == 0 && w.kernel.active == 0
    && forall p :: 0 <= p < PROCESS_COUNT_MAX ==> !w.kernel.used[p]
  }

  /** Another process has been created in its slot. */
  ghost predicate OneReplaced(w: World, b: Load) {
    WorldOk(w) && Reused(w) && Alone(w.kernel, 0) && w.kernel.current == 0 && w.kernel.pcbs[0].context.eip == b.addr
  }

  lemma BootWorldOk()
    ensures WorldOk(BootWorld())
  {
    BootOk();
  }

  lemma FirstIsCreated(a: Load)
    requires Loadable(a)
    ensures OneCreated(WorldStep(BootWorld(), Spawn(a, true)))
  {
    BootWorldOk();
    ChecksMeaning(Boot(), a);
    SpawnFaithful(BootWorld(), a, true);
    FirstProcess(a);
  }

  lemma FirstIsSwitchedTo(w: World, c: Context)
    requires OneCreated(w)
    ensures Legal(w.kernel, Timer(c)) && OneRuns(WorldStep(w, Timer(c)))
  {
    AloneStays(w.kernel, 0, c);
    TimerResumes(w, c);
  }

  lemma AloneStays(k: Kernel, p: nat, ctx: Context)
    requires KernelOk(k) && Alone(k, p)
    ensures AnyUsed(k.used) && Alone(Tick(k, ctx), p) && Tick(k, ctx).current == p
  {
    AloneRuns(k, p, ctx);
    TickKeeps(k, ctx);
  }

  lemma FirstIsDestroyed(w: World, junk: seq<Flags>)
    requires OneRuns(w) && |junk| == PAGE_RECORD_COUNT
    ensures OneGone(WorldStep(w, Kill(0, junk)))
  {
    KillFaithful(w, 0, junk);
    DestroyIs(w.kernel, 0, junk);
    var k := WorldStep(w, Kill(0, junk)).kernel;
    assert Trues(k.used) == {};
  }

  lemma SecondIsCreated(w: World, b: Load)
    requires OneGone(w) && Loadable(b)
    ensures OneReplaced(WorldStep(w, Spawn(b, true)), b)
  {
    ChecksMeaning(w.kernel, b);
    SpawnFaithful(w, b, true);
    CreateIs(w.kernel, b, true);
  }

  lemma SecondIsOverwritten(w: World, b: Load, ctx: Context)
    requires OneReplaced(w, b) && ctx.eip != b.addr
    ensures AnyUsed(w.kernel.used) && !Faithful(WorldStep(w, Timer(ctx))) && Handed(w.kernel, ctx).eip == ctx.eip
  {
    AloneRuns(w.kernel, 0, ctx);
    TimerFaithful(w, ctx);
  }

  lemma ExtendWorldRun(ws: seq<World>, evs: seq<Event>, ev: Event)
    requires IsWorldRun(ws, evs) && WorldSized(ws[|evs|]) && Legal(ws[|evs|].kernel, ev)
    ensures IsWorldRun(ws + [WorldStep(ws[|evs|], ev)], evs + [ev])
  {
    var xs, fs := ws + [WorldStep(ws[|evs|], ev)], evs + [ev];
    forall i | 0 <= i < |fs|
      ensures WorldFollows(xs, fs, i)
    {
      if i < |evs| { assert WorldFollows(ws, evs, i); }
    }
  }

  lemma AfterCreation(a: Load) returns (ws: seq<World>, evs: seq<Event>)
    requires Loadable(a)
    ensures evs == [Spawn(a, true)] && IsWorldRun(ws, evs) && ws[0] == BootWorld() && OneCreated(ws[1])
  {
    BootWorldOk();
    FirstIsCreated(a);
    ws, evs := [BootWorld()], [];
    ExtendWorldRun(ws, evs, Spawn(a, true));
    ws, evs := ws + [WorldStep(ws[0], Spawn(a, true))], evs + [Spawn(a, true)];
  }

  lemma AfterSwitch(a: Load, c: Context) returns (ws: seq<World>, evs: seq<Event>)
    requires Loadable(a)
    ensures evs == [Spawn(a, true), Timer(c)] && IsWorldRun(ws, evs) && ws[0] == BootWorld() && OneRuns(ws[2])
  {
    ws, evs := AfterCreation(a);
    FirstIsSwitchedTo(ws[1], c);
    ExtendWorldRun(ws, evs, Timer(c));
    ws, evs := ws + [WorldStep(ws[1], Timer(c))], evs + [Timer(c)];
  }

  lemma AfterKill(a: Load, c: Context, junk: seq<Flags>) returns (ws: seq<World>, evs: seq<Event>)
    requires Loadable(a) && |junk| == PAGE_RECORD_COUNT
    ensures evs == [Spawn(a, true), Timer(c), Kill(0, junk)]
    ensures IsWorldRun(ws, evs) && ws[0] == BootWorld() && OneGone(ws[3])
  {
    ws, evs := AfterSwitch(a, c);
    FirstIsDestroyed(ws[2], junk);
    ExtendWorldRun(ws, evs, Kill(0, junk));
    ws, evs := ws + [WorldStep(ws[2], Kill(0, junk))], evs + [Kill(0, junk)];
  }

  lemma AfterReuse(a: Load, b: Load, c: Context, junk: seq<Flags>) returns (ws: seq<World>, evs: seq<Event>)
    requires Loadable(a) && Loadable(b) && |junk| == PAGE_RECORD_COUNT
    ensures evs == [Spawn(a, true), Timer(c), Kill(0, junk), Spawn(b, true)]
    ensures IsWorldRun(ws, evs) && ws[0] == BootWorld() && OneReplaced(ws[4], b)
  {
    ws, evs := AfterKill(a, c, junk);
    SecondIsCreated(ws[3], b);
    ExtendWorldRun(ws, evs, Spawn(b, true));
    ws, evs := ws + [WorldStep(ws[3], Spawn(b, true))], evs + [Spawn(b, true)];
  }

  /**
   * A run from boot in which a process is destroyed and another created in its slot before the next
   * timer interrupt: the interrupt saves the registers of the first over the context of the second,
   * which is then started at an address that is not its own.
   */
  lemma SlotReused(a: Load, b: Load, c: Context, ctx: Context, junk: seq<Flags>)
    returns (ws: seq<World>, evs: seq<Event>)
    requires Loadable(a) && Loadable(b) && |junk| == PAGE_RECORD_COUNT && ctx.eip != b.addr
    ensures evs == [Spawn(a, true), Timer(c), Kill(0, junk), Spawn(b, true), Timer(ctx)]
    ensures IsWorldRun(ws, evs) && ws[0] == BootWorld() && WorldOk(ws[4]) && AnyUsed(ws[4].kernel.used)
    ensures !Faithful(ws[5]) && Handed(ws[4].kernel, ctx).eip == ctx.eip
  {
    ws, evs := AfterReuse(a, b, c, junk);
    SecondIsOverwritten(ws[4], b, ctx);
    ExtendWorldRun(ws, evs, Timer(ctx));
    ws, evs := ws + [WorldStep(ws[4], Timer(ctx))], evs + [Timer(ctx)];
  }

  // ---- The sixteenth process ------------------------------------------------------------------

  lemma ExtendRun(ks: seq<Kernel>, evs: seq<Event>, ev: Event)
    requires IsRun(ks, evs) && Legal(ks[|evs|], ev)
    ensures IsRun(ks + [Step(ks[|evs|], ev)], evs + [ev])
  {
    var ls, fs := ks + [Step(ks[|evs|], ev)], evs + [ev];
    forall i | 0 <= i < |fs|
      ensures Follows(ls, fs, i)
    {
      if i < |evs| { assert Follows(ks, evs, i); }
    }
  }

  /** One more process where fewer than 16 are live. */
  lemma SpawnOne(k: Kernel, load: Load)
    requires KernelOk(k) && k.active < 16 && Balanced(k)
    requires Loadable(load) && PageIndex(load.addr) != PageIndex(STACK_ADDRESS)
    ensures KernelOk(Step(k, Spawn(load, true))) && Step(k, Spawn(load, true)).active == k.active + 1
    ensures k.active < 15 ==> Balanced(Step(k, Spawn(load, true)))
  {
    ChecksMeaning(k, load);
    StepKeeps(k, Spawn(load, true));
    CreateIs(k, load, true);
    StepBalanced(k, Spawn(load, true));
  }

  /** A run of `n` creations after boot that ends with `n` live processes, each with its two frames. */
  ghost predicate Filled(load: Load, n: nat, ks: seq<Kernel>, evs: seq<Event>) {
    && IsRun(ks, evs) && |evs| == n && ks[0] == Boot() && (forall i :: 0 <= i < n ==> evs[i] == Spawn(load, true))
    && KernelOk(ks[n]) && ks[n].active == n && Balanced(ks[n])
  }

  lemma FillOne(load: Load, n: nat, ks: seq<Kernel>, evs: seq<Event>)
    requires Loadable(load) && PageIndex(load.addr) != PageIndex(STACK_ADDRESS) && n < 15 && Filled(load, n, ks, evs)
    ensures Filled(load, n + 1, ks + [Step(ks[n], Spawn(load, true))], evs + [Spawn(load, true)])
  {
    SpawnOne(ks[n], load);
    ExtendRun(ks, evs, Spawn(load, true));
  }

  /** Fifteen live processes can be reached from boot, and all smaller numbers. */
  lemma SpawnMany(load: Load, n: nat) returns (ks: seq<Kernel>, evs: seq<Event>)
    requires Loadable(load) && PageIndex(load.addr) != PageIndex(STACK_ADDRESS) && n <= 15
    ensures Filled(load, n, ks, evs)
  {
    BootOk();
    ks, evs := [Boot()], [];
    for i := 0 to n
      invariant Filled(load, i, ks, evs)
    {
      FillOne(load, i, ks, evs);
      ks, evs := ks + [Step(ks[i], Spawn(load, true))], evs + [Spawn(load, true)];
    }
  }

  /** Sixteen creations after boot all succeed, and the sixteenth process has no frame. */
  lemma SixteenProcesses(load: Load) returns (ks: seq<Kernel>, evs: seq<Event>, p: nat)
    requires Loadable(load) && PageIndex(load.addr) != PageIndex(STACK_ADDRESS)
    ensures IsRun(ks, evs) && ks[0] == Boot() && |evs| == 16 &&
            (forall i :: 0 <= i < 16 ==> evs[i] == Spawn(load, true))
    ensures KernelOk(ks[16]) && ks[16].active == 16 && p < PROCESS_COUNT_MAX && ks[16].used[p]
    ensures Dir(ks[16], p) >= 0 && Blank(ks[16].mem, Dir(ks[16], p)) && !Balanced(ks[16])
  {
    ks, evs := SpawnMany(load, 15);
    var k := ks[15];
    ChecksMeaning(k, load);
    SpawnOne(k, load);
    SixteenthGetsNone(k, load, true);
    CreateBalanced(k, load, true);
    p := FirstFalse(k.used, 0);
    ExtendRun(ks, evs, Spawn(load, true));
    ks, evs := ks + [Step(k, Spawn(load, true))], evs + [Spawn(load, true)];
  }

  // ---- Loading into the stack page ------------------------------------------------------------

  /** One page, loaded at the start of the page that holds the stack. */
  function IntoStackPage(name: string): Load { Load(0xBFC0_0000, 0x1000, name) }

  lemma StackPagePasses(name: string)
    ensures KernelInv(Boot()) && Balanced(Boot()) && NoOrphans(Boot().mem) && Boot().mem.free == 31
    ensures CreateChecks(Boot(), IntoStackPage(name)) == CREATE_SUCCESS && HasRoom(Boot())
    ensures PageIndex(IntoStackPage(name).addr) == PageIndex(STACK_ADDRESS)
  {
    BootOk();
    ChecksMeaning(Boot(), IntoStackPage(name));
    CreateHasRoom(Boot(), IntoStackPage(name));
  }

  /** Its process has one page for two records, and a frame is marked that nothing names. */
  lemma StackPageShared(name: string, readOk: bool)
    ensures CreateChecks(Boot(), IntoStackPage(name)) == CREATE_SUCCESS && HasRoom(Boot())
    ensures var j := Create(Boot(), IntoStackPage(name), readOk).0; Sized(j) && !Balanced(j) && !NoOrphans(j.mem)
  {
    StackPagePasses(name);
    CreateBalanced(Boot(), IntoStackPage(name), readOk);
    CreateOrphans(Boot(), IntoStackPage(name), readOk);
  }

  /** Destroying it does not restore the memory. */
  lemma StackPageLost(name: string, readOk: bool, junk: seq<Flags>)
    requires |junk| == PAGE_RECORD_COUNT
    ensures CreateChecks(Boot(), IntoStackPage(name)) == CREATE_SUCCESS && HasRoom(Boot())
    ensures Destroyable(Create(Boot(), IntoStackPage(name), readOk).0, FirstFalse(Boot().used, 0))
    ensures Destroy(Create(Boot(), IntoStackPage(name), readOk).0, FirstFalse(Boot().used, 0), junk).0.mem != Boot().mem
  {
    StackPagePasses(name);
    CreateThenDestroy(Boot(), IntoStackPage(name), readOk, junk);
  }

  /** Mapping the kernel's first page once more, as `kernel_setup` does it, orphans the frame it had. */
  lemma MappedTwice()
    ensures Isolated(Boot().mem) && NoOrphans(Boot().mem)
    ensures !NoOrphans(Allocate(Boot().mem, KERNEL_DIRECTORY, 0).0)
  {
    BootOk();
    StaticIsolated();
    AllocateIsolated(StaticMemory(), KERNEL_DIRECTORY, 0);
    AllocateOrphans(Boot().mem, KERNEL_DIRECTORY, 0);
  }

  // ---- Destroying an unused slot --------------------------------------------------------------

  /** Destroying slot 0 right after boot reports success and takes the count of processes below zero. */
  lemma UnusedSlotDestroyed(junk: seq<Flags>)
    requires |junk| == PAGE_RECORD_COUNT
    ensures KernelInv(Boot()) && Destroyable(Boot(), 0) && Destroy(Boot(), 0, junk).1
    ensures Destroy(Boot(), 0, junk).0.active == UINT32 - 1 && !KernelInv(Destroy(Boot(), 0, junk).0)
  {
    BootOk();
    DestroyExact(Boot(), 0, junk);
  }

  // ---- An image of more than one page ---------------------------------------------------------

  /** Slot `p` holds a process loaded at `addr`, with its address space in order. */
  ghost predicate InSpace(k: Kernel, p: nat, addr: nat) {
    KernelOk(k) && SpacesOk(k) && p < PROCESS_COUNT_MAX && k.used[p] && k.pcbs[p].pages[0].addr == addr
  }

  /** The first process after boot, whatever it is, with its address space in order. */
  lemma FirstSpace(load: Load)
    requires Loadable(load)
    ensures InSpace(Step(Boot(), Spawn(load, true)), 0, load.addr)
  {
    BootOk();
    ChecksMeaning(Boot(), load);
    assert forall p :: 0 <= p < PROCESS_COUNT_MAX ==> !Boot().used[p];
    StepSpaces(Boot(), Spawn(load, true));
    CreateIs(Boot(), load, true);
  }

  /** An executable of seven pages at address 0 passes the checks of a creation. */
  lemma SevenPagesLoadable(name: string)
    ensures Loadable(Load(0, 0x1C0_0000, name))
  {
    LoadableMeaning(Load(0, 0x1C0_0000, name));
  }

  /** One of eight pages is refused, even right after boot. */
  lemma EightPagesRefused(name: string, readOk: bool)
    ensures KernelInv(Boot()) && CreateChecks(Boot(), Load(0, 0x200_0000, name)) != CREATE_SUCCESS
    ensures Create(Boot(), Load(0, 0x200_0000, name), readOk) == (Boot(), 3)
  {
    BootOk();
    CreateCode(Boot(), Load(0, 0x200_0000, name), readOk);
  }

  /**
   * Of any image of more than one page at address 0 the second page faults, as it does for the first process
   * after boot.
   */
  lemma LargeImageFaults(k: Kernel, p: nat, size: nat)
    requires InSpace(k, p, 0) && size > PAGE_FRAME_SIZE
    ensures !ImageFits(0, size) && ReachOf(k, p, PAGE_FRAME_SIZE) == -1
  {
    ReachIs(k, p, PAGE_FRAME_SIZE);
  }
}
