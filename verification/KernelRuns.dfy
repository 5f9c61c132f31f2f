/** Whole runs of the kernel core: processes created, destroyed and scheduled in any order. */
module KernelRuns {
  import opened Paging
  import opened Process
  import opened ProcessLaws
  import opened Scheduler

  datatype Event =
    | Spawn(load: Load, readOk: bool)
    | Kill(pid: nat, junk: seq<Flags>)
    | Timer(ctx: Context)

  ghost predicate KernelOk(k: Kernel) { KernelInv(k) && CurrentOk(k) }

  /**
   * What the kernel relies on: only live pids, or numbers beyond the table, are destroyed, and the
   * timer finds some process to switch to.
   */
  ghost predicate Legal(k: Kernel, ev: Event) {
    match ev
    case Spawn(_, _) => true
    case Kill(pid, junk) => |junk| == PAGE_RECORD_COUNT && (pid < |k.used| == PROCESS_COUNT_MAX ==> k.used[pid])
    case Timer(_) => AnyUsed(k.used)
  }

  /** The kernel after an event it may be given; any other event is left without effect. */
  ghost function Step(k: Kernel, ev: Event): Kernel {
    if !KernelOk(k) || !Legal(k, ev) then k
    else
      match ev
      case Spawn(load, readOk) => CreateKeeps(k, load, readOk); Create(k, load, readOk).0
      case Kill(pid, junk) =>
        if pid < PROCESS_COUNT_MAX then DestroyKeeps(k, pid, junk); Destroy(k, pid, junk).0 else k
      case Timer(ctx) => Tick(k, ctx)
  }

  lemma StepKeeps(k: Kernel, ev: Event)
    requires KernelOk(k) && Legal(k, ev)
    ensures KernelOk(Step(k, ev))
    ensures ev.Timer? || Step(k, ev).current == k.current
  {
    match ev
    case Spawn(load, readOk) =>
      CreateKeeps(k, load, readOk);
      if CreateChecks(k, load) == CREATE_SUCCESS { CreateIs(k, load, readOk); }
    case Kill(pid, junk) => if pid < PROCESS_COUNT_MAX { DestroyKeeps(k, pid, junk); DestroyIs(k, pid, junk); }
    case Timer(ctx) => TickKeeps(k, ctx);
  }

  /** State `i + 1` follows from the one before by an event the kernel may be given there. */
  ghost predicate Follows(ks: seq<Kernel>, evs: seq<Event>, i: nat) {
    i < |evs| && i + 1 < |ks| && Legal(ks[i], evs[i]) && ks[i + 1] == Step(ks[i], evs[i])
  }

  ghost predicate IsRun(ks: seq<Kernel>, evs: seq<Event>) {
    |ks| == |evs| + 1 && forall i {:trigger Follows(ks, evs, i)} :: 0 <= i < |evs| ==> Follows(ks, evs, i)
  }

  /** Every later state of a run is in order if one is. */
  lemma {:induction false} StaysOk(ks: seq<Kernel>, evs: seq<Event>, i: nat, x: nat)
    requires IsRun(ks, evs) && i <= x <= |evs| && KernelOk(ks[i])
    ensures KernelOk(ks[x])
  {
    if x > i {
      StaysOk(ks, evs, i, x - 1);
      assert Follows(ks, evs, x - 1);
      StepKeeps(ks[x - 1], evs[x - 1]);
    }
  }

  /** Every run from boot keeps slots, directories and frames in agreement, and frames isolated. */
  lemma RunKeeps(ks: seq<Kernel>, evs: seq<Event>, i: nat)
    requires IsRun(ks, evs) && ks[0] == Boot() && i <= |evs|
    ensures KernelOk(ks[i])
  {
    BootOk();
    StaysOk(ks, evs, 0, i);
  }

  // ---- Two frames each, over a run ------------------------------------------------------------

  /** A creation that passes its checks leaves at most 15 processes live and does not load into the stack page. */
  ghost predicate Gentle(k: Kernel, ev: Event) {
    ev.Spawn? && CreateChecks(k, ev.load) == CREATE_SUCCESS ==>
      k.active <= 14 && PageIndex(ev.load.addr) != PageIndex(STACK_ADDRESS)
  }

  /** Of all events, exactly those creations that are not gentle leave a process without its two frames. */
  lemma StepBalanced(k: Kernel, ev: Event)
    requires KernelOk(k) && Legal(k, ev) && Balanced(k)
    ensures KernelOk(Step(k, ev)) && (Balanced(Step(k, ev)) <==> Gentle(k, ev))
  {
    StepKeeps(k, ev);
    match ev
    case Spawn(load, readOk) => if CreateChecks(k, load) == CREATE_SUCCESS { CreateBalanced(k, load, readOk); }
    case Kill(pid, junk) => if pid < PROCESS_COUNT_MAX { DestroyBalanced(k, pid, junk); }
    case Timer(ctx) => TickBalanced(k, ctx);
  }

  lemma StepOrphans(k: Kernel, ev: Event)
    requires KernelOk(k) && Legal(k, ev) && Gentle(k, ev) && NoOrphans(k.mem)
    ensures NoOrphans(Step(k, ev).mem)
  {
    match ev
    case Spawn(load, readOk) => if CreateChecks(k, load) == CREATE_SUCCESS { CreateOrphans(k, load, readOk); }
    case Kill(pid, junk) => if pid < PROCESS_COUNT_MAX { DestroyOrphans(k, pid, junk); }
    case Timer(ctx) => TickKeeps(k, ctx);
  }

  lemma TickBalanced(k: Kernel, ctx: Context)
    requires KernelOk(k) && AnyUsed(k.used) && Balanced(k)
    ensures KernelInv(Tick(k, ctx)) && Balanced(Tick(k, ctx))
  {
    TickKeeps(k, ctx);
    var j := Tick(k, ctx);
    forall p | 0 <= p < PROCESS_COUNT_MAX && j.used[p]
      ensures OwnsTwo(j.mem, j.pcbs[p])
    {
      assert OwnsTwo(k.mem, k.pcbs[p]);
      assert Dir(j, p) == Dir(k, p) && j.pcbs[p].pages == k.pcbs[p].pages;
    }
  }

  /**
   * In a run from boot with at most 15 live processes, none loaded into the stack page: each live
   * process owns two frames, one plus twice as many frames are marked, and every marked one is named.
   */
  lemma {:induction false} RunBalanced(ks: seq<Kernel>, evs: seq<Event>, i: nat)
    requires IsRun(ks, evs) && ks[0] == Boot() && i <= |evs|
    requires forall j :: 0 <= j < i ==> Gentle(ks[j], evs[j])
    ensures KernelOk(ks[i]) && Balanced(ks[i]) && NoOrphans(ks[i].mem)
    ensures |Trues(ks[i].mem.frames)| == 1 + 2 * |Trues(ks[i].used)|
  {
    if i == 0 {
      BootOk();
    } else {
      RunBalanced(ks, evs, i - 1);
      assert Follows(ks, evs, i - 1);
      StepBalanced(ks[i - 1], evs[i - 1]);
      StepOrphans(ks[i - 1], evs[i - 1]);
    }
    MarkedFrames(ks[i]);
  }

  // ---- No starvation --------------------------------------------------------------------------

  /** The number of timer interrupts among the events from `i` to `j`. */
  function Ticks(evs: seq<Event>, i: nat, j: nat): nat
    requires i <= j <= |evs|
    decreases j - i
  {
    if i == j then 0 else (if evs[i].Timer? then 1 else 0) + Ticks(evs, i + 1, j)
  }

  /** A switch picks a live process, or brings the search strictly closer to it. */
  lemma TickCloser(k: Kernel, ctx: Context, p: nat)
    requires KernelOk(k) && AnyUsed(k.used) && p < PROCESS_COUNT_MAX && k.used[p]
    ensures CurrentOk(Tick(k, ctx)) && Start(Tick(k, ctx)) < PROCESS_COUNT_MAX
    ensures Tick(k, ctx).current == p || Distance(Start(Tick(k, ctx)), p) < Distance(Start(k), p)
  {
    var q := Next(Save(k, ctx));
    assert Distance(Start(k), q) <= Distance(Start(k), p);
  }

  /** Slot `p` is in use in all states from `i` to `j`. */
  ghost predicate StaysLive(ks: seq<Kernel>, p: nat, i: nat, j: nat) {
    && p < PROCESS_COUNT_MAX && j < |ks|
    && (forall x :: i <= x <= j ==> |ks[x].used| == PROCESS_COUNT_MAX && ks[x].used[p])
  }

  /** How many slots the search has to pass before it meets slot `p`. */
  function Gap(k: Kernel, p: nat): nat { if CurrentOk(k) && p < PROCESS_COUNT_MAX then Distance(Start(k), p) else 0 }

  /** From `k` to `j` the event moves the search only if it is a timer interrupt, and then to or towards slot `p`. */
  ghost predicate Towards(k: Kernel, ev: Event, j: Kernel, p: nat) {
    if ev.Timer? then j.current == p || Gap(j, p) < Gap(k, p) else Gap(j, p) == Gap(k, p)
  }

  lemma StepCloser(k: Kernel, ev: Event, p: nat)
    requires KernelOk(k) && Legal(k, ev) && p < PROCESS_COUNT_MAX && k.used[p]
    ensures Towards(k, ev, Step(k, ev), p)
  {
    StepKeeps(k, ev);
    if ev.Timer? { TickCloser(k, ev.ctx, p); }
  }

  /** The steps from `i` to `j` all go to or towards slot `p`. */
  ghost predicate AllTowards(ks: seq<Kernel>, evs: seq<Event>, p: nat, i: nat, j: nat) {
    |ks| == |evs| + 1 && j <= |evs| && forall x {:trigger evs[x]} :: i <= x < j ==> Towards(ks[x], evs[x], ks[x + 1], p)
  }

  lemma RunTowards(ks: seq<Kernel>, evs: seq<Event>, p: nat, i: nat, x: nat)
    requires IsRun(ks, evs) && i <= x < |evs| && KernelOk(ks[i]) && StaysLive(ks, p, x, x)
    ensures Towards(ks[x], evs[x], ks[x + 1], p)
  {
    StaysOk(ks, evs, i, x);
    assert Follows(ks, evs, x);
    StepCloser(ks[x], evs[x], p);
  }

  lemma {:induction false} RunAllTowards(ks: seq<Kernel>, evs: seq<Event>, p: nat, i: nat, j: nat)
    requires IsRun(ks, evs) && i <= j <= |evs| && KernelOk(ks[i]) && StaysLive(ks, p, i, j)
    ensures AllTowards(ks, evs, p, i, j)
  {
    if i < j {
      RunAllTowards(ks, evs, p, i, j - 1);
      RunTowards(ks, evs, p, i, j - 1);
    }
  }

  lemma {:induction false} Countdown(ks: seq<Kernel>, evs: seq<Event>, p: nat, i: nat, j: nat) returns (t: nat)
    requires i <= j && AllTowards(ks, evs, p, i, j) && Ticks(evs, i, j) > Gap(ks[i], p)
    ensures i <= t < j && evs[t].Timer? && ks[t + 1].current == p
    decreases j - i
  {
    assert Towards(ks[i], evs[i], ks[i + 1], p);
    if evs[i].Timer? && ks[i + 1].current == p {
      t := i;
    } else {
      t := Countdown(ks, evs, p, i + 1, j);
    }
  }

  /**
   * No starvation: a process that stays live is switched to once there have been more timer
   * interrupts than slots to pass, so within 16, whatever else is created or destroyed meanwhile.
   */
  lemma NoStarvation(ks: seq<Kernel>, evs: seq<Event>, p: nat, i: nat, j: nat) returns (t: nat)
    requires IsRun(ks, evs) && i <= j <= |evs| && KernelOk(ks[i]) && StaysLive(ks, p, i, j)
    requires Ticks(evs, i, j) > Gap(ks[i], p)
    ensures i <= t < j && evs[t].Timer? && ks[t + 1].current == p
  {
    RunAllTowards(ks, evs, p, i, j);
    t := Countdown(ks, evs, p, i, j);
  }

  lemma WithinSixteen(ks: seq<Kernel>, evs: seq<Event>, p: nat, i: nat, j: nat) returns (t: nat)
    requires IsRun(ks, evs) && i <= j <= |evs| && KernelOk(ks[i]) && StaysLive(ks, p, i, j)
    requires Ticks(evs, i, j) >= PROCESS_COUNT_MAX
    ensures i <= t < j && evs[t].Timer? && ks[t + 1].current == p
  {
    t := NoStarvation(ks, evs, p, i, j);
  }

  // ---- Context preservation -------------------------------------------------------------------

  /**
   * The kernel with what it owes: for each slot the context that whatever runs in it must be resumed
   * with, and whether the process last switched to is still the one in its slot.
   */
  datatype World = World(kernel: Kernel, owed: seq<Context>, onCpu: bool)

  const NO_CONTEXT: Context := Context(ZERO_CPU, 0, 0, NO_DIRECTORY)

  /** After boot nothing has run, and every slot is zero. */
  ghost function BootWorld(): World { World(Boot(), seq(PROCESS_COUNT_MAX, _ => NO_CONTEXT), false) }

  ghost predicate WorldSized(w: World) { Sized(w.kernel) && |w.owed| == PROCESS_COUNT_MAX }

  /** Each control block holds what its slot is owed. */
  ghost predicate Faithful(w: World) {
    WorldSized(w) && forall p :: 0 <= p < PROCESS_COUNT_MAX ==> w.kernel.pcbs[p].context == w.owed[p]
  }

  /**
   * The slot of the interrupted process is owed the interrupted registers, with the page directory it
   * has, unless another process has been given the slot.
   */
  ghost function Owe(w: World, ctx: Context): seq<Context>
    requires WorldSized(w)
  {
    var p := w.kernel.current;
    if p < PROCESS_COUNT_MAX && !Reused(w)
    then w.owed[p := Context(ctx.cpu, ctx.eip, ctx.eflags, w.owed[p].dir)]
    else w.owed
  }

  /** A process is owed its first context; if loading it failed, what its slot was left with. */
  ghost function OweNew(w: World, load: Load, readOk: bool): seq<Context>
    requires WorldSized(w)
  {
    var p, d := FirstFalse(w.kernel.used, 0), FirstFalse(w.kernel.mem.dirUsed, 0);
    if CreateChecks(w.kernel, load) != CREATE_SUCCESS || p == PROCESS_COUNT_MAX then w.owed
    else w.owed[p := if readOk then FirstContext(load.addr, d) else w.owed[p].(dir := d)]
  }

  ghost function WorldStep(w: World, ev: Event): World
    requires WorldSized(w)
  {
    var j := Step(w.kernel, ev);
    match ev
    case Spawn(load, readOk) => World(j, OweNew(w, load, readOk), w.onCpu)
    case Kill(pid, _) =>
      var owed := if pid < PROCESS_COUNT_MAX then w.owed[pid := NO_CONTEXT] else w.owed;
      World(j, owed, w.onCpu && pid != w.kernel.current)
    case Timer(ctx) => World(j, Owe(w, ctx), true)
  }

  /** The slot of the interrupted process has been given to another process since the last switch. */
  ghost predicate Reused(w: World)
    requires Sized(w.kernel)
  {
    !w.onCpu && w.kernel.current < PROCESS_COUNT_MAX && w.kernel.used[w.kernel.current]
  }

  /** While the last process switched to is alive, its slot is in use. */
  ghost predicate OnCpuOk(w: World)
    requires Sized(w.kernel)
  {
    w.onCpu ==> w.kernel.current < PROCESS_COUNT_MAX && w.kernel.used[w.kernel.current]
  }

  ghost predicate WorldOk(w: World) { KernelOk(w.kernel) && Faithful(w) && OnCpuOk(w) }

  /** Saving the interrupted context over the current block would change nothing. */
  ghost predicate SameIfSaved(k: Kernel, ctx: Context) {
    k.current < |k.pcbs| && var c := k.pcbs[k.current].context; c == Context(ctx.cpu, ctx.eip, ctx.eflags, c.dir)
  }

  /** Saving the interrupted context gives every slot what it is owed then. */
  lemma SaveFaithful(w: World, ctx: Context)
    requires WorldOk(w)
    ensures (forall p :: 0 <= p < PROCESS_COUNT_MAX ==> Save(w.kernel, ctx).pcbs[p].context == Owe(w, ctx)[p])
            <==> !Reused(w) || SameIfSaved(w.kernel, ctx)
  {
    if Reused(w) {
      var p := w.kernel.current;
      assert Save(w.kernel, ctx).pcbs[p].context == Saved(w.kernel.pcbs[p].context, ctx);
    }
  }

  /**
   * A timer interrupt leaves every process what it is owed exactly if the interrupted slot was not
   * destroyed and reused since the last switch; otherwise the newcomer's context is overwritten,
   * which is harmless only if nothing differs.
   */
  lemma TimerFaithful(w: World, ctx: Context)
    requires WorldOk(w) && AnyUsed(w.kernel.used)
    ensures Faithful(WorldStep(w, Timer(ctx))) <==>
            !Reused(w) || SameIfSaved(w.kernel, ctx)
  {
    TickContexts(w.kernel, ctx);
    SaveFaithful(w, ctx);
  }

  /** Switching changes no saved context and no use of a slot. */
  lemma TickContexts(k: Kernel, ctx: Context)
    requires KernelOk(k) && AnyUsed(k.used)
    ensures Sized(Tick(k, ctx)) && Tick(k, ctx).used == k.used
    ensures forall p :: 0 <= p < PROCESS_COUNT_MAX ==> Tick(k, ctx).pcbs[p].context == Save(k, ctx).pcbs[p].context
  {
  }

  /** The machine is then handed what the chosen process is owed, under that process's page directory. */
  lemma TimerResumes(w: World, ctx: Context)
    requires WorldOk(w) && AnyUsed(w.kernel.used) && !Reused(w)
    ensures WorldOk(WorldStep(w, Timer(ctx)))
    ensures Resumes(WorldStep(w, Timer(ctx)), Handed(w.kernel, ctx))
  {
    TimerFaithful(w, ctx);
    StepKeeps(w.kernel, Timer(ctx));
    TickContexts(w.kernel, ctx);
  }

  /** The machine is handed what the current process is owed, under that process's page directory. */
  ghost predicate Resumes(w: World, handed: Context) {
    w.kernel.current < |w.owed| && handed == w.owed[w.kernel.current] && w.kernel.cr3 == handed.dir
  }

  lemma SpawnFaithful(w: World, load: Load, readOk: bool)
    requires WorldOk(w)
    ensures WorldOk(WorldStep(w, Spawn(load, readOk)))
  {
    StepKeeps(w.kernel, Spawn(load, readOk));
    if CreateChecks(w.kernel, load) == CREATE_SUCCESS {
      CreateIs(w.kernel, load, readOk);
      var p, d := FirstFalse(w.kernel.used, 0), FirstFalse(w.kernel.mem.dirUsed, 0);
      SpawnedFaithful(w, load, readOk, p, d, Step(w.kernel, Spawn(load, readOk)));
    }
  }

  lemma SpawnedFaithful(w: World, load: Load, readOk: bool, p: nat, d: nat, j: Kernel)
    requires Faithful(w) && OnCpuOk(w) && Created(w.kernel, load, readOk, p, d, j) && Sized(j)
    requires CreateChecks(w.kernel, load) == CREATE_SUCCESS
    ensures Faithful(World(j, OweNew(w, load, readOk), w.onCpu)) && OnCpuOk(World(j, OweNew(w, load, readOk), w.onCpu))
  {
  }

  lemma KillFaithful(w: World, pid: nat, junk: seq<Flags>)
    requires WorldOk(w) && Legal(w.kernel, Kill(pid, junk))
    ensures WorldOk(WorldStep(w, Kill(pid, junk)))
  {
    StepKeeps(w.kernel, Kill(pid, junk));
    if pid < PROCESS_COUNT_MAX { DestroyIs(w.kernel, pid, junk); }
  }

  ghost predicate WorldFollows(ws: seq<World>, evs: seq<Event>, i: nat) {
    && i < |evs| && i + 1 < |ws| && WorldSized(ws[i]) && Legal(ws[i].kernel, evs[i])
    && ws[i + 1] == WorldStep(ws[i], evs[i])
  }

  ghost predicate IsWorldRun(ws: seq<World>, evs: seq<Event>) {
    |ws| == |evs| + 1 && forall i {:trigger WorldFollows(ws, evs, i)} :: 0 <= i < |evs| ==> WorldFollows(ws, evs, i)
  }

  /** Every event keeps what each live process is owed, given a timer interrupt finds no reused slot. */
  lemma StepFaithful(w: World, ev: Event)
    requires WorldOk(w) && Legal(w.kernel, ev) && NoReuse(w, ev)
    ensures WorldOk(WorldStep(w, ev))
  {
    match ev
    case Spawn(load, readOk) => SpawnFaithful(w, load, readOk);
    case Kill(pid, junk) => KillFaithful(w, pid, junk);
    case Timer(ctx) => TimerResumes(w, ctx);
  }

  ghost predicate NoReuse(w: World, ev: Event) { ev.Timer? && Sized(w.kernel) ==> !Reused(w) }

  /**
   * Context preservation: in a run from boot in which no slot is destroyed and reused within one
   * tick, every slot at all times holds what it is owed: for a live process its last saved context or its first.
   */
  lemma {:induction false} RunFaithful(ws: seq<World>, evs: seq<Event>, i: nat)
    requires IsWorldRun(ws, evs) && ws[0] == BootWorld() && i <= |evs|
    requires forall j :: 0 <= j < i ==> NoReuse(ws[j], evs[j])
    ensures WorldOk(ws[i])
  {
    if i == 0 {
      BootOk();
    } else {
      RunFaithful(ws, evs, i - 1);
      assert WorldFollows(ws, evs, i - 1);
      StepFaithful(ws[i - 1], evs[i - 1]);
    }
  }

  /** In such a run every timer interrupt resumes the chosen process with exactly what it is owed. */
  lemma RunResumes(ws: seq<World>, evs: seq<Event>, i: nat)
    requires IsWorldRun(ws, evs) && ws[0] == BootWorld() && i < |evs| && evs[i].Timer?
    requires forall j :: 0 <= j <= i ==> NoReuse(ws[j], evs[j])
    ensures WorldOk(ws[i]) && AnyUsed(ws[i].kernel.used) && Resumes(ws[i + 1], Handed(ws[i].kernel, evs[i].ctx))
  {
    RunFaithful(ws, evs, i);
    assert WorldFollows(ws, evs, i);
    TimerResumes(ws[i], evs[i].ctx);
  }

  // ---- What a process is resumed with, in terms of the run ------------------------------------

  /** From step `i` to `j` process `p` is live, and no event interrupts it. */
  ghost predicate Waits(ws: seq<World>, evs: seq<Event>, p: nat, i: nat, j: nat) {
    && p < PROCESS_COUNT_MAX && j <= |evs| < |ws|
    && forall x {:trigger evs[x]} :: i <= x < j ==> WaitsAt(ws[x], evs[x], p)
  }

  ghost predicate WaitsAt(w: World, ev: Event, p: nat) {
    && WorldSized(w) && p < PROCESS_COUNT_MAX && w.kernel.used[p]
    && !(ev.Kill? && ev.pid == p) && !(ev.Timer? && w.kernel.current == p)
  }

  lemma WaitingOwed(w: World, ev: Event, p: nat)
    requires WaitsAt(w, ev, p)
    ensures WorldStep(w, ev).owed[p] == w.owed[p]
  {
  }

  lemma RunWaits(ws: seq<World>, evs: seq<Event>, p: nat, i: nat, j: nat)
    requires IsWorldRun(ws, evs) && i <= j <= |evs| && Waits(ws, evs, p, i, j) && |ws[i].owed| == PROCESS_COUNT_MAX
    ensures |ws[j].owed| == PROCESS_COUNT_MAX && ws[j].owed[p] == ws[i].owed[p]
  {
    for x := i to j
      invariant |ws[x].owed| == PROCESS_COUNT_MAX && ws[x].owed[p] == ws[i].owed[p]
    {
      assert WorldFollows(ws, evs, x) && WaitsAt(ws[x], evs[x], p);
      WaitingOwed(ws[x], evs[x], p);
    }
  }

  /** The run starts at boot, and no slot is destroyed and reused within one tick up to step `t`. */
  ghost predicate CleanRun(ws: seq<World>, evs: seq<Event>, t: nat) {
    IsWorldRun(ws, evs) && ws[0] == BootWorld() && t < |evs| && forall j :: 0 <= j <= t ==> NoReuse(ws[j], evs[j])
  }

  /** At step `s` the process in slot `p` is interrupted. */
  ghost predicate InterruptedAt(ws: seq<World>, evs: seq<Event>, p: nat, s: nat) {
    && s < |evs| < |ws| && evs[s].Timer? && p < PROCESS_COUNT_MAX
    && WorldSized(ws[s]) && ws[s].kernel.current == p && ws[s].kernel.used[p]
  }

  /** At step `t` the machine is handed the context `c` to run the process in slot `p`. */
  ghost predicate HandedAt(ws: seq<World>, evs: seq<Event>, p: nat, t: nat, c: Context) {
    && t < |evs| < |ws| && evs[t].Timer? && WorldOk(ws[t]) && AnyUsed(ws[t].kernel.used)
    && ws[t + 1].kernel.current == p && Handed(ws[t].kernel, evs[t].ctx) == c && ws[t + 1].kernel.cr3 == c.dir
  }

  lemma InterruptOwed(ws: seq<World>, evs: seq<Event>, p: nat, s: nat)
    requires CleanRun(ws, evs, s) && InterruptedAt(ws, evs, p, s)
    ensures |ws[s + 1].owed| == PROCESS_COUNT_MAX
    ensures ws[s + 1].owed[p] == Context(evs[s].ctx.cpu, evs[s].ctx.eip, evs[s].ctx.eflags, Dir(ws[s].kernel, p))
  {
    RunFaithful(ws, evs, s);
    assert WorldFollows(ws, evs, s) && NoReuse(ws[s], evs[s]);
  }

  lemma RunHands(ws: seq<World>, evs: seq<Event>, p: nat, t: nat)
    requires CleanRun(ws, evs, t) && evs[t].Timer? && p < |ws[t + 1].owed| && ws[t + 1].kernel.current == p
    ensures HandedAt(ws, evs, p, t, ws[t + 1].owed[p])
  {
    RunResumes(ws, evs, t);
  }

  /**
   * The process in slot `p` was interrupted at step `s`, has been waiting since, and is switched to at
   * step `t`, possibly the same: it is resumed with the registers, instruction pointer and flags of that
   * interrupt, under its own page directory.
   */
  lemma ResumedAsInterrupted(ws: seq<World>, evs: seq<Event>, p: nat, s: nat, t: nat)
    requires CleanRun(ws, evs, t) && s <= t && InterruptedAt(ws, evs, p, s) && Waits(ws, evs, p, s + 1, t + 1)
    requires evs[t].Timer? && ws[t + 1].kernel.current == p
    ensures HandedAt(ws, evs, p, t,
                     Context(evs[s].ctx.cpu, evs[s].ctx.eip, evs[s].ctx.eflags, Dir(ws[s].kernel, p)))
  {
    InterruptOwed(ws, evs, p, s);
    RunWaits(ws, evs, p, s + 1, t + 1);
    RunHands(ws, evs, p, t);
  }

  /**
   * The process in slot `p` was created from `load` at step `c`, has not been interrupted since, and is
   * switched to at step `t`: it starts at its entry point with its first registers and its own directory.
   */
  lemma ResumedAsCreated(ws: seq<World>, evs: seq<Event>, p: nat, c: nat, t: nat, load: Load)
    requires CleanRun(ws, evs, t) && c < t && CreatedFrom(ws, evs, p, c, load) && Waits(ws, evs, p, c + 1, t + 1)
    requires evs[t].Timer? && ws[t + 1].kernel.current == p
    ensures HandedAt(ws, evs, p, t, FirstContext(load.addr, FirstFalse(ws[c].kernel.mem.dirUsed, 0)))
  {
    CreationOwed(ws, evs, p, c, load);
    RunWaits(ws, evs, p, c + 1, t + 1);
    RunHands(ws, evs, p, t);
  }

  /** At step `c` the process in slot `p` is created from `load`. */
  ghost predicate CreatedFrom(ws: seq<World>, evs: seq<Event>, p: nat, c: nat, load: Load) {
    && c < |evs| < |ws| && evs[c] == Spawn(load, true) && WorldSized(ws[c])
    && CreateChecks(ws[c].kernel, load) == CREATE_SUCCESS
    && p == FirstFalse(ws[c].kernel.used, 0) < PROCESS_COUNT_MAX
  }

  lemma CreationOwed(ws: seq<World>, evs: seq<Event>, p: nat, c: nat, load: Load)
    requires IsWorldRun(ws, evs) && CreatedFrom(ws, evs, p, c, load)
    ensures |ws[c + 1].owed| == PROCESS_COUNT_MAX
    ensures ws[c + 1].owed[p] == FirstContext(load.addr, FirstFalse(ws[c].kernel.mem.dirUsed, 0))
  {
    assert WorldFollows(ws, evs, c);
  }

  // ---- The first process ----------------------------------------------------------------------

  /** The checks on the shell that `kernel_setup` loads pass. */
  lemma ShellPasses(name: string)
    ensures CreateChecks(Boot(), Load(0, 0x10_0000, name)) == CREATE_SUCCESS
  {
    BootOk();
    CheckNeverRefuses(Boot(), Load(0, 0x10_0000, name));
  }

  /** The kernel after the first creation: one process, in slot 0 and directory 0. */
  lemma FirstProcess(load: Load)
    requires CreateChecks(Boot(), load) == CREATE_SUCCESS
    ensures var k := Step(Boot(), Spawn(load, true));
            && KernelOk(k) && k.current == NO_PROCESS_RUNNING && k.pcbs[0].context == FirstContext(load.addr, 0)
            && Alone(k, 0)
  {
    BootOk();
    StepKeeps(Boot(), Spawn(load, true));
    CreateIs(Boot(), load, true);
  }

  /**
   * What `kernel_setup` ends in: the first process created after boot is the one switched to, with
   * its entry point, a fresh stack and its own page directory, in which both have a frame unless they
   * share a page.
   */
  lemma FirstProcessRuns(load: Load, ctx: Context)
    requires CreateChecks(Boot(), load) == CREATE_SUCCESS
    ensures var k := Step(Boot(), Spawn(load, true));
            && KernelOk(k) && AnyUsed(k.used)
            && Tick(k, ctx).current == 0 && Tick(k, ctx).cr3 == 0
            && Handed(k, ctx).eip == load.addr && Handed(k, ctx).eflags == 0x202 && Handed(k, ctx).dir == 0
            && Handed(k, ctx).cpu.esp == Handed(k, ctx).cpu.ebp == 0xBFFF_FFFC
            && Handed(k, ctx).cpu.ds == Handed(k, ctx).cpu.es == Handed(k, ctx).cpu.fs == Handed(k, ctx).cpu.gs == 0x23
            && Handed(k, ctx).cpu.eax == Handed(k, ctx).cpu.ebx == Handed(k, ctx).cpu.ecx == Handed(k, ctx).cpu.edx == 0
            && Handed(k, ctx).cpu.esi == Handed(k, ctx).cpu.edi == 0
            && (PageIndex(load.addr) != PageIndex(STACK_ADDRESS) ==> OwnsTwo(k.mem, k.pcbs[0]))
  {
    FirstProcess(load);
    var k := Step(Boot(), Spawn(load, true));
    AloneRuns(k, 0, ctx);
    BootOk();
    StepBalanced(Boot(), Spawn(load, true));
    assert Balanced(k) && k.used[0] ==> OwnsTwo(k.mem, k.pcbs[0]);
  }

  /** Slot `p` and no other is in use. */
  ghost predicate Alone(k: Kernel, p: nat) {
    Sized(k) && p < PROCESS_COUNT_MAX && forall q :: 0 <= q < PROCESS_COUNT_MAX ==> (k.used[q] <==> q == p)
  }

  /** A process that is alone is switched to. */
  lemma AloneRuns(k: Kernel, p: nat, ctx: Context)
    requires Alone(k, p) && CurrentOk(k)
    ensures AnyUsed(k.used) && Tick(k, ctx).current == p
    ensures Handed(k, ctx) == Save(k, ctx).pcbs[p].context && Tick(k, ctx).cr3 == Dir(k, p)
  {
    assert k.used[p];
  }

  // ---- Process numbers ------------------------------------------------------------------------

  /** Every live process has the number of its slot. */
  ghost predicate Numbered(k: Kernel)
    requires Sized(k)
  {
    forall p :: 0 <= p < PROCESS_COUNT_MAX && k.used[p] ==> k.pcbs[p].pid == p
  }

  lemma StepNumbered(k: Kernel, ev: Event)
    requires KernelOk(k) && Legal(k, ev) && Numbered(k) && (ev.Spawn? ==> ev.readOk)
    ensures KernelOk(Step(k, ev)) && Numbered(Step(k, ev))
  {
    StepKeeps(k, ev);
    match ev
    case Spawn(load, readOk) => if CreateChecks(k, load) == CREATE_SUCCESS { CreateIs(k, load, readOk); }
    case Kill(pid, junk) => if pid < PROCESS_COUNT_MAX { DestroyIs(k, pid, junk); }
    case Timer(ctx) => TickNames(k, ctx);
  }

  /** In a run from boot in which loading never fails, every live process has the number of its slot. */
  lemma {:induction false} RunNumbered(ks: seq<Kernel>, evs: seq<Event>, i: nat)
    requires IsRun(ks, evs) && ks[0] == Boot() && i <= |evs|
    requires forall j :: 0 <= j < i ==> (evs[j].Spawn? ==> evs[j].readOk)
    ensures KernelOk(ks[i]) && Numbered(ks[i])
  {
    if i == 0 {
      BootOk();
    } else {
      RunNumbered(ks, evs, i - 1);
      assert Follows(ks, evs, i - 1);
      StepNumbered(ks[i - 1], evs[i - 1]);
    }
  }

  // ---- One process marked RUNNING, over a run -------------------------------------------------

  lemma StepRunsOne(k: Kernel, ev: Event)
    requires KernelOk(k) && Legal(k, ev) && OnlyCurrentRuns(k) && (ev.Spawn? ==> ev.readOk)
    ensures KernelOk(Step(k, ev)) && OnlyCurrentRuns(Step(k, ev))
  {
    StepKeeps(k, ev);
    match ev
    case Spawn(load, readOk) =>
      if CreateChecks(k, load) == CREATE_SUCCESS { CreateRunsOne(k, load, readOk); }
    case Kill(pid, junk) => if pid < PROCESS_COUNT_MAX { DestroyRunsOne(k, pid, junk); }
    case Timer(ctx) => TickRunsOne(k, ctx);
  }

  /** In a run from boot in which loading never fails, only the current process is ever marked RUNNING. */
  lemma {:induction false} RunRunsOne(ks: seq<Kernel>, evs: seq<Event>, i: nat)
    requires IsRun(ks, evs) && ks[0] == Boot() && i <= |evs|
    requires forall j :: 0 <= j < i ==> (evs[j].Spawn? ==> evs[j].readOk)
    ensures KernelOk(ks[i]) && OnlyCurrentRuns(ks[i])
  {
    if i == 0 {
      BootOk();
    } else {
      RunRunsOne(ks, evs, i - 1);
      assert Follows(ks, evs, i - 1);
      StepRunsOne(ks[i - 1], evs[i - 1]);
    }
  }

  /** A failed load right after boot leaves its slot in use and marked RUNNING without ever having run. */
  lemma FailedLoadRuns(load: Load)
    requires CreateChecks(Boot(), load) == CREATE_SUCCESS
    ensures KernelOk(Boot()) && OnlyCurrentRuns(Boot())
    ensures Sized(Step(Boot(), Spawn(load, false))) && !OnlyCurrentRuns(Step(Boot(), Spawn(load, false)))
  {
    BootOk();
    CreateRunsOne(Boot(), load, false);
  }
}
