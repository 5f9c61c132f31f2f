/** The round-robin scheduler (src/scheduler.c) over the process table, as values. */
module Scheduler {
  import opened Paging
  import opened Process
  import opened ProcessLaws

  // ---- The search -----------------------------------------------------------------------------

  function After(i: nat): nat { (i + 1) % PROCESS_COUNT_MAX }

  /** How many slots the search passes over when it goes from slot `i` to slot `p`. */
  function Distance(i: nat, p: nat): (n: nat)
    requires i < PROCESS_COUNT_MAX && p < PROCESS_COUNT_MAX
    ensures n < PROCESS_COUNT_MAX
  {
    if p > i then p - i - 1 else p + PROCESS_COUNT_MAX - i - 1
  }

  lemma DistanceStep(i: nat, p: nat)
    requires i < PROCESS_COUNT_MAX && p < PROCESS_COUNT_MAX
    ensures After(i) < PROCESS_COUNT_MAX
    ensures Distance(i, p) == if After(i) == p then 0 else Distance(After(i), p) + 1
  {
  }

  ghost predicate AnyUsed(used: seq<bool>) {
    |used| == PROCESS_COUNT_MAX && exists p :: 0 <= p < |used| && used[p]
  }

  /** `p` is the used slot nearest to `i` in cyclic order. */
  ghost predicate Nearest(used: seq<bool>, i: nat, p: nat) {
    && |used| == PROCESS_COUNT_MAX && i < |used| && p < |used| && used[p]
    && (forall q :: 0 <= q < |used| && used[q] ==> Distance(i, p) <= Distance(i, q))
  }

  /** The search loop from slot `i`, given that it meets a used slot within `n` steps. */
  ghost function Search(used: seq<bool>, i: nat, n: nat): (p: nat)
    requires |used| == PROCESS_COUNT_MAX && i < PROCESS_COUNT_MAX
    requires exists q :: 0 <= q < |used| && used[q] && Distance(i, q) < n
    ensures Nearest(used, i, p)
    decreases n
  {
    var q :| 0 <= q < |used| && used[q] && Distance(i, q) < n;
    DistanceStep(i, q);
    if used[After(i)] then
      assert Distance(i, After(i)) == 0;
      After(i)
    else
      assert used[q] && Distance(After(i), q) < n - 1;
      var p := Search(used, After(i), n - 1);
      SearchStep(used, i, p);
      p
  }

  lemma SearchStep(used: seq<bool>, i: nat, p: nat)
    requires |used| == PROCESS_COUNT_MAX && i < PROCESS_COUNT_MAX && !used[After(i)] && Nearest(used, After(i), p)
    ensures Nearest(used, i, p)
  {
    forall q | 0 <= q < |used| && used[q]
      ensures Distance(i, p) <= Distance(i, q)
    {
      DistanceStep(i, p);
      DistanceStep(i, q);
    }
  }

  // ---- The scheduler's steps ------------------------------------------------------------------

  /** The slot the search starts after. */
  function Start(k: Kernel): nat { if k.current == NO_PROCESS_RUNNING then 0 else k.current }

  predicate CurrentOk(k: Kernel) { k.current == NO_PROCESS_RUNNING || k.current < PROCESS_COUNT_MAX }

  /** The context kept when `ctx` is saved over `kept`: everything but the page directory. */
  function Saved(kept: Context, ctx: Context): Context { ctx.(dir := kept.dir) }

  /** `scheduler_save_context_to_current_running_pcb`. */
  function Save(k: Kernel, ctx: Context): Kernel
    requires Sized(k) && CurrentOk(k)
  {
    if k.current == NO_PROCESS_RUNNING then k
    else
      var pcb := k.pcbs[k.current];
      k.(pcbs := k.pcbs[k.current := pcb.(state := Ready, context := Saved(pcb.context, ctx))])
  }

  /** The slot `scheduler_switch_to_next_process` picks. */
  ghost function Next(k: Kernel): (p: nat)
    requires Sized(k) && CurrentOk(k) && AnyUsed(k.used)
    ensures Nearest(k.used, Start(k), p)
  {
    assert exists q :: 0 <= q < |k.used| && k.used[q] && Distance(Start(k), q) < PROCESS_COUNT_MAX;
    Search(k.used, Start(k), PROCESS_COUNT_MAX)
  }

  /** `scheduler_switch_to_next_process` up to the jump. */
  ghost function Switch(k: Kernel): Kernel
    requires Sized(k) && CurrentOk(k) && AnyUsed(k.used)
  {
    var p := Next(k);
    k.(pcbs := k.pcbs[p := k.pcbs[p].(state := Running)], current := p, cr3 := k.pcbs[p].context.dir)
  }

  /** The timer interrupt: save, then switch. */
  ghost function Tick(k: Kernel, ctx: Context): Kernel
    requires Sized(k) && CurrentOk(k) && AnyUsed(k.used)
  {
    Switch(Save(k, ctx))
  }

  /** The context handed to the machine by a timer interrupt. */
  ghost function Handed(k: Kernel, ctx: Context): Context
    requires Sized(k) && CurrentOk(k) && AnyUsed(k.used)
  {
    Save(k, ctx).pcbs[Next(Save(k, ctx))].context
  }

  /** `j` has the slots, memory, page directories and page records of `k`. */
  ghost predicate SameHoldings(k: Kernel, j: Kernel) {
    && |k.pcbs| == |j.pcbs| == PROCESS_COUNT_MAX
    && j.used == k.used && j.mem == k.mem && j.active == k.active
    && forall p :: 0 <= p < PROCESS_COUNT_MAX ==>
         Dir(j, p) == Dir(k, p) && j.pcbs[p].pages == k.pcbs[p].pages && j.pcbs[p].pageCount == k.pcbs[p].pageCount
  }

  lemma SaveFrame(k: Kernel, ctx: Context)
    requires Sized(k) && CurrentOk(k)
    ensures Sized(Save(k, ctx)) && SameHoldings(k, Save(k, ctx))
  {
  }

  lemma SwitchFrame(k: Kernel)
    requires Sized(k) && CurrentOk(k) && AnyUsed(k.used)
    ensures SameHoldings(k, Switch(k)) && CurrentOk(Switch(k)) && Switch(k).cr3 == Dir(k, Switch(k).current)
  {
  }

  lemma SameHoldingsKeeps(k: Kernel, j: Kernel)
    requires KernelInv(k) && SameHoldings(k, j)
    ensures KernelInv(j)
  {
  }

  /** Scheduling touches neither the slots nor the memory, so it keeps the kernel's invariant. */
  lemma TickKeeps(k: Kernel, ctx: Context)
    requires KernelInv(k) && CurrentOk(k) && AnyUsed(k.used)
    ensures KernelInv(Tick(k, ctx)) && CurrentOk(Tick(k, ctx)) && SameHoldings(k, Tick(k, ctx))
    ensures Tick(k, ctx).cr3 == Handed(k, ctx).dir == Dir(k, Tick(k, ctx).current)
  {
    SaveFrame(k, ctx);
    SwitchFrame(Save(k, ctx));
    SameHoldingsKeeps(k, Tick(k, ctx));
  }

  /**
   * A timer interrupt stores the interrupted registers, instruction pointer and flags in the control
   * block of the current process, keeps its page directory, and stores nothing in any other block.
   */
  lemma TickSaves(k: Kernel, ctx: Context, p: nat)
    requires Sized(k) && CurrentOk(k) && AnyUsed(k.used) && p < PROCESS_COUNT_MAX
    ensures |Tick(k, ctx).pcbs| == |k.pcbs|
    ensures var b := Tick(k, ctx).pcbs[p].context;
            if p == k.current then
              b.cpu == ctx.cpu && b.eip == ctx.eip && b.eflags == ctx.eflags && b.dir == k.pcbs[p].context.dir
            else b == k.pcbs[p].context
  {
  }

  /** Scheduling changes no process number and no name. */
  lemma TickNames(k: Kernel, ctx: Context)
    requires Sized(k) && CurrentOk(k) && AnyUsed(k.used)
    ensures |Tick(k, ctx).pcbs| == |k.pcbs| && Tick(k, ctx).used == k.used
    ensures forall p :: 0 <= p < |k.pcbs| ==>
              Tick(k, ctx).pcbs[p].pid == k.pcbs[p].pid && Tick(k, ctx).pcbs[p].name == k.pcbs[p].name
  {
  }

  /**
   * A timer interrupt switches to the next used slot after the current one, and from the last such slot
   * to the first; with no process running it starts after slot 0.
   */
  lemma TickPicks(k: Kernel, ctx: Context)
    requires Sized(k) && CurrentOk(k) && AnyUsed(k.used)
    ensures var c := if k.current == 0xFFFF_FFFF then 0 else k.current;
            var p := Tick(k, ctx).current;
            && p < 16 && k.used[p]
            && if exists q :: c < q < 16 && k.used[q] then p > c && forall q :: c < q < p ==> !k.used[q]
               else p <= c && forall q :: 0 <= q < p ==> !k.used[q]
  {
    var p := Next(Save(k, ctx));
    assert Nearest(k.used, Start(k), p);
    forall q | 0 <= q < PROCESS_COUNT_MAX && k.used[q]
      ensures Distance(Start(k), p) <= Distance(Start(k), q)
    {
    }
  }

  // ---- Exactly one process runs ---------------------------------------------------------------

  /** A used slot marked RUNNING is the current one. */
  ghost predicate OnlyCurrentRuns(k: Kernel)
    requires Sized(k)
  {
    forall p :: 0 <= p < PROCESS_COUNT_MAX && k.used[p] && k.pcbs[p].state == Running ==> p == k.current
  }

  /** After a timer interrupt the current process, and no other, is marked RUNNING. */
  lemma TickRunsOne(k: Kernel, ctx: Context)
    requires KernelInv(k) && CurrentOk(k) && AnyUsed(k.used) && OnlyCurrentRuns(k)
    ensures KernelInv(Tick(k, ctx)) && OnlyCurrentRuns(Tick(k, ctx))
    ensures forall p :: 0 <= p < PROCESS_COUNT_MAX && k.used[p] ==>
              (Tick(k, ctx).pcbs[p].state == Running <==> p == Tick(k, ctx).current)
  {
    TickKeeps(k, ctx);
  }

  /** A creation can leave a second RUNNING slot, and does so exactly if loading fails on a zeroed slot. */
  lemma CreateRunsOne(k: Kernel, load: Load, readOk: bool)
    requires KernelInv(k) && OnlyCurrentRuns(k) && CreateChecks(k, load) == CREATE_SUCCESS
    ensures HasRoom(k) && Sized(Create(k, load, readOk).0)
    ensures OnlyCurrentRuns(Create(k, load, readOk).0) <==>
            readOk || k.pcbs[FirstFalse(k.used, 0)].state != Running || FirstFalse(k.used, 0) == k.current
  {
    CreateIs(k, load, readOk);
    CreateKeeps(k, load, readOk);
  }

  lemma DestroyRunsOne(k: Kernel, pid: nat, junk: seq<Flags>)
    requires KernelInv(k) && OnlyCurrentRuns(k) && pid < PROCESS_COUNT_MAX && k.used[pid] && |junk| == PAGE_RECORD_COUNT
    ensures Destroyable(k, pid) && Sized(Destroy(k, pid, junk).0) && OnlyCurrentRuns(Destroy(k, pid, junk).0)
  {
    DestroyIs(k, pid, junk);
    DestroyKeeps(k, pid, junk);
  }
}
