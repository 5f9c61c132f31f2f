/** The kernel core with its tables updated in place (src/paging.c, src/process.c, src/scheduler.c). */
module KernelMachine {
  import opened Numbers
  import opened Paging
  import opened Process
  import opened ProcessLaws
  import opened Scheduler

  /** The kernel once slot `p` has been marked, given a directory and asked for its two frames. */
  function Equipped(k: Kernel, p: nat, addr: nat): Kernel
    requires Process.Sized(k) && p < PROCESS_COUNT_MAX && FirstFalse(k.mem.dirUsed, 0) < DIRECTORY_MAX_COUNT
  {
    var (m, d) := CreateDirectory(k.mem);
    var (pcb, n) := Equip(k.pcbs[p], m, d, addr);
    k.(used := k.used[p := true], active := k.active + 1, pcbs := k.pcbs[p := pcb], mem := n, cr3 := d)
  }

  /** The kernel once the control block of slot `p` is filled in. */
  function Filled(k: Kernel, p: nat, load: Load): Kernel
    requires Process.Sized(k) && p < PROCESS_COUNT_MAX
  {
    var pcb := k.pcbs[p];
    k.(pcbs := k.pcbs[p := Pcb(p, load.name, Ready, InitialContext(load, pcb.context.dir), pcb.pages, pcb.pageCount)])
  }

  /** A creation that passes its checks equips a slot, puts CR3 back, and fills the block if loading went well. */
  lemma CreateParts(k: Kernel, load: Load, readOk: bool)
    requires KernelInv(k) && CreateChecks(k, load) == CREATE_SUCCESS
    ensures HasRoom(k)
    ensures var equipped := Equipped(k, FirstFalse(k.used, 0), load.addr).(cr3 := k.cr3);
            && Process.Sized(equipped)
            && Create(k, load, readOk).0 == (if readOk then Filled(equipped, FirstFalse(k.used, 0), load) else equipped)
  {
    CreateHasRoom(k, load);
    CreateKeeps(k, load, false);
  }

  /** `process_create_user_process` on a kernel whose invariant guarantees the slot and the directory. */
  ghost function CreateIn(k: Kernel, load: Load, readOk: bool): (Kernel, int)
    requires KernelInv(k)
  {
    CreateKeeps(k, load, readOk);
    Create(k, load, readOk)
  }

  /** The memory after the freeing loop of `process_destroy`. */
  ghost function RecordsFreed(k: Kernel, p: nat, junk: seq<Flags>): Memory
    requires Destroyable(k, p) && |junk| == PAGE_RECORD_COUNT
  {
    if 0 <= k.pcbs[p].context.dir < DIRECTORY_COUNT
    then ReleaseRecords(k.mem, k.pcbs[p].context.dir, k.pcbs[p].pages, PAGE_RECORD_COUNT, junk) else k.mem
  }

  /** One step of the search arrives at the nearest used slot, or leaves it the nearest. */
  lemma NearestStep(used: seq<bool>, i: nat, p: nat)
    requires Nearest(used, i, p)
    ensures After(i) < PROCESS_COUNT_MAX
    ensures used[After(i)] <==> After(i) == p
    ensures After(i) != p ==> Nearest(used, After(i), p)
  {
    forall q | 0 <= q < |used| && used[q] && After(i) != p
      ensures After(i) != q && Distance(After(i), p) <= Distance(After(i), q)
    {
      DistanceStep(i, p);
      DistanceStep(i, q);
    }
    DistanceStep(i, p);
    DistanceStep(i, After(i));
  }

  class Machine {
    const pageFrameMap: array<bool>
    var freePageFrameCount: nat
    const directories: array<seq<Pde>>
    const directoryUsed: array<bool>
    const processUsed: array<bool>
    const processes: array<Pcb>
    var activeProcessCount: nat
    var currentRunningPid: nat
    var cr3: int

    ghost function Mem(): Memory
      reads this, pageFrameMap, directories, directoryUsed
    {
      Memory(pageFrameMap[..], freePageFrameCount, directories[..], directoryUsed[..])
    }

    /** The kernel this machine holds, as a value. */
    ghost function Snap(): Kernel
      reads this, pageFrameMap, directories, directoryUsed, processUsed, processes
    {
      Kernel(processUsed[..], processes[..], activeProcessCount, currentRunningPid, Mem(), cr3)
    }

    ghost predicate Separate() {
      pageFrameMap != directoryUsed && pageFrameMap != processUsed && directoryUsed != processUsed
    }

    ghost predicate Valid()
      reads this, pageFrameMap, directories, directoryUsed, processUsed, processes
    {
      Separate() && Process.Sized(Snap())
    }

    /** The static tables, and the one frame `kernel_setup` maps for the kernel. */
    constructor ()
      ensures Valid() && Snap() == Boot()
      ensures fresh(pageFrameMap) && fresh(directories) && fresh(directoryUsed) && fresh(processUsed) &&
              fresh(processes)
    {
      pageFrameMap := new bool[PAGE_FRAME_MAX_COUNT](_ => false);
      freePageFrameCount := 32;
      directories := new seq<Pde>[DIRECTORY_COUNT](
        i => if i < DIRECTORY_MAX_COUNT then EmptyDirectory() else KernelDirectory());
      directoryUsed := new bool[DIRECTORY_MAX_COUNT](_ => false);
      processUsed := new bool[PROCESS_COUNT_MAX](_ => false);
      processes := new Pcb[PROCESS_COUNT_MAX](_ => ZeroPcb());
      activeProcessCount, currentRunningPid, cr3 := 0, NO_PROCESS_RUNNING, KERNEL_DIRECTORY;
      new;
      assert Mem() == StaticMemory() by { assert directories[..] == StaticMemory().dirs; }
      var _ := AllocateUserPageFrame(KERNEL_DIRECTORY, 0);
    }

    // ---- paging.c -----------------------------------------------------------------------------

    /** `update_page_directory_entry`. */
    method UpdatePageDirectoryEntry(d: nat, frame: nat, addr: nat, flags: Flags)
      requires Valid() && d < DIRECTORY_COUNT && frame < PAGE_ENTRY_COUNT
      modifies directories
      ensures Valid() && Snap() == old(Snap()).(mem := SetEntry(old(Mem()), d, PageIndex(addr), Pde(flags, frame)))
    {
      var pageIndex := PageIndex(addr);
      directories[d] := directories[d][pageIndex := Pde(flags, frame)];
    }

    /** `paging_allocate_user_page_frame`. */
    method AllocateUserPageFrame(d: nat, addr: nat) returns (ok: bool)
      requires Valid() && d < DIRECTORY_COUNT
      modifies `freePageFrameCount, pageFrameMap, directories
      ensures Valid() && Snap() == old(Snap()).(mem := Allocate(old(Mem()), d, addr).0)
      ensures ok == Allocate(old(Mem()), d, addr).1
    {
      if freePageFrameCount == 0 { return false; }
      var i := 1;
      while i < PAGE_FRAME_MAX_COUNT
        invariant 1 <= i <= PAGE_FRAME_MAX_COUNT
        invariant FirstFalse(pageFrameMap[..], 1) == FirstFalse(pageFrameMap[..], i)
      {
        if !pageFrameMap[i] {
          pageFrameMap[i] := true;
          UpdatePageDirectoryEntry(d, i, addr, USER_FLAGS);
          freePageFrameCount := freePageFrameCount - 1;
          return true;
        }
        i := i + 1;
      }
      return true;
    }

    /** `paging_free_user_page_frame`; `junk` is the content of its uninitialised flags. */
    method FreeUserPageFrame(d: nat, addr: nat, junk: Flags) returns (ok: bool)
      requires Valid() && d < DIRECTORY_COUNT && Frame(Mem(), d, PageIndex(addr)) < PAGE_FRAME_MAX_COUNT
      modifies `freePageFrameCount, pageFrameMap, directories
      ensures Valid() && Snap() == old(Snap()).(mem := Release(old(Mem()), d, addr, junk).0)
      ensures ok == Release(old(Mem()), d, addr, junk).1
    {
      var pageNum := directories[d][PageIndex(addr)].lower;
      if pageFrameMap[pageNum] {
        pageFrameMap[pageNum] := false;
        UpdatePageDirectoryEntry(d, 0, addr, junk);
        freePageFrameCount := freePageFrameCount + 1;
        return true;
      }
      return false;
    }

    /** `paging_create_new_page_directory`. */
    method CreateNewPageDirectory() returns (d: int)
      requires Valid()
      modifies directories, directoryUsed
      ensures Valid() && Snap() == old(Snap()).(mem := CreateDirectory(old(Mem())).0)
      ensures d == CreateDirectory(old(Mem())).1
      ensures d == -1 <==> forall i :: 0 <= i < 32 ==> old(directoryUsed[i])
    {
      var i := 0;
      while i < DIRECTORY_MAX_COUNT
        invariant 0 <= i <= DIRECTORY_MAX_COUNT
        invariant FirstFalse(directoryUsed[..], 0) == FirstFalse(directoryUsed[..], i)
      {
        if !directoryUsed[i] {
          directoryUsed[i] := true;
          directories[i] := EmptyDirectory();
          directories[i] := directories[i][KERNEL_ENTRY := Pde(KERNEL_FLAGS, 0)];
          return i;
        }
        i := i + 1;
      }
      return NO_DIRECTORY;
    }

    /** `paging_free_page_directory`. */
    method FreePageDirectory(d: int) returns (ok: bool)
      requires Valid()
      modifies directories, directoryUsed
      ensures Valid() && Snap() == old(Snap()).(mem := FreeDirectory(old(Mem()), d).0)
      ensures ok == FreeDirectory(old(Mem()), d).1
      ensures ok <==> 0 <= d < 32
    {
      var i := 0;
      while i < DIRECTORY_MAX_COUNT
        invariant 0 <= i <= DIRECTORY_MAX_COUNT
        invariant !(0 <= d < i)
      {
        if i == d {
          directoryUsed[i] := false;
          directories[i] := EmptyDirectory();
          return true;
        }
        i := i + 1;
      }
      return false;
    }

    // ---- process.c ----------------------------------------------------------------------------

    /** `process_list_get_inactive_index`. */
    method InactiveIndex() returns (p: int)
      requires Valid()
      ensures p == if FirstFalse(processUsed[..], 0) < PROCESS_COUNT_MAX then FirstFalse(processUsed[..], 0) else -1
    {
      var i := 0;
      while i < PROCESS_COUNT_MAX
        invariant 0 <= i <= PROCESS_COUNT_MAX
        invariant FirstFalse(processUsed[..], 0) == FirstFalse(processUsed[..], i)
      {
        if !processUsed[i] { return i; }
        i := i + 1;
      }
      return -1;
    }

    /** `process_allocate_page_frame` for slot `p`. */
    method ProcessAllocatePageFrame(p: nat, addr: nat)
      requires Valid() && p < PROCESS_COUNT_MAX && 0 <= processes[p].context.dir < DIRECTORY_COUNT
      modifies `freePageFrameCount, pageFrameMap, directories, processes
      ensures Valid()
      ensures var (pcb, m) := AllocatePage(old(processes[p]), old(Mem()), addr);
              Snap() == old(Snap()).(pcbs := old(processes[..])[p := pcb], mem := m)
    {
      if processes[p].pageCount >= PAGE_RECORD_COUNT { return; }
      var i := 0;
      while i < PAGE_RECORD_COUNT
        invariant 0 <= i <= PAGE_RECORD_COUNT
        invariant FirstUnused(processes[p].pages, 0) == FirstUnused(processes[p].pages, i)
      {
        if !processes[p].pages[i].used {
          var pcb := processes[p];
          processes[p] := pcb.(pages := pcb.pages[i := PageRecord(true, addr)], pageCount := pcb.pageCount + 1);
          var _ := AllocateUserPageFrame(pcb.context.dir, addr);
          return;
        }
        i := i + 1;
      }
    }

    /** `process_deallocate_page_frame` for slot `p`. */
    method ProcessDeallocatePageFrame(p: nat, addr: nat, junk: Flags)
      requires Valid() && p < PROCESS_COUNT_MAX && 0 <= processes[p].context.dir < DIRECTORY_COUNT
      requires Frame(Mem(), processes[p].context.dir, PageIndex(addr)) < PAGE_FRAME_MAX_COUNT
      modifies `freePageFrameCount, pageFrameMap, directories, processes
      ensures Valid()
      ensures var (pcb, m) := DeallocatePage(old(processes[p]), old(Mem()), addr, junk);
              Snap() == old(Snap()).(pcbs := old(processes[..])[p := pcb], mem := m)
    {
      var i := 0;
      while i < PAGE_RECORD_COUNT
        invariant 0 <= i <= PAGE_RECORD_COUNT
        invariant FindRecord(processes[p].pages, addr, 0) == FindRecord(processes[p].pages, addr, i)
      {
        if processes[p].pages[i].used && processes[p].pages[i].addr == addr {
          var pcb := processes[p];
          processes[p] := pcb.(pages := pcb.pages[i := NO_PAGE],
                               pageCount := if pcb.pageCount == 0 then UINT32 - 1 else pcb.pageCount - 1);
          var _ := FreeUserPageFrame(pcb.context.dir, addr, junk);
          return;
        }
        i := i + 1;
      }
    }

    /** The bookkeeping of `process_create_user_process` for slot `p`, up to the second page frame. */
    method EquipProcess(p: nat, addr: nat)
      requires Valid() && p < PROCESS_COUNT_MAX && FirstFalse(directoryUsed[..], 0) < DIRECTORY_MAX_COUNT
      modifies `freePageFrameCount, `activeProcessCount, `cr3
      modifies pageFrameMap, directories, directoryUsed, processUsed, processes
      ensures Valid() && Snap() == Equipped(old(Snap()), p, addr)
    {
      ghost var k := Snap();
      activeProcessCount := activeProcessCount + 1;
      processUsed[p] := true;
      processes[p] := processes[p].(pages := NoPages(), pageCount := 0);
      var d := CreateNewPageDirectory();
      cr3 := d;
      processes[p] := processes[p].(context := processes[p].context.(dir := d));
      ProcessAllocatePageFrame(p, addr);
      ProcessAllocatePageFrame(p, STACK_ADDRESS);
      assert processUsed[..] == k.used[p := true];
      assert processes[..] == Equipped(k, p, addr).pcbs;
    }

    /** The checks of `process_create_user_process`. */
    method CheckCreation(load: Load) returns (code: int)
      requires Valid()
      ensures code == CreateChecks(Snap(), load)
    {
      if activeProcessCount >= PROCESS_COUNT_MAX { return CREATE_FAIL_MAX_PROCESS_EXCEEDED; }
      if load.addr >= KERNEL_VIRTUAL_ADDRESS_BASE { return CREATE_FAIL_INVALID_ENTRYPOINT; }
      var needed := FramesNeeded(load.size);
      if freePageFrameCount < CeilDiv(Binary32(needed), PAGE_FRAME_SIZE) || needed > PAGE_RECORD_COUNT {
        return CREATE_FAIL_NOT_ENOUGH_MEMORY;
      }
      return CREATE_SUCCESS;
    }

    /** The last part of `process_create_user_process`: the context and the metadata of slot `p`. */
    method FillProcess(p: nat, load: Load)
      requires Valid() && p < PROCESS_COUNT_MAX
      modifies processes
      ensures Valid() && Snap() == Filled(old(Snap()), p, load)
    {
      var pcb := processes[p];
      processes[p] := Pcb(p, load.name, Ready, InitialContext(load, pcb.context.dir), pcb.pages, pcb.pageCount);
    }

    /** `process_create_user_process`; `readOk` is the outcome of loading the file. */
    method CreateUserProcess(load: Load, readOk: bool) returns (code: int)
      requires Valid() && KernelInv(Snap())
      modifies `freePageFrameCount, `activeProcessCount, `cr3
      modifies pageFrameMap, directories, directoryUsed, processUsed, processes
      ensures Valid() && KernelInv(Snap())
      ensures (Snap(), code) == CreateIn(old(Snap()), load, readOk)
    {
      CreateKeeps(Snap(), load, readOk);
      code := CheckCreation(load);
      if code != CREATE_SUCCESS { return; }
      CreateParts(Snap(), load, readOk);
      var p := InactiveIndex();
      var previous := cr3;
      EquipProcess(p, load.addr);
      cr3 := previous;
      if !readOk { return CREATE_FAIL_FS_READ_FAILURE; }
      FillProcess(p, load);
    }

    /** The freeing loop of `process_destroy`. */
    method FreeRecords(p: nat, junk: seq<Flags>)
      requires Valid() && Destroyable(Snap(), p) && |junk| == PAGE_RECORD_COUNT
      modifies `freePageFrameCount, pageFrameMap, directories
      ensures Valid() && Snap() == old(Snap()).(mem := RecordsFreed(old(Snap()), p, junk))
    {
      ghost var k, d := Snap(), processes[p].context.dir;
      var i := 0;
      while i < PAGE_RECORD_COUNT
        invariant 0 <= i <= PAGE_RECORD_COUNT && Valid()
        invariant Snap() == k.(mem := if 0 <= d < DIRECTORY_COUNT
                                      then ReleaseRecords(k.mem, d, k.pcbs[p].pages, i, junk) else k.mem)
      {
        if processes[p].pages[i].used {
          ReleaseIsolated(Mem(), d, processes[p].pages[i].addr, junk[i]);
          var _ := FreeUserPageFrame(processes[p].context.dir, processes[p].pages[i].addr, junk[i]);
        }
        i := i + 1;
      }
    }

    /** `process_destroy`. */
    method DestroyProcess(pid: nat, junk: seq<Flags>) returns (ok: bool)
      requires Valid() && KernelInv(Snap()) && |junk| == PAGE_RECORD_COUNT
      modifies `freePageFrameCount, `activeProcessCount
      modifies pageFrameMap, directories, directoryUsed, processUsed, processes
      ensures Valid()
      ensures pid < PROCESS_COUNT_MAX ==> Destroyable(old(Snap()), pid)
      ensures (Snap(), ok) == Destroy(old(Snap()), pid, junk)
      ensures if pid < 16 then ok else !ok && Snap() == old(Snap())
      ensures KernelInv(Snap()) <==> pid >= PROCESS_COUNT_MAX || old(processUsed[pid])
    {
      if pid >= PROCESS_COUNT_MAX { return false; }
      DestroyExact(Snap(), pid, junk);
      ghost var k := Snap();
      var d := processes[pid].context.dir;
      FreeRecords(pid, junk);
      var _ := FreePageDirectory(d);
      processes[pid] := ZeroPcb();
      processUsed[pid] := false;
      activeProcessCount := if activeProcessCount == 0 then UINT32 - 1 else activeProcessCount - 1;
      assert Snap() == Destroy(k, pid, junk).0;
      return true;
    }

    // ---- scheduler.c --------------------------------------------------------------------------

    /** `scheduler_save_context_to_current_running_pcb`. */
    method SaveContext(ctx: Context)
      requires Valid() && CurrentOk(Snap())
      modifies processes
      ensures Valid() && Snap() == Save(old(Snap()), ctx)
    {
      if currentRunningPid != NO_PROCESS_RUNNING {
        var pcb := processes[currentRunningPid];
        processes[currentRunningPid] := pcb.(state := Ready,
            context := Context(ctx.cpu, ctx.eip, ctx.eflags, pcb.context.dir));
      }
    }

    /** The search loop of `scheduler_switch_to_next_process`. */
    method SearchNext(start: nat, ghost target: nat) returns (index: nat)
      requires Nearest(processUsed[..], start, target)
      ensures index == target
    {
      index := start;
      while true
        invariant Nearest(processUsed[..], index, target)
        decreases Distance(index, target)
      {
        NearestStep(processUsed[..], index, target);
        DistanceStep(index, target);
        index := (index + 1) % PROCESS_COUNT_MAX;
        if processUsed[index] { return; }
      }
    }

    /** `scheduler_switch_to_next_process`, returning the context it jumps to. */
    method SwitchToNextProcess() returns (handed: Context)
      requires Valid() && CurrentOk(Snap()) && AnyUsed(processUsed[..])
      modifies `currentRunningPid, `cr3, processes
      ensures Valid() && Snap() == Switch(old(Snap()))
      ensures handed == old(processes[..])[Next(old(Snap()))].context
    {
      var index := currentRunningPid;
      if index == NO_PROCESS_RUNNING { index := 0; }
      index := SearchNext(index, Next(Snap()));
      handed := processes[index].context;
      processes[index] := processes[index].(state := Running);
      currentRunningPid := index;
      cr3 := handed.dir;
    }

    /** The timer branch of `main_interrupt_handler`. */
    method TimerInterrupt(ctx: Context) returns (handed: Context)
      requires Valid() && CurrentOk(Snap()) && AnyUsed(processUsed[..])
      modifies `currentRunningPid, `cr3, processes
      ensures Valid() && Snap() == Tick(old(Snap()), ctx)
      ensures handed == Handed(old(Snap()), ctx)
    {
      SaveContext(ctx);
      handed := SwitchToNextProcess();
    }
  }
}
