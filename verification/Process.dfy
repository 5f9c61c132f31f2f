/** Process slots, their page records and page directories (src/process.c), as values. */
module Process {
  import opened Numbers
  import opened Paging

  const PROCESS_COUNT_MAX: nat := 16
  const PAGE_RECORD_COUNT: nat := 8
  const KERNEL_VIRTUAL_ADDRESS_BASE: nat := 0xC000_0000
  const STACK_ADDRESS: nat := KERNEL_VIRTUAL_ADDRESS_BASE - 4
  const NO_PROCESS_RUNNING: nat := 0xFFFF_FFFF
  const UINT32: nat := 0x1_0000_0000

  const USER_DATA_SELECTOR: nat := 0x23
  const INITIAL_EFLAGS: nat := 0x202

  const CREATE_SUCCESS: int := 0
  const CREATE_FAIL_MAX_PROCESS_EXCEEDED: int := 1
  const CREATE_FAIL_INVALID_ENTRYPOINT: int := 2
  const CREATE_FAIL_NOT_ENOUGH_MEMORY: int := 3
  const CREATE_FAIL_FS_READ_FAILURE: int := 4

  datatype Cpu = Cpu(
    edi: nat, esi: nat, ebp: nat, esp: nat,
    ebx: nat, edx: nat, ecx: nat, eax: nat,
    gs: nat, fs: nat, es: nat, ds: nat)

  /** What is saved and resumed; `dir` is the page directory, or `NO_DIRECTORY`. */
  datatype Context = Context(cpu: Cpu, eip: nat, eflags: nat, dir: int)

  datatype RunState = Running | Ready | Blocked

  datatype PageRecord = PageRecord(used: bool, addr: nat)

  datatype Pcb = Pcb(pid: nat, name: string, state: RunState, context: Context, pages: seq<PageRecord>, pageCount: nat)

  const ZERO_CPU: Cpu := Cpu(0, 0, 0, 0, 0, 0, 0, 0, 0, 0, 0, 0)
  const NO_PAGE: PageRecord := PageRecord(false, 0)

  function NoPages(): (s: seq<PageRecord>)
    ensures |s| == PAGE_RECORD_COUNT && forall i :: 0 <= i < |s| ==> s[i] == NO_PAGE
  {
    seq(PAGE_RECORD_COUNT, _ => NO_PAGE)
  }

  /** A zeroed control block; zero is the number of the state RUNNING. */
  function ZeroPcb(): Pcb { Pcb(0, "", Running, Context(ZERO_CPU, 0, 0, NO_DIRECTORY), NoPages(), 0) }

  /** The process manager, the control blocks, the memory, and the page directory in CR3. */
  datatype Kernel = Kernel(used: seq<bool>, pcbs: seq<Pcb>, active: nat, current: nat, mem: Memory, cr3: int)

  /** What `process_create_user_process` is given: load address, size and name of the executable. */
  datatype Load = Load(addr: nat, size: nat, name: string)

  predicate Sized(k: Kernel) {
    && |k.used| == PROCESS_COUNT_MAX == |k.pcbs| && Shaped(k.mem)
    && (forall p :: 0 <= p < |k.pcbs| ==> |k.pcbs[p].pages| == PAGE_RECORD_COUNT)
  }

  // ---- Page records ---------------------------------------------------------------------------

  /** The first unused page record at or after `i`. */
  function FirstUnused(pages: seq<PageRecord>, i: nat): (r: nat)
    requires i <= |pages|
    ensures i <= r <= |pages|
    ensures r < |pages| ==> !pages[r].used
    ensures forall j :: i <= j < r ==> pages[j].used
    decreases |pages| - i
  {
    if i == |pages| || !pages[i].used then i else FirstUnused(pages, i + 1)
  }

  /** The first used page record at or after `i` for the address. */
  function FindRecord(pages: seq<PageRecord>, addr: nat, i: nat): (r: nat)
    requires i <= |pages|
    ensures i <= r <= |pages|
    ensures r < |pages| ==> pages[r] == PageRecord(true, addr)
    ensures forall j :: i <= j < r ==> pages[j] != PageRecord(true, addr)
    decreases |pages| - i
  {
    if i == |pages| || pages[i] == PageRecord(true, addr) then i else FindRecord(pages, addr, i + 1)
  }

  /** `process_allocate_page_frame`. */
  function AllocatePage(pcb: Pcb, m: Memory, addr: nat): (r: (Pcb, Memory))
    requires |pcb.pages| == PAGE_RECORD_COUNT && Shaped(m) && 0 <= pcb.context.dir < DIRECTORY_COUNT
    ensures |r.0.pages| == PAGE_RECORD_COUNT && r.0.context == pcb.context && Shaped(r.1)
  {
    var i := FirstUnused(pcb.pages, 0);
    if pcb.pageCount >= PAGE_RECORD_COUNT || i == PAGE_RECORD_COUNT then (pcb, m)
    else (pcb.(pages := pcb.pages[i := PageRecord(true, addr)], pageCount := pcb.pageCount + 1),
          Allocate(m, pcb.context.dir, addr).0)
  }

  /** `process_deallocate_page_frame`. */
  function DeallocatePage(pcb: Pcb, m: Memory, addr: nat, junk: Flags): (Pcb, Memory)
    requires |pcb.pages| == PAGE_RECORD_COUNT && Shaped(m) && 0 <= pcb.context.dir < DIRECTORY_COUNT
    requires Frame(m, pcb.context.dir, PageIndex(addr)) < PAGE_FRAME_MAX_COUNT
  {
    var i := FindRecord(pcb.pages, addr, 0);
    if i == PAGE_RECORD_COUNT then (pcb, m)
    else (pcb.(pages := pcb.pages[i := NO_PAGE],
               pageCount := if pcb.pageCount == 0 then UINT32 - 1 else pcb.pageCount - 1),
          Release(m, pcb.context.dir, addr, junk).0)
  }

  /** The freeing loop of `process_destroy` over the first `n` records. */
  ghost function ReleaseRecords(m: Memory, d: nat, pages: seq<PageRecord>, n: nat, junk: seq<Flags>): (r: Memory)
    requires Isolated(m) && d < DIRECTORY_COUNT && n <= |pages| && n <= |junk|
    ensures Isolated(r)
  {
    if n == 0 then m
    else
      var before := ReleaseRecords(m, d, pages, n - 1, junk);
      if !pages[n - 1].used then before
      else
        ReleaseIsolated(before, d, pages[n - 1].addr, junk[n - 1]);
        Release(before, d, pages[n - 1].addr, junk[n - 1]).0
  }

  // ---- Creating a process ---------------------------------------------------------------------

  /** `ceil_div(buffer_size + PAGE_FRAME_SIZE, PAGE_FRAME_SIZE)` on 32-bit numbers through binary32. */
  function FramesNeeded(size: nat): nat {
    CeilDiv(Binary32((size + PAGE_FRAME_SIZE) % UINT32), PAGE_FRAME_SIZE)
  }

  /** `paging_allocate_check`, which is handed the number of frames as if it were bytes. */
  predicate AllocateCheck(m: Memory, amount: nat) {
    m.free >= CeilDiv(Binary32(amount), PAGE_FRAME_SIZE)
  }

  /** The checks of `process_create_user_process`, in order. */
  function CreateChecks(k: Kernel, load: Load): int {
    if k.active >= PROCESS_COUNT_MAX then CREATE_FAIL_MAX_PROCESS_EXCEEDED
    else if load.addr >= KERNEL_VIRTUAL_ADDRESS_BASE then CREATE_FAIL_INVALID_ENTRYPOINT
    else if !AllocateCheck(k.mem, FramesNeeded(load.size)) || FramesNeeded(load.size) > PAGE_RECORD_COUNT
    then CREATE_FAIL_NOT_ENOUGH_MEMORY
    else CREATE_SUCCESS
  }

  function InitialCpu(): Cpu {
    ZERO_CPU.(ebp := STACK_ADDRESS, esp := STACK_ADDRESS,
              ds := USER_DATA_SELECTOR, es := USER_DATA_SELECTOR, fs := USER_DATA_SELECTOR, gs := USER_DATA_SELECTOR)
  }

  function InitialContext(load: Load, d: int): Context {
    Context(InitialCpu(), load.addr, INITIAL_EFLAGS, d)
  }

  /** The control block and memory once the two page frames have been asked for. */
  function Equip(pcb: Pcb, m: Memory, d: nat, addr: nat): (Pcb, Memory)
    requires Shaped(m) && d < DIRECTORY_COUNT
  {
    var blank := pcb.(pages := NoPages(), pageCount := 0, context := pcb.context.(dir := d));
    var (one, n) := AllocatePage(blank, m, addr);
    AllocatePage(one, n, STACK_ADDRESS)
  }

  /** A slot and a page directory are there for the process to come. */
  predicate HasRoom(k: Kernel)
    requires Sized(k)
  {
    FirstFalse(k.used, 0) < PROCESS_COUNT_MAX && FirstFalse(k.mem.dirUsed, 0) < DIRECTORY_MAX_COUNT
  }

  /** `process_create_user_process`; `readOk` says whether the file system could load the file. */
  function Create(k: Kernel, load: Load, readOk: bool): (Kernel, int)
    requires Sized(k) && (CreateChecks(k, load) == CREATE_SUCCESS ==> HasRoom(k))
  {
    if CreateChecks(k, load) != CREATE_SUCCESS then (k, CreateChecks(k, load))
    else
      var p := FirstFalse(k.used, 0);
      var (m, d) := CreateDirectory(k.mem);
      var (pcb, n) := Equip(k.pcbs[p], m, d, load.addr);
      var ready := Pcb(p, load.name, Ready, InitialContext(load, d), pcb.pages, pcb.pageCount);
      (k.(used := k.used[p := true], active := k.active + 1, mem := n,
          pcbs := k.pcbs[p := if readOk then ready else pcb]),
       if readOk then CREATE_SUCCESS else CREATE_FAIL_FS_READ_FAILURE)
  }

  // ---- Destroying a process -------------------------------------------------------------------

  /** The page records of slot `p` can be freed: its directory is real, or there are no records. */
  ghost predicate Destroyable(k: Kernel, p: nat) {
    && Sized(k) && Isolated(k.mem) && p < PROCESS_COUNT_MAX
    && (|| 0 <= k.pcbs[p].context.dir < DIRECTORY_COUNT
        || forall i :: 0 <= i < PAGE_RECORD_COUNT ==> !k.pcbs[p].pages[i].used)
  }

  /** `process_destroy`; `junk` is what the uninitialised flags hold. */
  ghost function Destroy(k: Kernel, pid: nat, junk: seq<Flags>): (Kernel, bool)
    requires pid < PROCESS_COUNT_MAX ==> Destroyable(k, pid) && |junk| == PAGE_RECORD_COUNT
  {
    if pid >= PROCESS_COUNT_MAX then (k, false)
    else
      var pcb := k.pcbs[pid];
      var m := if 0 <= pcb.context.dir < DIRECTORY_COUNT
               then ReleaseRecords(k.mem, pcb.context.dir, pcb.pages, PAGE_RECORD_COUNT, junk) else k.mem;
      (k.(used := k.used[pid := false], pcbs := k.pcbs[pid := ZeroPcb()], mem := FreeDirectory(m, pcb.context.dir).0,
          active := if k.active == 0 then UINT32 - 1 else k.active - 1),
       true)
  }
}
