/** Page frames and page directories (src/paging.c), as values. */
module Paging {
  import opened Numbers

  const PAGE_ENTRY_COUNT: nat := 1024
  const PAGE_FRAME_SIZE: nat := 0x40_0000
  const PAGE_FRAME_MAX_COUNT: nat := 32
  const DIRECTORY_MAX_COUNT: nat := 32
  const KERNEL_ENTRY: nat := 0x300

  /** The kernel's own page directory, kept behind the 32 for processes; -1 is the null pointer. */
  const KERNEL_DIRECTORY: nat := 32
  const DIRECTORY_COUNT: nat := 33
  const NO_DIRECTORY: int := -1

  /** The low eight bits of a 4 MiB page directory entry. */
  datatype Flags = Flags(
    present: bool, write: bool, user: bool, writeThrough: bool,
    disableCache: bool, accessed: bool, dirty: bool, largePage: bool)

  const NO_FLAGS: Flags := Flags(false, false, false, false, false, false, false, false)
  const USER_FLAGS: Flags := Flags(true, true, true, false, false, false, false, true)
  const KERNEL_FLAGS: Flags := Flags(true, true, false, false, false, false, false, true)

  /** A page directory entry: its flags and bits 31:22 of the frame address. */
  datatype Pde = Pde(flags: Flags, lower: nat)

  const ZERO_PDE: Pde := Pde(NO_FLAGS, 0)

  /** The frame map, the free count, the page directories and which of them are taken. */
  datatype Memory = Memory(frames: seq<bool>, free: nat, dirs: seq<seq<Pde>>, dirUsed: seq<bool>)

  function PageIndex(addr: nat): (i: nat)
    ensures i < PAGE_ENTRY_COUNT
  {
    addr / PAGE_FRAME_SIZE % PAGE_ENTRY_COUNT
  }

  /** The index is bits 31:22 of a 32-bit address: the 4 MiB page the address lies in. */
  lemma PageIndexIs(addr: nat)
    ensures PageIndex(addr) * 0x40_0000 <= addr % 0x1_0000_0000 < (PageIndex(addr) + 1) * 0x40_0000
  {
  }

  predicate Shaped(m: Memory) {
    && |m.frames| == PAGE_FRAME_MAX_COUNT
    && |m.dirs| == DIRECTORY_COUNT && |m.dirUsed| == DIRECTORY_MAX_COUNT
    && (forall d :: 0 <= d < |m.dirs| ==> |m.dirs[d]| == PAGE_ENTRY_COUNT)
  }

  /** The frame that entry `i` of directory `d` names; 0, the kernel's own frame, if it names none. */
  function Frame(m: Memory, d: nat, i: nat): nat {
    if d < |m.dirs| && i < |m.dirs[d]| then m.dirs[d][i].lower else 0
  }

  function SetEntry(m: Memory, d: nat, i: nat, e: Pde): Memory
    requires Shaped(m) && d < DIRECTORY_COUNT && i < PAGE_ENTRY_COUNT
  {
    m.(dirs := m.dirs[d := m.dirs[d][i := e]])
  }

  // ---- Operations -----------------------------------------------------------------------------

  /** The first index at or after `i` that is false, or the length. */
  function FirstFalse(s: seq<bool>, i: nat): (r: nat)
    requires i <= |s|
    ensures i <= r <= |s|
    ensures r < |s| ==> !s[r]
    ensures forall j :: i <= j < r ==> s[j]
    decreases |s| - i
  {
    if i == |s| || !s[i] then i else FirstFalse(s, i + 1)
  }

  /** `paging_allocate_user_page_frame`; with no frame left it still reports success. */
  function Allocate(m: Memory, d: nat, addr: nat): (Memory, bool)
    requires Shaped(m) && d < DIRECTORY_COUNT
  {
    if m.free == 0 then (m, false)
    else
      var f := FirstFalse(m.frames, 1);
      if f == PAGE_FRAME_MAX_COUNT then (m, true)
      else
        var mapped := SetEntry(m, d, PageIndex(addr), Pde(USER_FLAGS, f));
        (mapped.(frames := m.frames[f := true], free := m.free - 1), true)
  }

  /** `paging_free_user_page_frame`; the flags it writes are uninitialised, so any `junk`. */
  function Release(m: Memory, d: nat, addr: nat, junk: Flags): (Memory, bool)
    requires Shaped(m) && d < DIRECTORY_COUNT && Frame(m, d, PageIndex(addr)) < PAGE_FRAME_MAX_COUNT
  {
    var f := Frame(m, d, PageIndex(addr));
    if m.frames[f] then
      (SetEntry(m, d, PageIndex(addr), Pde(junk, 0)).(frames := m.frames[f := false], free := m.free + 1), true)
    else (m, false)
  }

  function EmptyDirectory(): (s: seq<Pde>)
    ensures |s| == PAGE_ENTRY_COUNT
    ensures forall i :: 0 <= i < |s| ==> s[i] == ZERO_PDE
  {
    seq(PAGE_ENTRY_COUNT, _ => ZERO_PDE)
  }

  /** A directory with only the kernel's higher-half entry. */
  function NewDirectory(): (s: seq<Pde>)
    ensures |s| == PAGE_ENTRY_COUNT
    ensures forall i :: 0 <= i < |s| ==> s[i].lower == 0
  {
    EmptyDirectory()[KERNEL_ENTRY := Pde(KERNEL_FLAGS, 0)]
  }

  /** `paging_create_new_page_directory`: the first unused directory, or the null pointer. */
  function CreateDirectory(m: Memory): (Memory, int)
    requires Shaped(m)
  {
    var d := FirstFalse(m.dirUsed, 0);
    if d == DIRECTORY_MAX_COUNT then (m, NO_DIRECTORY)
    else (m.(dirUsed := m.dirUsed[d := true], dirs := m.dirs[d := NewDirectory()]), d)
  }

  /** `paging_free_page_directory`: only a directory from the list is freed. */
  function FreeDirectory(m: Memory, d: int): (Memory, bool)
    requires Shaped(m)
  {
    if 0 <= d < DIRECTORY_MAX_COUNT
    then (m.(dirUsed := m.dirUsed[d := false], dirs := m.dirs[d := EmptyDirectory()]), true)
    else (m, false)
  }

  // ---- The frame invariant --------------------------------------------------------------------

  function Unmarked(frames: seq<bool>): set<nat> {
    set f | 0 <= f < |frames| && !frames[f]
  }

  /**
   * Frame isolation: every entry that names a frame other than 0 names a marked one, and no two
   * entries of any page directories name the same; frame 0 is never marked; the free count is right.
   */
  ghost predicate Isolated(m: Memory) {
    && Shaped(m)
    && !m.frames[0]
    && m.free == |Unmarked(m.frames)|
    && (forall d, i :: Frame(m, d, i) < PAGE_FRAME_MAX_COUNT && (Frame(m, d, i) != 0 ==> m.frames[Frame(m, d, i)]))
    && (forall d, i, e, j :: Frame(m, d, i) == Frame(m, e, j) != 0 ==> d == e && i == j)
  }

  /** Every marked frame is still named by some entry. */
  ghost predicate NoOrphans(m: Memory) {
    forall f :: 0 <= f < |m.frames| && m.frames[f] ==> exists d, i :: Frame(m, d, i) == f
  }

  lemma SetEntryFrames(m: Memory, d: nat, i: nat, e: Pde)
    requires Shaped(m) && d < DIRECTORY_COUNT && i < PAGE_ENTRY_COUNT
    ensures Shaped(SetEntry(m, d, i, e))
    ensures forall x, y :: Frame(SetEntry(m, d, i, e), x, y) == if x == d && y == i then e.lower else Frame(m, x, y)
  {
  }

  lemma MarkCount(frames: seq<bool>, f: nat)
    requires f < |frames|
    ensures !frames[f] ==> |Unmarked(frames[f := true])| + 1 == |Unmarked(frames)|
    ensures frames[f] ==> |Unmarked(frames[f := false])| == |Unmarked(frames)| + 1
  {
    if frames[f] {
      assert Unmarked(frames[f := false]) == Unmarked(frames) + {f};
    } else {
      assert Unmarked(frames) == Unmarked(frames[f := true]) + {f};
    }
  }

  /** Frame 0 alone is unmarked exactly when one frame counts as free. */
  lemma Exhausted(m: Memory)
    requires Isolated(m)
    ensures m.free >= 1
    ensures FirstFalse(m.frames, 1) == PAGE_FRAME_MAX_COUNT <==> m.free == 1
  {
    var free := Unmarked(m.frames);
    assert 0 in free;
    if FirstFalse(m.frames, 1) == PAGE_FRAME_MAX_COUNT {
      assert free == {0};
    } else {
      assert {0, FirstFalse(m.frames, 1)} <= free;
      SubsetCard({0, FirstFalse(m.frames, 1)}, free);
    }
  }

  /**
   * Allocation keeps isolation and always reports success; it maps a frame, one that was unmarked
   * before, exactly if some frame other than 0 was left, and otherwise changes nothing.
   */
  lemma AllocateIsolated(m: Memory, d: nat, addr: nat)
    requires Isolated(m) && d < DIRECTORY_COUNT
    ensures Isolated(Allocate(m, d, addr).0) && Allocate(m, d, addr).1
    ensures m.free == 1 ==> Allocate(m, d, addr).0 == m
    ensures m.free >= 2 ==>
      var f, n := FirstFalse(m.frames, 1), Allocate(m, d, addr).0;
      && 1 <= f < PAGE_FRAME_MAX_COUNT && !m.frames[f] && n.frames == m.frames[f := true] && n.free == m.free - 1
      && n.dirUsed == m.dirUsed
      && (forall x, y :: Frame(n, x, y) == if x == d && y == PageIndex(addr) then f else Frame(m, x, y))
  {
    Exhausted(m);
    if m.free >= 2 {
      var f := FirstFalse(m.frames, 1);
      SetEntryFrames(m, d, PageIndex(addr), Pde(USER_FLAGS, f));
      MarkCount(m.frames, f);
      var s, n := SetEntry(m, d, PageIndex(addr), Pde(USER_FLAGS, f)), Allocate(m, d, addr).0;
      assert forall x, y :: Frame(n, x, y) == Frame(s, x, y);
    }
  }

  /** An allocation orphans a frame exactly if it maps over an entry that already named one. */
  lemma AllocateOrphans(m: Memory, d: nat, addr: nat)
    requires Isolated(m) && NoOrphans(m) && d < DIRECTORY_COUNT
    ensures NoOrphans(Allocate(m, d, addr).0) <==> m.free == 1 || Frame(m, d, PageIndex(addr)) == 0
  {
    AllocateIsolated(m, d, addr);
    Exhausted(m);
    if m.free >= 2 {
      var n, g, added := Allocate(m, d, addr).0, Frame(m, d, PageIndex(addr)), FirstFalse(m.frames, 1);
      if g == 0 {
        forall f | 0 <= f < |n.frames| && n.frames[f]
          ensures exists x, y :: Frame(n, x, y) == f
        {
          if f == added {
            assert Frame(n, d, PageIndex(addr)) == f;
          } else {
            var x, y :| Frame(m, x, y) == f;
            assert Frame(n, x, y) == f;
          }
        }
      } else {
        assert n.frames[g];
        assert forall x, y :: Frame(n, x, y) == g ==> Frame(m, x, y) == g;
      }
    }
  }

  /** Freeing reports success exactly if the entry named a frame, and otherwise changes nothing. */
  lemma ReleaseIsolated(m: Memory, d: nat, addr: nat, junk: Flags)
    requires Isolated(m) && d < DIRECTORY_COUNT
    ensures Frame(m, d, PageIndex(addr)) < PAGE_FRAME_MAX_COUNT
    ensures Isolated(Release(m, d, addr, junk).0)
    ensures Release(m, d, addr, junk).1 <==> Frame(m, d, PageIndex(addr)) != 0
    ensures Frame(m, d, PageIndex(addr)) == 0 ==> Release(m, d, addr, junk).0 == m
    ensures Frame(m, d, PageIndex(addr)) != 0 ==>
      var f, n := Frame(m, d, PageIndex(addr)), Release(m, d, addr, junk).0;
      && m.frames[f] && n.frames == m.frames[f := false] && n.free == m.free + 1 && n.dirUsed == m.dirUsed
      && (forall x, y :: Frame(n, x, y) == if x == d && y == PageIndex(addr) then 0 else Frame(m, x, y))
  {
    var f := Frame(m, d, PageIndex(addr));
    if f != 0 {
      SetEntryFrames(m, d, PageIndex(addr), Pde(junk, 0));
      MarkCount(m.frames, f);
      var s, n := SetEntry(m, d, PageIndex(addr), Pde(junk, 0)), Release(m, d, addr, junk).0;
      assert forall x, y :: Frame(n, x, y) == Frame(s, x, y);
    }
  }

  lemma ReleaseOrphans(m: Memory, d: nat, addr: nat, junk: Flags)
    requires Isolated(m) && NoOrphans(m) && d < DIRECTORY_COUNT
    ensures Frame(m, d, PageIndex(addr)) < PAGE_FRAME_MAX_COUNT && NoOrphans(Release(m, d, addr, junk).0)
  {
    ReleaseIsolated(m, d, addr, junk);
    var n := Release(m, d, addr, junk).0;
    if Frame(m, d, PageIndex(addr)) != 0 {
      forall f | 0 <= f < |n.frames| && n.frames[f]
        ensures exists x, y :: Frame(n, x, y) == f
      {
        var x, y :| Frame(m, x, y) == f;
        assert Frame(n, x, y) == f;
      }
    }
  }

  /** No entry of directory `d` names a frame. */
  ghost predicate Blank(m: Memory, d: nat) {
    forall i :: Frame(m, d, i) == 0
  }

  lemma ReplaceBlank(m: Memory, d: nat, table: seq<Pde>, used: bool)
    requires Isolated(m) && d < DIRECTORY_MAX_COUNT && Blank(m, d)
    requires |table| == PAGE_ENTRY_COUNT && forall i :: 0 <= i < |table| ==> table[i].lower == 0
    ensures var n := m.(dirUsed := m.dirUsed[d := used], dirs := m.dirs[d := table]);
            && Isolated(n) && Blank(n, d) && (NoOrphans(m) ==> NoOrphans(n))
            && (forall x, y :: Frame(n, x, y) == Frame(m, x, y))
  {
    var n := m.(dirUsed := m.dirUsed[d := used], dirs := m.dirs[d := table]);
    forall x, y ensures Frame(n, x, y) == Frame(m, x, y) {
      assert x == d ==> Frame(m, d, y) == 0;
    }
    if NoOrphans(m) {
      forall f | 0 <= f < |n.frames| && n.frames[f]
        ensures exists x, y :: Frame(n, x, y) == f
      {
        var x, y :| Frame(m, x, y) == f;
        assert Frame(n, x, y) == f;
      }
    }
  }
}
