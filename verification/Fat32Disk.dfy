/** Sequences of cluster writes, and which of them cannot hurt a healthy volume. */
module Fat32Disk {
  import opened Fat32Types
  import opened Fat32Layout
  import opened Fat32Frame

  predicate InRange(disk: seq<Cluster>, ws: seq<DiskWrite>) {
    forall i :: 0 <= i < |ws| ==> ws[i].cluster < |disk|
  }

  /** The disk after the first `n` of the given cluster writes. */
  function ApplyFirst(disk: seq<Cluster>, ws: seq<DiskWrite>, n: nat): (r: seq<Cluster>)
    requires InRange(disk, ws) && n <= |ws|
    ensures |r| == |disk|
  {
    if n == 0 then disk else ApplyFirst(disk, ws, n - 1)[ws[n - 1].cluster := ws[n - 1].content]
  }

  /** The disk after the given cluster writes, in order. */
  function Apply(disk: seq<Cluster>, ws: seq<DiskWrite>): (r: seq<Cluster>)
    requires InRange(disk, ws)
    ensures |r| == |disk|
  {
    ApplyFirst(disk, ws, |ws|)
  }

  /** Only the writes up to `n` matter for the first `n`. */
  lemma {:induction false} ApplyPrefix(disk: seq<Cluster>, a: seq<DiskWrite>, b: seq<DiskWrite>, n: nat)
    requires InRange(disk, a) && InRange(disk, b) && n <= |a| && n <= |b|
    requires forall i :: 0 <= i < n ==> a[i] == b[i]
    ensures ApplyFirst(disk, a, n) == ApplyFirst(disk, b, n)
  {
    if n > 0 {
      ApplyPrefix(disk, a, b, n - 1);
    }
  }

  lemma ApplyOne(disk: seq<Cluster>, ws: seq<DiskWrite>, w: DiskWrite)
    requires InRange(disk, ws) && w.cluster < |disk|
    ensures InRange(disk, ws + [w]) && Apply(disk, ws + [w]) == Apply(disk, ws)[w.cluster := w.content]
  {
    ApplyPrefix(disk, ws, ws + [w], |ws|);
  }

  lemma ApplyLast(disk: seq<Cluster>, ws: seq<DiskWrite>)
    requires InRange(disk, ws) && ws != []
    ensures InRange(disk, ws[..|ws| - 1])
    ensures Apply(disk, ws) == Apply(disk, ws[..|ws| - 1])[ws[|ws| - 1].cluster := ws[|ws| - 1].content]
  {
    ApplyPrefix(disk, ws, ws[..|ws| - 1], |ws| - 1);
  }

  lemma {:induction false} ApplyConcat(disk: seq<Cluster>, a: seq<DiskWrite>, b: seq<DiskWrite>)
    requires InRange(disk, a) && InRange(disk, b)
    ensures InRange(disk, a + b) && Apply(disk, a + b) == Apply(Apply(disk, a), b)
  {
    if b == [] {
      assert a + b == a;
    } else {
      var k := |b| - 1;
      ApplyConcat(disk, a, b[..k]);
      assert a + b == (a + b[..k]) + [b[k]];
      ApplyOne(disk, a + b[..k], b[k]);
      ApplyLast(Apply(disk, a), b);
    }
  }

  /** A cluster no write names keeps its content. */
  lemma ApplyElsewhere(disk: seq<Cluster>, ws: seq<DiskWrite>, c: nat)
    requires InRange(disk, ws) && c < |disk|
    requires forall i :: 0 <= i < |ws| ==> ws[i].cluster != c
    ensures Apply(disk, ws)[c] == disk[c]
  {
    ApplyFirstElsewhere(disk, ws, |ws|, c);
  }

  lemma {:induction false} ApplyFirstElsewhere(disk: seq<Cluster>, ws: seq<DiskWrite>, n: nat, c: nat)
    requires InRange(disk, ws) && n <= |ws| && c < |disk|
    requires forall i :: 0 <= i < n ==> ws[i].cluster != c
    ensures ApplyFirst(disk, ws, n)[c] == disk[c]
  {
    if n > 0 {
      ApplyFirstElsewhere(disk, ws, n - 1, c);
    }
  }

  /** `initialize_filesystem_fat32` on a signed disk: load the table from cluster 1. */
  function Mount(disk: seq<Cluster>): Volume
    requires |disk| > FAT_CLUSTER && disk[FAT_CLUSTER].FatMap?
  {
    Volume(disk[FAT_CLUSTER].next, disk)
  }

  // ---- Writes that touch nothing owned --------------------------------------------------------

  /** A table that agrees with `v` on the reserved clusters and on everything owned. */
  ghost predicate SafeTable(v: Volume, L: Layout, fat: seq<nat>) {
    && |fat| == |v.fat| == CLUSTER_MAP_SIZE
    && fat[0] == v.fat[0] && fat[1] == v.fat[1] && fat[2] == v.fat[2]
    && (forall c :: c in L.owner && c < |v.fat| ==> fat[c] == v.fat[c])
  }

  /** The write replaces the table by a safe one, or fills a cluster that nobody owns. */
  ghost predicate SafeWrite(v: Volume, L: Layout, w: DiskWrite) {
    if w.cluster == FAT_CLUSTER then w.content.FatMap? && SafeTable(v, L, w.content.next)
    else 3 <= w.cluster < |v.disk| && w.cluster !in L.owner
  }

  ghost predicate SafeWrites(v: Volume, L: Layout, ws: seq<DiskWrite>) {
    forall i :: 0 <= i < |ws| ==> SafeWrite(v, L, ws[i])
  }

  ghost predicate Agrees(v: Volume, L: Layout, disk: seq<Cluster>) {
    && |disk| == |v.disk| >= CLUSTER_MAP_SIZE
    && disk[BOOT_CLUSTER] == v.disk[BOOT_CLUSTER]
    && disk[ROOT_CLUSTER] == v.disk[ROOT_CLUSTER]
    && disk[FAT_CLUSTER].FatMap? && SafeTable(v, L, disk[FAT_CLUSTER].next)
    && (forall c :: c in L.owner && c < |disk| ==> disk[c] == v.disk[c])
  }

  /** Nobody owns a reserved cluster, and owned clusters lie on the disk. */
  lemma OwnedRange(v: Volume, L: Layout, c: nat)
    requires Inv(v, L) && c in L.owner
    ensures 3 <= c < CLUSTER_MAP_SIZE && v.fat[c] != EMPTY_ENTRY
  {
    assert SlotOk(v, L, L.owner[c]);
    var chain := L.chains[L.owner[c]];
    var i :| 0 <= i < |chain| && chain[i] == c;
    assert v.fat[chain[i]] == Next(chain, i);
  }

  lemma {:induction false} SafeAgrees(v: Volume, L: Layout, ws: seq<DiskWrite>)
    requires Inv(v, L) && SafeWrites(v, L, ws)
    ensures InRange(v.disk, ws) && Agrees(v, L, Apply(v.disk, ws))
  {
    forall c | c in L.owner ensures 3 <= c { OwnedRange(v, L, c); }
    if ws != [] {
      var k := |ws| - 1;
      SafeAgrees(v, L, ws[..k]);
      assert SafeWrite(v, L, ws[k]);
      ApplyLast(v.disk, ws);
    }
  }

  /** Safe writes, cut off anywhere, leave on disk a healthy volume with the same file tree. */
  lemma SafeMount(v: Volume, L: Layout, ws: seq<DiskWrite>)
    requires Inv(v, L) && SafeWrites(v, L, ws)
    ensures InRange(v.disk, ws) && Apply(v.disk, ws)[FAT_CLUSTER].FatMap?
    ensures Inv(Mount(Apply(v.disk, ws)), L)
    ensures TreeOf(Mount(Apply(v.disk, ws)), L) == TreeOf(v, L)
  {
    SafeAgrees(v, L, ws);
    var w := Mount(Apply(v.disk, ws));
    DirsOwned(v, L);
    forall c | c in L.owner ensures SameAt(v, w, c) { OwnedRange(v, L, c); }
    forall d | d in L.depth ensures SameAt(v, w, d) {}
    Frame(v, w, L);
  }
}
