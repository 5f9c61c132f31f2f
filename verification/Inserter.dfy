/** The host-side inserter (src/user-program/external-inserter.c): a byte image as disk, and delete-then-write. */
module ImageDisk {
  import opened Fat32Types

  const BLOCK_SIZE: nat := 512
  const CLUSTER_BLOCK_COUNT: nat := 4

  function ClusterToLba(cluster: nat): nat { CLUSTER_BLOCK_COUNT * cluster }

  /** `now` is `whole` with the `n` bytes of `src` from `start` on copied over it from index `from` on. */
  ghost predicate IsCopy(now: seq<byte>, whole: seq<byte>, from: nat, src: seq<byte>, start: nat, n: nat) {
    && |now| == |whole| && from + n <= |whole| && start + n <= |src|
    && (forall k :: 0 <= k < |whole| ==> now[k] == if from <= k < from + n then src[start + (k - from)] else whole[k])
  }

  /** `memcpy` of `n` more bytes between distinct arrays, `done` bytes of the whole copy being in place. */
  method CopyBytes(
    dest: array<byte>, from: nat, src: array<byte>, start: nat, done: nat, n: nat, ghost whole: seq<byte>)
    requires dest != src && from + done + n <= dest.Length && start + done + n <= src.Length
    requires IsCopy(dest[..], whole, from, src[..], start, done)
    modifies dest
    ensures IsCopy(dest[..], whole, from, src[..], start, done + n)
  {
    for i := done to done + n
      invariant IsCopy(dest[..], whole, from, src[..], start, i)
    {
      dest[from + i] := src[start + i];
    }
  }

  /** The block loop that `read_blocks` and `write_blocks` share. */
  method CopyBlocks(dest: array<byte>, from: nat, src: array<byte>, start: nat, count: nat)
    requires dest != src && from + BLOCK_SIZE * count <= dest.Length && start + BLOCK_SIZE * count <= src.Length
    modifies dest
    ensures IsCopy(dest[..], old(dest[..]), from, src[..], start, BLOCK_SIZE * count)
  {
    ghost var whole := dest[..];
    for i := 0 to count
      invariant IsCopy(dest[..], whole, from, src[..], start, BLOCK_SIZE * i)
    {
      CopyBytes(dest, from, src, start, BLOCK_SIZE * i, BLOCK_SIZE, whole);
    }
  }

  /** `read_blocks`. */
  method ReadBlocks(image: array<byte>, ptr: array<byte>, lba: nat, count: nat)
    requires image != ptr && 512 * (lba + count) <= image.Length && 512 * count <= ptr.Length
    modifies ptr
    ensures forall k :: 0 <= k < 512 * count ==> ptr[k] == image[512 * lba + k]
    ensures forall k :: 512 * count <= k < ptr.Length ==> ptr[k] == old(ptr[k])
  {
    ghost var before := ptr[..];
    CopyBlocks(ptr, 0, image, BLOCK_SIZE * lba, count);
    ReadIs(ptr[..], before, image[..], lba, count);
  }

  lemma ReadIs(now: seq<byte>, before: seq<byte>, image: seq<byte>, lba: nat, count: nat)
    requires IsCopy(now, before, 0, image, BLOCK_SIZE * lba, BLOCK_SIZE * count)
    ensures forall k :: 0 <= k < 512 * count ==> now[k] == image[512 * lba + k]
    ensures forall k :: 512 * count <= k < |now| ==> now[k] == before[k]
  {
  }

  /** `write_blocks`. */
  method WriteBlocks(image: array<byte>, ptr: array<byte>, lba: nat, count: nat)
    requires image != ptr && 512 * (lba + count) <= image.Length && 512 * count <= ptr.Length
    modifies image
    ensures forall k :: 0 <= k < 512 * count ==> image[512 * lba + k] == ptr[k]
    ensures forall k :: 0 <= k < image.Length && !(512 * lba <= k < 512 * (lba + count)) ==> image[k] == old(image[k])
  {
    ghost var before := image[..];
    CopyBlocks(image, BLOCK_SIZE * lba, ptr, 0, count);
    WriteIs(image[..], before, ptr[..], lba, count);
  }

  lemma WriteIs(now: seq<byte>, before: seq<byte>, src: seq<byte>, lba: nat, count: nat)
    requires IsCopy(now, before, BLOCK_SIZE * lba, src, 0, BLOCK_SIZE * count)
    ensures 512 * (lba + count) <= |now| && forall k :: 0 <= k < 512 * count ==> now[512 * lba + k] == src[k]
    ensures forall k :: 0 <= k < |now| && !(512 * lba <= k < 512 * (lba + count)) ==> now[k] == before[k]
  {
    forall k | 0 <= k < 512 * count ensures now[512 * lba + k] == src[k] {
      var x := 512 * lba + k;
      assert now[x] == src[0 + (x - BLOCK_SIZE * lba)];
    }
  }

  /** The bytes of one cluster of an image. */
  function ClusterBytes(image: seq<byte>, c: nat): seq<byte>
    requires 2048 * (c + 1) <= |image|
  {
    image[2048 * c..2048 * (c + 1)]
  }

  /** `write_clusters` of one cluster. */
  method WriteCluster(image: array<byte>, ptr: array<byte>, c: nat)
    requires image != ptr && 2048 * (c + 1) <= image.Length && 2048 <= ptr.Length
    modifies image
    ensures ClusterBytes(image[..], c) == ptr[..2048]
    ensures forall d: nat :: d != c && 2048 * (d + 1) <= image.Length ==>
              ClusterBytes(image[..], d) == ClusterBytes(old(image[..]), d)
  {
    WriteBlocks(image, ptr, ClusterToLba(c), 1 * CLUSTER_BLOCK_COUNT);
  }

  /** `read_clusters` of one cluster. */
  method ReadCluster(image: array<byte>, ptr: array<byte>, c: nat)
    requires image != ptr && 2048 * (c + 1) <= image.Length && 2048 <= ptr.Length
    modifies ptr
    ensures ptr[..2048] == ClusterBytes(image[..], c) && ptr[2048..] == old(ptr[2048..])
  {
    ReadBlocks(image, ptr, ClusterToLba(c), 1 * CLUSTER_BLOCK_COUNT);
  }

  /**
   * The image is an array of clusters: what is read from a cluster is what was last written there,
   * writes to other clusters in between notwithstanding.
   */
  method WriteThenRead(image: array<byte>, first: array<byte>, c: nat, second: array<byte>, d: nat, ptr: array<byte>)
    requires image != first && image != second && image != ptr && ptr != first && ptr != second
    requires 2048 * (c + 1) <= image.Length && 2048 * (d + 1) <= image.Length
    requires first.Length >= 2048 && second.Length >= 2048 && ptr.Length >= 2048
    modifies image, ptr
    ensures ptr[..2048] == if d == c then second[..2048] else first[..2048]
  {
    WriteCluster(image, first, c);
    WriteCluster(image, second, d);
    ReadCluster(image, ptr, c);
  }
}

module Inserter {
  import opened Fat32Types
  import opened Fat32Layout
  import opened Fat32Write
  import opened Fat32Delete
  import opened Fat32Runs
  import opened Fat32Laws
  import opened Fat32Driver

  /** From `st` to `u` a `delete` of the run model has finished after `n` cluster writes. */
  ghost predicate DeleteDone(st: State, parent: nat, key: Key, n: nat, u: State) {
    && Healthy(st) && DeleteLegal(st.volume, st.layout, parent, key)
    && Finished(st, Event.Delete(parent, key, n)) && u == Step(st, Event.Delete(parent, key, n))
  }

  /** From `u` to `w` a `write` of the run model has finished after `m` cluster writes, with the given code. */
  ghost predicate WriteDone(u: State, req: Request, m: nat, w: State, code: int) {
    && Healthy(u) && WriteLegal(u.volume, u.layout, req)
    && Finished(u, Event.Write(req, m)) && w == Step(u, Event.Write(req, m))
    && (Goes(u, Event.Write(req, m)) <==> code == 0)
  }

  /** A finished `delete` of the driver is the step of the run model in which all its writes get through. */
  lemma DeleteIsStep(st: State, parent: nat, key: Key, code: int, u: State, ws: seq<DiskWrite>)
    requires DeleteLegal(st.volume, st.layout, parent, key)
    requires DeleteResult(st.volume, st.layout, parent, key, code, u.volume, u.layout, ws)
    ensures DeleteDone(st, parent, key, |ws|, u)
  {
    GoesMeaning(st, Event.Delete(parent, key, |ws|));
    NothingWritten(st.volume);
  }

  /** A finished `write` of the driver is the step of the run model in which all its writes get through. */
  lemma WriteIsStep(u: State, req: Request, code: int, w: State, ws: seq<DiskWrite>)
    requires WriteLegal(u.volume, u.layout, req)
    requires WriteResult(u.volume, u.layout, req, code, w.volume, w.layout, ws)
    ensures WriteDone(u, req, |ws|, w, code)
  {
    GoesMeaning(u, Event.Write(req, |ws|));
    NothingWritten(u.volume);
  }

  /** The outcome of an insertion: when it succeeds, and the file tree it then and otherwise leaves. */
  ghost predicate InsertResult(st: State, req: Request, code: int, w: State, head: nat) {
    && Healthy(st) && Healthy(w)
    && (code == 0 <==>
          InsertFits(Files(st), |EmptyClusters(st.volume.fat)| + HandedBack(st, req.parent, req.key), req))
    && (code == 0 ==> Inserted(Files(st), req, Files(w), head))
    && (code != 0 ==> DeletedFrom(Files(st), Files(w), req.parent, req.key))
  }

  /** `u` is `t` with the requested key replaced. */
  ghost predicate Inserted(t: Tree, req: Request, u: Tree, head: nat) {
    && req.parent in t && req.parent in WithoutOldDirectory(t, req.parent, req.key)
    && (req.size > 0 ==> ClusterCount(req.size) <= |req.buf|)
    && u == WrittenTree(WithoutOldDirectory(t, req.parent, req.key), req, head)
  }

  /** What an insertion relies on. */
  ghost predicate Insertable(v: Volume, L: Layout, req: Request) {
    WriteLegal(v, L, req) && DeleteLegal(v, L, req.parent, req.key)
  }

  /** The two finished steps of an insertion, and the code of the second. */
  ghost predicate InsertSteps(st: State, req: Request, u: State, n: nat, w: State, m: nat, code: int) {
    && Insertable(st.volume, st.layout, req)
    && DeleteDone(st, req.parent, req.key, n, u) && WriteDone(u, req, m, w, code)
  }

  lemma InsertFails(st: State, req: Request, u: State, n: nat, w: State, m: nat, code: int)
    requires InsertSteps(st, req, u, n, w, m, code) && code != 0
    ensures InsertResult(st, req, code, w, 0)
  {
    UpsertGoes(st, req, n, m);
    FinishedDeleteTree(st, req.parent, req.key, n);
    NothingWritten(u.volume);
  }

  lemma InsertSucceeds(st: State, req: Request, u: State, n: nat, w: State, m: nat)
    requires InsertSteps(st, req, u, n, w, m, 0)
    ensures TraceOk(u.volume, req)
    ensures InsertResult(st, req, 0, w, Taken(u.volume, req)[0])
  {
    UpsertGoes(st, req, n, m);
    Upsert(st, req, n, m);
  }

  /** After the `delete` of an insertion its `write` is still legal. */
  lemma InsertHalfway(st: State, req: Request, n: nat, u: State)
    requires Insertable(st.volume, st.layout, req) && DeleteDone(st, req.parent, req.key, n, u)
    ensures WriteLegal(u.volume, u.layout, req)
  {
    LegalAfterDelete(st, req, n);
  }

  /** The first cluster a successful insertion takes. */
  ghost function HeadOf(u: State, req: Request, code: int): nat {
    if code == 0 && Taken(u.volume, req) != [] then Taken(u.volume, req)[0] else 0
  }

  lemma InsertDone(st: State, req: Request, u: State, n: nat, w: State, m: nat, code: int)
    requires InsertSteps(st, req, u, n, w, m, code)
    ensures InsertResult(st, req, code, w, HeadOf(u, req, code))
  {
    if code == 0 {
      InsertSucceeds(st, req, u, n, w, m);
    } else {
      InsertFails(st, req, u, n, w, m, code);
    }
  }

  /**
   * The file system part of the inserter: `delete` whatever the key names, then `write`. A `write`
   * that fails after a successful `delete` leaves the key gone.
   */
  method Insert(driver: Driver, req: Request) returns (code: int, ghost head: nat)
    requires driver.Valid() && Insertable(driver.Vol(), driver.layout, req)
    modifies driver.clusterMap, driver.disk, driver`layout, driver`log
    ensures driver.Valid()
    ensures InsertResult(State(old(driver.Vol()), old(driver.layout)), req, code,
                         State(driver.Vol(), driver.layout), head)
  {
    ghost var st := State(driver.Vol(), driver.layout);
    ghost var ws, xs;
    var first;
    first, ws := driver.Delete(req.parent, req.key);
    ghost var u := State(driver.Vol(), driver.layout);
    DeleteIsStep(st, req.parent, req.key, first, u, ws);
    InsertHalfway(st, req, |ws|, u);
    code, xs := driver.Write(req);
    ghost var w := State(driver.Vol(), driver.layout);
    WriteIsStep(u, req, code, w, xs);
    head := HeadOf(u, req, code);
    InsertDone(st, req, u, |ws|, w, |xs|, code);
  }
}
