/** Constants and records of the file system driver (src/header/filesystem/fat32.h). */
module Fat32Types {
  import opened Numbers

  const CLUSTER_SIZE: nat := 2048
  const CLUSTER_MAP_SIZE: nat := 512
  const TABLE_SIZE: nat := 64
  const ENTRY_SIZE: nat := 32

  const CLUSTER_0_VALUE: nat := 0x0FFFFFF0
  const END_OF_FILE: nat := 0x0FFFFFFF
  const EMPTY_ENTRY: nat := 0

  const BOOT_CLUSTER: nat := 0
  const FAT_CLUSTER: nat := 1
  const ROOT_CLUSTER: nat := 2

  const ATTR_SUBDIRECTORY: nat := 0x10
  const UATTR_NOT_EMPTY: nat := 0xAA

  const NUL: char := '\0'

  newtype byte = x: int | 0 <= x < 256

  /** The bytes of one data cluster. */
  type Block = b: seq<byte> | |b| == CLUSTER_SIZE witness seq(CLUSTER_SIZE, _ => 0)

  function ZeroBlock(): Block { seq(CLUSTER_SIZE, _ => 0) }

  /** `char name[8]` and `char ext[3]`. */
  type Name = s: string | |s| == 8 witness seq(8, _ => NUL)
  type Ext = s: string | |s| == 3 witness seq(3, _ => NUL)

  const ZERO_NAME: Name := [NUL, NUL, NUL, NUL, NUL, NUL, NUL, NUL]
  const ZERO_EXT: Ext := [NUL, NUL, NUL]
  const ROOT_NAME: Name := ['r', 'o', 'o', 't', NUL, NUL, NUL, NUL]

  datatype Key = Key(name: Name, ext: Ext)

  const ZERO_KEY: Key := Key(ZERO_NAME, ZERO_EXT)

  /**
   * A directory entry. Its `cluster` is the number the driver keeps over the two 16-bit fields
   * `cluster_high` and `cluster_low`; the unused time fields, always left zero, are omitted.
   */
  datatype DirEntry = DirEntry(key: Key, attribute: nat, userAttribute: nat, cluster: nat, filesize: nat)
  {
    predicate Live() { userAttribute == UATTR_NOT_EMPTY }

    predicate IsDirectory() { attribute == ATTR_SUBDIRECTORY }
  }

  const ZERO_ENTRY: DirEntry := DirEntry(ZERO_KEY, 0, 0, 0, 0)

  /** What a cluster holds, as the driver last wrote it. */
  datatype Cluster =
    | Boot(signed: bool)
    | FatMap(next: seq<nat>)
    | Table(entries: seq<DirEntry>)
    | Data(bytes: Block)

  /** One atomic `write_clusters` of one cluster. */
  datatype DiskWrite = DiskWrite(cluster: nat, content: Cluster)

  /** The driver's memory: the cached allocation table, and the disk behind it. */
  datatype Volume = Volume(fat: seq<nat>, disk: seq<Cluster>)

  /** A driver request; `buf` is the caller's buffer cut into whole clusters. */
  datatype Request = Request(parent: nat, key: Key, size: nat, buf: seq<Block>)

  // ---- C strings -----------------------------------------------------------------------------

  /** The characters before the first NUL. */
  function CString(s: string): (r: string)
    ensures |r| <= |s| && r == s[..|r|]
    ensures NUL !in r
    ensures |r| < |s| ==> s[|r|] == NUL
  {
    if s == [] || s[0] == NUL then [] else [s[0]] + CString(s[1..])
  }

  /** The eight-byte name holding a C string, zero-padded. */
  function PadName(s: string): Name
    requires |s| <= 8
  {
    s + seq(8 - |s|, _ => NUL)
  }

  /** What `init_directory_table` stores in slot 0 for a requested name. */
  function StoredName(name: Name): Name { PadName(CString(name)) }

  // ---- Sizes in clusters ---------------------------------------------------------------------

  /** `ceil(size / (float) CLUSTER_SIZE)`, whose result is a `uint8_t`. */
  function ClusterCount(size: nat): nat { CeilDiv(Binary32(size), CLUSTER_SIZE) % 256 }

  /** The eight-bit count is the true number of clusters exactly for sizes of at most 255 clusters. */
  lemma ClusterCountExact(size: nat)
    ensures ClusterCount(size) == CeilDiv(size, 2048) <==> size <= 255 * 2048
  {
    if size <= 255 * CLUSTER_SIZE {
      assert Binary32(size) == size;
    } else {
      assert CeilDiv(size, CLUSTER_SIZE) >= 256;
    }
  }

  /** A file of 257 clusters is taken for one of a single cluster. */
  lemma LongFileWraps()
    ensures ClusterCount(257 * 2048) == 1 && CeilDiv(257 * 2048, 2048) == 257
  {
    assert Binary32(257 * CLUSTER_SIZE) == 257 * CLUSTER_SIZE;
  }
}
