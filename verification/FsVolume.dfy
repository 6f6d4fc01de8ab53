/** The volume: where superblock, inode records and data blocks lie on the drive, and how a file's blocks are
    allocated and written. */
module FsVolume {

  import opened FsCodec
  import opened Wrappers

  const ROOT_SELF: nat := UINT64 - 1

  // ---------- Geometry ----------

  datatype Geometry = Geometry(totalBlocks: nat, inodesStart: nat, totalInodes: nat, dataStart: nat, totalData: nat)

  /** The layout of a new image of the given size; sizes below the overhead wrap around. */
  function Format(size: nat): Option<Geometry>
    requires size < UINT64
  {
    var totalBlocks := (size + UINT64 - 80) % UINT64 / 256;
    var totalInodes := totalBlocks / 30;
    if totalInodes < 10 then None
    else Some(Geometry(totalBlocks, 336, totalInodes, 336 + totalInodes * 256, totalBlocks - totalInodes))
  }

  /** Where write_inode puts the record of an inode: the address wraps around. */
  function RecordAddress(self: nat): nat {
    (336 + self * 256) % UINT64
  }

  /** Where data block b lies on a volume with n inodes. */
  function Address(n: nat, b: nat): nat {
    336 + (n + b) * 256
  }

  lemma RootRecord()
    ensures RecordAddress(ROOT_SELF) == 80
  {
    assert 336 + ROOT_SELF * 256 == 80 + 256 * UINT64;
  }

  lemma InodeRecord(i: nat)
    requires i * 256 + 336 < UINT64
    ensures RecordAddress(i) == 336 + i * 256
  {
  }

  /** The superblock, the root record, the other records and the data blocks follow each other without
      overlap: the root's index -1 wraps around to the start of the reserved block. The data area ends past
      the image, by at most the reserved block. */
  lemma FormatIsDisjoint(size: nat)
    requires 80 <= size < 0x1000_0000_0000_0000 && Format(size).Some?
    ensures var g := Format(size).value;
            && 70 <= RecordAddress(ROOT_SELF) == 80 && RecordAddress(ROOT_SELF) + 121 <= g.inodesStart
            && (forall i: nat :: 0 < i < g.totalInodes ==>
                  RecordAddress(i) == 336 + i * 256 && RecordAddress(i) + 121 <= Address(g.totalInodes, 0))
            && g.dataStart == Address(g.totalInodes, 0)
            && size < Address(g.totalInodes, g.totalData) <= size + 256
  {
    var totalBlocks := (size - 80) / 256;
    assert (size + UINT64 - 80) % UINT64 == size - 80;
    assert totalBlocks * 256 <= size - 80 < totalBlocks * 256 + 256;
    RootRecord();
    forall i: nat | 0 < i < Format(size).value.totalInodes ensures RecordAddress(i) == 336 + i * 256 {
      InodeRecord(i);
    }
  }

  /** How the blocks behind the overhead are shared out: an inode for every full thirty of them, at least ten
      inodes or no image at all. A size below the overhead wraps around to 2^56 - 1 blocks. */
  lemma FormatExactly(size: nat)
    requires size < UINT64
    ensures Format(size).None? <==> 80 <= size < 80 + 300 * 256
    ensures Format(size).Some? ==>
              var g := Format(size).value;
              && (if size < 80 then g.totalBlocks == 0xFF_FFFF_FFFF_FFFF
                  else g.totalBlocks * 256 <= size - 80 < g.totalBlocks * 256 + 256)
              && g.totalInodes * 30 <= g.totalBlocks < g.totalInodes * 30 + 30
              && g.totalInodes + g.totalData == g.totalBlocks
              && g.inodesStart == 336 && g.dataStart == 336 + g.totalInodes * 256
  {
    if size < 80 {
      assert (size + UINT64 - 80) / 256 == 0xFF_FFFF_FFFF_FFFF;
    } else {
      assert (size + UINT64 - 80) % UINT64 == size - 80;
    }
  }

  // ---------- The drive ----------

  /** The byte at an address; nothing has been written past the end. */
  function At(drive: Bytes, a: nat): Byte {
    if a < |drive| then drive[a] else 0
  }

  /** fwrite at a position; a gap before it reads as zeros. */
  function Write(drive: Bytes, p: nat, d: Bytes): (r: Bytes)
    ensures |r| == if d == [] || p + |d| < |drive| then |drive| else p + |d|
    ensures forall a: nat :: At(r, a) == if p <= a < p + |d| then d[a - p] else At(drive, a)
  {
    if d == [] then drive
    else
      var length := if |drive| < p + |d| then p + |d| else |drive|;
      seq<Byte>(length, a requires 0 <= a < length => if p <= a < p + |d| then d[a - p] else At(drive, a))
  }

  function Block(drive: Bytes, n: nat, b: nat): (r: Bytes)
    ensures |r| == 256
  {
    seq<Byte>(256, x requires 0 <= x < 256 => At(drive, Address(n, b) + x))
  }

  // ---------- Inodes ----------

  /** kind: 0 free, 1 file, 2 directory. */
  datatype Inode = Inode(kind: nat, parent: nat, self: nat, blocks: seq<nat>)

  /** The instance in memory and its drive. The queue holds the inodes that find_inode can hand out. */
  datatype Fs = Fs(drive: Bytes, inodes: seq<Inode>, bitmap: seq<bool>, queue: set<nat>)

  function LittleEndian(v: nat, k: nat): (r: Bytes)
    ensures |r| == k
  {
    if k == 0 then [] else [v % 256] + LittleEndian(v / 256, k - 1)
  }

  function Words(vs: seq<nat>): (r: Bytes)
    ensures |r| == 8 * |vs|
  {
    if vs == [] then [] else LittleEndian(vs[0], 8) + Words(vs[1..])
  }

  /** An inode as its record holds it; the indirect blocks are never used. */
  function Record(i: Inode): (r: Bytes)
    requires |i.blocks| == 10
    ensures |r| == 121
  {
    [i.kind % 256] + LittleEndian(i.parent, 8) + LittleEndian(i.self, 8) + Words(i.blocks + [0, 0, 0])
  }

  function NonZero(blocks: seq<nat>): seq<nat> {
    if blocks == [] then [] else (if blocks[0] == 0 then [] else [blocks[0]]) + NonZero(blocks[1..])
  }

  /** The blocks of an inode in slot order: zero means an unused slot, except that the root starts with block 0. */
  function BlocksOf(i: Inode): seq<nat> {
    (if i.self == ROOT_SELF then [0] else []) + NonZero(i.blocks)
  }

  function Blocks(fs: Fs, i: nat): seq<nat>
    requires i < |fs.inodes|
  {
    BlocksOf(fs.inodes[i])
  }

  /** Everything a file's blocks hold, in slot order. */
  function Contents(fs: Fs, i: nat): (r: Bytes)
    requires i < |fs.inodes|
  {
    var bs := Blocks(fs, i);
    seq<Byte>(256 * |bs|, x requires 0 <= x < 256 * |bs| => At(fs.drive, Address(|fs.inodes|, bs[x / 256]) + x % 256))
  }

  predicate Ascending(s: seq<nat>) {
    forall j, k :: 0 <= j < k < |s| ==> s[j] < s[k]
  }

  // ---------- Soundness ----------

  ghost predicate Shape(fs: Fs) {
    && 0 < |fs.inodes| && 0 < |fs.bitmap| && Address(|fs.inodes|, |fs.bitmap|) < UINT64
    && (forall i :: 0 <= i < |fs.inodes| ==>
          |fs.inodes[i].blocks| == 10 && fs.inodes[i].self == if i == 0 then ROOT_SELF else i)
  }

  ghost predicate Owned(fs: Fs, b: nat) {
    exists i :: 0 <= i < |fs.inodes| && b in Blocks(fs, i)
  }

  /** The blocks of inode i are distinct, exist, and lie on the drive. */
  ghost predicate BlocksExist(fs: Fs, i: nat)
    requires i < |fs.inodes|
  {
    && Ascending(Blocks(fs, i))
    && forall b <- Blocks(fs, i) :: b < |fs.bitmap| && Address(|fs.inodes|, b) + 256 <= |fs.drive|
  }

  ghost predicate Exclusive(fs: Fs) {
    forall i, k, b ::
      0 <= i < |fs.inodes| && 0 <= k < |fs.inodes| && b in Blocks(fs, i) && b in Blocks(fs, k) ==> i == k
  }

  /** A bit is set exactly when some inode owns the block, and then exactly one inode owns it, in one slot. */
  ghost predicate Sound(fs: Fs) {
    && Shape(fs) && fs.inodes[0].blocks[0] == 0
    && (forall i :: 0 <= i < |fs.inodes| ==> BlocksExist(fs, i))
    && Exclusive(fs)
    && (forall b :: 0 <= b < |fs.bitmap| ==> (fs.bitmap[b] <==> Owned(fs, b)))
  }

  /** Block 0 is the root's alone. */
  lemma BlockZeroIsRoots(fs: Fs, i: nat)
    requires Sound(fs) && i < |fs.inodes|
    ensures 0 in Blocks(fs, i) <==> i == 0
  {
    assert 0 in Blocks(fs, 0);
  }

  // ---------- Freeing and allocating ----------

  function NoSlots(): seq<nat> {
    [0, 0, 0, 0, 0, 0, 0, 0, 0, 0]
  }

  function Clear(bitmap: seq<bool>, bs: seq<nat>): (r: seq<bool>)
    ensures |r| == |bitmap|
  {
    seq(|bitmap|, b requires 0 <= b < |bitmap| => bitmap[b] && b !in bs)
  }

  function Set(bitmap: seq<bool>, bs: seq<nat>): (r: seq<bool>)
    ensures |r| == |bitmap|
  {
    seq(|bitmap|, b requires 0 <= b < |bitmap| => bitmap[b] || b in bs)
  }

  /** purge_file_contents */
  function Purge(fs: Fs, i: nat): (r: Fs)
    requires i < |fs.inodes|
    ensures |r.inodes| == |fs.inodes|
  {
    fs.(bitmap := Clear(fs.bitmap, Blocks(fs, i)), inodes := fs.inodes[i := fs.inodes[i].(blocks := NoSlots())])
  }

  /** The first clear bits from a position on, at most need of them. */
  function FirstFree(bitmap: seq<bool>, from: nat, need: nat): (bs: seq<nat>)
    requires from <= |bitmap|
    ensures |bs| <= need
    ensures forall b <- bs :: from <= b < |bitmap| && !bitmap[b]
    ensures Ascending(bs)
    ensures forall b :: from <= b < |bitmap| && !bitmap[b] && b !in bs ==>
              |bs| == need && forall c <- bs :: c < b
    decreases |bitmap| - from
  {
    if need == 0 || from == |bitmap| then []
    else if bitmap[from] then FirstFree(bitmap, from + 1, need)
    else
      var rest := FirstFree(bitmap, from + 1, need - 1);
      assert forall k :: 0 < k < |[from] + rest| ==> ([from] + rest)[k] in rest;
      [from] + rest
  }

  /** How many blocks a text takes: an empty one still takes a block. */
  function Need(size: nat): (n: nat)
    ensures n >= 1 && size <= 256 * n && (n == 1 || size > 256 * (n - 1))
  {
    if size == 0 then 1 else (size + 255) / 256
  }

  function Slots(bs: seq<nat>): (r: seq<nat>)
    ensures |r| == 10
  {
    seq(10, j requires 0 <= j < 10 => if j < |bs| then bs[j] else 0)
  }

  /** Block number t of a text, padded with zeros. */
  function Chunk(data: Bytes, t: nat): (r: Bytes)
    ensures |r| == 256
  {
    seq<Byte>(256, x requires 0 <= x < 256 => At(data, 256 * t + x))
  }

  /** Blocks number t and on of a text, written to bs[t..]. */
  function WriteBlocks(drive: Bytes, n: nat, bs: seq<nat>, t: nat, data: Bytes): Bytes
    requires t <= |bs|
    decreases |bs| - t
  {
    if t == |bs| then drive else WriteBlocks(Write(drive, Address(n, bs[t]), Chunk(data, t)), n, bs, t + 1, data)
  }

  /** The blocks that writing a text to inode i takes: the file's own blocks are given back first. */
  function Allocated(fs: Fs, i: nat, size: nat): (bs: seq<nat>)
    requires i < |fs.inodes|
    ensures |bs| <= Need(size)
  {
    FirstFree(Purge(fs, i).bitmap, 0, Need(size))
  }

  function WriteInode(drive: Bytes, inode: Inode): Bytes
    requires |inode.blocks| == 10
  {
    Write(drive, RecordAddress(inode.self), Record(inode))
  }

  /** write_file on an inode. */
  function WriteFile(fs: Fs, i: nat, data: Bytes): Fs
    requires i < |fs.inodes|
  {
    var bs := Allocated(fs, i, |data|);
    var inode := fs.inodes[i].(blocks := Slots(bs));
    Fs(WriteInode(WriteBlocks(fs.drive, |fs.inodes|, bs, 0, data), inode),
       fs.inodes[i := inode], Set(Purge(fs, i).bitmap, bs), fs.queue)
  }

  // ---------- What writing does to the drive ----------

  /** Address a lies outside the blocks bs. */
  predicate Outside(n: nat, bs: seq<nat>, a: nat) {
    forall b <- bs :: !(Address(n, b) <= a < Address(n, b) + 256)
  }

  lemma BlockOfWrite(drive: Bytes, n: nat, b: nat, chunk: Bytes)
    requires |chunk| == 256
    ensures Block(Write(drive, Address(n, b), chunk), n, b) == chunk
  {
  }

  lemma BlockUntouched(drive: Bytes, n: nat, b: nat, p: nat, d: Bytes)
    requires p + |d| <= Address(n, b) || Address(n, b) + 256 <= p
    ensures Block(Write(drive, p, d), n, b) == Block(drive, n, b)
  {
  }

  lemma {:induction false} WriteBlocksGrows(drive: Bytes, n: nat, bs: seq<nat>, t: nat, data: Bytes)
    requires t <= |bs|
    ensures |drive| <= |WriteBlocks(drive, n, bs, t, data)|
    decreases |bs| - t
  {
    if t < |bs| {
      WriteBlocksGrows(Write(drive, Address(n, bs[t]), Chunk(data, t)), n, bs, t + 1, data);
    }
  }

  lemma {:induction false} WriteBlocksSpares(drive: Bytes, n: nat, bs: seq<nat>, t: nat, data: Bytes, b: nat)
    requires t <= |bs| && b !in bs[t..]
    ensures Block(WriteBlocks(drive, n, bs, t, data), n, b) == Block(drive, n, b)
    decreases |bs| - t
  {
    hide Block, Chunk, Write;
    if t < |bs| {
      assert bs[t] in bs[t..] && bs[t + 1..] == bs[t..][1..];
      var next := Write(drive, Address(n, bs[t]), Chunk(data, t));
      BlockUntouched(drive, n, b, Address(n, bs[t]), Chunk(data, t));
      WriteBlocksSpares(next, n, bs, t + 1, data, b);
    }
  }

  lemma {:induction false} WriteBlocksStores(drive: Bytes, n: nat, bs: seq<nat>, t: nat, data: Bytes, j: nat)
    requires Ascending(bs) && t <= j < |bs|
    ensures var r := WriteBlocks(drive, n, bs, t, data);
            |drive| <= |r| && Address(n, bs[j]) + 256 <= |r| && Block(r, n, bs[j]) == Chunk(data, j)
    decreases |bs| - t
  {
    hide Block, Chunk, Write;
    var next := Write(drive, Address(n, bs[t]), Chunk(data, t));
    WriteBlocksGrows(next, n, bs, t + 1, data);
    if t == j {
      BlockOfWrite(drive, n, bs[t], Chunk(data, t));
      WriteBlocksSpares(next, n, bs, t + 1, data, bs[t]);
    } else {
      WriteBlocksStores(next, n, bs, t + 1, data, j);
    }
  }

  lemma {:induction false} WriteBlocksOutside(drive: Bytes, n: nat, bs: seq<nat>, t: nat, data: Bytes, a: nat)
    requires t <= |bs| && Outside(n, bs, a)
    ensures At(WriteBlocks(drive, n, bs, t, data), a) == At(drive, a)
    decreases |bs| - t
  {
    if t < |bs| {
      WriteBlocksOutside(Write(drive, Address(n, bs[t]), Chunk(data, t)), n, bs, t + 1, data, a);
    }
  }

  lemma InodeRecordBelow(fs: Fs, i: nat)
    requires Shape(fs) && i < |fs.inodes|
    ensures RecordAddress(fs.inodes[i].self) == if i == 0 then 80 else 336 + i * 256
    ensures 80 <= RecordAddress(fs.inodes[i].self) && RecordAddress(fs.inodes[i].self) + 121 <= Address(|fs.inodes|, 0)
  {
    if i == 0 {
      RootRecord();
    } else {
      InodeRecord(i);
    }
  }

  /** write_inode leaves the inode's record at its address. */
  lemma WriteCommits(fs: Fs, i: nat, data: Bytes, x: nat)
    requires Shape(fs) && i < |fs.inodes| && x < 121
    ensures var r := WriteFile(fs, i, data);
            && |r.inodes| == |fs.inodes| && |r.inodes[i].blocks| == 10
            && At(r.drive, RecordAddress(fs.inodes[i].self) + x) == Record(r.inodes[i])[x]
  {
  }

  function Power256(k: nat): nat {
    if k == 0 then 1 else 256 * Power256(k - 1)
  }

  function Number(s: Bytes): nat {
    if s == [] then 0 else s[0] + 256 * Number(s[1..])
  }

  lemma {:induction false} NumberInverts(v: nat, k: nat)
    requires v < Power256(k)
    ensures Number(LittleEndian(v, k)) == v
  {
    if k > 0 {
      NumberInverts(v / 256, k - 1);
      assert LittleEndian(v, k)[1..] == LittleEndian(v / 256, k - 1);
    }
  }

  lemma {:induction false} WordAt(vs: seq<nat>, j: nat)
    requires j < |vs|
    ensures Words(vs)[8 * j..8 * j + 8] == LittleEndian(vs[j], 8)
  {
    var rest := Words(vs[1..]);
    if j == 0 {
      assert Words(vs)[..8] == LittleEndian(vs[0], 8);
    } else {
      WordAt(vs[1..], j - 1);
      assert Words(vs)[8..] == rest;
      assert Words(vs)[8 * j..8 * j + 8] == rest[8 * (j - 1)..8 * (j - 1) + 8];
    }
  }

  /** Byte number x of a number, the least significant one first. */
  function ByteOf(v: nat, x: nat): Byte
    decreases x
  {
    if x == 0 then v % 256 else ByteOf(v / 256, x - 1)
  }

  lemma {:induction false} LittleEndianAt(v: nat, k: nat, x: nat)
    requires x < k
    ensures LittleEndian(v, k)[x] == ByteOf(v, x)
    decreases k
  {
    if x > 0 {
      LittleEndianAt(v / 256, k - 1, x - 1);
    }
  }

  lemma {:induction false} ByteOfZero(x: nat)
    ensures ByteOf(0, x) == 0
  {
    if x > 0 {
      ByteOfZero(x - 1);
    }
  }

  lemma RecordIsWords(i: Inode)
    requires |i.blocks| == 10
    ensures Record(i) == [i.kind % 256] + Words([i.parent, i.self] + (i.blocks + [0, 0, 0]))
  {
    var tail := i.blocks + [0, 0, 0];
    assert ([i.parent, i.self] + tail)[1..] == [i.self] + tail;
    assert ([i.self] + tail)[1..] == tail;
  }

  lemma RecordByte(i: Inode, j: nat, x: nat)
    requires |i.blocks| == 10 && j < 15 && x < 8
    ensures Record(i)[1 + 8 * j + x] == ByteOf(([i.parent, i.self] + (i.blocks + [0, 0, 0]))[j], x)
  {
    hide Words, Record;
    var vs := [i.parent, i.self] + (i.blocks + [0, 0, 0]);
    RecordIsWords(i);
    WordAt(vs, j);
    LittleEndianAt(vs[j], 8, x);
    assert Record(i)[1 + 8 * j + x] == Words(vs)[8 * j..8 * j + 8][x];
  }

  /** The record of an inode, byte by byte: its kind, then parent, self and the ten slots in eight bytes each, least
      significant first, then the three unused indirect blocks. */
  lemma RecordBytes(i: Inode, x: nat)
    requires |i.blocks| == 10 && x < 8
    ensures var r := Record(i);
            && r[0] == i.kind % 256 && r[1 + x] == ByteOf(i.parent, x) && r[9 + x] == ByteOf(i.self, x)
            && (forall j :: 0 <= j < 10 ==> r[17 + 8 * j + x] == ByteOf(i.blocks[j], x))
            && r[97 + x] == r[105 + x] == r[113 + x] == 0
  {
    hide Words, LittleEndian, ByteOf;
    RecordByte(i, 0, x);
    RecordByte(i, 1, x);
    forall j | 0 <= j < 10 ensures Record(i)[17 + 8 * j + x] == ByteOf(i.blocks[j], x) {
      RecordByte(i, j + 2, x);
      assert 17 + 8 * j + x == 1 + 8 * (j + 2) + x;
    }
    ByteOfZero(x);
    RecordByte(i, 12, x);
    RecordByte(i, 13, x);
    RecordByte(i, 14, x);
  }

  /** The inode that a record holds. */
  function ParseRecord(r: Bytes): (i: Inode)
    requires |r| == 121
    ensures |i.blocks| == 10
  {
    Inode(r[0], Number(r[1..9]), Number(r[9..17]),
          seq(10, j requires 0 <= j < 10 => Number(r[17 + 8 * j..25 + 8 * j])))
  }

  /** An inode that fits its record: a byte, and 64-bit words. */
  predicate Representable(i: Inode) {
    && |i.blocks| == 10 && i.kind < 256 && i.parent < UINT64 && i.self < UINT64
    && forall b <- i.blocks :: b < UINT64
  }

  lemma WordOfRecord(i: Inode, j: nat)
    requires Representable(i) && j < 12
    ensures Number(Record(i)[1 + 8 * j..9 + 8 * j]) == ([i.parent, i.self] + i.blocks)[j]
  {
    var vs := [i.parent, i.self] + (i.blocks + [0, 0, 0]);
    RecordIsWords(i);
    WordAt(vs, j);
    assert Record(i)[1 + 8 * j..9 + 8 * j] == Words(vs)[8 * j..8 * j + 8];
    assert j >= 2 ==> vs[j] == i.blocks[j - 2] && i.blocks[j - 2] in i.blocks;
    assert Power256(8) == UINT64;
    NumberInverts(vs[j], 8);
  }

  /** A record read back is the inode that was written. */
  lemma ParseRecordInverts(i: Inode)
    requires Representable(i)
    ensures ParseRecord(Record(i)) == i
  {
    var p := ParseRecord(Record(i));
    WordOfRecord(i, 0);
    WordOfRecord(i, 1);
    forall j | 0 <= j < 10 ensures p.blocks[j] == i.blocks[j] {
      WordOfRecord(i, j + 2);
      assert 17 + 8 * j == 1 + 8 * (j + 2);
    }
    assert p.blocks == i.blocks;
  }

  /** Isolation: writing a file changes the drive only inside its new blocks and its own inode record. */
  lemma WriteIsolation(fs: Fs, i: nat, data: Bytes, a: nat)
    requires Shape(fs) && i < |fs.inodes|
    requires Outside(|fs.inodes|, Allocated(fs, i, |data|), a)
    requires var p := if i == 0 then 80 else 336 + i * 256; !(p <= a < p + 121)
    ensures At(WriteFile(fs, i, data).drive, a) == At(fs.drive, a)
  {
    WriteBlocksOutside(fs.drive, |fs.inodes|, Allocated(fs, i, |data|), 0, data, a);
    InodeRecordBelow(fs, i);
  }

  /** The new blocks hold the text, padded with zeros. */
  lemma WriteStores(fs: Fs, i: nat, data: Bytes, t: nat)
    requires Shape(fs) && i < |fs.inodes|
    requires t < |Allocated(fs, i, |data|)|
    ensures var b := Allocated(fs, i, |data|)[t];
            && Address(|fs.inodes|, b) + 256 <= |WriteFile(fs, i, data).drive|
            && Block(WriteFile(fs, i, data).drive, |fs.inodes|, b) == Chunk(data, t)
  {
    hide Block, Chunk, Write, Record;
    var bs := Allocated(fs, i, |data|);
    WriteBlocksStores(fs.drive, |fs.inodes|, bs, 0, data, t);
    InodeRecordBelow(fs, i);
    var inode := fs.inodes[i].(blocks := Slots(bs));
    BlockUntouched(WriteBlocks(fs.drive, |fs.inodes|, bs, 0, data), |fs.inodes|, bs[t],
                   RecordAddress(inode.self), Record(inode));
  }

  lemma WriteSpares(fs: Fs, i: nat, data: Bytes, b: nat)
    requires Shape(fs) && i < |fs.inodes| && b !in Allocated(fs, i, |data|)
    ensures |fs.drive| <= |WriteFile(fs, i, data).drive|
    ensures Block(WriteFile(fs, i, data).drive, |fs.inodes|, b) == Block(fs.drive, |fs.inodes|, b)
  {
    hide Block, Chunk, Write, Record;
    var bs := Allocated(fs, i, |data|);
    assert bs[0..] == bs;
    WriteBlocksGrows(fs.drive, |fs.inodes|, bs, 0, data);
    WriteBlocksSpares(fs.drive, |fs.inodes|, bs, 0, data, b);
    InodeRecordBelow(fs, i);
    var inode := fs.inodes[i].(blocks := Slots(bs));
    BlockUntouched(WriteBlocks(fs.drive, |fs.inodes|, bs, 0, data), |fs.inodes|, b,
                   RecordAddress(inode.self), Record(inode));
  }
}
