/** write_file keeps every block with one owner, stores the whole text when there is room for it, and leaves
    all other files alone. */
module FsAllocation {

  import opened FsCodec
  import opened FsVolume
  import opened Wrappers

  // ---------- Slots ----------

  lemma {:induction false} NonZeroOfSlots(bs: seq<nat>, zeros: seq<nat>)
    requires 0 !in bs && forall z <- zeros :: z == 0
    ensures NonZero(bs + zeros) == bs
    decreases |bs| + |zeros|
  {
    if bs != [] {
      assert (bs + zeros)[1..] == bs[1..] + zeros;
      NonZeroOfSlots(bs[1..], zeros);
    } else if zeros == [] {
      assert bs + zeros == [];
    } else {
      assert bs + zeros == zeros && zeros[0] in zeros;
      forall z | z in zeros[1..] ensures z == 0 {
        assert z in zeros;
      }
      NonZeroOfSlots(bs, zeros[1..]);
      assert bs + zeros[1..] == zeros[1..];
    }
  }

  lemma BlocksOfSlots(inode: Inode, bs: seq<nat>)
    requires Ascending(bs) && |bs| <= 10
    requires inode.self == ROOT_SELF ==> bs != [] && bs[0] == 0
    requires inode.self != ROOT_SELF ==> 0 !in bs
    ensures BlocksOf(inode.(blocks := Slots(bs))) == bs
  {
    var zeros := seq(10 - |bs|, _ => 0);
    assert Slots(bs) == bs + zeros;
    if inode.self == ROOT_SELF {
      assert bs == [0] + bs[1..];
      assert NonZero(bs + zeros) == NonZero(bs[1..] + zeros) by {
        assert (bs + zeros)[1..] == bs[1..] + zeros;
      }
      NonZeroOfSlots(bs[1..], zeros);
    } else {
      NonZeroOfSlots(bs, zeros);
    }
  }

  lemma BlocksOfNoSlots(inode: Inode)
    ensures BlocksOf(inode.(blocks := NoSlots())) == if inode.self == ROOT_SELF then [0] else []
  {
    assert NoSlots() == [] + NoSlots();
    NonZeroOfSlots([], NoSlots());
  }

  // ---------- Which blocks are handed out ----------

  ghost predicate OwnedByOther(fs: Fs, i: nat, b: nat) {
    exists k :: 0 <= k < |fs.inodes| && k != i && b in Blocks(fs, k)
  }

  lemma PurgedBits(fs: Fs, i: nat, b: nat)
    requires Sound(fs) && i < |fs.inodes| && b < |fs.bitmap|
    ensures Purge(fs, i).bitmap[b] <==> OwnedByOther(fs, i, b)
  {
    if Purge(fs, i).bitmap[b] {
      assert Owned(fs, b);
    } else if OwnedByOther(fs, i, b) {
      assert Owned(fs, b);
    }
  }

  /** First fit hands out blocks that nobody else owns; the root gets block 0 back, and nobody else gets it. */
  lemma AllocatedIsFree(fs: Fs, i: nat, size: nat)
    requires Sound(fs) && i < |fs.inodes|
    ensures var bs := Allocated(fs, i, size);
            && Ascending(bs)
            && (forall b <- bs :: b < |fs.bitmap| && !OwnedByOther(fs, i, b))
            && if i == 0 then bs != [] && bs[0] == 0 else 0 !in bs
  {
    var bs := Allocated(fs, i, size);
    forall b | b in bs ensures !OwnedByOther(fs, i, b) {
      PurgedBits(fs, i, b);
    }
    BlockZeroIsRoots(fs, 0);
    if i == 0 {
      PurgedBits(fs, 0, 0);
      assert !OwnedByOther(fs, 0, 0);
      assert 0 in bs;
      var k :| 0 <= k < |bs| && bs[k] == 0;
      assert k == 0;
    } else {
      assert OwnedByOther(fs, i, 0);
    }
  }

  /** The blocks of every inode after a write. */
  lemma BlocksAfterWrite(fs: Fs, i: nat, data: Bytes, k: nat)
    requires Sound(fs) && i < |fs.inodes| && k < |fs.inodes| && |data| <= 2560
    ensures Blocks(WriteFile(fs, i, data), k) == if k == i then Allocated(fs, i, |data|) else Blocks(fs, k)
  {
    if k == i {
      AllocatedIsFree(fs, i, |data|);
      BlocksOfSlots(fs.inodes[i], Allocated(fs, i, |data|));
    }
  }

  // ---------- Soundness ----------

  lemma WriteKeepsShape(fs: Fs, i: nat, data: Bytes)
    requires Sound(fs) && i < |fs.inodes| && |data| <= 2560
    ensures Shape(WriteFile(fs, i, data)) && WriteFile(fs, i, data).inodes[0].blocks[0] == 0
  {
    AllocatedIsFree(fs, i, |data|);
  }

  lemma SameSizes(fs: Fs, i: nat, data: Bytes)
    requires i < |fs.inodes|
    ensures var r := WriteFile(fs, i, data);
            |r.inodes| == |fs.inodes| && |r.bitmap| == |fs.bitmap| && r.queue == fs.queue
  {
  }

  lemma WriteKeepsExistence(fs: Fs, i: nat, data: Bytes, k: nat)
    requires Sound(fs) && i < |fs.inodes| && k < |fs.inodes| && |data| <= 2560
    ensures BlocksExist(WriteFile(fs, i, data), k)
  {
    hide Blocks, WriteFile, Shape, Exclusive, Owned;
    var r := WriteFile(fs, i, data);
    SameSizes(fs, i, data);
    BlocksAfterWrite(fs, i, data, k);
    AllocatedIsFree(fs, i, |data|);
    forall b | b in Blocks(r, k) ensures b < |fs.bitmap| && Address(|fs.inodes|, b) + 256 <= |r.drive| {
      if k == i {
        var t :| 0 <= t < |Allocated(fs, i, |data|)| && Allocated(fs, i, |data|)[t] == b;
        WriteStores(fs, i, data, t);
      } else {
        assert BlocksExist(fs, k);
        assert OwnedByOther(fs, i, b);
        WriteSpares(fs, i, data, b);
      }
    }
    assert BlocksExist(fs, k);
  }

  lemma WriteKeepsExclusion(fs: Fs, i: nat, data: Bytes)
    requires Sound(fs) && i < |fs.inodes| && |data| <= 2560
    ensures Exclusive(WriteFile(fs, i, data))
  {
    hide Blocks, WriteFile, BlocksExist, Shape, Owned;
    var r := WriteFile(fs, i, data);
    SameSizes(fs, i, data);
    AllocatedIsFree(fs, i, |data|);
    forall j, k, b | 0 <= j < |r.inodes| && 0 <= k < |r.inodes| && b in Blocks(r, j) && b in Blocks(r, k)
      ensures j == k
    {
      BlocksAfterWrite(fs, i, data, j);
      BlocksAfterWrite(fs, i, data, k);
      assert j != i || k != i ==> OwnedByOther(fs, i, b);
    }
  }

  lemma WriteKeepsBits(fs: Fs, i: nat, data: Bytes, b: nat)
    requires Sound(fs) && i < |fs.inodes| && |data| <= 2560 && b < |fs.bitmap|
    ensures WriteFile(fs, i, data).bitmap[b] <==> Owned(WriteFile(fs, i, data), b)
  {
    hide Blocks, BlocksExist, Shape, Exclusive;
    var r := WriteFile(fs, i, data);
    PurgedBits(fs, i, b);
    if r.bitmap[b] {
      if b in Allocated(fs, i, |data|) {
        BlocksAfterWrite(fs, i, data, i);
      } else {
        var k :| 0 <= k < |fs.inodes| && k != i && b in Blocks(fs, k);
        BlocksAfterWrite(fs, i, data, k);
        assert b in Blocks(r, k);
      }
    }
    if Owned(r, b) {
      var k :| 0 <= k < |r.inodes| && b in Blocks(r, k);
      BlocksAfterWrite(fs, i, data, k);
      assert k != i ==> OwnedByOther(fs, i, b);
    }
  }

  /** Writing any text to any inode keeps the ownership of blocks sound, whether or not there is room. */
  lemma WriteKeepsSound(fs: Fs, i: nat, data: Bytes)
    requires Sound(fs) && i < |fs.inodes| && |data| <= 2560
    ensures Sound(WriteFile(fs, i, data))
  {
    hide WriteFile, BlocksExist, Exclusive, Owned;
    var r := WriteFile(fs, i, data);
    SameSizes(fs, i, data);
    WriteKeepsShape(fs, i, data);
    WriteKeepsExclusion(fs, i, data);
    forall k | 0 <= k < |r.inodes| ensures BlocksExist(r, k) {
      WriteKeepsExistence(fs, i, data, k);
    }
    forall b | 0 <= b < |r.bitmap| ensures r.bitmap[b] <==> Owned(r, b) {
      WriteKeepsBits(fs, i, data, b);
    }
  }

  lemma BlocksAfterPurge(fs: Fs, i: nat, k: nat)
    requires Shape(fs) && 0 < i < |fs.inodes| && k < |fs.inodes|
    ensures Blocks(Purge(fs, i), k) == if k == i then [] else Blocks(fs, k)
  {
    BlocksOfNoSlots(fs.inodes[i]);
  }

  /** So does freeing the contents of any inode but the root. */
  lemma PurgeKeepsSound(fs: Fs, i: nat)
    requires Sound(fs) && 0 < i < |fs.inodes|
    ensures Sound(Purge(fs, i))
  {
    hide Blocks;
    var r := Purge(fs, i);
    forall k | 0 <= k < |r.inodes| ensures Blocks(r, k) == if k == i then [] else Blocks(fs, k) {
      BlocksAfterPurge(fs, i, k);
    }
    forall k | 0 <= k < |r.inodes| ensures BlocksExist(r, k) {
      assert BlocksExist(fs, k);
    }
    forall b | 0 <= b < |r.bitmap| ensures r.bitmap[b] <==> Owned(r, b) {
      PurgedBits(fs, i, b);
      if OwnedByOther(fs, i, b) {
        var k :| 0 <= k < |fs.inodes| && k != i && b in Blocks(fs, k);
        assert b in Blocks(r, k);
      }
    }
  }

  // ---------- Contents ----------

  lemma ContentsDepend(a: Fs, b: Fs, i: nat)
    requires |a.inodes| == |b.inodes| && i < |a.inodes| && Blocks(a, i) == Blocks(b, i)
    requires forall c <- Blocks(a, i) :: Block(a.drive, |a.inodes|, c) == Block(b.drive, |b.inodes|, c)
    ensures Contents(a, i) == Contents(b, i)
  {
    var n, bs := |a.inodes|, Blocks(a, i);
    forall x | 0 <= x < 256 * |bs| ensures Contents(a, i)[x] == Contents(b, i)[x] {
      var c := bs[x / 256];
      assert Block(a.drive, n, c)[x % 256] == Block(b.drive, n, c)[x % 256];
    }
  }

  /** Every other inode keeps its record, its blocks and what they hold. */
  lemma WriteSparesOthers(fs: Fs, i: nat, data: Bytes, k: nat)
    requires Sound(fs) && i < |fs.inodes| && k < |fs.inodes| && k != i && |data| <= 2560
    ensures var r := WriteFile(fs, i, data);
            && r.inodes[k] == fs.inodes[k] && Contents(r, k) == Contents(fs, k)
            && forall b <- Blocks(fs, k) :: Block(r.drive, |fs.inodes|, b) == Block(fs.drive, |fs.inodes|, b)
  {
    hide Block, Contents, Exclusive, BlocksExist;
    var r := WriteFile(fs, i, data);
    AllocatedIsFree(fs, i, |data|);
    forall b | b in Blocks(fs, k) ensures Block(r.drive, |fs.inodes|, b) == Block(fs.drive, |fs.inodes|, b) {
      assert OwnedByOther(fs, i, b);
      WriteSpares(fs, i, data, b);
    }
    ContentsDepend(r, fs, k);
  }

  /** Isolation, address by address: the superblock, the record of every other inode and every block that
      another inode owns stay as they are when a file is written. */
  lemma WriteIsolates(fs: Fs, i: nat, data: Bytes, k: nat, a: nat)
    requires Sound(fs) && i < |fs.inodes| && k < |fs.inodes| && k != i
    requires
      || a < 70
      || RecordAddress(fs.inodes[k].self) <= a < RecordAddress(fs.inodes[k].self) + 121
      || exists b <- Blocks(fs, k) :: Address(|fs.inodes|, b) <= a < Address(|fs.inodes|, b) + 256
    ensures At(WriteFile(fs, i, data).drive, a) == At(fs.drive, a)
  {
    hide Blocks, WriteFile, Exclusive, BlocksExist, Owned;
    InodeRecordBelow(fs, k);
    InodeRecordBelow(fs, i);
    AllocatedIsFree(fs, i, |data|);
    forall c | c in Allocated(fs, i, |data|) && a >= Address(|fs.inodes|, 0)
      ensures !(Address(|fs.inodes|, c) <= a < Address(|fs.inodes|, c) + 256)
    {
      var b :| b in Blocks(fs, k) && Address(|fs.inodes|, b) <= a < Address(|fs.inodes|, b) + 256;
      assert c == b ==> OwnedByOther(fs, i, c);
    }
    WriteIsolation(fs, i, data, a);
  }

  function Padded(data: Bytes, size: nat): Bytes {
    seq<Byte>(size, x requires 0 <= x < size => At(data, x))
  }

  lemma SoundIsShaped(fs: Fs)
    requires Sound(fs)
    ensures Shape(fs)
  {
  }

  lemma WriteContents(fs: Fs, i: nat, data: Bytes)
    requires Sound(fs) && i < |fs.inodes| && |data| <= 2560
    ensures Contents(WriteFile(fs, i, data), i) == Padded(data, 256 * |Allocated(fs, i, |data|)|)
  {
    hide WriteFile, Sound, Allocated;
    assert Shape(fs) by { SoundIsShaped(fs); }
    var r, bs := WriteFile(fs, i, data), Allocated(fs, i, |data|);
    SameSizes(fs, i, data);
    BlocksAfterWrite(fs, i, data, i);
    forall x | 0 <= x < 256 * |bs| ensures Contents(r, i)[x] == At(data, x) {
      WriteStores(fs, i, data, x / 256);
      assert Block(r.drive, |fs.inodes|, bs[x / 256])[x % 256] == Chunk(data, x / 256)[x % 256];
    }
  }

  // ---------- Room ----------

  function CountFree(bitmap: seq<bool>): (n: nat) {
    if bitmap == [] then 0 else (if bitmap[0] then 0 else 1) + CountFree(bitmap[1..])
  }

  lemma {:induction false} FirstFreeCount(bitmap: seq<bool>, from: nat, need: nat)
    requires from <= |bitmap|
    ensures var free := CountFree(bitmap[from..]);
            |FirstFree(bitmap, from, need)| == if free < need then free else need
    decreases |bitmap| - from
  {
    if need > 0 && from < |bitmap| {
      assert bitmap[from..][1..] == bitmap[from + 1..];
      FirstFreeCount(bitmap, from + 1, if bitmap[from] then need else need - 1);
    }
  }

  lemma {:induction false} CountAfterUpdate(bitmap: seq<bool>, b: nat)
    requires b < |bitmap| && bitmap[b]
    ensures CountFree(bitmap[b := false]) == CountFree(bitmap) + 1
  {
    if b == 0 {
      assert bitmap[0 := false][1..] == bitmap[1..];
    } else {
      assert bitmap[b := false][1..] == bitmap[1..][b - 1 := false];
      CountAfterUpdate(bitmap[1..], b - 1);
    }
  }

  lemma {:induction false} CountAfterClear(bitmap: seq<bool>, bs: seq<nat>)
    requires Ascending(bs) && forall b <- bs :: b < |bitmap| && bitmap[b]
    ensures CountFree(Clear(bitmap, bs)) == CountFree(bitmap) + |bs|
    decreases |bs|
  {
    if bs == [] {
      assert Clear(bitmap, bs) == bitmap;
    } else {
      var last, rest := bs[|bs| - 1], bs[..|bs| - 1];
      assert bs == rest + [last] && last in bs;
      CountAfterClear(bitmap, rest);
      assert Clear(bitmap, bs) == Clear(bitmap, rest)[last := false];
      assert last !in rest;
      CountAfterUpdate(Clear(bitmap, rest), last);
    }
  }

  /** How many blocks a write takes: as many as the text needs, or all that are clear or its own. */
  lemma AllocatedCount(fs: Fs, i: nat, size: nat)
    requires Sound(fs) && i < |fs.inodes|
    ensures var free := CountFree(fs.bitmap) + |Blocks(fs, i)|;
            |Allocated(fs, i, size)| == if free < Need(size) then free else Need(size)
  {
    var bitmap := Purge(fs, i).bitmap;
    assert bitmap[0..] == bitmap;
    FirstFreeCount(bitmap, 0, Need(size));
    assert BlocksExist(fs, i);
    forall b | b in Blocks(fs, i) ensures b < |fs.bitmap| && fs.bitmap[b] {
      assert Owned(fs, b);
    }
    CountAfterClear(fs.bitmap, Blocks(fs, i));
  }

  /** write_file stores the whole text, followed by zeros to the end of the last block, exactly when the
      clear blocks and the file's own blocks suffice for it; if they do not, the text is cut off. */
  lemma WriteStoresAllIff(fs: Fs, i: nat, data: Bytes)
    requires Sound(fs) && i < |fs.inodes| && |data| <= 2560
    ensures var r := WriteFile(fs, i, data);
            var room := CountFree(fs.bitmap) + |Blocks(fs, i)|;
            && (Contents(r, i) == Padded(data, 256 * Need(|data|)) <==> Need(|data|) <= room)
            && (Need(|data|) <= room ==> data <= Contents(r, i))
            && (room < Need(|data|) ==> Contents(r, i) == data[..256 * room])
  {
    hide WriteFile, Contents, Allocated, Sound, CountFree;
    WriteContents(fs, i, data);
    AllocatedCount(fs, i, |data|);
    var bs := Allocated(fs, i, |data|);
    assert |Padded(data, 256 * |bs|)| == 256 * |bs|;
  }

  // ---------- Reading back ----------

  /** One fread of a block at a position, taken as a C string. None where the program's behaviour is not
      defined: the read is cut short, or the buffer holds no terminator. */
  function Fetch(drive: Bytes, pos: int): (r: Option<Bytes>)
    ensures r.Some? ==> NUL !in r.value && |r.value| < 256
  {
    if pos < 0 || |drive| < pos + 256 then None
    else
      var buffer := drive[pos..pos + 256];
      var n := Strlen(buffer);
      if n == 256 then None else Some(buffer[..n])
  }

  /** The loop of read_file from slot j on. It moves from the end of the block just read by the difference of
      the block numbers, so it does not land on the next block. */
  function ReadOn(drive: Bytes, blocks: seq<nat>, j: nat, cursor: int): (r: Option<Bytes>)
    requires 0 < j <= 10 == |blocks|
    ensures r.Some? ==> NUL !in r.value
    decreases 10 - j
  {
    if j == 10 || blocks[j] == 0 then Some([])
    else
      var pos := cursor + blocks[j] - blocks[j - 1];
      var piece := Fetch(drive, pos);
      if piece.None? then None
      else
        var rest := ReadOn(drive, blocks, j + 1, pos + 256);
        if rest.None? then None else Some(piece.value + rest.value)
  }

  /** read_file on an inode. */
  function ReadText(fs: Fs, i: nat): (r: Option<Bytes>)
    requires i < |fs.inodes| && |fs.inodes[i].blocks| == 10
    ensures r.Some? ==> NUL !in r.value
  {
    var blocks := fs.inodes[i].blocks;
    if blocks[0] == 0 then Some([])
    else
      var pos := Address(|fs.inodes|, blocks[0]);
      var piece := Fetch(fs.drive, pos);
      if piece.None? then None
      else
        var rest := ReadOn(fs.drive, blocks, 1, pos + 256);
        if rest.None? then None else Some(piece.value + rest.value)
  }

  lemma {:induction false} StrlenPadded(data: Bytes, block: Bytes)
    requires |data| < |block|
    requires forall x :: 0 <= x < |block| ==> block[x] == At(data, x)
    ensures Strlen(block) == Strlen(data)
  {
    if data != [] && data[0] != NUL {
      forall x | 0 <= x < |block[1..]| ensures block[1..][x] == At(data[1..], x) {
        assert block[x + 1] == At(data, x + 1);
      }
      StrlenPadded(data[1..], block[1..]);
    }
  }

  lemma StrlenIsAll(data: Bytes)
    ensures data[..Strlen(data)] == data <==> NUL !in data
  {
    if Strlen(data) == |data| {
      assert data[..Strlen(data)] == data;
    }
  }

  /** Where the first two slots of a written file point. */
  lemma WrittenSlots(fs: Fs, i: nat, data: Bytes)
    requires Sound(fs) && 0 < i < |fs.inodes| && |data| <= 2560
    ensures var room := CountFree(fs.bitmap) + |Blocks(fs, i)|;
            var bs := Allocated(fs, i, |data|);
            var blocks := WriteFile(fs, i, data).inodes[i].blocks;
            && |blocks| == 10 && (room == 0 <==> blocks[0] == 0) && (room == 0 <==> bs == [])
            && (bs != [] ==> blocks[0] == bs[0])
            && (|data| < 256 ==> blocks[1] == 0)
  {
    AllocatedCount(fs, i, |data|);
    AllocatedIsFree(fs, i, |data|);
    var bs := Allocated(fs, i, |data|);
    if bs != [] {
      assert bs[0] in bs;
    }
  }

  /** The block at its address is what fread gets. */
  lemma FetchIs(drive: Bytes, n: nat, b: nat)
    requires Address(n, b) + 256 <= |drive|
    ensures var block := Block(drive, n, b);
            Fetch(drive, Address(n, b)) == if Strlen(block) == 256 then None else Some(block[..Strlen(block)])
  {
    hide Strlen;
    var p, block := Address(n, b), Block(drive, n, b);
    forall x | 0 <= x < 256 ensures drive[p..p + 256][x] == block[x] {
      assert block[x] == At(drive, p + x);
    }
    assert drive[p..p + 256] == block;
  }

  lemma ShortPiece(data: Bytes)
    requires |data| < 256
    ensures var block := Chunk(data, 0); Strlen(block) < 256 && block[..Strlen(block)] == data[..Strlen(data)]
  {
    hide Strlen;
    var block := Chunk(data, 0);
    forall x | 0 <= x < 256 ensures block[x] == At(data, x) {
      assert block[x] == At(data, 256 * 0 + x);
    }
    StrlenPadded(data, block);
    forall x | 0 <= x < Strlen(data) ensures block[x] == data[x] {
    }
    assert block[..Strlen(data)] == data[..Strlen(data)];
  }

  lemma LongPiece(data: Bytes)
    requires |data| >= 256 && NUL !in data
    ensures Strlen(Chunk(data, 0)) == 256
  {
    hide Strlen;
    var block := Chunk(data, 0);
    forall x | 0 <= x < 256 ensures block[x] != NUL {
      assert block[x] == At(data, 256 * 0 + x) && data[x] in data;
    }
  }

  lemma StopsAtZero(drive: Bytes, blocks: seq<nat>, cursor: int)
    requires |blocks| == 10 && blocks[1] == 0
    ensures ReadOn(drive, blocks, 1, cursor) == Some([])
  {
  }

  /** What read_file returns of a text that write_file has just written is the text exactly when it has no NUL,
      is shorter than a block, and there was a block for it (or it is empty). Of any longer text without NUL
      the first buffer has no terminator. */
  lemma ReadBackIff(fs: Fs, i: nat, data: Bytes)
    requires Sound(fs) && 0 < i < |fs.inodes| && |data| <= 2560
    ensures Shape(WriteFile(fs, i, data))
    ensures ReadText(WriteFile(fs, i, data), i) == Some(data)
       <==> NUL !in data && |data| < 256 && (CountFree(fs.bitmap) + |Blocks(fs, i)| >= 1 || data == [])
  {
    hide WriteFile, Allocated, Blocks, CountFree, Block, Chunk, Strlen, Fetch, ReadOn, BlocksExist, Exclusive, Owned;
    WriteKeepsShape(fs, i, data);
    WrittenSlots(fs, i, data);
    SameSizes(fs, i, data);
    var r, bs := WriteFile(fs, i, data), Allocated(fs, i, |data|);
    if bs != [] {
      WriteStores(fs, i, data, 0);
      FetchIs(r.drive, |fs.inodes|, bs[0]);
      StrlenIsAll(data);
      if |data| >= 256 {
        if NUL !in data {
          LongPiece(data);
        }
      } else {
        ShortPiece(data);
        StopsAtZero(r.drive, r.inodes[i].blocks, Address(|fs.inodes|, bs[0]) + 256);
        var piece := data[..Strlen(data)];
        assert piece + [] == piece;
      }
    }
  }
}
