/** The file system as it runs: one object whose drive, inodes, bitmap and queue are updated in place, each
    method proved against the operations of the model. */
module FsInstance {

  import opened FsCodec
  import opened FsVolume
  import opened FsAllocation
  import opened FsForest
  import opened FsTree
  import opened FsLaws
  import opened FsRemove
  import FsRecords
  import FsRuns
  import opened Wrappers

  // ---------- Facts about the loops ----------

  function Zeros(n: nat): (z: Bytes)
    ensures |z| == n
  {
    seq<Byte>(n, _ => NUL)
  }

  lemma SameBytes(l: Bytes, r: Bytes)
    requires |l| == |r| && forall a: nat :: At(l, a) == At(r, a)
    ensures l == r
  {
    forall x | 0 <= x < |l| ensures l[x] == r[x] {
      assert At(l, x) == At(r, x);
    }
  }

  lemma WriteOnward(drive: Bytes, p: nat, a: Bytes, b: Bytes)
    ensures Write(Write(drive, p, a), p + |a|, b) == Write(drive, p, a + b)
  {
    hide Write;
    SameBytes(Write(Write(drive, p, a), p + |a|, b), Write(drive, p, a + b));
  }

  lemma WriteNothing(drive: Bytes, p: nat)
    ensures Write(drive, p, Zeros(0)) == drive
  {
  }

  lemma ZerosConcat(m: nat, n: nat)
    ensures Zeros(m) + Zeros(n) == Zeros(m + n)
  {
  }

  /** Zeroing a block and then writing into it leaves the text padded with zeros. */
  lemma ZeroThenWrite(drive: Bytes, p: nat, piece: Bytes)
    requires |piece| <= 256
    ensures Write(Write(drive, p, Zeros(256)), p, piece) == Write(drive, p, piece + Zeros(256 - |piece|))
  {
    hide Write;
    SameBytes(Write(Write(drive, p, Zeros(256)), p, piece), Write(drive, p, piece + Zeros(256 - |piece|)));
  }

  lemma ChunkIsPadded(data: Bytes, j: nat)
    requires 256 * j <= |data|
    ensures var left := |data| - 256 * j;
            var piece := data[256 * j..][..if left < 256 then left else 256];
            Chunk(data, j) == piece + Zeros(256 - |piece|)
  {
    var left := |data| - 256 * j;
    var piece := data[256 * j..][..if left < 256 then left else 256];
    var padded := piece + Zeros(256 - |piece|);
    forall x | 0 <= x < 256 ensures Chunk(data, j)[x] == padded[x] {
      assert Chunk(data, j)[x] == At(data, 256 * j + x);
    }
    assert Chunk(data, j) == padded;
  }

  lemma NonZeroFirst(x: nat, s: seq<nat>)
    ensures NonZero([x] + s) == (if x == 0 then [] else [x]) + NonZero(s)
  {
    assert ([x] + s)[1..] == s;
  }

  lemma {:induction false} NonZeroAppend(s: seq<nat>, x: nat)
    ensures NonZero(s + [x]) == NonZero(s) + if x == 0 then [] else [x]
  {
    if s == [] {
      NonZeroFirst(x, []);
      assert s + [x] == [x] + [];
    } else {
      hide NonZero;
      var y, rest := s[0], s[1..];
      NonZeroAppend(rest, x);
      NonZeroFirst(y, rest);
      NonZeroFirst(y, rest + [x]);
      assert s == [y] + rest && s + [x] == [y] + (rest + [x]);
    }
  }

  lemma {:induction false} EntriesAppend(drive: Bytes, n: nat, bs: seq<nat>, b: nat)
    ensures EntriesIn(drive, n, bs + [b]) == EntriesIn(drive, n, bs) + Decode(Block(drive, n, b))
  {
    if bs == [] {
      assert bs + [b] == [b];
      EntriesOfOne(drive, n, [b]);
    } else {
      assert (bs + [b])[1..] == bs[1..] + [b];
      EntriesAppend(drive, n, bs[1..], b);
    }
  }

  /** The blocks of the first j slots, as the loops over the slots count them. */
  function FirstBlocks(i: Inode, j: nat): seq<nat>
    requires j <= |i.blocks|
  {
    (if i.self == ROOT_SELF then [0] else []) + NonZero(i.blocks[..j])
  }

  lemma FirstBlocksNext(i: Inode, j: nat)
    requires j < |i.blocks|
    ensures FirstBlocks(i, j + 1) == FirstBlocks(i, j) + if i.blocks[j] == 0 then [] else [i.blocks[j]]
    ensures FirstBlocks(i, 0) == if i.self == ROOT_SELF then [0] else []
    ensures FirstBlocks(i, |i.blocks|) == BlocksOf(i)
  {
    assert i.blocks[..j + 1] == i.blocks[..j] + [i.blocks[j]];
    NonZeroAppend(i.blocks[..j], i.blocks[j]);
    assert i.blocks[..|i.blocks|] == i.blocks;
  }

  lemma ClearNext(bitmap: seq<bool>, bs: seq<nat>, b: nat)
    requires b < |bitmap|
    ensures Clear(bitmap, bs)[b := false] == Clear(bitmap, bs + [b])
  {
  }

  // ---------- Facts about a new image ----------

  lemma {:induction false} ZerosAreZero(k: nat)
    ensures Number(Zeros(k)) == 0
  {
    if k > 0 {
      ZerosAreZero(k - 1);
      assert Zeros(k)[1..] == Zeros(k - 1);
    }
  }

  lemma ZerosWithin(n: nat, j: nat, k: nat)
    requires j + k <= n
    ensures Number(Zeros(n)[j..j + k]) == 0
  {
    assert Zeros(n)[j..j + k] == Zeros(k);
    ZerosAreZero(k);
  }

  lemma ParseZeros()
    ensures ParseRecord(Zeros(121)) == Inode(0, 0, 0, NoSlots())
  {
    hide Number;
    var p := ParseRecord(Zeros(121));
    ZerosWithin(121, 1, 8);
    ZerosWithin(121, 9, 8);
    forall j | 0 <= j < 10 ensures p.blocks[j] == 0 {
      ZerosWithin(121, 17 + 8 * j, 8);
    }
    assert p.blocks == NoSlots();
  }

  /** The writes before the root's record leave the superblock and zeros. */
  lemma ImageBytes(size: nat, superblock: Bytes)
    requires 80 <= size < 0x1000_0000_0000_0000 && Format(size).Some? && |superblock| == 70
    ensures Write(Write(Write(Write([], size, [NUL]), 0, superblock), 70, Zeros(266)), 336,
                  Zeros(Format(size).value.totalInodes * 256))
         == superblock + Zeros(size - 69)
  {
    FormatIsDisjoint(size);
    hide Write, Format;
    var n := Format(size).value.totalInodes;
    SameBytes(Write(Write(Write(Write([], size, [NUL]), 0, superblock), 70, Zeros(266)), 336, Zeros(n * 256)),
              superblock + Zeros(size - 69));
  }

  lemma ImageIs(size: nat, superblock: Bytes)
    requires |superblock| == 70 <= size
    ensures FsRuns.Image(size, superblock) == Write(superblock + Zeros(size - 69), 336, Record(FsRuns.RootInode()))
  {
    assert superblock + seq<Byte>(size - 69, _ => NUL) == superblock + Zeros(size - 69);
  }

  /** What init reads in the place of inode i. */
  lemma FreshRecordAt(size: nat, superblock: Bytes, i: nat)
    requires 80 <= size < 0x1000_0000_0000_0000 && Format(size).Some? && |superblock| == 70
    requires i < Format(size).value.totalInodes
    ensures ParseRecord(FsRecords.RecordAt(FsRuns.Image(size, superblock), i))
         == if i == 0 then FsRuns.RootInode() else Inode(0, 0, 0, NoSlots())
  {
    hide ParseRecord, Record, Write;
    var r := FsRecords.RecordAt(FsRuns.Image(size, superblock), i);
    if i == 0 {
      assert r == Record(FsRuns.RootInode());
      ParseRecordInverts(FsRuns.RootInode());
    } else {
      assert r == Zeros(121);
      ParseZeros();
    }
  }

  // ---------- Facts about reading ----------

  function Prepend(text: Bytes, rest: Option<Bytes>): Option<Bytes> {
    if rest.None? then None else Some(text + rest.value)
  }

  lemma PrependTwice(a: Bytes, b: Bytes, rest: Option<Bytes>)
    ensures Prepend(a, Prepend(b, rest)) == Prepend(a + b, rest)
  {
    if rest.Some? {
      assert a + (b + rest.value) == a + b + rest.value;
    }
  }

  lemma PrependNothing(text: Bytes)
    ensures Prepend(text, Some([])) == Some(text) && Prepend(text, None) == None
  {
    assert text + [] == text;
  }

  lemma SingleBlock(drive: Bytes, n: nat, b: nat)
    requires Fetch(drive, Address(n, b)).Some?
    ensures var text := Fetch(drive, Address(n, b)).value;
            text < Block(drive, n, b) && Block(drive, n, b)[|text|] == NUL
  {
    FetchIs(drive, n, b);
  }

  lemma ReadTextStarts(fs: Fs, i: nat)
    requires i < |fs.inodes| && |fs.inodes[i].blocks| == 10
    ensures var blocks := fs.inodes[i].blocks;
            var pos := Address(|fs.inodes|, blocks[0]);
            ReadText(fs, i) ==
              if blocks[0] == 0 then Some([])
              else if Fetch(fs.drive, pos).None? then None
              else Prepend(Fetch(fs.drive, pos).value, ReadOn(fs.drive, blocks, 1, pos + 256))
    ensures var blocks := fs.inodes[i].blocks;
            blocks[0] != 0 && blocks[1] == 0 && ReadText(fs, i).Some? ==>
              var block := Block(fs.drive, |fs.inodes|, blocks[0]);
              ReadText(fs, i).value < block && block[|ReadText(fs, i).value|] == NUL
  {
    hide ReadOn, Fetch, Block, Strlen;
    var blocks := fs.inodes[i].blocks;
    var pos := Address(|fs.inodes|, blocks[0]);
    if blocks[0] != 0 && blocks[1] == 0 && Fetch(fs.drive, pos).Some? {
      StopsAtZero(fs.drive, blocks, pos + 256);
      PrependNothing(Fetch(fs.drive, pos).value);
      SingleBlock(fs.drive, |fs.inodes|, blocks[0]);
    }
  }

  lemma ReadOnNext(drive: Bytes, blocks: seq<nat>, j: nat, cursor: int)
    requires 0 < j < 10 == |blocks|
    ensures var pos := cursor + blocks[j] - blocks[j - 1];
            ReadOn(drive, blocks, j, cursor) ==
              if blocks[j] == 0 then Some([])
              else if Fetch(drive, pos).None? then None
              else Prepend(Fetch(drive, pos).value, ReadOn(drive, blocks, j + 1, pos + 256))
    ensures cursor + blocks[j] < blocks[j - 1] ==> Fetch(drive, cursor + blocks[j] - blocks[j - 1]).None?
    ensures forall text :: Prepend(text, None) == None
  {
  }

  lemma ReadOnEnd(drive: Bytes, blocks: seq<nat>, cursor: int)
    requires |blocks| == 10
    ensures ReadOn(drive, blocks, 10, cursor) == Some([])
  {
  }

  // ---------- Facts about the operations ----------

  lemma TopIsFreeOrRoot(fs: Fs)
    requires Inv(fs)
    ensures var t := Top(fs, |fs.inodes|);
            t.Some? && if HasFree(fs) then
              0 < t.value && fs.inodes[t.value].kind == 0
              && forall i :: 0 <= i < |fs.inodes| && fs.inodes[i].kind == 0 ==> i <= t.value
            else t.value == 0
  {
    if HasFree(fs) {
      FindsLargestFree(fs);
    } else {
      FindsRootOtherwise(fs);
    }
  }

  lemma DropNothing(s: Bytes)
    ensures Drop(s, 0) == s && [] + Decode(Drop(s, 0)) == Decode(s)
  {
  }

  lemma DropTwice(s: Bytes, m: nat, n: nat)
    ensures Drop(Drop(s, m), n) == Drop(s, m + n)
  {
  }

  lemma DecodeUnfold(s: Bytes)
    ensures var l := Strlen(s);
            var t := Drop(s, l + 1);
            var m := Strlen(t);
            Decode(s) == if l == 0 || m == 0 then [] else [Entry(s[..l], Parse(t[..m]))] + Decode(Drop(t, m + 1))
  {
    hide Parse, Drop, Strlen;
  }

  /** One entry of a block, from position p. */
  lemma DecodeNext(block: Bytes, p: nat, dir: seq<Entry>)
    ensures var s := Drop(block, p);
            var l := Strlen(s);
            var t := Drop(block, p + l + 1);
            var m := Strlen(t);
            if l == 0 || m == 0 then dir + Decode(s) == dir
            else
              && dir + Decode(s) == dir + [Entry(s[..l], Parse(t[..m]))] + Decode(Drop(block, p + l + 1 + m + 1))
              && |Drop(block, p + l + 1 + m + 1)| < |s|
  {
    hide Parse, Decode, Drop, Strlen;
    var s := Drop(block, p);
    var l := Strlen(s);
    DropTwice(block, p, l + 1);
    var t := Drop(block, p + l + 1);
    var m := Strlen(t);
    DropTwice(block, p + l + 1, m + 1);
    DecodeUnfold(s);
    if l == 0 || m == 0 {
      assert dir + [] == dir;
    } else {
      var e, rest := Entry(s[..l], Parse(t[..m])), Decode(Drop(block, p + l + 1 + m + 1));
      assert dir + ([e] + rest) == dir + [e] + rest;
    }
  }

  /** What mkdir and touch need on their way. */
  lemma CreateParts(fs: Fs, d: nat, name: Bytes, kind: nat)
    requires Inv(fs) && CanCreate(fs, d, name) && (kind == 1 || kind == 2)
    ensures Shape(fs) && d < |fs.inodes| && Top(fs, |fs.inodes|).Some? && Inv(Create(fs, d, name, kind))
    ensures var k := Top(fs, |fs.inodes|).value;
            var self := fs.inodes[d].self;
            var t := Take(fs, k, kind, if kind == 2 && self == ROOT_SELF then 0 else self);
            && k != d && Sound(t)
            && |Encode(Entries(t, d) + [Entry(name, t.inodes[k].self)])| <= 2560
            && |Insert(t, d, name, k).inodes[k].blocks| == 10
  {
    hide Sound, Encode, EntriesIn, NonZero, Live, Ordered, Unique, Top, Insert, CountFree, Commit, HasFree,
         Create, Created;
    CreateKeeps(fs, d, name, kind);
    FindsLargestFree(fs);
    var k := Top(fs, |fs.inodes|).value;
    var self := fs.inodes[d].self;
    var parent := if kind == 2 && self == ROOT_SELF then 0 else self;
    ShapeOf(fs);
    TakeKeeps(fs, k, kind, parent);
    assert Fits(Entries(fs, d) + [Entry(name, k)]);
    assert Entries(Take(fs, k, kind, parent), d) == Entries(fs, d);
    CreateSteps(fs, d, name, kind, parent);
  }

  lemma TakenIs(fs: Fs, t: Fs, k: nat, kind: nat, parent: nat)
    requires k < |fs.inodes| && t.drive == fs.drive && t.bitmap == fs.bitmap && t.queue == fs.queue - {k}
    requires |t.inodes| == |fs.inodes| && t.inodes[k] == fs.inodes[k].(kind := kind, parent := parent)
    requires forall i :: 0 <= i < |fs.inodes| && i != k ==> t.inodes[i] == fs.inodes[i]
    ensures t == Take(fs, k, kind, parent)
  {
    assert t.inodes == Take(fs, k, kind, parent).inodes;
  }

  lemma InvIsSound(fs: Fs)
    requires Inv(fs)
    ensures Sound(fs)
  {
  }

  lemma ListedIndex(fs: Fs, d: nat, p: nat)
    requires Inv(fs) && d < |fs.inodes| && fs.inodes[d].kind == 2 && p < |Entries(fs, d)|
    ensures 0 < Entries(fs, d)[p].index < |fs.inodes|
  {
    hide Entries;
    assert Entries(fs, d)[p] in View(fs)[d];
    assert Child(View(fs), d, Entries(fs, d)[p].index);
  }

  lemma NameFound(dir: seq<Entry>, name: Bytes, p: nat)
    requires p < |dir| && dir[p].name == name && forall q :: 0 <= q < p ==> dir[q].name != name
    ensures NamePosition(dir, name) == p
  {
  }

  lemma FoundAt(fs: Fs, d: nat, k: nat, p: nat)
    requires Inv(fs) && d < |fs.inodes| && 0 < k < |fs.inodes| && fs.inodes[d].kind == 2
    requires var dir := Entries(fs, d);
             p < |dir| && dir[p].index == k && forall q :: 0 <= q < p ==> dir[q].index != k
    ensures var dir := Entries(fs, d);
            Without(dir, k) == dir[..p] + dir[p + 1..] && Position(dir, k) < |dir|
    ensures Child(View(fs), d, k)
  {
    hide Entries, Inv;
    var dir := Entries(fs, d);
    WithoutAt(dir, k, p);
    assert dir[p] in dir && Position(dir, k) < |dir|;
    assert dir[p] in View(fs)[d];
  }

  lemma NotFound(fs: Fs, d: nat, k: nat)
    requires Inv(fs) && d < |fs.inodes| && 0 < k < |fs.inodes| && fs.inodes[d].kind == 2
    requires var dir := Entries(fs, d); forall q :: 0 <= q < |dir| ==> dir[q].index != k
    ensures Rm(fs, d, k) == fs && !Child(View(fs), d, k)
  {
    hide Entries;
    RemoveParts(fs, d, k);
    assert Position(Entries(fs, d), k) == |Entries(fs, d)|;
  }

  // ---------- Facts about the loop of write_file ----------

  /** The loop of write_file is at position b of the bitmap, has taken some of the blocks bs and needs more. */
  ghost predicate Filling(purged: seq<bool>, bs: seq<nat>, taken: seq<nat>, b: nat, size: nat) {
    && b <= |purged| && |taken| < Need(size) <= 10
    && bs == taken + FirstFree(purged, b, Need(size) - |taken|)
    && forall c <- taken :: c < b
  }

  lemma WriteFileParts(fs: Fs, i: nat, data: Bytes)
    requires i < |fs.inodes|
    ensures var p, bs := Purge(fs, i), Allocated(fs, i, |data|);
            var inode := fs.inodes[i].(blocks := Slots(bs));
            && bs == FirstFree(p.bitmap, 0, Need(|data|)) && |p.bitmap| == |fs.bitmap|
            && p.drive == fs.drive && p.queue == fs.queue
            && p.inodes == fs.inodes[i := fs.inodes[i].(blocks := NoSlots())]
            && WriteFile(fs, i, data)
            == Fs(WriteInode(WriteBlocks(fs.drive, |fs.inodes|, bs, 0, data), inode),
                  fs.inodes[i := inode], Set(p.bitmap, bs), fs.queue)
  {
  }

  lemma UpdateTwice(inodes: seq<Inode>, i: nat, a: Inode, b: Inode)
    requires i < |inodes|
    ensures inodes[i := a][i := b] == inodes[i := b]
  {
  }

  lemma RestNext(data: Bytes, j: nat)
    requires 256 * j + 256 <= |data|
    ensures data[256 * j..][256..] == data[256 * (j + 1)..]
  {
  }

  lemma FillStart(purged: seq<bool>, size: nat)
    requires size <= 2560
    ensures Filling(purged, FirstFree(purged, 0, Need(size)), [], 0, size)
    ensures Slots([]) == NoSlots() && Set(purged, []) == purged
  {
    assert [] + FirstFree(purged, 0, Need(size)) == FirstFree(purged, 0, Need(size));
  }

  lemma FirstFreeTakes(purged: seq<bool>, b: nat, need: nat)
    requires b < |purged| && !purged[b] && 0 < need
    ensures FirstFree(purged, b, need) == [b] + FirstFree(purged, b + 1, need - 1)
  {
  }

  /** The text is used up after the last block that it needs, and not before. */
  lemma NeedLeft(size: nat, j: nat)
    requires j < Need(size)
    ensures 256 * (j + 1) < size <==> j + 1 < Need(size)
  {
  }

  lemma FillTake(purged: seq<bool>, bs: seq<nat>, taken: seq<nat>, b: nat, size: nat)
    requires Filling(purged, bs, taken, b, size) && b < |purged| && !purged[b]
    ensures |taken| < |bs| && bs[|taken|] == b
    ensures if 256 * (|taken| + 1) < size then Filling(purged, bs, taken + [b], b + 1, size) else bs == taken + [b]
  {
    hide FirstFree, Need;
    var need := Need(size) - |taken|;
    var rest := FirstFree(purged, b + 1, need - 1);
    FirstFreeTakes(purged, b, need);
    assert bs == taken + [b] + rest;
    NeedLeft(size, |taken|);
    assert need == 1 ==> rest == [] && taken + [b] + [] == taken + [b];
    assert forall c <- taken + [b] :: c < b + 1;
  }

  lemma FillNext(purged: seq<bool>, bs: seq<nat>, taken: seq<nat>, b: nat, size: nat)
    requires Filling(purged, bs, taken, b, size) && b < |purged|
    ensures Set(purged, taken)[b] == purged[b] && |taken| < 10
    ensures purged[b] ==> Filling(purged, bs, taken, b + 1, size)
    ensures !purged[b] ==>
              && |taken| < |bs| && bs[|taken|] == b
              && Set(purged, taken)[b := true] == Set(purged, taken + [b])
              && Slots(taken)[|taken| := b] == Slots(taken + [b])
              && if 256 * (|taken| + 1) < size then Filling(purged, bs, taken + [b], b + 1, size)
                 else bs == taken + [b]
  {
    if !purged[b] {
      FillTake(purged, bs, taken, b, size);
    }
  }

  lemma FillEnd(purged: seq<bool>, bs: seq<nat>, taken: seq<nat>, b: nat, size: nat)
    requires b == |purged| && (Filling(purged, bs, taken, b, size) || bs == taken)
    ensures bs == taken
  {
  }

  lemma BlocksLeft(drive: Bytes, n: nat, bs: seq<nat>, j: nat, data: Bytes)
    requires j <= |bs|
    ensures WriteBlocks(drive, n, bs, j, data)
         == if j == |bs| then drive
            else WriteBlocks(Write(drive, Address(n, bs[j]), Chunk(data, j)), n, bs, j + 1, data)
  {
  }

  lemma {:induction false} InNonZero(s: seq<nat>, j: nat)
    requires j < |s| && s[j] != 0
    ensures s[j] in NonZero(s)
  {
    if j > 0 {
      InNonZero(s[1..], j - 1);
    }
  }

  lemma SlotInRange(inode: Inode, j: nat)
    requires j < |inode.blocks| && inode.blocks[j] != 0
    ensures inode.blocks[j] in BlocksOf(inode)
  {
    InNonZero(inode.blocks, j);
  }

  // ---------- The instance ----------

  class Instance {
    /** The image and the position of the next read or write in it. */
    var drive: Bytes
    var cursor: nat
    var inodes: seq<Inode>
    var bitmap: seq<bool>
    var queue: set<nat>

    function State(): Fs
      reads this
    {
      Fs(drive, inodes, bitmap, queue)
    }

    /** createDriveImage: an empty file of the given size, the superblock, zeros up to the data blocks, and the
        record of the root in the place of inode 0. */
    constructor CreateDriveImage(size: nat, superblock: Bytes)
      requires 80 <= size < 0x1000_0000_0000_0000 && Format(size).Some? && |superblock| == 70
      ensures drive == FsRuns.Image(size, superblock)
      ensures inodes == [] && bitmap == [] && queue == {}
    {
      drive, cursor, inodes, bitmap, queue := [], 0, [], [], {};
      new;
      hide Write, Record, Format, FsRuns.Image;
      WriteBlank(size, superblock, Format(size).value.totalInodes);
      ImageBytes(size, superblock);
      ImageIs(size, superblock);
      Seek(336);
      FWrite(Record(FsRuns.RootInode()));
    }

    /** The image before the root is made: its last byte, the superblock, zeros up to the data blocks. */
    method WriteBlank(size: nat, superblock: Bytes, totalInodes: nat)
      requires |superblock| == 70
      modifies this`drive, this`cursor
      ensures drive == Write(Write(Write(Write(old(drive), size, [NUL]), 0, superblock), 70, Zeros(266)), 336,
                             Zeros(totalInodes * 256))
    {
      hide Write, Zeros;
      Seek(size);
      FWrite([NUL]);
      Seek(0);
      FWrite(superblock);
      WriteZeros(266);
      WriteZeros(totalInodes * 256);
    }

    /** init: all records are read, the inodes queued, and block 0 is taken for the root. */
    method Init(size: nat, superblock: Bytes)
      requires 80 <= size < 0x1000_0000_0000_0000 && Format(size).Some? && |superblock| == 70
      requires drive == FsRuns.Image(size, superblock) && inodes == [] && bitmap == [] && queue == {}
      modifies this`cursor, this`inodes, this`bitmap, this`queue
      ensures State() == FsRuns.Fresh(size, superblock)
    {
      hide FsRuns.Image, ParseRecord, FsRecords.RecordAt;
      var g := Format(size).value;
      bitmap := seq(g.totalData, _ => false);
      bitmap := bitmap[0 := true];
      assert bitmap == FsRuns.Fresh(size, superblock).bitmap;
      for i := 0 to g.totalInodes
        invariant inodes == FsRuns.Fresh(size, superblock).inodes[..i] && queue == FsRuns.IndicesBelow(i)
        invariant bitmap == FsRuns.Fresh(size, superblock).bitmap
      {
        Seek(336 + i * 256);
        var inode := ParseRecord(FsRecords.RecordAt(drive, i));
        FreshRecordAt(size, superblock, i);
        if inode.kind == 0 {
          inode := inode.(self := i);
        } else {
          assert inode.blocks[0] == 0;  // no block but block 0 is in use yet
        }
        inodes := inodes + [inode];
        queue := queue + {i};
      }
      ghost var first := FsRuns.Fresh(size, superblock);
      assert first.inodes[..g.totalInodes] == first.inodes;
    }

    // ---------- The drive ----------

    method Seek(position: nat)
      modifies this`cursor
      ensures cursor == position
    {
      cursor := position;
    }

    method FWrite(data: Bytes)
      modifies this`drive, this`cursor
      ensures drive == Write(old(drive), old(cursor), data) && cursor == old(cursor) + |data|
    {
      drive := Write(drive, cursor, data);
      cursor := cursor + |data|;
    }

    /** purge: zeros, in pieces of at most 4096 bytes. */
    method WriteZeros(length: nat)
      modifies this`drive, this`cursor
      ensures drive == Write(old(drive), old(cursor), Zeros(length)) && cursor == old(cursor) + length
    {
      hide Write, Zeros;
      var rest: nat := length;
      assert Write(drive, cursor, Zeros(0)) == drive by { WriteNothing(drive, cursor); }
      while rest > 4096
        invariant rest <= length && cursor == old(cursor) + length - rest
        invariant drive == Write(old(drive), old(cursor), Zeros(length - rest))
      {
        WriteOnward(old(drive), old(cursor), Zeros(length - rest), Zeros(4096));
        ZerosConcat(length - rest, 4096);
        FWrite(Zeros(4096));
        rest := rest - 4096;
      }
      while rest != 0
        invariant rest <= length && cursor == old(cursor) + length - rest
        invariant drive == Write(old(drive), old(cursor), Zeros(length - rest))
      {
        WriteOnward(old(drive), old(cursor), Zeros(length - rest), Zeros(rest));
        ZerosConcat(length - rest, rest);
        FWrite(Zeros(rest));
        rest := rest - rest;
      }
    }

    method WriteInodeRecord(i: nat)
      requires i < |inodes| && |inodes[i].blocks| == 10
      modifies this`drive, this`cursor
      ensures drive == WriteInode(old(drive), inodes[i])
    {
      Seek(RecordAddress(inodes[i].self));
      FWrite(Record(inodes[i]));
    }

    // ---------- Files ----------

    method PurgeFileContents(i: nat)
      requires i < |inodes| && |inodes[i].blocks| == 10
      requires forall b <- Blocks(State(), i) :: b < |bitmap|
      modifies this`bitmap, this`inodes
      ensures State() == Purge(old(State()), i)
    {
      ghost var was := bitmap;
      var inode := inodes[i];
      assert Blocks(State(), i) == BlocksOf(inode);
      FirstBlocksNext(inode, 0);
      if inode.self == ROOT_SELF {
        assert 0 in BlocksOf(inode);
        ClearNext(bitmap, [], 0);
        assert Clear(bitmap, []) == bitmap && [] + [0] == [0];
        bitmap := bitmap[0 := false];
      }
      assert bitmap == Clear(was, FirstBlocks(inode, 0));
      for j := 0 to 10
        invariant |bitmap| == |was| && bitmap == Clear(was, FirstBlocks(inode, j))
        invariant inodes == old(inodes)
      {
        FirstBlocksNext(inode, j);
        if inode.blocks[j] != 0 {
          SlotInRange(inode, j);
          ClearNext(was, FirstBlocks(inode, j), inode.blocks[j]);
          bitmap := bitmap[inode.blocks[j] := false];
        }
      }
      FirstBlocksNext(inode, 9);
      inodes := inodes[i := inode.(blocks := NoSlots())];
    }

    /** write_data_block: the block is zeroed first. */
    method WriteDataBlock(b: nat, ghost data: Bytes, ghost j: nat, piece: Bytes)
      requires 256 * j <= |data|
      requires piece == data[256 * j..][..if |data| - 256 * j < 256 then |data| - 256 * j else 256]
      modifies this`drive, this`cursor
      ensures drive == Write(old(drive), Address(|inodes|, b), Chunk(data, j))
    {
      hide Write, Chunk, Zeros;
      ZeroThenWrite(drive, Address(|inodes|, b), piece);
      ChunkIsPadded(data, j);
      Seek(Address(|inodes|, b));
      WriteZeros(256);
      Seek(cursor - 256);
      FWrite(piece);
    }

    /** The next piece of a text goes to block b; the rest of the text is what remains to be written. */
    method WriteChunk(b: nat, ghost data: Bytes, ghost j: nat, text: Bytes, length: nat)
      returns (rest: Bytes, size: nat)
      requires 256 * j <= |data| && text == data[256 * j..] && length == |data| - 256 * j
      modifies this`drive, this`cursor
      ensures drive == Write(old(drive), Address(|inodes|, b), Chunk(data, j))
      ensures size == if 256 * (j + 1) < |data| then |data| - 256 * (j + 1) else 0
      ensures size > 0 ==> rest == data[256 * (j + 1)..]
    {
      hide Write, Chunk, Address;
      var chunk := if length < 256 then length else 256;
      size := length - chunk;
      WriteDataBlock(b, data, j, text[..chunk]);
      if size > 0 {
        RestNext(data, j);
      }
      rest := text[chunk..];
    }

    /** The loop of write_file: first fit over the bitmap, block by block. */
    method FillBlocks(emptied: Inode, data: Bytes) returns (inode: Inode)
      requires emptied.blocks == NoSlots() && |data| <= 2560
      modifies this`drive, this`cursor, this`bitmap
      ensures var bs := FirstFree(old(bitmap), 0, Need(|data|));
              && inode == emptied.(blocks := Slots(bs))
              && bitmap == Set(old(bitmap), bs)
              && drive == WriteBlocks(old(drive), |inodes|, bs, 0, data)
    {
      hide Write, Chunk, Set, Slots, Address, Need, WriteBlocks, Filling, FirstFree, NoSlots;
      ghost var free, image := bitmap, drive;
      ghost var bs := FirstFree(free, 0, Need(|data|));
      inode := emptied;
      var rest, size, j := data, |data|, 0;
      ghost var taken: seq<nat> := [];
      FillStart(free, |data|);
      var b := 0;
      while b < |bitmap|
        invariant b <= |bitmap| == |free| && j == |taken| <= |bs| && Filling(free, bs, taken, b, |data|)
        invariant 256 * j <= |data| && rest == data[256 * j..] && size == |data| - 256 * j
        invariant bitmap == Set(free, taken) && inode == emptied.(blocks := Slots(taken))
        invariant WriteBlocks(image, |inodes|, bs, 0, data) == WriteBlocks(drive, |inodes|, bs, j, data)
        decreases |bitmap| - b
      {
        FillNext(free, bs, taken, b, |data|);
        if !bitmap[b] {
          BlocksLeft(drive, |inodes|, bs, j, data);
          bitmap := bitmap[b := true];
          rest, size := WriteChunk(b, data, j, rest, size);
          inode := inode.(blocks := inode.blocks[j := b]);
          j := j + 1;
          taken := taken + [b];
          if size == 0 {
            break;
          }
        }
        b := b + 1;
      }
      if b == |bitmap| {
        FillEnd(free, bs, taken, b, |data|);
      }
      BlocksLeft(drive, |inodes|, bs, j, data);
    }

    /** write_file on an inode. */
    method WriteText(i: nat, data: Bytes)
      requires i < |inodes| && |inodes[i].blocks| == 10 && |data| <= 2560
      requires forall b <- Blocks(State(), i) :: b < |bitmap|
      modifies this`drive, this`cursor, this`bitmap, this`inodes
      ensures State() == WriteFile(old(State()), i, data)
    {
      hide Write, Record, Set, Clear, Slots, Need, WriteBlocks, BlocksOf, FirstFree, Purge, WriteFile, Allocated,
           WriteInode, NoSlots, Blocks;
      ghost var was := State();
      WriteFileParts(was, i, data);
      PurgeFileContents(i);
      var inode := FillBlocks(inodes[i], data);
      UpdateTwice(was.inodes, i, inodes[i], inode);
      inodes := inodes[i := inode];
      WriteInodeRecord(i);
    }

    /** One fread of a block into the buffer, appended as a C string: None when the read is cut short or the
        buffer holds no terminator. */
    method FetchBlock() returns (piece: Option<Bytes>)
      modifies this`cursor
      ensures piece == Fetch(drive, old(cursor)) && cursor == old(cursor) + 256
    {
      piece := Fetch(drive, cursor);
      cursor := cursor + 256;
    }

    /** read_file on an inode. What comes back is what stands before the first NUL of each block that the loop
        lands on; a file whose only block holds a text and a NUL gives that text. */
    method ReadFile(i: nat) returns (data: Option<Bytes>)
      requires i < |inodes| && |inodes[i].blocks| == 10
      modifies this`cursor
      ensures data == ReadText(State(), i)
      ensures data.Some? ==> NUL !in data.value
      ensures inodes[i].blocks[0] != 0 && inodes[i].blocks[1] == 0 && data.Some? ==>
                var block := Block(drive, |inodes|, inodes[i].blocks[0]);
                data.value < block && block[|data.value|] == NUL
    {
      hide Fetch, ReadOn, ReadText, Address, Block, Prepend;
      ReadTextStarts(State(), i);
      var blocks := inodes[i].blocks;
      if blocks[0] == 0 {
        return Some([]);
      }
      Seek(Address(|inodes|, blocks[0]));
      var piece := FetchBlock();
      if piece.None? {
        return None;
      }
      var text := piece.value;
      for j := 1 to 10
        invariant j > 1 ==> blocks[1] != 0
        invariant j == 1 ==> text == piece.value
        invariant ReadText(State(), i) == Prepend(text, ReadOn(drive, blocks, j, cursor))
      {
        ReadOnNext(drive, blocks, j, cursor);
        if blocks[j] == 0 {
          PrependNothing(text);
          return Some(text);
        }
        if cursor + blocks[j] < blocks[j - 1] {
          return None;
        }
        Seek(cursor + blocks[j] - blocks[j - 1]);
        var next := FetchBlock();
        if next.None? {
          return None;
        }
        PrependTwice(text, next.value, ReadOn(drive, blocks, j + 1, cursor));
        text := text + next.value;
      }
      ReadOnEnd(drive, blocks, cursor);
      PrependNothing(text);
      return Some(text);
    }

    // ---------- Directories ----------

    /** The walk of get_dir_entry over one block. */
    static method ReadEntries(block: Bytes) returns (dir: seq<Entry>)
      ensures dir == Decode(block)
    {
      hide Decode, Drop, Strlen, Parse;
      dir := [];
      var p := 0;
      DropNothing(block);
      var l := Strlen(Drop(block, p));
      while l > 0
        invariant 0 <= p && l == Strlen(Drop(block, p))
        invariant dir + Decode(Drop(block, p)) == Decode(block)
        decreases |Drop(block, p)|
      {
        DecodeNext(block, p, dir);
        var name := Drop(block, p)[..l];
        p := p + l + 1;
        l := Strlen(Drop(block, p));
        if l == 0 {
          return dir;
        }
        var address := Drop(block, p)[..l];
        p := p + l + 1;
        dir := dir + [Entry(name, Parse(address))];
        l := Strlen(Drop(block, p));
      }
      DecodeNext(block, p, dir);
    }

    method GetDirEntry(i: nat) returns (dir: seq<Entry>)
      requires i < |inodes| && |inodes[i].blocks| == 10
      requires inodes[i].self == ROOT_SELF ==> inodes[i].blocks[0] == 0
      ensures dir == Entries(State(), i)
    {
      hide Block, Decode;
      dir := [];
      var inode := inodes[i];
      for j := 0 to 10
        invariant dir == if j == 0 then [] else EntriesIn(drive, |inodes|, FirstBlocks(inode, j))
      {
        FirstBlocksNext(inode, j);
        if inode.blocks[j] != 0 || (inode.self == ROOT_SELF && j == 0) {
          var found := ReadEntries(Block(drive, |inodes|, inode.blocks[j]));
          if j == 0 {
            EntriesOfOne(drive, |inodes|, [inode.blocks[j]]);
            assert FirstBlocks(inode, 1) == [inode.blocks[j]];
            assert [] + found == found;
          } else {
            EntriesAppend(drive, |inodes|, FirstBlocks(inode, j), inode.blocks[j]);
          }
          dir := dir + found;
        } else {
          NoEntries(drive, |inodes|);
          assert FirstBlocks(inode, j) + [] == FirstBlocks(inode, j);
        }
      }
      FirstBlocksNext(inode, 9);
    }

    /** find_inode takes the queued inode that no other outranks: the free one with the largest index while there
        is one, and the root when there is none. */
    method FindInode() returns (k: nat)
      requires Top(State(), |inodes|).Some?
      modifies this`queue
      ensures k < |inodes| && Some(k) == Top(old(State()), |inodes|)
      ensures k in old(queue) && queue == old(queue) - {k}
      ensures forall i :: 0 <= i < |inodes| && i in old(queue) ==> !Below(inodes[k], inodes[i])
      ensures old(Inv(State())) ==>
                if old(HasFree(State())) then
                  0 < k && inodes[k].kind == 0 && forall i :: 0 <= i < |inodes| && inodes[i].kind == 0 ==> i <= k
                else k == 0
    {
      hide Inv, Top;
      if Inv(State()) {
        TopIsFreeOrRoot(State());
      }
      k := Top(State(), |inodes|).value;
      queue := queue - {k};
    }

    method InsertDirEntry(d: nat, name: Bytes, k: nat)
      requires Sound(State()) && d < |inodes| && k < |inodes|
      requires |Encode(Entries(State(), d) + [Entry(name, inodes[k].self)])| <= 2560
      modifies this`drive, this`cursor, this`bitmap, this`inodes
      ensures State() == Insert(old(State()), d, name, k)
    {
      hide Sound, Entries, Encode, WriteFile;
      SoundParts(State(), d);
      var dir := GetDirEntry(d);
      dir := dir + [Entry(name, inodes[k].self)];
      var text := Serialize(dir);
      WriteText(d, text);
    }

    method Mkdir(d: nat, name: Bytes)
      requires Inv(State()) && CanCreate(State(), d, name)
      modifies this
      ensures Inv(State()) && Shape(old(State())) && d < |old(inodes)| && Top(old(State()), |old(inodes)|).Some?
      ensures State() == Create(old(State()), d, name, 2)
    {
      hide Inv, CanCreate, Sound, Insert, Entries, Encode, WriteInode, Shape;
      CreateParts(State(), d, name, 2);
      ghost var was := State();
      var self := inodes[d].self;
      var k := FindInode();
      inodes := inodes[k := inodes[k].(kind := 2)];
      if self == ROOT_SELF {
        inodes := inodes[k := inodes[k].(parent := 0)];
      } else {
        inodes := inodes[k := inodes[k].(parent := self)];
      }
      TakenIs(was, State(), k, 2, if self == ROOT_SELF then 0 else self);
      InsertDirEntry(d, name, k);
      WriteInodeRecord(k);
      queue := queue + {k};
    }

    method Touch(d: nat, name: Bytes) returns (k: nat)
      requires Inv(State()) && CanCreate(State(), d, name)
      modifies this
      ensures Inv(State()) && Shape(old(State())) && d < |old(inodes)| && Some(k) == Top(old(State()), |old(inodes)|)
      ensures State() == Create(old(State()), d, name, 1)
    {
      hide Inv, CanCreate, Sound, Insert, Entries, Encode, WriteInode, Shape;
      CreateParts(State(), d, name, 1);
      ghost var was := State();
      var self := inodes[d].self;
      k := FindInode();
      inodes := inodes[k := inodes[k].(parent := self)];
      inodes := inodes[k := inodes[k].(kind := 1)];
      TakenIs(was, State(), k, 1, self);
      InsertDirEntry(d, name, k);
      WriteInodeRecord(k);
    }

    /** rm of an inode. What a directory lists has smaller indices than it, so the recursion ends. */
    method Remove(d: nat, k: nat) returns (found: bool)
      requires Inv(State()) && d < |inodes| && 0 < k < |inodes| && inodes[d].kind == 2
      modifies this
      ensures |inodes| == |old(inodes)| && Inv(State())
      ensures State() == Rm(old(State()), d, k)
      ensures found <==> Child(View(old(State())), d, k)
      decreases k, 1
    {
      hide Inv, Sound, Entries, Rm, RmEntries, Encode, WriteFile, Purge, Child, View;
      ghost var was := State();
      RemoveParts(was, d, k);
      var dir := GetDirEntry(d);
      for p := 0 to |dir|
        invariant State() == was && forall q :: 0 <= q < p ==> dir[q].index != inodes[k].self
      {
        if dir[p].index == inodes[k].self {
          FoundAt(was, d, k, p);
          if inodes[k].kind == 2 {
            RemoveEntries(k);
          }
          EmptiedParts(was, State(), d, k);
          PurgeFileContents(k);
          dir := dir[..p] + dir[p + 1..];
          var text := Serialize(dir);
          WriteText(d, text);
          return true;
        }
      }
      NotFound(was, d, k);
      return false;
    }

    /** rm of a name. */
    method RemoveNamed(d: nat, name: Bytes)
      requires Inv(State()) && d < |inodes| && inodes[d].kind == 2
      modifies this
      ensures Inv(State()) && State() == RmNamed(old(State()), d, name)
    {
      hide Inv, Entries, Rm;
      ghost var was := State();
      assert Sound(was) by { InvIsSound(was); }
      SoundParts(was, d);
      var dir := GetDirEntry(d);
      for p := 0 to |dir|
        invariant State() == was && forall q :: 0 <= q < p ==> dir[q].name != name
      {
        if dir[p].name == name {
          ListedIndex(was, d, p);
          NameFound(dir, name, p);
          var found := Remove(d, dir[p].index);
          return;
        }
      }
      assert NamePosition(dir, name) == |dir|;
    }

    /** write_file of a name. */
    method WriteNamed(d: nat, name: Bytes, data: Bytes) returns (ok: bool)
      requires Inv(State()) && d < |inodes| && inodes[d].kind == 2 && |data| <= 2560
      requires NamePosition(Entries(State(), d), name) == |Entries(State(), d)| ==> CanCreate(State(), d, name)
      modifies this
      ensures (State(), ok) == FsRuns.WriteNamed(old(State()), d, name, data)
      ensures Inv(State())
    {
      hide Inv, Entries, WriteFile, CanCreate, Create;
      ghost var was := State();
      assert Sound(was) by { InvIsSound(was); }
      SoundParts(was, d);
      var dir := GetDirEntry(d);
      for p := 0 to |dir|
        invariant State() == was && forall q :: 0 <= q < p ==> dir[q].name != name
      {
        if dir[p].name == name {
          ListedIndex(was, d, p);
          NameFound(dir, name, p);
          var i := dir[p].index;
          if inodes[i].kind != 1 {
            return false;
          }
          SoundParts(was, i);
          FsRuns.WriteTextKeeps(was, i, data);
          WriteText(i, data);
          return true;
        }
      }
      assert NamePosition(dir, name) == |dir|;
      CreateKeeps(was, d, name, 1);
      var k := Touch(d, name);
      assert Sound(State()) by { InvIsSound(State()); }
      SoundParts(State(), k);
      FsRuns.WriteTextKeeps(State(), k, data);
      WriteText(k, data);
      return true;
    }

    /** read_file of a name. */
    method ReadNamed(d: nat, name: Bytes) returns (data: Option<Bytes>)
      requires Inv(State()) && d < |inodes| && inodes[d].kind == 2
      modifies this`cursor
      ensures data == FsRuns.ReadNamed(State(), d, name)
    {
      hide Inv, Entries, ReadText;
      assert Sound(State()) by { InvIsSound(State()); }
      SoundParts(State(), d);
      var dir := GetDirEntry(d);
      for p := 0 to |dir|
        invariant forall q :: 0 <= q < p ==> dir[q].name != name
      {
        if dir[p].name == name {
          ListedIndex(State(), d, p);
          NameFound(dir, name, p);
          if inodes[dir[p].index].kind != 1 {
            return Some([]);
          }
          SoundParts(State(), dir[p].index);
          data := ReadFile(dir[p].index);
          return;
        }
      }
      return Some([]);
    }

    /** The loop of rm over the entries of directory k. */
    method RemoveEntries(k: nat)
      requires Inv(State()) && 0 < k < |inodes| && inodes[k].kind == 2
      modifies this
      ensures |inodes| == |old(inodes)| && Inv(State())
      ensures State() == RmEntries(old(State()), k, Entries(old(State()), k))
      decreases k, 0
    {
      hide Inv, Entries, Rm, RmEntries, Child, View;
      ghost var was := State();
      RemoveParts(was, k, k);
      var dir := GetDirEntry(k);
      for p := 0 to |dir|
        invariant |inodes| == |was.inodes| && Inv(State()) && inodes[k].kind == 2
        invariant Entries(State(), k) == dir[p..]
        invariant RmEntries(was, k, dir) == RmEntries(State(), k, dir[p..])
      {
        RemoveStep(State(), k, dir[p..]);
        assert dir[p..][1..] == dir[p + 1..];
        var found := Remove(k, dir[p].index);
      }
      RmNothing(State(), k);
    }
  }
}
