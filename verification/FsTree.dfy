/** Directories on the volume: reading and writing entries, mkdir, touch and the recursive rm, with the
    invariant that every one of them keeps. */
module FsTree {

  import opened FsCodec
  import opened FsVolume
  import opened FsAllocation
  import opened FsForest
  import opened Wrappers

  // ---------- Directories ----------

  /** The entries in some blocks, block by block. */
  function EntriesIn(drive: Bytes, n: nat, bs: seq<nat>): (dir: seq<Entry>)
    ensures Encodable(dir)
  {
    if bs == [] then [] else Decode(Block(drive, n, bs[0])) + EntriesIn(drive, n, bs[1..])
  }

  /** get_dir_entry */
  function Entries(fs: Fs, i: nat): (dir: seq<Entry>)
    requires i < |fs.inodes|
    ensures Encodable(dir)
  {
    EntriesIn(fs.drive, |fs.inodes|, Blocks(fs, i))
  }

  /** What every inode lists: its entries if it is a directory. */
  function View(fs: Fs): (f: Forest)
    ensures |f| == |fs.inodes|
  {
    seq(|fs.inodes|, i requires 0 <= i < |fs.inodes| => if fs.inodes[i].kind == 2 then Entries(fs, i) else [])
  }

  /** A directory's text fits a block, with a NUL to spare. */
  predicate Fits(dir: seq<Entry>) {
    |Encode(dir)| < 256
  }

  // ---------- The invariant ----------

  /** Free inodes are queued and own nothing, and lie below the inodes in use; the root stays queued. */
  ghost predicate Kinds(fs: Fs) {
    && 0 < |fs.inodes| && fs.inodes[0].kind == 2
    && (forall i :: 0 <= i < |fs.inodes| ==> fs.inodes[i].kind <= 2 && fs.inodes[i].parent < UINT64)
    && 0 in fs.queue && (forall q <- fs.queue :: q < |fs.inodes|)
    && (forall i :: 0 <= i < |fs.inodes| && fs.inodes[i].kind == 0 ==> i in fs.queue && Blocks(fs, i) == [])
    && (forall i, k ::
          0 < i < |fs.inodes| && 0 < k < |fs.inodes| && fs.inodes[i].kind != 0 && fs.inodes[k].kind == 0 ==> k < i)
  }

  ghost predicate DirsFit(fs: Fs) {
    forall i :: 0 <= i < |fs.inodes| && fs.inodes[i].kind == 2 ==> |Blocks(fs, i)| <= 1 && Fits(Entries(fs, i))
  }

  ghost predicate Live(fs: Fs) {
    forall d: nat, k: nat :: Child(View(fs), d, k) && k < |fs.inodes| ==> fs.inodes[k].kind != 0
  }

  ghost predicate Inv(fs: Fs) {
    && Sound(fs) && Kinds(fs) && DirsFit(fs) && Live(fs)
    && Ordered(View(fs)) && Unique(View(fs))
  }

  /** Nothing but blocks has changed in the inodes. */
  ghost predicate SameKinds(a: Fs, b: Fs) {
    && |a.inodes| == |b.inodes| && |a.bitmap| == |b.bitmap| && a.queue == b.queue
    && forall i :: 0 <= i < |a.inodes| ==> a.inodes[i] == b.inodes[i].(blocks := a.inodes[i].blocks)
  }

  /** Inode i and what it holds have not changed. */
  ghost predicate Unchanged(a: Fs, b: Fs, i: nat) {
    && |a.inodes| == |b.inodes| && i < |a.inodes| && a.inodes[i] == b.inodes[i]
    && forall c <- Blocks(a, i) :: Block(a.drive, |a.inodes|, c) == Block(b.drive, |b.inodes|, c)
  }

  lemma {:induction false} EntriesDepend(a: Bytes, b: Bytes, n: nat, bs: seq<nat>)
    requires forall c <- bs :: Block(a, n, c) == Block(b, n, c)
    ensures EntriesIn(a, n, bs) == EntriesIn(b, n, bs)
    decreases |bs|
  {
    if bs != [] {
      EntriesDepend(a, b, n, bs[1..]);
    }
  }

  lemma UnchangedContents(a: Fs, b: Fs, i: nat)
    requires Unchanged(a, b, i)
    ensures Contents(a, i) == Contents(b, i) && Entries(a, i) == Entries(b, i)
  {
    ContentsDepend(a, b, i);
    EntriesDepend(a.drive, b.drive, |a.inodes|, Blocks(a, i));
  }

  // ---------- Writing a directory ----------

  lemma EntriesOfOne(drive: Bytes, n: nat, bs: seq<nat>)
    requires |bs| == 1
    ensures EntriesIn(drive, n, bs) == Decode(Block(drive, n, bs[0]))
  {
    assert EntriesIn(drive, n, bs[1..]) == [];
  }

  lemma ChunkOfDirectory(dir: seq<Entry>)
    requires Encodable(dir) && Fits(dir)
    ensures Decode(Chunk(Encode(dir), 0)) == dir
  {
    hide Decode, Encode, Encodable;
    var data := Encode(dir);
    var padding: Bytes := seq<Byte>(256 - |data|, _ => NUL);
    forall x | 0 <= x < 256 ensures Chunk(data, 0)[x] == (data + padding)[x] {
      assert Chunk(data, 0)[x] == At(data, x);
    }
    assert Chunk(data, 0) == data + padding;
    DirectoryRoundTrip(dir, padding);
  }

  /** A directory written with room for it reads back as it was written. */
  lemma WrittenEntries(fs: Fs, d: nat, dir: seq<Entry>)
    requires Sound(fs) && d < |fs.inodes| && Encodable(dir) && Fits(dir)
    requires CountFree(fs.bitmap) + |Blocks(fs, d)| >= 1
    ensures var r := WriteFile(fs, d, Encode(dir));
            |r.inodes| == |fs.inodes| && |Blocks(r, d)| == 1 && Entries(r, d) == dir
  {
    hide WriteFile, Allocated, Sound, CountFree, Block, Chunk, Decode, Encode, Blocks;
    var data := Encode(dir);
    assert Shape(fs) by { SoundIsShaped(fs); }
    SameSizes(fs, d, data);
    AllocatedCount(fs, d, |data|);
    BlocksAfterWrite(fs, d, data, d);
    WriteStores(fs, d, data, 0);
    ChunkOfDirectory(dir);
    var r := WriteFile(fs, d, data);
    EntriesOfOne(r.drive, |fs.inodes|, Allocated(fs, d, |data|));
  }

  lemma WriteKeepsKinds(fs: Fs, i: nat, data: Bytes)
    requires i < |fs.inodes|
    ensures SameKinds(WriteFile(fs, i, data), fs)
  {
  }

  /** Rewriting a directory changes what it lists and nothing else in the tree. */
  lemma WriteDirectory(fs: Fs, d: nat, dir: seq<Entry>)
    requires Sound(fs) && Kinds(fs) && DirsFit(fs)
    requires d < |fs.inodes| && fs.inodes[d].kind == 2 && Encodable(dir) && Fits(dir)
    requires CountFree(fs.bitmap) + |Blocks(fs, d)| >= 1
    ensures var r := WriteFile(fs, d, Encode(dir));
            && Sound(r) && Kinds(r) && DirsFit(r) && SameKinds(r, fs)
            && View(r) == View(fs)[d := dir] && |Blocks(r, d)| == 1
            && forall i :: 0 <= i < |fs.inodes| && i != d ==> Unchanged(r, fs, i)
  {
    hide Block, Encode, Decode, CountFree, Blocks, Entries, Sound, Contents, WriteFile;
    var data := Encode(dir);
    var r := WriteFile(fs, d, data);
    WriteKeepsKinds(fs, d, data);
    WriteKeepsSound(fs, d, data);
    WrittenEntries(fs, d, dir);
    forall i | 0 <= i < |fs.inodes| && i != d
      ensures Unchanged(r, fs, i) && Entries(r, i) == Entries(fs, i) && Blocks(r, i) == Blocks(fs, i)
    {
      BlocksAfterWrite(fs, d, data, i);
      WriteSparesOthers(fs, d, data, i);
      UnchangedContents(r, fs, i);
    }
    assert View(r) == View(fs)[d := dir];
  }

  // ---------- Operations ----------

  /** comp: l ranks below r in the queue. */
  predicate Below(l: Inode, r: Inode) {
    if l.kind == 0 then r.kind == 0 && r.self > l.self else r.kind == 0 || r.self > l.self
  }

  /** The queued inode, of those before m, that no other one outranks. */
  function Top(fs: Fs, m: nat): (r: Option<nat>)
    requires m <= |fs.inodes|
    ensures r.Some? ==> r.value < m && r.value in fs.queue
    ensures r.None? ==> forall i :: 0 <= i < m ==> i !in fs.queue
    ensures r.Some? ==> forall i :: 0 <= i < m && i in fs.queue ==> !Below(fs.inodes[r.value], fs.inodes[i])
  {
    if m == 0 then None
    else
      var t := Top(fs, m - 1);
      if m - 1 !in fs.queue then t
      else if t.None? || Below(fs.inodes[t.value], fs.inodes[m - 1]) then Some(m - 1)
      else t
  }

  predicate HasFree(fs: Fs) {
    exists i :: 0 <= i < |fs.inodes| && fs.inodes[i].kind == 0
  }

  lemma {:induction false} TopIsFree(fs: Fs, m: nat, i: nat)
    requires Shape(fs) && Kinds(fs) && i < m <= |fs.inodes| && fs.inodes[i].kind == 0
    ensures var t := Top(fs, m); t.Some? && fs.inodes[t.value].kind == 0 && i <= t.value
    decreases m
  {
    if i < m - 1 {
      TopIsFree(fs, m - 1, i);
    } else if Top(fs, m - 1).Some? {
      assert i != 0;
    }
  }

  /** find_inode hands out the free inode with the largest index. */
  lemma FindsLargestFree(fs: Fs)
    requires Inv(fs) && HasFree(fs)
    ensures var t := Top(fs, |fs.inodes|);
            && t.Some? && 0 < t.value && fs.inodes[t.value].kind == 0
            && forall i :: 0 <= i < |fs.inodes| && fs.inodes[i].kind == 0 ==> i <= t.value
  {
    var k :| 0 <= k < |fs.inodes| && fs.inodes[k].kind == 0;
    TopIsFree(fs, |fs.inodes|, k);
    forall i | 0 <= i < |fs.inodes| && fs.inodes[i].kind == 0 ensures i <= Top(fs, |fs.inodes|).value {
      TopIsFree(fs, |fs.inodes|, i);
    }
  }

  lemma {:induction false} TopIsRoot(fs: Fs, m: nat)
    requires Shape(fs) && Kinds(fs) && !HasFree(fs) && 0 < m <= |fs.inodes|
    ensures Top(fs, m) == Some(0)
    decreases m
  {
    if m > 1 {
      TopIsRoot(fs, m - 1);
    } else {
      assert Top(fs, 0) == None;
    }
  }

  /** With no free inode left, find_inode hands out the root. */
  lemma FindsRootOtherwise(fs: Fs)
    requires Inv(fs) && !HasFree(fs)
    ensures Top(fs, |fs.inodes|) == Some(0)
  {
    TopIsRoot(fs, |fs.inodes|);
  }

  /** insert_dir_entry */
  function Insert(fs: Fs, d: nat, name: Bytes, k: nat): (r: Fs)
    requires d < |fs.inodes| && k < |fs.inodes|
    ensures |r.inodes| == |fs.inodes|
  {
    WriteFile(fs, d, Encode(Entries(fs, d) + [Entry(name, fs.inodes[k].self)]))
  }

  /** An inode is taken from the queue for a new file or directory. */
  function Take(fs: Fs, k: nat, kind: nat, parent: nat): (r: Fs)
    requires k < |fs.inodes|
    ensures |r.inodes| == |fs.inodes|
  {
    fs.(inodes := fs.inodes[k := fs.inodes[k].(kind := kind, parent := parent)], queue := fs.queue - {k})
  }

  function Commit(fs: Fs, k: nat): Fs
    requires k < |fs.inodes| && |fs.inodes[k].blocks| == 10
  {
    fs.(drive := WriteInode(fs.drive, fs.inodes[k]))
  }

  /** What mkdir and touch ask of their caller: a name, a directory with room for it, and a free inode. */
  predicate CanCreate(fs: Fs, d: nat, name: Bytes) {
    && d < |fs.inodes| && fs.inodes[d].kind == 2 && ValidName(name) && HasFree(fs)
    && CountFree(fs.bitmap) + |Blocks(fs, d)| >= 1
    && var t := Top(fs, |fs.inodes|); t.Some? && Fits(Entries(fs, d) + [Entry(name, t.value)])
  }

  /** mkdir (kind 2, put back into the queue) and touch (kind 1, not put back). */
  function Create(fs: Fs, d: nat, name: Bytes, kind: nat): Fs
    requires Shape(fs) && d < |fs.inodes| && Top(fs, |fs.inodes|).Some?
  {
    var k := Top(fs, |fs.inodes|).value;
    var self := fs.inodes[d].self;
    var parent := if kind == 2 && self == ROOT_SELF then 0 else self;
    var r := Commit(Insert(Take(fs, k, kind, parent), d, name, k), k);
    if kind == 2 then r.(queue := r.queue + {k}) else r
  }

  function Position(dir: seq<Entry>, k: nat): (p: nat)
    ensures p <= |dir| && (p < |dir| ==> dir[p].index == k)
    ensures p == |dir| <==> forall e <- dir :: e.index != k
  {
    if dir == [] then 0 else if dir[0].index == k then 0 else 1 + Position(dir[1..], k)
  }

  /** rm of inode k from directory d: nothing when d does not list k. */
  function Rm(fs: Fs, d: nat, k: nat): (r: Fs)
    requires d < |fs.inodes| && k < |fs.inodes|
    ensures |r.inodes| == |fs.inodes|
    decreases k, 1, 0
  {
    var dir := Entries(fs, d);
    if Position(dir, fs.inodes[k].self) == |dir| then fs
    else
      var emptied := if fs.inodes[k].kind == 2 then RmEntries(fs, k, Entries(fs, k)) else fs;
      WriteFile(Purge(emptied, k), d, Encode(Without(dir, fs.inodes[k].self)))
  }

  /** The position of the first entry of that name, or the number of entries. */
  function NamePosition(dir: seq<Entry>, name: Bytes): (p: nat)
    ensures p <= |dir| && (p < |dir| ==> dir[p].name == name)
    ensures forall q :: 0 <= q < p ==> dir[q].name != name
  {
    if dir == [] || dir[0].name == name then 0 else 1 + NamePosition(dir[1..], name)
  }

  /** rm of a name from directory d. */
  function RmNamed(fs: Fs, d: nat, name: Bytes): (r: Fs)
    requires d < |fs.inodes|
  {
    var dir := Entries(fs, d);
    var p := NamePosition(dir, name);
    if p < |dir| && dir[p].index < |fs.inodes| then Rm(fs, d, dir[p].index) else fs
  }

  /** The loop of rm over the entries of directory k. Indices fall, or else the walk would not end. */
  function RmEntries(fs: Fs, k: nat, dir: seq<Entry>): (r: Fs)
    requires k < |fs.inodes|
    ensures |r.inodes| == |fs.inodes|
    decreases k, 0, |dir|
  {
    if dir == [] then fs
    else RmEntries(if dir[0].index < k then Rm(fs, k, dir[0].index) else fs, k, dir[1..])
  }

  // ---------- What mkdir and touch do ----------

  ghost predicate SameSlots(a: Fs, b: Fs) {
    && |a.inodes| == |b.inodes| && a.bitmap == b.bitmap && a.drive == b.drive
    && forall i :: 0 <= i < |a.inodes| ==>
         a.inodes[i].blocks == b.inodes[i].blocks && a.inodes[i].self == b.inodes[i].self
  }

  lemma SameOwnership(a: Fs, b: Fs)
    requires |a.inodes| == |b.inodes| && forall i :: 0 <= i < |a.inodes| ==> Blocks(a, i) == Blocks(b, i)
    ensures Exclusive(a) ==> Exclusive(b)
    ensures forall c: nat :: Owned(a, c) <==> Owned(b, c)
  {
    hide Blocks;
    forall c: nat ensures Owned(a, c) <==> Owned(b, c) {
      if Owned(a, c) {
        var i :| 0 <= i < |a.inodes| && c in Blocks(a, i);
        assert c in Blocks(b, i);
      }
      if Owned(b, c) {
        var i :| 0 <= i < |b.inodes| && c in Blocks(b, i);
        assert c in Blocks(a, i);
      }
    }
    if Exclusive(a) {
      forall i, k, c | 0 <= i < |b.inodes| && 0 <= k < |b.inodes| && c in Blocks(b, i) && c in Blocks(b, k)
        ensures i == k
      {
        assert c in Blocks(a, i) && c in Blocks(a, k);
      }
    }
  }

  lemma SameSlotsSame(a: Fs, b: Fs)
    requires SameSlots(a, b) && Sound(a)
    ensures Sound(b)
    ensures forall i :: 0 <= i < |a.inodes| ==> Blocks(a, i) == Blocks(b, i) && Entries(a, i) == Entries(b, i)
  {
    hide NonZero, EntriesIn, Address;
    assert forall i :: 0 <= i < |a.inodes| ==> Blocks(a, i) == Blocks(b, i);
    SameOwnership(a, b);
    forall i | 0 <= i < |b.inodes| ensures BlocksExist(b, i) {
      assert BlocksExist(a, i);
    }
  }

  lemma NoEntries(drive: Bytes, n: nat)
    ensures EntriesIn(drive, n, []) == [] && Fits([])
  {
  }

  lemma TakeKeeps(fs: Fs, k: nat, kind: nat, parent: nat)
    requires Inv(fs) && HasFree(fs) && k == Top(fs, |fs.inodes|).value && (kind == 1 || kind == 2) && parent < UINT64
    ensures var r := Take(fs, k, kind, parent);
            && Sound(r) && Kinds(r) && DirsFit(r) && View(r) == View(fs)
            && forall i :: 0 <= i < |fs.inodes| ==> Blocks(r, i) == Blocks(fs, i)
  {
    hide Sound, Blocks, EntriesIn, Top, HasFree, Live, Ordered, Unique;
    FindsLargestFree(fs);
    var r := Take(fs, k, kind, parent);
    SameSlotsSame(fs, r);
    assert Blocks(fs, k) == [];
    assert Entries(fs, k) == [] by { NoEntries(fs.drive, |fs.inodes|); }
    assert View(r) == View(fs);
  }

  lemma CommitGrows(fs: Fs, k: nat)
    requires k < |fs.inodes| && |fs.inodes[k].blocks| == 10
    ensures |fs.drive| <= |Commit(fs, k).drive|
  {
  }

  /** write_inode touches no data block. */
  lemma CommitKeeps(fs: Fs, k: nat)
    requires Sound(fs) && k < |fs.inodes|
    ensures var r := Commit(fs, k);
            && Sound(r) && r.inodes == fs.inodes && r.bitmap == fs.bitmap && r.queue == fs.queue
            && View(r) == View(fs) && forall i :: 0 <= i < |fs.inodes| ==> Unchanged(r, fs, i)
  {
    hide Block, Write, Record, Decode, Exclusive;
    var r := Commit(fs, k);
    InodeRecordBelow(fs, k);
    CommitGrows(fs, k);
    forall i | 0 <= i < |fs.inodes|
      ensures Unchanged(r, fs, i) && Entries(r, i) == Entries(fs, i) && BlocksExist(r, i)
    {
      forall b | b in Blocks(fs, i) ensures Block(r.drive, |fs.inodes|, b) == Block(fs.drive, |fs.inodes|, b) {
        BlockUntouched(fs.drive, |fs.inodes|, b, RecordAddress(fs.inodes[k].self), Record(fs.inodes[k]));
      }
      UnchangedContents(r, fs, i);
      assert BlocksExist(fs, i);
    }
    SameOwnership(fs, r);
  }
}
