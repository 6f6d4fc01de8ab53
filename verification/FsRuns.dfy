/** Whole sessions on a freshly formatted volume: the invariant holds after every run of mkdir, touch,
    write_file and rm, and with it the ownership of blocks and the isolation of files. */
module FsRuns {

  import opened FsCodec
  import opened FsVolume
  import opened FsAllocation
  import opened FsForest
  import opened FsTree
  import opened FsLaws
  import opened FsRemove
  import opened Wrappers

  // ---------- The first state ----------

  function RootInode(): (i: Inode)
    ensures |i.blocks| == 10
  {
    Inode(2, UINT64 - 1, ROOT_SELF, NoSlots())
  }

  function IndicesBelow(n: nat): (s: set<nat>)
    ensures forall i :: i in s <==> 0 <= i < n
  {
    if n == 0 then {} else IndicesBelow(n - 1) + {n - 1}
  }

  /** A new image: the superblock, zeros, and the record of the root in the place of inode 0. */
  function Image(size: nat, superblock: Bytes): Bytes
    requires |superblock| == 70 <= size
  {
    Write(superblock + seq<Byte>(size - 69, _ => NUL), 336, Record(RootInode()))
  }

  /** The instance that starts on a new image. */
  function Fresh(size: nat, superblock: Bytes): Fs
    requires size < UINT64 && Format(size).Some? && |superblock| == 70 <= size
  {
    var g := Format(size).value;
    Fs(Image(size, superblock),
       [RootInode()] + seq(g.totalInodes - 1, i requires 0 <= i < g.totalInodes - 1 => Inode(0, 0, i + 1, NoSlots())),
       seq(g.totalData, b => b == 0),
       IndicesBelow(g.totalInodes))
  }

  /** A new image byte by byte: the superblock, the root's record at 336, and zeros up to one byte past the size. */
  lemma ImageExactly(size: nat, superblock: Bytes, a: nat)
    requires |superblock| == 70 && 457 <= size
    ensures |Image(size, superblock)| == size + 1
    ensures At(Image(size, superblock), a) ==
              if a < 70 then superblock[a] else if 336 <= a < 457 then Record(RootInode())[a - 336] else 0
  {
    hide Record;
  }

  /** The first state of a session: the blocks behind the overhead are inodes and data blocks, one inode for every full
      thirty; the root is a directory, all other inodes are free, and every inode is queued; the first
      data block is taken, all others are clear. */
  lemma FreshExactly(size: nat, superblock: Bytes)
    requires 80 <= size < UINT64 && Format(size).Some? && |superblock| == 70
    ensures var fs := Fresh(size, superblock);
            var n, t := |fs.inodes|, |fs.inodes| + |fs.bitmap|;
            && t * 256 <= size - 80 < t * 256 + 256 && n * 30 <= t < n * 30 + 30
            && fs.inodes[0] == Inode(2, UINT64 - 1, UINT64 - 1, [0, 0, 0, 0, 0, 0, 0, 0, 0, 0])
            && (forall i :: 0 < i < n ==> fs.inodes[i] == Inode(0, 0, i, [0, 0, 0, 0, 0, 0, 0, 0, 0, 0]))
            && (forall i: nat :: i in fs.queue <==> i < n)
            && (forall b :: 0 <= b < |fs.bitmap| ==> (fs.bitmap[b] <==> b == 0))
  {
    hide Image;
    FormatExactly(size);
  }

  lemma FreshBlocks(size: nat, superblock: Bytes, i: nat)
    requires 80 <= size < 0x1000_0000_0000_0000 && Format(size).Some? && |superblock| == 70
    requires i < |Fresh(size, superblock).inodes|
    ensures Blocks(Fresh(size, superblock), i) == if i == 0 then [0] else []
  {
    BlocksOfNoSlots(Fresh(size, superblock).inodes[i]);
    var fs := Fresh(size, superblock);
    assert fs.inodes[i].(blocks := NoSlots()) == fs.inodes[i];
  }

  lemma FreshRoot(size: nat, superblock: Bytes)
    requires 80 <= size < 0x1000_0000_0000_0000 && Format(size).Some? && |superblock| == 70
    ensures var fs := Fresh(size, superblock);
            Address(|fs.inodes|, 0) + 256 <= |fs.drive| && Entries(fs, 0) == []
  {
    var fs := Fresh(size, superblock);
    FreshBlocks(size, superblock, 0);
    FormatIsDisjoint(size);
    var n := |fs.inodes|;
    assert Block(fs.drive, n, 0)[0] == NUL;
    assert Decode(Block(fs.drive, n, 0)) == [];
    assert EntriesIn(fs.drive, n, [0][1..]) == [];
  }

  lemma FreshInv(size: nat, superblock: Bytes)
    requires 80 <= size < 0x1000_0000_0000_0000 && Format(size).Some? && |superblock| == 70
    ensures Inv(Fresh(size, superblock))
  {
    hide Block, EntriesIn, Decode, NonZero, Image;
    var fs := Fresh(size, superblock);
    FormatIsDisjoint(size);
    FreshRoot(size, superblock);
    forall i | 0 <= i < |fs.inodes| ensures Blocks(fs, i) == (if i == 0 then [0] else []) {
      FreshBlocks(size, superblock, i);
    }
    forall b | 0 <= b < |fs.bitmap| ensures fs.bitmap[b] <==> Owned(fs, b) {
      if b == 0 {
        assert 0 in Blocks(fs, 0);
      }
    }
    forall i | 0 <= i < |fs.inodes| ensures View(fs)[i] == [] {
    }
  }

  lemma InvIsShaped(fs: Fs)
    requires Inv(fs)
    ensures Shape(fs)
  {
  }

  // ---------- rm, in full ----------

  /** Some inode that is neither removed nor the rewritten directory owns block b. */
  ghost predicate KeptBy(fs: Fs, gone: set<nat>, d: nat, b: nat) {
    exists i :: 0 <= i < |fs.inodes| && i !in gone && i != d && b in Blocks(fs, i)
  }

  lemma RemovedBits(r: Fs, fs: Fs, gone: set<nat>, d: nat, b: nat)
    requires Sound(r) && Sound(fs) && Removed(r, fs, gone, d) && d < |fs.inodes| && d !in gone && b < |fs.bitmap|
    ensures r.bitmap[b] <==> KeptBy(fs, gone, d, b) || b in Blocks(r, d)
  {
    hide Block, NonZero, BlocksExist, Exclusive;
    if r.bitmap[b] {
      assert Owned(r, b);
      var i :| 0 <= i < |r.inodes| && b in Blocks(r, i);
      if i != d {
        assert i !in gone && Unchanged(r, fs, i);
        assert b in Blocks(fs, i);
      }
    }
    if KeptBy(fs, gone, d, b) {
      var i :| 0 <= i < |fs.inodes| && i !in gone && i != d && b in Blocks(fs, i);
      assert Unchanged(r, fs, i);
      assert b in Blocks(r, i) && Owned(r, b);
    }
    if b in Blocks(r, d) {
      assert Owned(r, b);
    }
  }

  lemma ExistsOf(fs: Fs, i: nat, b: nat)
    requires Sound(fs) && i < |fs.inodes| && b in Blocks(fs, i)
    ensures b < |fs.bitmap|
  {
    assert BlocksExist(fs, i);
  }

  /** The block of the rewritten directory was its own, clear, or freed by the removal. */
  lemma RemovedMoves(r: Fs, fs: Fs, gone: set<nat>, d: nat, b: nat)
    requires Sound(r) && Sound(fs) && Removed(r, fs, gone, d) && d < |fs.inodes| && d !in gone && b in Blocks(r, d)
    ensures b < |fs.bitmap| && !KeptBy(fs, gone, d, b)
  {
    hide Block, NonZero, BlocksExist, Owned;
    assert b < |fs.bitmap| by { ExistsOf(r, d, b); }
    forall i | 0 <= i < |fs.inodes| && i !in gone && i != d ensures b !in Blocks(fs, i) {
      assert Unchanged(r, fs, i);
      assert Blocks(r, i) == Blocks(fs, i);
    }
  }

  // How many blocks rm frees.

  ghost predicate OwnedIn(fs: Fs, inodes: set<nat>, b: nat) {
    exists i :: 0 <= i < |fs.inodes| && i in inodes && b in Blocks(fs, i)
  }

  /** The blocks that some of the inodes own. */
  ghost function BlocksOwned(fs: Fs, inodes: set<nat>): set<nat> {
    set b | 0 <= b < |fs.bitmap| && OwnedIn(fs, inodes, b)
  }

  ghost function SetBits(bitmap: seq<bool>): set<nat> {
    set b | 0 <= b < |bitmap| && bitmap[b]
  }

  lemma {:induction false} NoBitSet(bitmap: seq<bool>)
    requires forall b :: 0 <= b < |bitmap| ==> !bitmap[b]
    ensures CountFree(bitmap) == |bitmap|
  {
    if bitmap != [] {
      NoBitSet(bitmap[1..]);
    }
  }

  lemma {:induction false} ClearAndSet(bitmap: seq<bool>)
    ensures CountFree(bitmap) + |SetBits(bitmap)| == |bitmap|
    decreases |SetBits(bitmap)|
  {
    if SetBits(bitmap) == {} {
      forall b | 0 <= b < |bitmap| ensures !bitmap[b] {
        assert b !in SetBits(bitmap);
      }
      NoBitSet(bitmap);
    } else {
      var b :| b in SetBits(bitmap);
      CountAfterUpdate(bitmap, b);
      assert SetBits(bitmap[b := false]) == SetBits(bitmap) - {b};
      ClearAndSet(bitmap[b := false]);
    }
  }

  ghost function KeptBlocks(fs: Fs, gone: set<nat>, d: nat): set<nat> {
    set b | 0 <= b < |fs.bitmap| && KeptBy(fs, gone, d, b)
  }

  lemma BitsBefore(fs: Fs, gone: set<nat>, d: nat, own: nat)
    requires Sound(fs) && d < |fs.inodes| && d !in gone && Blocks(fs, d) == [own]
    ensures |SetBits(fs.bitmap)| == |KeptBlocks(fs, gone, d)| + 1 + |BlocksOwned(fs, gone)|
  {
    hide Blocks, BlocksExist;
    var kept, freed := KeptBlocks(fs, gone, d), BlocksOwned(fs, gone);
    assert own in Blocks(fs, d);
    ExistsOf(fs, d, own);
    forall b | 0 <= b < |fs.bitmap| ensures fs.bitmap[b] <==> b in kept || b == own || b in freed {
      assert fs.bitmap[b] <==> Owned(fs, b);
      if fs.bitmap[b] {
        var i :| 0 <= i < |fs.inodes| && b in Blocks(fs, i);
        assert i == d ==> b == own;
        assert i in gone ==> OwnedIn(fs, gone, b);
      }
    }
    assert own !in kept && own !in freed && kept !! freed;
    assert SetBits(fs.bitmap) == kept + {own} + freed;
  }

  lemma BitsAfter(r: Fs, fs: Fs, gone: set<nat>, d: nat, own: nat)
    requires Sound(r) && Sound(fs) && Removed(r, fs, gone, d) && d < |fs.inodes| && d !in gone && Blocks(r, d) == [own]
    ensures |SetBits(r.bitmap)| == |KeptBlocks(fs, gone, d)| + 1
  {
    hide Blocks, Sound, Removed, KeptBy;
    SameKind(r, fs, gone, d);
    assert own in Blocks(r, d);
    RemovedMoves(r, fs, gone, d, own);
    var kept := KeptBlocks(fs, gone, d);
    forall b | 0 <= b < |r.bitmap| ensures r.bitmap[b] <==> b in kept || b == own {
      RemovedBits(r, fs, gone, d, b);
    }
    assert SetBits(r.bitmap) == kept + {own};
  }

  lemma RemovedCount(r: Fs, fs: Fs, gone: set<nat>, d: nat)
    requires Sound(r) && Sound(fs) && Removed(r, fs, gone, d) && d < |fs.inodes| && d !in gone
    requires |Blocks(r, d)| == |Blocks(fs, d)| == 1
    ensures CountFree(r.bitmap) == CountFree(fs.bitmap) + |BlocksOwned(fs, gone)|
  {
    hide Blocks, Sound, Removed, KeptBy;
    SameKind(r, fs, gone, d);
    assert Blocks(r, d) == [Blocks(r, d)[0]] && Blocks(fs, d) == [Blocks(fs, d)[0]];
    BitsBefore(fs, gone, d, Blocks(fs, d)[0]);
    BitsAfter(r, fs, gone, d, Blocks(r, d)[0]);
    ClearAndSet(fs.bitmap);
    ClearAndSet(r.bitmap);
  }

  lemma OneBlock(fs: Fs, d: nat)
    requires Inv(fs) && d < |fs.inodes| && fs.inodes[d].kind == 2 && Entries(fs, d) != []
    ensures |Blocks(fs, d)| == 1
  {
    ListingHasBlock(fs, d);
  }

  /** rm on every tree that mkdir and touch can build, with no spare block needed: the directory loses exactly
      that entry; every inode below loses its blocks; the bits that stay set are those of the surviving files
      and of the one block of the rewritten directory, which may move; so as many blocks are freed as the removed
      inodes owned; every other file keeps its record and contents. */
  lemma RmRemovesExactly(fs: Fs, d: nat, k: nat)
    requires Inv(fs) && Child(View(fs), d, k)
    ensures d < |fs.inodes| && 0 < k < |fs.inodes|
    ensures var r := Rm(fs, d, k);
            var gone := Subtree(View(fs), k);
            && Inv(r) && |r.inodes| == |fs.inodes| && |r.bitmap| == |fs.bitmap| && r.queue == fs.queue
            && d !in gone && k in gone
            && Entries(r, d) == Without(Entries(fs, d), k)
            && (forall i :: 0 <= i < |fs.inodes| && i in gone ==> Blocks(r, i) == [])
            && (forall i :: 0 <= i < |fs.inodes| && i !in gone && i != d ==>
                  r.inodes[i] == fs.inodes[i] && Contents(r, i) == Contents(fs, i) && Entries(r, i) == Entries(fs, i))
            && (forall b :: 0 <= b < |fs.bitmap| ==>
                  (r.bitmap[b] <==> KeptBy(fs, gone, d, b) || b in Blocks(r, d)))
            && (forall b <- Blocks(r, d) :: !KeptBy(fs, gone, d, b))
            && |Blocks(r, d)| == 1
            && CountFree(r.bitmap) == CountFree(fs.bitmap) + |BlocksOwned(fs, gone)|
  {
    hide BlocksOwned, CountFree, Block, NonZero, BlocksExist, Exclusive, Owned, EntriesIn, Contents, Kinds,
         DirsFit, Live, Ordered, Unique, Rm, Subtrees, Without, Blocks, KeptBy;
    RmPrunes(fs, d, k);
    ListedFacts(fs, d, k);
    var r := Rm(fs, d, k);
    var gone := Subtree(View(fs), k);
    assert k in gone;
    ParentOutside(View(fs), d, k);
    assert View(r)[d] == Without(View(fs)[d], k);
    SameKind(r, fs, gone, d);
    assert Entries(r, d) == View(r)[d];
    forall i | 0 <= i < |fs.inodes| && i !in gone && i != d
      ensures r.inodes[i] == fs.inodes[i] && Contents(r, i) == Contents(fs, i) && Entries(r, i) == Entries(fs, i)
    {
      assert Unchanged(r, fs, i);
      UnchangedContents(r, fs, i);
    }
    forall b | 0 <= b < |fs.bitmap| ensures r.bitmap[b] <==> KeptBy(fs, gone, d, b) || b in Blocks(r, d) {
      RemovedBits(r, fs, gone, d, b);
    }
    forall b | b in Blocks(r, d) ensures !KeptBy(fs, gone, d, b) {
      RemovedMoves(r, fs, gone, d, b);
    }
    OneBlock(fs, d);
    RemovedCount(r, fs, gone, d);
  }

  lemma ListedChild(fs: Fs, d: nat, p: nat)
    requires Inv(fs) && d < |fs.inodes| && fs.inodes[d].kind == 2 && p < |Entries(fs, d)|
    ensures Distinct(Entries(fs, d)) && Child(View(fs), d, Entries(fs, d)[p].index)
  {
    hide Entries;
    assert View(fs)[d] == Entries(fs, d);
    assert Entries(fs, d)[p] in View(fs)[d];
  }

  /** rm of a name takes the first entry of that name out of the directory, and no other; without such an
      entry it does nothing. */
  lemma RmNamedDropsFirst(fs: Fs, d: nat, name: Bytes)
    requires Inv(fs) && d < |fs.inodes| && fs.inodes[d].kind == 2
    ensures Inv(RmNamed(fs, d, name)) && |RmNamed(fs, d, name).inodes| == |fs.inodes|
    ensures var dir := Entries(fs, d);
            var p := NamePosition(dir, name);
            if p == |dir| then RmNamed(fs, d, name) == fs
            else Entries(RmNamed(fs, d, name), d) == dir[..p] + dir[p + 1..]
  {
    hide Entries, Rm, Without, KeptBy, Inv, View, Child, Subtree, Contents, Blocks, NamePosition;
    var dir := Entries(fs, d);
    var p := NamePosition(dir, name);
    if p < |dir| {
      ListedChild(fs, d, p);
      RmRemovesExactly(fs, d, dir[p].index);
      WithoutAt(dir, dir[p].index, p);
    }
  }

  lemma RootBlocks(fs: Fs)
    requires Inv(fs)
    ensures Blocks(fs, 0) == [0]
  {
    assert 0 in Blocks(fs, 0);
    assert |Blocks(fs, 0)| == 1;
  }

  lemma RootBits(fs: Fs, r: Fs, gone: set<nat>, b: nat)
    requires Sound(fs) && b < |fs.bitmap| == |r.bitmap| && |r.inodes| == |fs.inodes| && 0 !in gone
    requires Blocks(fs, 0) == Blocks(r, 0)
    requires r.bitmap[b] <==> KeptBy(fs, gone, 0, b) || b in Blocks(r, 0)
    ensures r.bitmap[b] <==> fs.bitmap[b] && forall i :: 0 <= i < |fs.inodes| && i in gone ==> b !in Blocks(fs, i)
  {
    hide Blocks, BlocksExist;
    if fs.bitmap[b] {
      assert Owned(fs, b);
      var j :| 0 <= j < |fs.inodes| && b in Blocks(fs, j);
      if j !in gone && j != 0 {
        assert KeptBy(fs, gone, 0, b);
      }
    } else {
      assert !Owned(fs, b);
    }
  }

  /** Removing from the root, whose block never moves: the bits cleared are exactly those of the subtree. */
  lemma RmFromRootFrees(fs: Fs, k: nat, b: nat)
    requires Inv(fs) && Child(View(fs), 0, k) && b < |fs.bitmap|
    ensures k < |fs.inodes| && |Rm(fs, 0, k).bitmap| == |fs.bitmap|
    ensures var gone := Subtree(View(fs), k);
            Rm(fs, 0, k).bitmap[b] <==>
              fs.bitmap[b] && forall i :: 0 <= i < |fs.inodes| && i in gone ==> b !in Blocks(fs, i)
  {
    RmRemovesExactly(fs, 0, k);
    var r, gone := Rm(fs, 0, k), Subtree(View(fs), k);
    RootBlocks(fs);
    RootBlocks(r);
    RootBits(fs, r, gone, b);
  }

  // ---------- Operations ----------

  datatype Op =
    | Mkdir(dir: nat, name: Bytes)
    | Touch(dir: nat, name: Bytes)
    | WriteText(file: nat, text: Bytes)
    | Remove(dir: nat, name: Bytes)

  /** One operation, with what it asks of its caller. Writing needs no room (the text is then cut off), and
      neither does removing. */
  ghost predicate Step(a: Fs, op: Op, b: Fs) {
    match op
    case Mkdir(d, name) =>
      Shape(a) && CanCreate(a, d, name) && b == Create(a, d, name, 2)
    case Touch(d, name) =>
      Shape(a) && CanCreate(a, d, name) && b == Create(a, d, name, 1)
    case WriteText(i, text) =>
      i < |a.inodes| && a.inodes[i].kind == 1 && |text| <= 2560 && b == WriteFile(a, i, text)
    case Remove(d, name) =>
      d < |a.inodes| && a.inodes[d].kind == 2 && b == RmNamed(a, d, name)
  }

  lemma StillLiveSame(r: Fs, fs: Fs)
    requires Live(fs) && SameKinds(r, fs) && View(r) == View(fs)
    ensures Live(r)
  {
    hide Entries;
  }

  /** Writing a text leaves the tree alone. */
  lemma WriteTextKeeps(fs: Fs, i: nat, text: Bytes)
    requires Inv(fs) && i < |fs.inodes| && fs.inodes[i].kind == 1 && |text| <= 2560
    ensures var r := WriteFile(fs, i, text);
            && Inv(r) && View(r) == View(fs) && SameKinds(r, fs)
            && forall k :: 0 <= k < |fs.inodes| && k != i ==> Unchanged(r, fs, k)
  {
    hide Block, Encode, Decode, CountFree, Blocks, Entries, Sound, Contents, WriteFile, Ordered, Unique, Live;
    var r := WriteFile(fs, i, text);
    WriteKeepsKinds(fs, i, text);
    WriteKeepsSound(fs, i, text);
    forall k | 0 <= k < |fs.inodes| && k != i
      ensures Unchanged(r, fs, k) && Entries(r, k) == Entries(fs, k) && Blocks(r, k) == Blocks(fs, k)
    {
      BlocksAfterWrite(fs, i, text, k);
      WriteSparesOthers(fs, i, text, k);
      UnchangedContents(r, fs, k);
    }
    assert View(r) == View(fs);
    StillLiveSame(r, fs);
  }

  lemma StepKeeps(a: Fs, op: Op, b: Fs)
    requires Inv(a) && Step(a, op, b)
    ensures Inv(b)
  {
    hide Inv, CanCreate, Create, RmNamed, WriteFile, Created;
    match op
    case Mkdir(d, name) => CreateKeeps(a, d, name, 2);
    case Touch(d, name) => CreateKeeps(a, d, name, 1);
    case WriteText(i, text) => WriteTextKeeps(a, i, text);
    case Remove(d, name) => RmNamedDropsFirst(a, d, name);
  }

  /** A session: states joined by operations, from a new volume. */
  ghost predicate Session(states: seq<Fs>, ops: seq<Op>, size: nat, superblock: Bytes) {
    && 80 <= size < 0x1000_0000_0000_0000 && Format(size).Some? && |superblock| == 70
    && |states| == |ops| + 1 && states[0] == Fresh(size, superblock)
    && forall k :: 0 <= k < |ops| ==> Step(states[k], ops[k], states[k + 1])
  }

  lemma {:induction false} SessionInv(states: seq<Fs>, ops: seq<Op>, size: nat, superblock: Bytes, k: nat)
    requires Session(states, ops, size, superblock) && k < |states|
    ensures Inv(states[k])
  {
    hide Inv, Step, Fresh;
    if k == 0 {
      FreshInv(size, superblock);
    } else {
      SessionInv(states, ops, size, superblock, k - 1);
      StepKeeps(states[k - 1], ops[k - 1], states[k]);
    }
  }

  /** In every state of every session: a bit is set exactly when an inode owns the block; no block has two
      owners, and none fills two slots of its owner; block 0 is the root's alone; free inodes own nothing. */
  lemma OwnershipAlways(states: seq<Fs>, ops: seq<Op>, size: nat, superblock: Bytes, k: nat)
    requires Session(states, ops, size, superblock) && k < |states|
    ensures var fs := states[k];
            && (forall b :: 0 <= b < |fs.bitmap| ==>
                  (fs.bitmap[b] <==> exists i :: 0 <= i < |fs.inodes| && b in Blocks(fs, i)))
            && (forall i, j, b ::
                  0 <= i < |fs.inodes| && 0 <= j < |fs.inodes| && b in Blocks(fs, i) && b in Blocks(fs, j) ==> i == j)
            && (forall i :: 0 <= i < |fs.inodes| ==> Ascending(Blocks(fs, i)))
            && (forall i :: 0 <= i < |fs.inodes| ==> (0 in Blocks(fs, i) <==> i == 0))
            && (forall i :: 0 <= i < |fs.inodes| && fs.inodes[i].kind == 0 ==> Blocks(fs, i) == [])
  {
    hide Blocks;
    SessionInv(states, ops, size, superblock, k);
    var fs := states[k];
    forall b | 0 <= b < |fs.bitmap|
      ensures fs.bitmap[b] <==> exists i :: 0 <= i < |fs.inodes| && b in Blocks(fs, i)
    {
      assert fs.bitmap[b] <==> Owned(fs, b);
    }
    forall i | 0 <= i < |fs.inodes| ensures Ascending(Blocks(fs, i)) && (0 in Blocks(fs, i) <==> i == 0) {
      assert BlocksExist(fs, i);
      BlockZeroIsRoots(fs, i);
    }
  }

  // ---------- Writing and reading by name ----------

  /** write_file of a name in directory d: false when the name is not a file's. */
  function WriteNamed(fs: Fs, d: nat, name: Bytes, data: Bytes): (r: (Fs, bool))
    requires Inv(fs) && d < |fs.inodes| && fs.inodes[d].kind == 2
    requires NamePosition(Entries(fs, d), name) == |Entries(fs, d)| ==> CanCreate(fs, d, name)
  {
    var dir := Entries(fs, d);
    var p := NamePosition(dir, name);
    if p < |dir| then
      ListedChild(fs, d, p);
      var i := dir[p].index;
      if fs.inodes[i].kind != 1 then (fs, false) else (WriteFile(fs, i, data), true)
    else
      CreateKeeps(fs, d, name, 1);
      (WriteFile(Create(fs, d, name, 1), Top(fs, |fs.inodes|).value, data), true)
  }

  /** read_file of a name in directory d: nothing when the name is not a file's. */
  function ReadNamed(fs: Fs, d: nat, name: Bytes): Option<Bytes>
    requires Inv(fs) && d < |fs.inodes| && fs.inodes[d].kind == 2
  {
    var dir := Entries(fs, d);
    var p := NamePosition(dir, name);
    if p == |dir| then Some([])
    else
      ListedChild(fs, d, p);
      var i := dir[p].index;
      if fs.inodes[i].kind != 1 then Some([]) else ReadText(fs, i)
  }

  lemma {:induction false} NamePositionAppend(dir: seq<Entry>, e: Entry)
    requires NamePosition(dir, e.name) == |dir|
    ensures NamePosition(dir + [e], e.name) == |dir|
  {
    if dir != [] {
      assert (dir + [e])[1..] == dir[1..] + [e];
      NamePositionAppend(dir[1..], e);
    }
  }

  /** A text that read_file returns as it was written, given how many blocks there were for it. */
  predicate Readable(data: Bytes, room: nat) {
    NUL !in data && |data| < 256 && (room >= 1 || data == [])
  }

  lemma PositiveIndex(fs: Fs, d: nat, i: nat)
    requires Inv(fs) && Child(View(fs), d, i)
    ensures Sound(fs) && 0 < i < |fs.inodes|
  {
    hide Entries;
  }

  lemma WriteListedThenRead(fs: Fs, d: nat, name: Bytes, i: nat, data: Bytes)
    requires Inv(fs) && d < |fs.inodes| && fs.inodes[d].kind == 2 && i < |fs.inodes| && fs.inodes[i].kind == 1
    requires var dir := Entries(fs, d); var p := NamePosition(dir, name); p < |dir| && dir[p].index == i
    requires |data| <= 2560
    ensures var r := WriteFile(fs, i, data);
            && Inv(r) && d < |r.inodes| && r.inodes[d].kind == 2 && View(r) == View(fs)
            && (ReadNamed(r, d, name) == Some(data) <==> Readable(data, CountFree(fs.bitmap) + |Blocks(fs, i)|))
  {
    hide WriteFile, Entries, ReadText, Blocks, CountFree, Inv;
    assert Sound(fs) && 0 < i by { ListedChild(fs, d, NamePosition(Entries(fs, d), name)); PositiveIndex(fs, d, i); }
    WriteTextKeeps(fs, i, data);
    ReadBackIff(fs, i, data);
    var r := WriteFile(fs, i, data);
    assert Entries(r, d) == View(r)[d] && Entries(fs, d) == View(fs)[d];
  }

  /** How many blocks there are for a text written under a name: with the file's own ones if it is listed, and
      after the file has been created if not. */
  function RoomFor(fs: Fs, d: nat, name: Bytes): nat
    requires Inv(fs) && d < |fs.inodes| && fs.inodes[d].kind == 2
    requires NamePosition(Entries(fs, d), name) == |Entries(fs, d)| ==> CanCreate(fs, d, name)
  {
    var dir := Entries(fs, d);
    var p := NamePosition(dir, name);
    if p < |dir| then ListedChild(fs, d, p); CountFree(fs.bitmap) + |Blocks(fs, dir[p].index)|
    else CreateKeeps(fs, d, name, 1); CountFree(Create(fs, d, name, 1).bitmap)
  }

  lemma ListedKind(fs: Fs, d: nat, i: nat)
    requires Inv(fs) && Child(View(fs), d, i)
    ensures i < |fs.inodes| && (fs.inodes[i].kind == 1 || fs.inodes[i].kind == 2)
  {
    hide Entries;
  }

  /** Writing a text under a name: refused, with nothing changed, exactly when the name is a directory's;
      otherwise reading the name then gives the text back exactly when it is readable, whether the file was there
      or is created. */
  lemma WriteNamedThenRead(fs: Fs, d: nat, name: Bytes, data: Bytes)
    requires Inv(fs) && d < |fs.inodes| && fs.inodes[d].kind == 2 && |data| <= 2560
    requires NamePosition(Entries(fs, d), name) == |Entries(fs, d)| ==> CanCreate(fs, d, name)
    ensures var dir := Entries(fs, d);
            var p := NamePosition(dir, name);
            var (r, ok) := WriteNamed(fs, d, name, data);
            && (!ok <==> p < |dir| && dir[p].index < |fs.inodes| && fs.inodes[dir[p].index].kind == 2)
            && (!ok ==> r == fs)
            && (ok ==> Inv(r) && d < |r.inodes| && r.inodes[d].kind == 2
                       && (ReadNamed(r, d, name) == Some(data) <==> Readable(data, RoomFor(fs, d, name))))
  {
    hide WriteFile, Entries, ReadNamed, Blocks, CountFree, Inv, Create, CanCreate;
    var dir := Entries(fs, d);
    var p := NamePosition(dir, name);
    if p < |dir| {
      ListedChild(fs, d, p);
      ListedKind(fs, d, dir[p].index);
      if fs.inodes[dir[p].index].kind == 1 {
        WriteListedThenRead(fs, d, name, dir[p].index, data);
      }
    } else {
      CreateKeeps(fs, d, name, 1);
      InvIsShaped(fs);
      var c, k := Create(fs, d, name, 1), Top(fs, |fs.inodes|).value;
      NamePositionAppend(dir, Entry(name, k));
      assert Entries(c, d) == View(c)[d] && dir == View(fs)[d];
      WriteListedThenRead(c, d, name, k, data);
    }
  }
}
