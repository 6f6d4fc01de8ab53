/** What stays on the drive over whole sessions: the superblock, and the record of every listed inode. */
module FsRecords {

  import opened FsCodec
  import opened FsVolume
  import opened FsAllocation
  import opened FsForest
  import opened FsTree
  import opened FsLaws
  import opened FsRemove
  import opened FsRuns
  import opened Wrappers

  // ---------- One byte ----------

  /** Address a lies in the record of inode i. */
  predicate InRecord(i: nat, a: nat) {
    var p := if i == 0 then 80 else 336 + i * 256;
    p <= a < p + 121
  }

  /** Below the data blocks, writing a file reaches the record of that file alone. */
  lemma WriteKeepsByte(fs: Fs, i: nat, data: Bytes, a: nat)
    requires Shape(fs) && i < |fs.inodes| && a < Address(|fs.inodes|, 0) && !InRecord(i, a)
    ensures At(WriteFile(fs, i, data).drive, a) == At(fs.drive, a)
  {
    WriteIsolation(fs, i, data, a);
  }

  /** rm reaches the records of the removed inodes and of the rewritten directory alone. */
  lemma {:induction false} RmKeepsByte(fs: Fs, d: nat, k: nat, a: nat)
    requires Inv(fs) && Child(View(fs), d, k) && a < Address(|fs.inodes|, 0) && !InRecord(d, a)
    requires forall i <- Subtree(View(fs), k) :: !InRecord(i, a)
    ensures d < |fs.inodes| && k < |fs.inodes| && At(Rm(fs, d, k).drive, a) == At(fs.drive, a)
    decreases k, 1, 0
  {
    hide Entries, Rm, RmEntries, Encode, WriteFile, Sound, Pruned, Removed, Emptied, Without, Ordered, Unique, Live,
         InRecord, Address, Subtrees;
    ListedFacts(fs, d, k);
    PositionFound(View(fs)[d], k);
    assert Subtree(View(fs), k) == {k} + Subtrees(View(fs), k, View(fs)[k]);
    var e := if fs.inodes[k].kind == 2 then RmEntries(fs, k, Entries(fs, k)) else fs;
    if fs.inodes[k].kind == 2 {
      RmEntriesEmpties(fs, k);
      RmEntriesKeepByte(fs, k, a);
    }
    EmptiedParts(fs, e, d, k);
    PurgeKeepsSound(e, k);
    ShapeOf(Purge(e, k));
    WriteKeepsByte(Purge(e, k), d, Encode(Without(Entries(fs, d), k)), a);
  }

  /** What lies below a directory splits into what lies below its first entry and below the rest. */
  lemma SubtreesOfRest(fs: Fs, k: nat)
    requires Inv(fs) && 0 < k < |fs.inodes| && fs.inodes[k].kind == 2 && Entries(fs, k) != []
    ensures var f := View(fs);
            var c := Entries(fs, k)[0].index;
            var g := Pruned(f, k, c);
            && f[k] == Entries(fs, k) && k < |g|
            && Subtrees(f, k, f[k]) == Subtree(f, c) + Subtrees(g, k, g[k])
  {
    hide Entries;
    RestUntouched(View(fs), k);
  }

  lemma {:induction false} RmEntriesKeepByte(fs: Fs, k: nat, a: nat)
    requires Inv(fs) && 0 < k < |fs.inodes| && fs.inodes[k].kind == 2
    requires a < Address(|fs.inodes|, 0) && !InRecord(k, a)
    requires forall i <- Subtrees(View(fs), k, View(fs)[k]) :: !InRecord(i, a)
    ensures At(RmEntries(fs, k, Entries(fs, k)).drive, a) == At(fs.drive, a)
    decreases k, 0, |Entries(fs, k)|
  {
    hide Inv, Entries, Rm, RmEntries, View, Child, Pruned, Removed, Subtree, Subtrees, InRecord, Address;
    var dir := Entries(fs, k);
    if dir == [] {
      RmNothing(fs, k);
    } else {
      var c := dir[0].index;
      RemoveStep(fs, k, dir);
      ListedChild(fs, k, 0);
      RmPrunes(fs, k, c);
      SubtreesOfRest(fs, k);
      RmKeepsByte(fs, k, c, a);
      RmEntriesKeepByte(Rm(fs, k, c), k, a);
    }
  }

  /** Creating reaches the records of the directory and of the new inode alone. */
  lemma CreateKeepsByte(fs: Fs, d: nat, name: Bytes, kind: nat, a: nat)
    requires Inv(fs) && CanCreate(fs, d, name) && (kind == 1 || kind == 2) && a < Address(|fs.inodes|, 0)
    requires !InRecord(d, a) && !InRecord(Top(fs, |fs.inodes|).value, a)
    ensures Shape(fs) && At(Create(fs, d, name, kind).drive, a) == At(fs.drive, a)
  {
    hide Entries, Encode, WriteFile, Top, View, Child, Ordered, Unique, Live, Blocks, CountFree, Created, Record;
    FindsLargestFree(fs);
    ShapeOf(fs);
    var k := Top(fs, |fs.inodes|).value;
    var self := fs.inodes[d].self;
    var parent := if kind == 2 && self == ROOT_SELF then 0 else self;
    var taken := Take(fs, k, kind, parent);
    TakeKeeps(fs, k, kind, parent);
    CreateSteps(fs, d, name, kind, parent);
    WriteKeepsByte(taken, d, Encode(Entries(taken, d) + [Entry(name, taken.inodes[k].self)]), a);
    InodeRecordBelow(Insert(taken, d, name, k), k);
  }

  // ---------- The superblock ----------

  lemma NotInSuperblock(i: nat, a: nat)
    requires a < 70
    ensures !InRecord(i, a)
  {
  }

  lemma StepKeepsSuperblock(s: Fs, op: Op, r: Fs, a: nat)
    requires Inv(s) && Step(s, op, r) && a < 70
    ensures At(r.drive, a) == At(s.drive, a)
  {
    hide Inv, CanCreate, Create, Rm, WriteFile, Entries, View, Child, InRecord, Subtree;
    forall i: nat ensures !InRecord(i, a) {
      NotInSuperblock(i, a);
    }
    match op
    case Mkdir(d, name) =>
      CanCreateFacts(s, d, name);
      CreateKeepsByte(s, d, name, 2, a);
    case Touch(d, name) =>
      CanCreateFacts(s, d, name);
      CreateKeepsByte(s, d, name, 1, a);
    case WriteText(i, text) =>
      InvIsShaped(s);
      WriteKeepsByte(s, i, text, a);
    case Remove(d, name) =>
      var p := NamePosition(Entries(s, d), name);
      if p < |Entries(s, d)| {
        ListedChild(s, d, p);
        RmKeepsByte(s, d, Entries(s, d)[p].index, a);
      }
  }

  /** The superblock written at format time is on the drive in every state of every session. */
  lemma {:induction false} SuperblockAlways(
    states: seq<Fs>, ops: seq<Op>, size: nat, superblock: Bytes, k: nat, a: nat)
    requires Session(states, ops, size, superblock) && k < |states| && a < 70
    ensures At(states[k].drive, a) == superblock[a]
  {
    hide Inv, Step;
    if k > 0 {
      SuperblockAlways(states, ops, size, superblock, k - 1, a);
      SessionInv(states, ops, size, superblock, k - 1);
      StepKeepsSuperblock(states[k - 1], ops[k - 1], states[k], a);
    }
  }

  // ---------- The records ----------

  /** Where byte x of the record of inode k lies, unless k is the root. */
  function Place(k: nat, x: nat): nat {
    336 + k * 256 + x
  }

  /** The record of inode k as it lies on the drive. */
  function RecordAt(drive: Bytes, k: nat): (r: Bytes)
    ensures |r| == 121
  {
    seq<Byte>(121, x requires 0 <= x < 121 => At(drive, Place(k, x)))
  }

  ghost predicate OnDrive(fs: Fs, k: nat)
    requires k < |fs.inodes|
  {
    |fs.inodes[k].blocks| == 10 && RecordAt(fs.drive, k) == Record(fs.inodes[k])
  }

  /** Every inode that some directory lists has its record on the drive. */
  ghost predicate Recorded(fs: Fs) {
    forall d: nat, k: nat :: Child(View(fs), d, k) && k < |fs.inodes| ==> OnDrive(fs, k)
  }

  lemma RecordBytes(fs: Fs, k: nat, x: nat)
    requires 0 < k < |fs.inodes| && x < 121
    ensures Place(k, x) < Address(|fs.inodes|, 0)
    ensures forall i: nat :: InRecord(i, Place(k, x)) <==> i == k
  {
  }

  lemma WriteRecords(fs: Fs, i: nat, data: Bytes)
    requires Sound(fs) && 0 < i < |fs.inodes| && |data| <= 2560
    ensures |WriteFile(fs, i, data).inodes| == |fs.inodes| && OnDrive(WriteFile(fs, i, data), i)
  {
    hide WriteFile, Record, BlocksExist, Exclusive, Owned;
    var r := WriteFile(fs, i, data);
    SameSizes(fs, i, data);
    WriteKeepsShape(fs, i, data);
    InodeRecordBelow(fs, i);
    forall x | 0 <= x < 121 ensures RecordAt(r.drive, i)[x] == Record(r.inodes[i])[x] {
      WriteCommits(fs, i, data, x);
    }
  }

  /** An inode stays on the drive when it does not change and the bytes of its record do not. */
  lemma StaysOnDrive(r: Fs, fs: Fs, k: nat)
    requires k < |fs.inodes| == |r.inodes| && r.inodes[k] == fs.inodes[k] && OnDrive(fs, k)
    requires forall x :: 0 <= x < 121 ==> At(r.drive, Place(k, x)) == At(fs.drive, Place(k, x))
    ensures OnDrive(r, k)
  {
    hide Record;
    forall x | 0 <= x < 121 ensures RecordAt(r.drive, k)[x] == RecordAt(fs.drive, k)[x] {
      assert At(r.drive, Place(k, x)) == At(fs.drive, Place(k, x));
    }
    assert RecordAt(r.drive, k) == RecordAt(fs.drive, k);
  }

  lemma WriteKeepsRecorded(fs: Fs, i: nat, text: Bytes)
    requires Inv(fs) && Recorded(fs) && i < |fs.inodes| && fs.inodes[i].kind == 1 && |text| <= 2560
    ensures Recorded(WriteFile(fs, i, text))
  {
    hide WriteFile, Entries, OnDrive, InRecord, Address, Sound, Kinds, DirsFit, Unique, Live;
    var r := WriteFile(fs, i, text);
    WriteTextKeeps(fs, i, text);
    InvIsShaped(fs);
    forall d: nat, k: nat | Child(View(r), d, k) && k < |r.inodes| ensures OnDrive(r, k) {
      assert 0 < k;
      if k == i {
        WriteRecords(fs, i, text);
      } else {
        forall x | 0 <= x < 121 ensures At(r.drive, Place(k, x)) == At(fs.drive, Place(k, x)) {
          RecordBytes(fs, k, x);
          WriteKeepsByte(fs, i, text, Place(k, x));
        }
        assert Unchanged(r, fs, k);
        StaysOnDrive(r, fs, k);
      }
    }
  }

  /** What a pruned forest lists lies outside the removed subtree. */
  lemma PrunedListsOutside(f: Forest, d: nat, k: nat, c: nat, j: nat)
    requires Ordered(f) && Unique(f) && Child(f, d, k) && Child(Pruned(f, d, k), c, j)
    ensures Child(f, c, j) && j !in Subtree(f, k)
  {
    var g := Pruned(f, d, k);
    PrunedWithin(f, d, k);
    var e: Entry :| e in g[c] && e.index == j;
    assert e in f[c] && Child(f, c, j);
    WithoutDistinct(f[d], k);
    assert c !in Subtree(f, k);
    assert j != k by {
      assert Child(f, c, j) && Child(f, d, k) && (j == k ==> c == d);
    }
    forall y | y in Subtree(f, k) ensures !Child(f, y, j) {
      assert y != c;
    }
    if j in Subtree(f, k) {
      SubtreeParent(f, k, j);
      assert false;
    }
  }

  lemma RmRecords(fs: Fs, d: nat, k: nat)
    requires Inv(fs) && Child(View(fs), d, k) && 0 < d
    ensures d < |fs.inodes| && k < |fs.inodes| && OnDrive(Rm(fs, d, k), d)
  {
    hide Entries, Rm, RmEntries, Encode, WriteFile, Sound, Pruned, Removed, Emptied, Without, Ordered, Unique, Live,
         OnDrive, Subtree, Subtrees;
    ListedFacts(fs, d, k);
    PositionFound(View(fs)[d], k);
    var e := if fs.inodes[k].kind == 2 then RmEntries(fs, k, Entries(fs, k)) else fs;
    if fs.inodes[k].kind == 2 {
      RmEntriesEmpties(fs, k);
    }
    EmptiedParts(fs, e, d, k);
    PurgeKeepsSound(e, k);
    WriteRecords(Purge(e, k), d, Encode(Without(Entries(fs, d), k)));
  }

  lemma RmKeepsRecorded(fs: Fs, d: nat, k: nat)
    requires Inv(fs) && Recorded(fs) && Child(View(fs), d, k)
    ensures d < |fs.inodes| && k < |fs.inodes| && Recorded(Rm(fs, d, k))
  {
    hide Entries, Rm, OnDrive, InRecord, Address, Sound, Kinds, DirsFit, Live, Pruned, Subtree, Ordered, Unique;
    ListedFacts(fs, d, k);
    RmPrunes(fs, d, k);
    var f, r := View(fs), Rm(fs, d, k);
    forall c: nat, j: nat | Child(View(r), c, j) && j < |r.inodes| ensures OnDrive(r, j) {
      PrunedListsOutside(f, d, k, c, j);
      ListedFacts(fs, c, j);
      if j == d {
        RmRecords(fs, d, k);
      } else {
        forall x | 0 <= x < 121 ensures At(r.drive, Place(j, x)) == At(fs.drive, Place(j, x)) {
          RecordBytes(fs, j, x);
          RmKeepsByte(fs, d, k, Place(j, x));
        }
        assert Unchanged(r, fs, j);
        StaysOnDrive(r, fs, j);
      }
    }
  }

  /** write_inode of inode k. */
  lemma CommitRecords(fs: Fs, k: nat)
    requires Shape(fs) && 0 < k < |fs.inodes|
    ensures OnDrive(Commit(fs, k), k)
  {
    hide Record, Write;
    var r := Commit(fs, k);
    InodeRecordBelow(fs, k);
    forall x | 0 <= x < 121 ensures RecordAt(r.drive, k)[x] == Record(fs.inodes[k])[x] {
      assert RecordAt(r.drive, k)[x] == At(r.drive, Place(k, x));
    }
  }

  lemma CommitKeepsByte(fs: Fs, k: nat, a: nat)
    requires Shape(fs) && k < |fs.inodes| && !InRecord(k, a)
    ensures At(Commit(fs, k).drive, a) == At(fs.drive, a)
  {
    hide Record, Write;
    InodeRecordBelow(fs, k);
  }

  lemma CommittedInodes(fs: Fs, k: nat)
    requires k < |fs.inodes| && |fs.inodes[k].blocks| == 10
    ensures Commit(fs, k).inodes == fs.inodes
  {
  }

  lemma SameOnDrive(r: Fs, fs: Fs, k: nat)
    requires r.inodes == fs.inodes && r.drive == fs.drive && k < |fs.inodes| && OnDrive(fs, k)
    ensures OnDrive(r, k)
  {
  }

  lemma TakenText(fs: Fs, d: nat, name: Bytes, k: nat, kind: nat, parent: nat)
    requires Inv(fs) && CanCreate(fs, d, name) && (kind == 1 || kind == 2) && parent < UINT64
    requires Some(k) == Top(fs, |fs.inodes|)
    ensures var t := Take(fs, k, kind, parent);
            && d < |t.inodes| && k < |t.inodes|
            && |Encode(Entries(t, d) + [Entry(name, t.inodes[k].self)])| <= 2560
  {
    hide Sound, Encode, EntriesIn, NonZero, Live, Ordered, Unique, Top, CountFree, HasFree;
    CanCreateFacts(fs, d, name);
    FindsLargestFree(fs);
    ShapeOf(fs);
    TakeKeeps(fs, k, kind, parent);
    assert Fits(Entries(fs, d) + [Entry(name, k)]);
    assert Entries(Take(fs, k, kind, parent), d) == Entries(fs, d);
  }

  /** After a creation the new inode and its directory have their records on the drive. */
  lemma CreateRecords(fs: Fs, d: nat, name: Bytes, kind: nat)
    requires Inv(fs) && CanCreate(fs, d, name) && (kind == 1 || kind == 2)
    ensures Shape(fs) && d < |fs.inodes|
    ensures var k := Top(fs, |fs.inodes|).value;
            var r := Create(fs, d, name, kind);
            |r.inodes| == |fs.inodes| && k < |r.inodes| && OnDrive(r, k) && (0 < d ==> OnDrive(r, d))
  {
    hide Entries, Encode, WriteFile, Top, View, Child, Ordered, Unique, Live, Blocks, CountFree, Created, Record,
         OnDrive, Commit, Kinds, DirsFit, Sound, Fits;
    CanCreateFacts(fs, d, name);
    FindsLargestFree(fs);
    ShapeOf(fs);
    var k := Top(fs, |fs.inodes|).value;
    var self := fs.inodes[d].self;
    var parent := if kind == 2 && self == ROOT_SELF then 0 else self;
    var taken := Take(fs, k, kind, parent);
    TakeKeeps(fs, k, kind, parent);
    TakenText(fs, d, name, k, kind, parent);
    CreateSteps(fs, d, name, kind, parent);
    var written := Insert(taken, d, name, k);
    var done := Commit(written, k);
    CommitRecords(written, k);
    CommittedInodes(written, k);
    SameOnDrive(Create(fs, d, name, kind), done, k);
    if 0 < d {
      WriteRecords(taken, d, Encode(Entries(taken, d) + [Entry(name, taken.inodes[k].self)]));
      forall x | 0 <= x < 121 ensures At(done.drive, Place(d, x)) == At(written.drive, Place(d, x)) {
        RecordBytes(fs, d, x);
        CommitKeepsByte(written, k, Place(d, x));
      }
      StaysOnDrive(done, written, d);
      SameOnDrive(Create(fs, d, name, kind), done, d);
    }
  }

  lemma CreatedListsOld(f: Forest, d: nat, name: Bytes, k: nat, c: nat, j: nat)
    requires d < |f| && Child(f[d := f[d] + [Entry(name, k)]], c, j) && j != k
    ensures Child(f, c, j)
  {
  }

  lemma CreateKeepsRecorded(fs: Fs, d: nat, name: Bytes, kind: nat)
    requires Inv(fs) && Recorded(fs) && CanCreate(fs, d, name) && (kind == 1 || kind == 2)
    ensures Shape(fs) && d < |fs.inodes| && Top(fs, |fs.inodes|).Some? && Recorded(Create(fs, d, name, kind))
  {
    hide Entries, Create, OnDrive, InRecord, Address, Sound, Kinds, DirsFit, Live, Unique, CanCreate, Top;
    CreateKeeps(fs, d, name, kind);
    InvIsShaped(fs);
    CreateRecords(fs, d, name, kind);
    var f, r, k := View(fs), Create(fs, d, name, kind), Top(fs, |fs.inodes|).value;
    forall c: nat, j: nat | Child(View(r), c, j) && j < |r.inodes| ensures OnDrive(r, j) {
      ListedFacts(r, c, j);
      if j != d && j != k {
        CreatedListsOld(f, d, name, k, c, j);
        forall x | 0 <= x < 121 ensures At(r.drive, Place(j, x)) == At(fs.drive, Place(j, x)) {
          RecordBytes(fs, j, x);
          CreateKeepsByte(fs, d, name, kind, Place(j, x));
        }
        assert Unchanged(r, fs, j);
        StaysOnDrive(r, fs, j);
      }
    }
  }

  lemma StepKeepsRecorded(s: Fs, op: Op, r: Fs)
    requires Inv(s) && Recorded(s) && Step(s, op, r)
    ensures Recorded(r)
  {
    hide Inv, CanCreate, Create, Rm, WriteFile, Entries, View, Child, Recorded;
    match op
    case Mkdir(d, name) => CreateKeepsRecorded(s, d, name, 2);
    case Touch(d, name) => CreateKeepsRecorded(s, d, name, 1);
    case WriteText(i, text) => WriteKeepsRecorded(s, i, text);
    case Remove(d, name) =>
      var p := NamePosition(Entries(s, d), name);
      if p < |Entries(s, d)| {
        ListedChild(s, d, p);
        RmKeepsRecorded(s, d, Entries(s, d)[p].index);
      }
  }

  lemma FreshRecorded(size: nat, superblock: Bytes)
    requires 80 <= size < 0x1000_0000_0000_0000 && Format(size).Some? && |superblock| == 70
    ensures Recorded(Fresh(size, superblock))
  {
    hide Entries, Image;
    var fs := Fresh(size, superblock);
    FreshRoot(size, superblock);
    forall i | 0 <= i < |fs.inodes| ensures View(fs)[i] == [] {
    }
  }

  lemma {:induction false} SessionRecorded(states: seq<Fs>, ops: seq<Op>, size: nat, superblock: Bytes, k: nat)
    requires Session(states, ops, size, superblock) && k < |states|
    ensures Recorded(states[k])
  {
    hide Inv, Step, Fresh, Recorded;
    if k == 0 {
      FreshRecorded(size, superblock);
    } else {
      SessionRecorded(states, ops, size, superblock, k - 1);
      SessionInv(states, ops, size, superblock, k - 1);
      StepKeepsRecorded(states[k - 1], ops[k - 1], states[k]);
    }
  }

  lemma {:induction false} NonZeroMember(s: seq<nat>, b: nat)
    requires b in s && b != 0
    ensures b in NonZero(s)
  {
    if s[0] != b {
      NonZeroMember(s[1..], b);
    }
  }

  lemma InodeRepresentable(fs: Fs, i: nat)
    requires Inv(fs) && 0 < i < |fs.inodes|
    ensures Representable(fs.inodes[i])
  {
    hide Entries;
    ShapeOf(fs);
    assert BlocksExist(fs, i);
    forall b | b in fs.inodes[i].blocks ensures b < UINT64 {
      if b != 0 {
        NonZeroMember(fs.inodes[i].blocks, b);
        assert b in Blocks(fs, i);
      }
    }
  }

  /** In every state of every session, whatever a directory lists can be read back from the drive: its record
      there parses to the inode in memory. */
  lemma RecordsAlways(states: seq<Fs>, ops: seq<Op>, size: nat, superblock: Bytes, k: nat, d: nat, i: nat)
    requires Session(states, ops, size, superblock) && k < |states| && Child(View(states[k]), d, i)
    ensures 0 < i < |states[k].inodes| && RecordAddress(i) == 336 + i * 256
    ensures ParseRecord(RecordAt(states[k].drive, i)) == states[k].inodes[i]
  {
    hide Entries, RecordAt, ParseRecord, Sound, Kinds, DirsFit, Live, Unique;
    SessionRecorded(states, ops, size, superblock, k);
    SessionInv(states, ops, size, superblock, k);
    var fs := states[k];
    ListedFacts(fs, d, i);
    InvIsShaped(fs);
    InodeRecord(i);
    InodeRepresentable(fs, i);
    ParseRecordInverts(fs.inodes[i]);
  }
}
