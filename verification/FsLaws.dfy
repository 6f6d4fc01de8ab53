/** What mkdir, touch, write_file and rm do to the tree, and what every run of them keeps. */
module FsLaws {

  import opened FsCodec
  import opened FsVolume
  import opened FsAllocation
  import opened FsForest
  import opened FsTree
  import opened Wrappers

  // ---------- mkdir and touch ----------

  /** A new inode k of the given kind is listed last in directory d; every other inode is as before. A new
      directory names d as its parent; a new file names the self index of d, which is -1 for the root. */
  ghost predicate Created(r: Fs, fs: Fs, d: nat, name: Bytes, kind: nat, k: nat) {
    && |r.inodes| == |fs.inodes| && |r.bitmap| == |fs.bitmap|
    && d < |fs.inodes| && 0 < k < |fs.inodes| && k != d
    && fs.inodes[k].kind == 0 && r.inodes[k].kind == kind && Blocks(r, k) == []
    && r.inodes[k].parent == (if kind == 2 then d else fs.inodes[d].self)
    && r.inodes[d].kind == 2
    && View(r) == View(fs)[d := View(fs)[d] + [Entry(name, k)]]
    && forall i :: 0 <= i < |fs.inodes| && i != d && i != k ==> Unchanged(r, fs, i)
  }

  lemma KindsRequeued(fs: Fs, k: nat)
    requires Kinds(fs) && k < |fs.inodes|
    ensures Kinds(fs.(queue := fs.queue + {k}))
  {
    var r := fs.(queue := fs.queue + {k});
    assert forall i :: 0 <= i < |fs.inodes| ==> Blocks(r, i) == Blocks(fs, i);
  }

  lemma QueueIrrelevant(fs: Fs, queue: set<nat>)
    requires Sound(fs) && DirsFit(fs)
    ensures var r := fs.(queue := queue); Sound(r) && DirsFit(r) && View(r) == View(fs)
  {
    SameSlotsSame(fs, fs.(queue := queue));
    assert View(fs.(queue := queue)) == View(fs);
  }

  lemma ShapeOf(fs: Fs)
    requires Sound(fs)
    ensures Shape(fs) && forall i :: 0 <= i < |fs.inodes| ==> fs.inodes[i].self == (if i == 0 then ROOT_SELF else i)
    ensures |fs.inodes| < UINT64
  {
  }

  lemma TakenSame(fs: Fs, k: nat, kind: nat, parent: nat)
    requires k < |fs.inodes|
    ensures var r := Take(fs, k, kind, parent);
            forall i :: 0 <= i < |fs.inodes| && i != k ==> Unchanged(r, fs, i)
  {
  }

  lemma CreatedUnchanged(fs: Fs, taken: Fs, r: Fs, d: nat, k: nat)
    requires |fs.inodes| == |taken.inodes| == |r.inodes| && d < |fs.inodes| && k < |fs.inodes|
    requires forall i :: 0 <= i < |fs.inodes| && i != k ==> Unchanged(taken, fs, i)
    requires forall i :: 0 <= i < |fs.inodes| && i != d ==> Unchanged(r, taken, i)
    ensures forall i :: 0 <= i < |fs.inodes| && i != d && i != k ==> Unchanged(r, fs, i)
    ensures k != d ==> r.inodes[k] == taken.inodes[k] && Blocks(r, k) == Blocks(taken, k)
  {
    hide Block, NonZero;
    forall i | 0 <= i < |fs.inodes| && i != d && i != k ensures Unchanged(r, fs, i) {
      assert Unchanged(taken, fs, i) && Unchanged(r, taken, i);
    }
    if k != d {
      assert Unchanged(r, taken, k);
    }
  }

  /** The steps of mkdir and touch up to the rewritten directory. */
  lemma InsertSteps(fs: Fs, d: nat, name: Bytes, kind: nat, parent: nat)
    requires Inv(fs) && CanCreate(fs, d, name) && (kind == 1 || kind == 2)
    requires parent == if kind == 2 then d else fs.inodes[d].self
    requires Top(fs, |fs.inodes|).Some?
    ensures var k := Top(fs, |fs.inodes|).value;
            var r := Insert(Take(fs, k, kind, parent), d, name, k);
            && Sound(r) && Kinds(r) && DirsFit(r) && r.queue == fs.queue - {k}
            && Created(r, fs, d, name, kind, k)
            && forall i :: 0 <= i < |fs.inodes| && fs.inodes[i].kind != 0 ==> r.inodes[i].kind != 0
  {
    hide Sound, DirsFit, Top, Ordered, Unique, WriteFile, Blocks, Entries, CountFree, Fits, Child, SameSlots, Unchanged;
    FindsLargestFree(fs);
    ShapeOf(fs);
    var k := Top(fs, |fs.inodes|).value;
    var taken := Take(fs, k, kind, parent);
    TakeKeeps(fs, k, kind, parent);
    TakenSame(fs, k, kind, parent);
    var dir := View(fs)[d] + [Entry(name, k)];
    assert Entries(taken, d) == View(taken)[d];
    assert Encodable(dir) && Fits(dir);
    WriteDirectory(taken, d, dir);
    CreatedUnchanged(fs, taken, WriteFile(taken, d, Encode(dir)), d, k);
  }

  lemma CommittedUnchanged(fs: Fs, written: Fs, r: Fs, d: nat, k: nat)
    requires |fs.inodes| == |written.inodes| && r.inodes == written.inodes && k < |fs.inodes|
    requires forall i :: 0 <= i < |fs.inodes| && i != d && i != k ==> Unchanged(written, fs, i)
    requires forall i :: 0 <= i < |fs.inodes| ==> Unchanged(r, written, i)
    ensures forall i :: 0 <= i < |fs.inodes| && i != d && i != k ==> Unchanged(r, fs, i)
    ensures Blocks(r, k) == Blocks(written, k)
  {
    hide Block, NonZero;
    forall i | 0 <= i < |fs.inodes| && i != d && i != k ensures Unchanged(r, fs, i) {
      assert Unchanged(written, fs, i) && Unchanged(r, written, i);
    }
  }

  lemma CanCreateFacts(fs: Fs, d: nat, name: Bytes)
    requires CanCreate(fs, d, name)
    ensures d < |fs.inodes| && fs.inodes[d].kind == 2 && HasFree(fs) && Top(fs, |fs.inodes|).Some?
  {
  }

  lemma CommittedKinds(fs: Fs, k: nat)
    requires k < |fs.inodes| && |fs.inodes[k].blocks| == 10 && Sound(fs)
    requires Kinds(fs) && DirsFit(fs)
    ensures Kinds(Commit(fs, k)) && DirsFit(Commit(fs, k))
  {
    hide Block, Sound;
    var r := Commit(fs, k);
    CommitKeeps(fs, k);
    forall i | 0 <= i < |fs.inodes| ensures Blocks(r, i) == Blocks(fs, i) && Entries(r, i) == Entries(fs, i) {
      UnchangedContents(r, fs, i);
    }
  }

  /** The steps of mkdir and touch up to the return of the inode to the queue. */
  lemma CreateSteps(fs: Fs, d: nat, name: Bytes, kind: nat, parent: nat)
    requires Inv(fs) && CanCreate(fs, d, name) && (kind == 1 || kind == 2)
    requires parent == if kind == 2 then d else fs.inodes[d].self
    requires Top(fs, |fs.inodes|).Some?
    ensures var k := Top(fs, |fs.inodes|).value;
            var written := Insert(Take(fs, k, kind, parent), d, name, k);
            && Shape(written)
            && var r := Commit(written, k);
               && Sound(r) && Kinds(r) && DirsFit(r) && r.queue == fs.queue - {k}
               && Created(r, fs, d, name, kind, k)
               && forall i :: 0 <= i < |fs.inodes| && fs.inodes[i].kind != 0 ==> r.inodes[i].kind != 0
  {
    hide Inv, CanCreate, Sound, Kinds, DirsFit, Top, Take, Insert, Commit, View;
    CanCreateFacts(fs, d, name);
    var k := Top(fs, |fs.inodes|).value;
    var written := Insert(Take(fs, k, kind, parent), d, name, k);
    InsertSteps(fs, d, name, kind, parent);
    ShapeOf(written);
    CommitKeeps(written, k);
    CommittedKinds(written, k);
    CommittedUnchanged(fs, written, Commit(written, k), d, k);
  }

  lemma RequeuedUnchanged(done: Fs, queue: set<nat>, fs: Fs, d: nat, k: nat)
    requires k < |fs.inodes| == |done.inodes|
    requires forall i :: 0 <= i < |fs.inodes| && i != d && i != k ==> Unchanged(done, fs, i)
    ensures var r := done.(queue := queue);
            && Blocks(r, k) == Blocks(done, k)
            && forall i :: 0 <= i < |fs.inodes| && i != d && i != k ==> Unchanged(r, fs, i)
  {
    hide Block, NonZero;
    var r := done.(queue := queue);
    forall i | 0 <= i < |fs.inodes| && i != d && i != k ensures Unchanged(r, fs, i) {
      assert Unchanged(done, fs, i);
    }
  }

  lemma CreatedTree(fs: Fs, d: nat, e: Entry)
    requires Inv(fs) && d < |fs.inodes| && fs.inodes[d].kind == 2
    requires 0 < e.index < |fs.inodes| && fs.inodes[e.index].kind == 0
    ensures var g := View(fs)[d := View(fs)[d] + [e]]; Ordered(g) && Unique(g)
  {
    hide Sound, Entries, Unique, Ordered, Blocks;
    forall c: nat ensures !Child(View(fs), c, e.index) {
    }
    GrownKeeps(View(fs), d, e);
  }

  lemma CreatedLive(r: Fs, fs: Fs, d: nat, name: Bytes, k: nat)
    requires Live(fs) && |r.inodes| == |fs.inodes| && d < |fs.inodes| && k < |fs.inodes|
    requires View(r) == View(fs)[d := View(fs)[d] + [Entry(name, k)]]
    requires r.inodes[k].kind != 0
    requires forall i :: 0 <= i < |fs.inodes| && fs.inodes[i].kind != 0 ==> r.inodes[i].kind != 0
    ensures Live(r)
  {
    hide Entries;
    forall c: nat, j: nat | Child(View(r), c, j) && j < |r.inodes| ensures r.inodes[j].kind != 0 {
      var e :| e in View(r)[c] && e.index == j;
      if e in View(fs)[c] {
        assert Child(View(fs), c, j);
      }
    }
  }

  /** mkdir and touch list one new inode, the free one with the largest index, and keep the invariant. mkdir puts
      the inode back into the queue, touch does not. */
  lemma CreateKeeps(fs: Fs, d: nat, name: Bytes, kind: nat)
    requires Inv(fs) && CanCreate(fs, d, name) && (kind == 1 || kind == 2)
    ensures Top(fs, |fs.inodes|).Some?
    ensures var k := Top(fs, |fs.inodes|).value;
            var r := Create(fs, d, name, kind);
            && Inv(r) && Created(r, fs, d, name, kind, k)
            && r.queue == (if kind == 2 then fs.queue else fs.queue - {k})
  {
    hide Sound, DirsFit, Top, Ordered, Unique, View, Child, Take, Insert, Commit, SameSlots, Kinds, Unchanged,
         CanCreate, Live, HasFree;
    assert d < |fs.inodes| && fs.inodes[d].kind == 2 && HasFree(fs) by { CanCreateFacts(fs, d, name); }
    FindsLargestFree(fs);
    ShapeOf(fs);
    var k := Top(fs, |fs.inodes|).value;
    var self := fs.inodes[d].self;
    var parent := if kind == 2 && self == ROOT_SELF then 0 else self;
    CreateSteps(fs, d, name, kind, parent);
    var done := Commit(Insert(Take(fs, k, kind, parent), d, name, k), k);
    QueueIrrelevant(done, done.queue + {k});
    KindsRequeued(done, k);
    CreatedTree(fs, d, Entry(name, k));
    var r := Create(fs, d, name, kind);
    RequeuedUnchanged(done, done.queue + {k}, fs, d, k);
    CreatedLive(r, fs, d, name, k);
    assert fs.queue - {k} + {k} == fs.queue;
  }
}
