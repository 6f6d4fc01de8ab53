/** The recursive rm drops the named entry, frees the blocks of the removed subtree and leaves all other files
    as they were. Then: what every run of mkdir, touch, write_file and rm keeps. */
module FsRemove {

  import opened FsCodec
  import opened FsVolume
  import opened FsAllocation
  import opened FsForest
  import opened FsTree
  import opened FsLaws

  /** The inodes in gone own nothing; all others but d are as they were; no inode changes its kind. */
  ghost predicate Removed(r: Fs, fs: Fs, gone: set<nat>, d: nat) {
    && SameKinds(r, fs)
    && (forall i :: 0 <= i < |fs.inodes| && i in gone ==> Blocks(r, i) == [])
    && (forall i :: 0 <= i < |fs.inodes| && i !in gone && i != d ==> Unchanged(r, fs, i))
  }

  lemma RemovedTwice(r: Fs, m: Fs, fs: Fs, a: set<nat>, b: set<nat>, d: nat)
    requires Removed(r, m, b, d) && Removed(m, fs, a, d) && d !in a
    ensures Removed(r, fs, a + b, d)
  {
    hide Block, NonZero;
    forall i | 0 <= i < |fs.inodes| && i in a + b ensures Blocks(r, i) == [] {
      if i !in b {
        assert Unchanged(r, m, i);
      }
    }
    forall i | 0 <= i < |fs.inodes| && i !in a + b && i != d ensures Unchanged(r, fs, i) {
      assert Unchanged(r, m, i) && Unchanged(m, fs, i);
    }
  }

  lemma RemovedThenLast(r: Fs, m: Fs, fs: Fs, below: set<nat>, d: nat, k: nat)
    requires Removed(m, fs, below, k) && Removed(r, m, {k}, d) && d !in below && d != k
    ensures Removed(r, fs, below + {k}, d)
  {
    hide Block, NonZero;
    forall i | 0 <= i < |fs.inodes| && i in below && i != k ensures Blocks(r, i) == [] {
      assert Unchanged(r, m, i);
    }
    forall i | 0 <= i < |fs.inodes| && i !in below && i != k && i != d ensures Unchanged(r, fs, i) {
      assert Unchanged(r, m, i) && Unchanged(m, fs, i);
    }
  }

  // ---------- The two frees of rm ----------

  /** purge_file_contents on an inode that lists nothing. */
  lemma PurgeRemoves(fs: Fs, k: nat)
    requires Inv(fs) && 0 < k < |fs.inodes| && View(fs)[k] == []
    ensures var r := Purge(fs, k);
            && Sound(r) && Kinds(r) && DirsFit(r) && View(r) == View(fs) && Blocks(r, k) == []
            && SameKinds(r, fs)
            && forall i :: 0 <= i < |fs.inodes| && i != k ==> Unchanged(r, fs, i)
  {
    hide Blocks, Block, EntriesIn, Sound, Ordered, Unique, Live;
    ShapeOf(fs);
    var r := Purge(fs, k);
    PurgeKeepsSound(fs, k);
    forall i | 0 <= i < |fs.inodes| ensures Blocks(r, i) == (if i == k then [] else Blocks(fs, i)) {
      BlocksAfterPurge(fs, k, i);
    }
    NoEntries(r.drive, |fs.inodes|);
    forall i | 0 <= i < |fs.inodes| && i != k ensures Entries(r, i) == Entries(fs, i) {
    }
    assert View(r) == View(fs);
  }

  lemma PositionFound(dir: seq<Entry>, k: nat)
    requires exists e <- dir :: e.index == k
    ensures Position(dir, k) < |dir|
  {
  }

  /** The room that rewriting a directory needs is its own block: a directory that lists something has one. */
  lemma ListingHasBlock(fs: Fs, d: nat)
    requires d < |fs.inodes| && Entries(fs, d) != []
    ensures Blocks(fs, d) != []
  {
  }

  lemma {:induction false} WithoutFits(dir: seq<Entry>, k: nat)
    ensures |Encode(Without(dir, k))| <= |Encode(dir)|
  {
    if dir != [] {
      WithoutFits(dir[1..], k);
      if dir[0].index != k {
        assert ([dir[0]] + Without(dir[1..], k))[1..] == Without(dir[1..], k);
      }
    }
  }

  lemma RemovedLast(r: Fs, p: Fs, fs: Fs, d: nat, k: nat)
    requires SameKinds(r, p) && SameKinds(p, fs) && d != k && k < |fs.inodes| && Blocks(p, k) == []
    requires forall i :: 0 <= i < |fs.inodes| && i != d ==> Unchanged(r, p, i)
    requires forall i :: 0 <= i < |fs.inodes| && i != k ==> Unchanged(p, fs, i)
    ensures Removed(r, fs, {k}, d)
  {
    hide Block, NonZero;
    assert Unchanged(r, p, k);
    forall i | 0 <= i < |fs.inodes| && i != k && i != d ensures Unchanged(r, fs, i) {
      assert Unchanged(r, p, i) && Unchanged(p, fs, i);
    }
  }

  /** rm once the subtree below k has been emptied: free k, and take k out of d's list. */
  lemma RmLast(fs: Fs, d: nat, k: nat)
    requires Inv(fs) && d < |fs.inodes| && 0 < k < |fs.inodes| && d != k && fs.inodes[d].kind == 2
    requires View(fs)[k] == [] && View(fs)[d] != []
    ensures var r := WriteFile(Purge(fs, k), d, Encode(Without(View(fs)[d], k)));
            && Sound(r) && Kinds(r) && DirsFit(r)
            && View(r) == View(fs)[d := Without(View(fs)[d], k)] && |Blocks(r, d)| == 1
            && Removed(r, fs, {k}, d)
  {
    hide Blocks, Block, Entries, Sound, Kinds, Ordered, Unique, Live, WriteFile, Encode, Purge, CountFree;
    var dir := View(fs)[d];
    PurgeRemoves(fs, k);
    var p := Purge(fs, k);
    WithoutFits(dir, k);
    assert Entries(p, d) == dir && Entries(fs, d) == dir by {
      assert View(p)[d] == dir;
    }
    ListingHasBlock(p, d);
    assert Encodable(Without(dir, k));
    WriteDirectory(p, d, Without(dir, k));
    var r := WriteFile(p, d, Encode(Without(dir, k)));
    RemovedLast(r, p, fs, d, k);
  }

  lemma StillLive(r: Fs, fs: Fs)
    requires Live(fs) && SameKinds(r, fs) && Within(View(r), View(fs))
    ensures Live(r)
  {
    hide Entries;
    forall d: nat, k: nat | Child(View(r), d, k) && k < |r.inodes| ensures r.inodes[k].kind != 0 {
      var e: Entry :| e in View(r)[d] && e.index == k;
      assert Child(View(fs), d, k);
    }
  }

  // ---------- The recursion ----------

  lemma ListedFacts(fs: Fs, d: nat, k: nat)
    requires Inv(fs) && Child(View(fs), d, k)
    ensures d < |fs.inodes| && 0 < k < |fs.inodes| && d != k && (d == 0 || k < d)
    ensures fs.inodes[d].kind == 2 && Entries(fs, d) == View(fs)[d] && View(fs)[d] != []
    ensures fs.inodes[k].self == k && (fs.inodes[k].kind == 2 ==> Entries(fs, k) == View(fs)[k])
    ensures exists e <- View(fs)[d] :: e.index == k
  {
    hide Entries;
    ShapeOf(fs);
  }

  lemma NothingListed(fs: Fs, k: nat)
    requires k < |fs.inodes| && View(fs)[k] == []
    ensures var f := View(fs); Emptied(f, k, f[k]) == f && Removed(fs, fs, Subtrees(f, k, f[k]), k)
  {
    var f := View(fs);
    assert Subtrees(f, k, f[k]) == {};
    assert Emptied(f, k, f[k]) == f;
  }

  lemma NothingBelow(fs: Fs, k: nat)
    requires k < |fs.inodes| && fs.inodes[k].kind != 2
    ensures var f := View(fs);
            f[k] == [] && Emptied(f, k, f[k]) == f && Removed(fs, fs, Subtrees(f, k, f[k]), k)
  {
    NothingListed(fs, k);
  }

  /** What is known of k and d when the subtree below k has been emptied. */
  lemma AfterEmptying(e: Fs, fs: Fs, d: nat, k: nat)
    requires |e.inodes| == |fs.inodes| && d < |fs.inodes| && k < |fs.inodes| && d != k
    requires fs.inodes[d].kind == 2 && View(fs)[d] != [] && d !in Subtrees(View(fs), k, View(fs)[k])
    requires View(e) == Emptied(View(fs), k, View(fs)[k])
    requires Removed(e, fs, Subtrees(View(fs), k, View(fs)[k]), k)
    ensures View(e)[k] == [] && View(e)[d] == View(fs)[d]
    ensures e.inodes[d].kind == 2 && SameKinds(e, fs)
  {
    hide Entries, Subtrees;
  }

  lemma StillInv(r: Fs, fs: Fs, d: nat, k: nat)
    requires Inv(fs) && Child(View(fs), d, k) && View(r) == Pruned(View(fs), d, k) && SameKinds(r, fs)
    requires Sound(r) && Kinds(r) && DirsFit(r)
    ensures Inv(r)
  {
    hide Sound, Kinds, DirsFit, Entries, Subtree, Pruned;
    PrunedWithin(View(fs), d, k);
    WithinKeeps(View(r), View(fs));
    StillLive(r, fs);
  }

  lemma SameKind(m: Fs, fs: Fs, gone: set<nat>, k: nat)
    requires Removed(m, fs, gone, k) && k < |fs.inodes|
    ensures |m.inodes| == |fs.inodes| && m.inodes[k].kind == fs.inodes[k].kind && SameKinds(m, fs)
  {
  }

  /** rm of a listed inode: the tree is pruned at it, and nothing else changes. */
  lemma {:induction false} RmPrunes(fs: Fs, d: nat, k: nat)
    requires Inv(fs) && Child(View(fs), d, k)
    ensures d < |fs.inodes| && 0 < k < |fs.inodes|
    ensures var r := Rm(fs, d, k);
            && Inv(r) && View(r) == Pruned(View(fs), d, k) && |Blocks(r, d)| == 1
            && Removed(r, fs, Subtree(View(fs), k), d)
    decreases k, 1, 0
  {
    hide Sound, Kinds, DirsFit, Live, Unique, Entries, Subtree, Subtrees, Pruned, Emptied, Removed, WriteFile, Purge,
         Encode, Without, RmEntries, Within;
    var f := View(fs);
    var dir := f[d];
    ListedFacts(fs, d, k);
    PositionFound(dir, k);
    var emptied := if fs.inodes[k].kind == 2 then RmEntries(fs, k, Entries(fs, k)) else fs;
    if fs.inodes[k].kind == 2 {
      RmEntriesEmpties(fs, k);
    } else {
      NothingBelow(fs, k);
    }
    PrunedIsEmptied(f, d, k);
    AfterEmptying(emptied, fs, d, k);
    RmLast(emptied, d, k);
    var r := Rm(fs, d, k);
    assert r == WriteFile(Purge(emptied, k), d, Encode(Without(dir, k)));
    assert View(r) == Pruned(f, d, k);
    RemovedThenLast(r, emptied, fs, Subtrees(f, k, f[k]), d, k);
    assert Subtrees(f, k, f[k]) + {k} == Subtree(f, k);
    SameKind(r, fs, Subtree(f, k), d);
    StillInv(r, fs, d, k);
  }

  /** The loop of rm over a directory empties it. */
  lemma {:induction false} RmEntriesEmpties(fs: Fs, k: nat)
    requires Inv(fs) && 0 < k < |fs.inodes| && fs.inodes[k].kind == 2
    ensures var f := View(fs);
            var r := RmEntries(fs, k, f[k]);
            && Inv(r) && View(r) == Emptied(f, k, f[k])
            && Removed(r, fs, Subtrees(f, k, f[k]), k)
    decreases k, 0, |View(fs)[k]|
  {
    hide Sound, Kinds, DirsFit, Live, Unique, Entries, Subtree, Subtrees, Pruned, Emptied, Removed, WriteFile, Purge,
         Encode, Without, Rm, Within;
    var f := View(fs);
    var dir := f[k];
    if dir == [] {
      NothingListed(fs, k);
    } else {
      var c := dir[0].index;
      assert dir[0] in dir && Child(f, k, c);
      RmPrunes(fs, k, c);
      var m := Rm(fs, k, c);
      RestUntouched(f, k);
      SameKind(m, fs, Subtree(f, c), k);
      assert View(m)[k] == dir[1..];
      RmEntriesEmpties(m, k);
      EmptiedStep(f, k);
      ParentOutside(f, k, c);
      RemovedTwice(RmEntries(m, k, dir[1..]), m, fs, Subtree(f, c), Subtrees(f, k, dir[1..]), k);
    }
  }

  // ---------- The steps of rm, one at a time ----------

  lemma SoundParts(fs: Fs, d: nat)
    requires Sound(fs) && d < |fs.inodes|
    ensures |fs.inodes[d].blocks| == 10 && (fs.inodes[d].self == ROOT_SELF ==> fs.inodes[d].blocks[0] == 0)
    ensures forall b <- Blocks(fs, d) :: b < |fs.bitmap|
  {
    assert BlocksExist(fs, d);
  }

  lemma RemoveParts(fs: Fs, d: nat, k: nat)
    requires Inv(fs) && d < |fs.inodes| && 0 < k < |fs.inodes| && fs.inodes[d].kind == 2
    ensures |fs.inodes[d].blocks| == 10 && (fs.inodes[d].self == ROOT_SELF ==> fs.inodes[d].blocks[0] == 0)
    ensures fs.inodes[k].self == k && View(fs)[d] == Entries(fs, d)
  {
    hide Entries, Blocks;
    SoundParts(fs, d);
    ShapeOf(fs);
  }

  /** Once the subtree below k is empty, k and d can be freed and rewritten, and that is what rm computes. */
  lemma EmptiedParts(fs: Fs, e: Fs, d: nat, k: nat)
    requires Inv(fs) && d < |fs.inodes| && 0 < k < |fs.inodes| && Child(View(fs), d, k)
    requires e == if fs.inodes[k].kind == 2 then RmEntries(fs, k, Entries(fs, k)) else fs
    requires Inv(e) && |e.inodes| == |fs.inodes| && Position(Entries(fs, d), k) < |Entries(fs, d)|
    ensures |e.inodes[k].blocks| == 10 && forall b <- Blocks(e, k) :: b < |e.bitmap|
    ensures var p := Purge(e, k); |p.inodes[d].blocks| == 10 && forall b <- Blocks(p, d) :: b < |p.bitmap|
    ensures var text := Encode(Without(Entries(fs, d), k));
            |text| <= 2560 && Rm(fs, d, k) == WriteFile(Purge(e, k), d, text)
    ensures Inv(Rm(fs, d, k)) && |Rm(fs, d, k).inodes| == |fs.inodes|
  {
    hide Entries, RmEntries, Encode, WriteFile, Purge, Sound, Ordered, Unique, Live, Pruned, Removed, Without;
    SoundParts(e, k);
    ShapeOf(e);
    PurgeKeepsSound(e, k);
    SoundParts(Purge(e, k), d);
    ListedFacts(fs, d, k);
    WithoutFits(Entries(fs, d), k);
    RmPrunes(fs, d, k);
  }

  /** One turn of the loop over the entries of a directory. */
  lemma RemoveStep(fs: Fs, k: nat, dir: seq<Entry>)
    requires Inv(fs) && 0 < k < |fs.inodes| && fs.inodes[k].kind == 2 && dir != [] && Entries(fs, k) == dir
    ensures 0 < dir[0].index < k
    ensures var m := Rm(fs, k, dir[0].index);
            && RmEntries(fs, k, dir) == RmEntries(m, k, dir[1..])
            && |m.inodes| == |fs.inodes| && m.inodes[k].kind == 2 && Entries(m, k) == dir[1..]
  {
    hide Entries, Rm, Sound, Ordered, Unique, Live, Kinds, DirsFit, Pruned, Removed, Subtree, Subtrees;
    var f, c := View(fs), dir[0].index;
    RemoveParts(fs, k, k);
    assert dir[0] in f[k] && Child(f, k, c);
    ListedFacts(fs, k, c);
    RmPrunes(fs, k, c);
    RestUntouched(f, k);
    SameKind(Rm(fs, k, c), fs, Subtree(f, c), k);
    assert View(Rm(fs, k, c))[k] == dir[1..];
  }

  lemma RmNothing(fs: Fs, k: nat)
    requires k < |fs.inodes|
    ensures RmEntries(fs, k, []) == fs
  {
  }
}
