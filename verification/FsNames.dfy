/** Reading and writing by name: what each kind of name reads as, and what writing one leaves alone. */
module FsNames {

  import opened FsCodec
  import opened FsVolume
  import opened FsAllocation
  import opened FsForest
  import opened FsTree
  import opened FsLaws
  import opened FsRuns
  import opened Wrappers

  // ---------- Buffers ----------

  /** The 256 bytes at a position of the drive begin with text t and its terminator. */
  ghost predicate HoldsText(drive: Bytes, pos: int, t: Bytes) {
    && 0 <= pos && pos + 256 <= |drive| && |t| < 256 && NUL !in t
    && drive[pos..pos + |t|] == t && drive[pos + |t|] == NUL
  }

  lemma StrlenIs(s: Bytes, t: Bytes)
    requires |t| < |s| && s[..|t|] == t && s[|t|] == NUL && NUL !in t
    ensures Strlen(s) == |t|
  {
    assert s == t + [NUL] + s[|t| + 1..];
    StrlenUpTo(t, s[|t| + 1..]);
  }

  lemma FetchExactly(drive: Bytes, pos: int, t: Bytes)
    ensures Fetch(drive, pos) == Some(t) <==> HoldsText(drive, pos, t)
  {
    hide Strlen;
    if 0 <= pos && pos + 256 <= |drive| && |t| < 256 {
      var s := drive[pos..pos + 256];
      assert s[..|t|] == drive[pos..pos + |t|];
      if HoldsText(drive, pos, t) {
        StrlenIs(s, t);
      }
    }
  }

  // ---------- Files ----------

  /** The first m slots are in use and the next one, if there is one, is not. */
  predicate InUse(blocks: seq<nat>, m: nat) {
    m <= |blocks| && (forall j :: 0 <= j < m ==> blocks[j] != 0) && (m < |blocks| ==> blocks[m] == 0)
  }

  /** Where read_file reads its buffer number j: right for the first one; from there on it advances by whole
      blocks and by the difference of the block numbers. */
  function BufferAt(n: nat, blocks: seq<nat>, j: nat): int
    requires j < |blocks|
  {
    Address(n, blocks[0]) + 256 * j + blocks[j] - blocks[0]
  }

  function Concat(pieces: seq<Bytes>): Bytes {
    if pieces == [] then [] else pieces[0] + Concat(pieces[1..])
  }

  /** The buffers number from and on hold the pieces. */
  ghost predicate Pieces(drive: Bytes, n: nat, blocks: seq<nat>, from: nat, pieces: seq<Bytes>) {
    && from + |pieces| <= |blocks|
    && forall j :: 0 <= j < |pieces| ==> HoldsText(drive, BufferAt(n, blocks, from + j), pieces[j])
  }

  lemma {:induction false} ReadOnFinds(drive: Bytes, n: nat, blocks: seq<nat>, m: nat, j: nat)
    returns (pieces: seq<Bytes>)
    requires |blocks| == 10 && InUse(blocks, m) && 0 < j <= m
    requires ReadOn(drive, blocks, j, BufferAt(n, blocks, j - 1) + 256).Some?
    ensures j + |pieces| == m && Pieces(drive, n, blocks, j, pieces)
    ensures ReadOn(drive, blocks, j, BufferAt(n, blocks, j - 1) + 256) == Some(Concat(pieces))
    decreases 10 - j
  {
    hide Fetch, HoldsText;
    if j == m {
      pieces := [];
    } else {
      var piece := Fetch(drive, BufferAt(n, blocks, j)).value;
      FetchExactly(drive, BufferAt(n, blocks, j), piece);
      var rest := ReadOnFinds(drive, n, blocks, m, j + 1);
      pieces := [piece] + rest;
    }
  }

  lemma {:induction false} ReadOnJoins(drive: Bytes, n: nat, blocks: seq<nat>, m: nat, j: nat, pieces: seq<Bytes>)
    requires |blocks| == 10 && InUse(blocks, m) && 0 < j <= m
    requires j + |pieces| == m && Pieces(drive, n, blocks, j, pieces)
    ensures ReadOn(drive, blocks, j, BufferAt(n, blocks, j - 1) + 256) == Some(Concat(pieces))
    decreases 10 - j
  {
    hide Fetch, HoldsText;
    if j < m {
      assert HoldsText(drive, BufferAt(n, blocks, j + 0), pieces[0]);
      FetchExactly(drive, BufferAt(n, blocks, j), pieces[0]);
      forall k | 0 <= k < |pieces[1..]| ensures HoldsText(drive, BufferAt(n, blocks, j + 1 + k), pieces[1..][k]) {
        assert HoldsText(drive, BufferAt(n, blocks, j + (k + 1)), pieces[k + 1]);
      }
      ReadOnJoins(drive, n, blocks, m, j + 1, pieces[1..]);
    }
  }

  /** read_file of an inode returns a text exactly when each buffer it reads holds a terminated text, and then
      those texts in turn; an inode without a block reads as the empty text. */
  lemma ReadTextExactly(fs: Fs, i: nat, m: nat, text: Bytes)
    requires i < |fs.inodes| && |fs.inodes[i].blocks| == 10 && InUse(fs.inodes[i].blocks, m)
    ensures ReadText(fs, i) == Some(text) <==>
              exists pieces :: |pieces| == m && Pieces(fs.drive, |fs.inodes|, fs.inodes[i].blocks, 0, pieces)
                               && text == Concat(pieces)
  {
    hide Fetch, HoldsText, ReadOn;
    var drive, n, blocks := fs.drive, |fs.inodes|, fs.inodes[i].blocks;
    if m > 0 {
      if ReadText(fs, i) == Some(text) {
        var first := Fetch(drive, BufferAt(n, blocks, 0)).value;
        FetchExactly(drive, BufferAt(n, blocks, 0), first);
        var rest := ReadOnFinds(drive, n, blocks, m, 1);
        var pieces := [first] + rest;
        assert Pieces(drive, n, blocks, 0, pieces) && pieces[1..] == rest;
      }
      if pieces :| |pieces| == m && Pieces(drive, n, blocks, 0, pieces) && text == Concat(pieces) {
        FetchExactly(drive, BufferAt(n, blocks, 0), pieces[0]);
        forall k | 0 <= k < |pieces[1..]| ensures HoldsText(drive, BufferAt(n, blocks, 1 + k), pieces[1..][k]) {
          assert HoldsText(drive, BufferAt(n, blocks, 0 + (k + 1)), pieces[k + 1]);
        }
        ReadOnJoins(drive, n, blocks, m, 1, pieces[1..]);
      }
    } else {
      assert Pieces(drive, n, blocks, 0, []) && Concat([]) == [];
    }
  }

  // ---------- Names ----------

  /** Entry p is the first of that name. */
  ghost predicate FirstNamed(dir: seq<Entry>, name: Bytes, p: nat) {
    p < |dir| && dir[p].name == name && forall q :: 0 <= q < p ==> dir[q].name != name
  }

  ghost predicate IsDirectory(fs: Fs, i: nat) {
    i < |fs.inodes| && fs.inodes[i].kind == 2
  }

  /** A name that no entry bears reads as the empty text; so does the name of a directory, whatever its block
      holds. */
  lemma OtherNamesReadEmpty(fs: Fs, d: nat, name: Bytes)
    requires Inv(fs) && d < |fs.inodes| && fs.inodes[d].kind == 2
    ensures (forall e <- Entries(fs, d) :: e.name != name) ==> ReadNamed(fs, d, name) == Some([])
    ensures forall p: nat :: FirstNamed(Entries(fs, d), name, p) && IsDirectory(fs, Entries(fs, d)[p].index) ==>
                               ReadNamed(fs, d, name) == Some([])
  {
    hide Inv, Entries, ReadText;
    var dir := Entries(fs, d);
    if forall e <- dir :: e.name != name {
      assert NamePosition(dir, name) == |dir|;
    }
    forall p: nat | FirstNamed(dir, name, p) ensures NamePosition(dir, name) == p {
    }
  }

  /** The name of a file reads as the texts that the buffers of its slots in use hold. */
  lemma FileNamesReadText(fs: Fs, d: nat, name: Bytes, p: nat, m: nat, text: Bytes)
    requires Inv(fs) && d < |fs.inodes| && fs.inodes[d].kind == 2 && FirstNamed(Entries(fs, d), name, p)
    requires var i := Entries(fs, d)[p].index;
             i < |fs.inodes| && fs.inodes[i].kind == 1 && |fs.inodes[i].blocks| == 10 && InUse(fs.inodes[i].blocks, m)
    ensures var blocks := fs.inodes[Entries(fs, d)[p].index].blocks;
            ReadNamed(fs, d, name) == Some(text) <==>
              exists pieces :: |pieces| == m && Pieces(fs.drive, |fs.inodes|, blocks, 0, pieces)
                               && text == Concat(pieces)
  {
    hide Inv, Entries, ReadText, Pieces, InUse;
    assert NamePosition(Entries(fs, d), name) == p;
    ReadTextExactly(fs, Entries(fs, d)[p].index, m, text);
  }

  /** States joined by touches inside directory k. */
  ghost predicate Touches(states: seq<Fs>, names: seq<Bytes>, k: nat) {
    && |states| == |names| + 1
    && forall j :: 0 <= j < |names| ==> Step(states[j], Touch(k, names[j]), states[j + 1])
  }

  lemma TouchSpares(a: Fs, b: Fs, k: nat, name: Bytes)
    requires Inv(a) && Step(a, Touch(k, name), b)
    ensures Inv(b) && |b.inodes| == |a.inodes| && k < |a.inodes| && b.inodes[k].kind == 2
    ensures forall d :: 0 <= d < |a.inodes| && d != k && a.inodes[d].kind == 2 ==>
              b.inodes[d].kind == 2 && Entries(b, d) == Entries(a, d)
  {
    hide Inv, CanCreate, Create, Entries, Block, Blocks;
    CanCreateFacts(a, k, name);
    CreateKeeps(a, k, name, 1);
    assert b == Create(a, k, name, 1);
    var t := Top(a, |a.inodes|).value;
    forall d | 0 <= d < |a.inodes| && d != k && a.inodes[d].kind == 2
      ensures b.inodes[d].kind == 2 && Entries(b, d) == Entries(a, d)
    {
      assert d != t;
      assert Unchanged(b, a, d);
      UnchangedContents(b, a, d);
    }
  }

  lemma {:induction false} TouchesSpare(states: seq<Fs>, names: seq<Bytes>, k: nat, d: nat)
    requires Touches(states, names, k) && Inv(states[0])
    requires k < |states[0].inodes| && d < |states[0].inodes| && d != k
    requires states[0].inodes[k].kind == 2 && states[0].inodes[d].kind == 2
    ensures var a, b := states[0], states[|names|];
            && Inv(b) && |b.inodes| == |a.inodes| && b.inodes[k].kind == 2 && b.inodes[d].kind == 2
            && Entries(b, d) == Entries(a, d)
    decreases |names|
  {
    hide Inv, Step, Entries;
    if names != [] {
      TouchSpares(states[0], states[1], k, names[0]);
      TouchesSpare(states[1..], names[1..], k, d);
    }
  }

  lemma MkdirCreates(a: Fs, d: nat, name: Bytes, b: Fs)
    requires Shape(a) && CanCreate(a, d, name) && Step(a, Mkdir(d, name), b)
    ensures Top(a, |a.inodes|).Some? && b == Create(a, d, name, 2)
  {
  }

  /** A new directory reads as the empty text by its name, even once files have been created in it and its
      block holds their names. */
  lemma DirectoryReadsEmpty(fs: Fs, d: nat, name: Bytes, states: seq<Fs>, names: seq<Bytes>)
    requires Inv(fs) && CanCreate(fs, d, name) && forall e <- Entries(fs, d) :: e.name != name
    requires states != [] && Step(fs, Mkdir(d, name), states[0])
    requires Touches(states, names, Top(fs, |fs.inodes|).value)
    ensures var r := states[|names|];
            Inv(r) && d < |r.inodes| && r.inodes[d].kind == 2 && ReadNamed(r, d, name) == Some([])
  {
    hide Inv, Entries, Create, ReadNamed, Step, Block, Blocks;
    CanCreateFacts(fs, d, name);
    CreateKeeps(fs, d, name, 2);
    var a, k := states[0], Top(fs, |fs.inodes|).value;
    InvIsShaped(fs);
    assert a == Create(fs, d, name, 2) by { MkdirCreates(fs, d, name, a); }
    assert Entries(fs, d) == View(fs)[d] && Entries(a, d) == View(a)[d];
    TouchesSpare(states, names, k, d);
    var r := states[|names|];
    var dir := Entries(fs, d);
    assert Entries(r, d) == dir + [Entry(name, k)];
    assert FirstNamed(Entries(r, d), name, |dir|);
    OtherNamesReadEmpty(r, d, name);
  }

  // ---------- What writing a name leaves alone ----------

  /** The inode that a text is written to under a name: the one listed first under it, or the one that touch
      takes. */
  function Target(fs: Fs, d: nat, name: Bytes): (i: nat)
    requires Inv(fs) && d < |fs.inodes| && fs.inodes[d].kind == 2
    requires NamePosition(Entries(fs, d), name) == |Entries(fs, d)| ==> CanCreate(fs, d, name)
  {
    var dir := Entries(fs, d);
    var p := NamePosition(dir, name);
    if p < |dir| then dir[p].index else Top(fs, |fs.inodes|).value
  }

  lemma UnchangedSelf(fs: Fs, j: nat)
    requires j < |fs.inodes|
    ensures Unchanged(fs, fs, j)
  {
  }

  lemma UnchangedTwice(r: Fs, m: Fs, fs: Fs, j: nat)
    requires Unchanged(r, m, j) && Unchanged(m, fs, j)
    ensures Unchanged(r, fs, j)
  {
    hide Block, NonZero;
  }

  /** Writing a text under a name changes the tree by at most one entry, behind the others of the directory, and
      only if no entry bears the name; every inode but the file written and, in that case, the directory keeps
      its record, its blocks and what they hold. */
  lemma WriteNamedSpares(fs: Fs, d: nat, name: Bytes, data: Bytes)
    requires Inv(fs) && d < |fs.inodes| && fs.inodes[d].kind == 2 && |data| <= 2560
    requires NamePosition(Entries(fs, d), name) == |Entries(fs, d)| ==> CanCreate(fs, d, name)
    ensures var dir, i := Entries(fs, d), Target(fs, d, name);
            var (r, ok) := WriteNamed(fs, d, name, data);
            var listed := exists e <- dir :: e.name == name;
            && |r.inodes| == |fs.inodes| && i < |fs.inodes|
            && View(r) == (if listed then View(fs) else View(fs)[d := dir + [Entry(name, i)]])
            && (forall j :: 0 <= j < |fs.inodes| && (!ok || j != i) && (listed || j != d) ==> Unchanged(r, fs, j))
            && (!listed ==> ok && r.inodes[i].kind == 1 && fs.inodes[i].kind == 0)
  {
    hide WriteFile, Entries, Inv, Create, CanCreate, Unchanged;
    var dir := Entries(fs, d);
    var p := NamePosition(dir, name);
    forall j | 0 <= j < |fs.inodes| ensures Unchanged(fs, fs, j) {
      UnchangedSelf(fs, j);
    }
    if p < |dir| {
      assert dir[p] in dir;
      ListedChild(fs, d, p);
      ListedKind(fs, d, dir[p].index);
      if fs.inodes[dir[p].index].kind == 1 {
        WriteTextKeeps(fs, dir[p].index, data);
      }
    } else {
      assert forall e <- dir :: e.name != name by {
        forall e | e in dir ensures e.name != name {
          var q :| 0 <= q < |dir| && dir[q] == e;
        }
      }
      CreateKeeps(fs, d, name, 1);
      InvIsShaped(fs);
      var c, k := Create(fs, d, name, 1), Top(fs, |fs.inodes|).value;
      WriteTextKeeps(c, k, data);
      var r := WriteFile(c, k, data);
      assert dir == View(fs)[d];
      forall j | 0 <= j < |fs.inodes| && j != k && j != d ensures Unchanged(r, fs, j) {
        UnchangedTwice(r, c, fs, j);
      }
    }
  }

  /** rm of an inode that the directory does not list changes nothing. */
  lemma RmUnlisted(fs: Fs, d: nat, k: nat)
    requires Inv(fs) && d < |fs.inodes| && 0 < k < |fs.inodes|
    requires forall e <- Entries(fs, d) :: e.index != k
    ensures Rm(fs, d, k) == fs
  {
    hide Entries;
    ShapeOf(fs);
  }
}
