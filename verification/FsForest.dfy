/** Directory trees, as the entries of every inode: what a subtree is, that sibling subtrees are disjoint, and
    what removing one leaves. */
module FsForest {

  import opened FsCodec

  /** The entries of each inode; a file has none. */
  type Forest = seq<seq<Entry>>

  ghost predicate Child(f: Forest, d: nat, k: nat) {
    d < |f| && exists e <- f[d] :: e.index == k
  }

  /** Inodes are handed out in decreasing order, so a child's index is below its directory's, unless the
      directory is the root. */
  ghost predicate Ordered(f: Forest) {
    forall d: nat, k: nat :: Child(f, d, k) ==> 0 < k < |f| && (d == 0 || k < d)
  }

  predicate Distinct(dir: seq<Entry>) {
    forall p, q :: 0 <= p < q < |dir| ==> dir[p].index != dir[q].index
  }

  /** Every inode is listed once, in one directory. */
  ghost predicate Unique(f: Forest) {
    && (forall d :: 0 <= d < |f| ==> Distinct(f[d]))
    && (forall c: nat, d: nat, k: nat :: Child(f, c, k) && Child(f, d, k) ==> c == d)
  }

  // ---------- Subtrees ----------

  /** Inode k and everything below it. */
  function Subtree(f: Forest, k: nat): set<nat>
    decreases k, 1, 0
  {
    if k < |f| then {k} + Subtrees(f, k, f[k]) else {}
  }

  /** The subtrees of some entries of directory k. */
  function Subtrees(f: Forest, k: nat, dir: seq<Entry>): set<nat>
    decreases k, 0, |dir|
  {
    if dir == [] then {}
    else (if dir[0].index < k then Subtree(f, dir[0].index) else {}) + Subtrees(f, k, dir[1..])
  }

  lemma {:induction false} InSubtrees(f: Forest, k: nat, dir: seq<Entry>, x: nat)
    requires x in Subtrees(f, k, dir)
    ensures exists e <- dir :: e.index < k && x in Subtree(f, e.index)
    decreases |dir|
  {
    if dir[0].index < k && x in Subtree(f, dir[0].index) {
      assert dir[0] in dir;
    } else {
      InSubtrees(f, k, dir[1..], x);
      var e :| e in dir[1..] && e.index < k && x in Subtree(f, e.index);
      assert e in dir;
    }
  }

  lemma {:induction false} SubtreesHave(f: Forest, k: nat, dir: seq<Entry>, e: Entry)
    requires e in dir && e.index < k
    ensures Subtree(f, e.index) <= Subtrees(f, k, dir)
    decreases |dir|
  {
    if e != dir[0] {
      assert e in dir[1..];
      SubtreesHave(f, k, dir[1..], e);
    }
  }

  lemma {:induction false} SubtreeBelow(f: Forest, k: nat, x: nat)
    requires Ordered(f) && 0 < k && x in Subtree(f, k)
    ensures 0 < x <= k < |f|
    decreases k
  {
    if x != k {
      InSubtrees(f, k, f[k], x);
      var e :| e in f[k] && e.index < k && x in Subtree(f, e.index);
      assert Child(f, k, e.index);
      SubtreeBelow(f, e.index, x);
    }
  }

  /** Whatever lies in a subtree, its top excepted, is listed by a directory of the subtree. */
  lemma {:induction false} SubtreeParent(f: Forest, k: nat, x: nat)
    requires x in Subtree(f, k) && x != k
    ensures exists y :: y in Subtree(f, k) && Child(f, y, x)
    decreases k
  {
    InSubtrees(f, k, f[k], x);
    var e :| e in f[k] && e.index < k && x in Subtree(f, e.index);
    if x == e.index {
      assert Child(f, k, x);
    } else {
      SubtreeParent(f, e.index, x);
      var y :| y in Subtree(f, e.index) && Child(f, y, x);
      SubtreesHave(f, k, f[k], e);
    }
  }

  lemma {:induction false} DisjointAt(f: Forest, p: nat, a: nat, b: nat, x: nat)
    requires Ordered(f) && Unique(f) && Child(f, p, a) && Child(f, p, b) && a != b
    requires x in Subtree(f, a) && x in Subtree(f, b)
    ensures false
    decreases |f| - x
  {
    SubtreeBelow(f, a, x);
    if x == a {
      SubtreeParent(f, b, x);
      var y :| y in Subtree(f, b) && Child(f, y, x);
      SubtreeBelow(f, b, y);
      assert false;
    } else if x == b {
      SubtreeParent(f, a, x);
      var y :| y in Subtree(f, a) && Child(f, y, x);
      SubtreeBelow(f, a, y);
      assert false;
    } else {
      SubtreeParent(f, a, x);
      var y :| y in Subtree(f, a) && Child(f, y, x);
      SubtreeParent(f, b, x);
      var z :| z in Subtree(f, b) && Child(f, z, x);
      assert y == z;
      SubtreeBelow(f, a, y);
      DisjointAt(f, p, a, b, y);
    }
  }

  /** Different entries of a directory have disjoint subtrees. */
  lemma SiblingsDisjoint(f: Forest, p: nat, a: nat, b: nat)
    requires Ordered(f) && Unique(f) && Child(f, p, a) && Child(f, p, b) && a != b
    ensures Subtree(f, a) !! Subtree(f, b)
  {
    forall x | x in Subtree(f, a) && x in Subtree(f, b) ensures false {
      DisjointAt(f, p, a, b, x);
    }
  }

  /** A directory lies in none of its entries' subtrees. */
  lemma ParentOutside(f: Forest, d: nat, k: nat)
    requires Ordered(f) && Child(f, d, k)
    ensures d !in Subtree(f, k)
  {
    if d in Subtree(f, k) {
      SubtreeBelow(f, k, d);
    }
  }

  lemma {:induction false} SubtreeDepends(f: Forest, g: Forest, k: nat)
    requires |f| == |g| && forall x :: x in Subtree(f, k) ==> x < |f| && f[x] == g[x]
    ensures Subtree(f, k) == Subtree(g, k)
    decreases k, 1, 0
  {
    if k < |f| {
      assert k in Subtree(f, k);
      SubtreesDepend(f, g, k, f[k]);
    }
  }

  lemma {:induction false} SubtreesDepend(f: Forest, g: Forest, k: nat, dir: seq<Entry>)
    requires |f| == |g| && forall x :: x in Subtrees(f, k, dir) ==> x < |f| && f[x] == g[x]
    ensures Subtrees(f, k, dir) == Subtrees(g, k, dir)
    decreases k, 0, |dir|
  {
    if dir != [] {
      if dir[0].index < k {
        SubtreeDepends(f, g, dir[0].index);
      }
      SubtreesDepend(f, g, k, dir[1..]);
    }
  }

  // ---------- Removing ----------

  /** The entries without the first one for inode k. */
  function Without(dir: seq<Entry>, k: nat): (r: seq<Entry>)
    ensures forall e <- r :: e in dir
    ensures (forall e <- dir :: e.index != k) ==> r == dir
  {
    if dir == [] then [] else if dir[0].index == k then dir[1..] else [dir[0]] + Without(dir[1..], k)
  }

  lemma {:induction false} WithoutDistinct(dir: seq<Entry>, k: nat)
    requires Distinct(dir)
    ensures Distinct(Without(dir, k)) && forall e <- Without(dir, k) :: e.index != k
    ensures forall e <- dir :: e.index != k ==> e in Without(dir, k)
  {
    if dir != [] {
      var rest := Without(dir[1..], k);
      WithoutDistinct(dir[1..], k);
      forall e | e in dir[1..] ensures e.index != dir[0].index {
      }
      if dir[0].index != k {
        assert forall e <- rest :: e.index != dir[0].index;
        assert Without(dir, k) == [dir[0]] + rest;
        forall p, q | 0 <= p < q < |rest| + 1 ensures ([dir[0]] + rest)[p].index != ([dir[0]] + rest)[q].index {
          assert rest[q - 1] in rest;
        }
      }
    }
  }

  lemma CutTail(dir: seq<Entry>, p: nat)
    requires 0 < p < |dir|
    ensures dir[..p] + dir[p + 1..] == [dir[0]] + (dir[1..][..p - 1] + dir[1..][p..])
  {
  }

  lemma {:induction false} WithoutAt(dir: seq<Entry>, k: nat, p: nat)
    requires p < |dir| && dir[p].index == k && forall q :: 0 <= q < p ==> dir[q].index != k
    ensures Without(dir, k) == dir[..p] + dir[p + 1..]
  {
    if p > 0 {
      WithoutAt(dir[1..], k, p - 1);
      CutTail(dir, p);
    } else {
      assert dir[..0] + dir[1..] == dir[1..];
    }
  }

  /** The forest once inode k has been removed from directory d: k's subtree lists nothing any more, d lists
      everything but k, and all other directories list what they did. */
  function Pruned(f: Forest, d: nat, k: nat): (r: Forest)
    ensures |r| == |f|
  {
    seq(|f|, i requires 0 <= i < |f| => if i in Subtree(f, k) then [] else if i == d then Without(f[i], k) else f[i])
  }

  /** The forest once the entries dir of directory k have been removed. */
  function Emptied(f: Forest, k: nat, dir: seq<Entry>): (r: Forest)
    ensures |r| == |f|
  {
    seq(|f|, i requires 0 <= i < |f| => if i == k || i in Subtrees(f, k, dir) then [] else f[i])
  }

  /** g lists nothing that f does not. */
  ghost predicate Within(g: Forest, f: Forest) {
    |g| == |f| && forall d :: 0 <= d < |g| ==> Distinct(g[d]) && forall e <- g[d] :: e in f[d]
  }

  lemma WithinKeeps(g: Forest, f: Forest)
    requires Within(g, f) && Ordered(f) && Unique(f)
    ensures Ordered(g) && Unique(g)
  {
    forall d: nat, k: nat | Child(g, d, k) ensures Child(f, d, k) {
      var e :| e in g[d] && e.index == k;
      assert e in f[d];
    }
  }

  lemma PrunedWithin(f: Forest, d: nat, k: nat)
    requires Unique(f) && d < |f|
    ensures Within(Pruned(f, d, k), f)
  {
    WithoutDistinct(f[d], k);
  }

  /** The subtrees of the other entries of a directory stay what they were when its first entry goes. */
  lemma RestUntouched(f: Forest, k: nat)
    requires Ordered(f) && Unique(f) && 0 < k < |f| && f[k] != []
    ensures var g := Pruned(f, k, f[k][0].index);
            && g[k] == f[k][1..]
            && Subtrees(g, k, f[k][1..]) == Subtrees(f, k, f[k][1..])
            && Subtree(f, f[k][0].index) !! Subtrees(f, k, f[k][1..])
            && Subtrees(f, k, f[k]) == Subtree(f, f[k][0].index) + Subtrees(f, k, f[k][1..])
  {
    var c := f[k][0].index;
    var g, rest := Pruned(f, k, c), f[k][1..];
    assert f[k][0] in f[k] && Child(f, k, c);
    ParentOutside(f, k, c);
    forall x | x in Subtrees(f, k, rest) ensures x < |f| && x !in Subtree(f, c) && x != k {
      InSubtrees(f, k, rest, x);
      var e :| e in rest && e.index < k && x in Subtree(f, e.index);
      assert e in f[k] && Child(f, k, e.index);
      SiblingsDisjoint(f, k, c, e.index);
      SubtreeBelow(f, e.index, x);
    }
    SubtreesDepend(f, g, k, rest);
  }

  /** Removing the entries of a directory one after the other empties it. */
  lemma EmptiedStep(f: Forest, k: nat)
    requires Ordered(f) && Unique(f) && 0 < k < |f| && f[k] != []
    ensures var g := Pruned(f, k, f[k][0].index);
            Emptied(g, k, g[k]) == Emptied(f, k, f[k])
  {
    hide Subtree, Subtrees;
    RestUntouched(f, k);
  }

  /** Emptying a directory and taking it out of its own directory is removing its subtree. */
  lemma PrunedIsEmptied(f: Forest, d: nat, k: nat)
    requires Ordered(f) && Unique(f) && Child(f, d, k)
    ensures Pruned(f, d, k) == Emptied(f, k, f[k])[d := Without(f[d], k)]
    ensures d != k && d !in Subtrees(f, k, f[k]) && Subtree(f, k) == {k} + Subtrees(f, k, f[k])
  {
    ParentOutside(f, d, k);
  }

  /** A directory may list one more inode when no directory lists it yet and it lies below the directory. */
  lemma GrownKeeps(f: Forest, d: nat, e: Entry)
    requires Ordered(f) && Unique(f) && d < |f| && 0 < e.index < |f| && (d == 0 || e.index < d)
    requires forall c: nat :: !Child(f, c, e.index)
    ensures var g := f[d := f[d] + [e]]; Ordered(g) && Unique(g)
  {
    var g := f[d := f[d] + [e]];
    forall c: nat, k: nat | Child(g, c, k) ensures Child(f, c, k) || (c == d && k == e.index) {
      var x: Entry :| x in g[c] && x.index == k;
      assert x != e ==> x in f[c];
    }
    forall p | 0 <= p < |f[d]| ensures f[d][p].index != e.index {
      assert f[d][p] in f[d] && Child(f, d, f[d][p].index);
    }
  }
}
