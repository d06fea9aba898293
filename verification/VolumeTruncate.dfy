/** Taking a file apart: the order ITrunc frees its blocks in, and why reading the
    index blocks along the way stays safe. */
module VolumeTruncate {
  import opened DiskBlocks
  import opened FreeChain
  import opened VolumeState
  import opened VolumeSteps

  // ------------------------------------------- the blocks, in freeing order

  ghost function At(v: Vol, n: nat, p: Path): nat
    requires n in v.addrs && |v.addrs[n]| == NADDR && ValidPath(p)
  {
    BlkAt(v.addrs[n], v.disk, p)
  }

  ghost function One(b: nat): seq<nat> {
    if b == 0 then [] else [b]
  }

  ghost function LeavesDown(v: Vol, n: nat, i: nat, j: nat, k: nat): seq<nat>
    requires n in v.addrs && |v.addrs[n]| == NADDR && 8 <= i < NADDR && j < WORDS && k <= WORDS
    decreases WORDS - k, |v.disk|          // |v.disk| is there to stop literal unrolling
  {
    if k == WORDS then [] else LeavesDown(v, n, i, j, k + 1) + One(At(v, n, Leaf(i, j, k)))
  }

  ghost function MidsDown(v: Vol, n: nat, i: nat, j: nat): seq<nat>
    requires n in v.addrs && |v.addrs[n]| == NADDR && 6 <= i < NADDR && j <= WORDS
    decreases WORDS - j, |v.disk|
  {
    if j == WORDS then []
    else
      MidsDown(v, n, i, j + 1)
      + (if i >= 8 && At(v, n, Mid(i, j)) != 0 then LeavesDown(v, n, i, j, 0) else [])
      + One(At(v, n, Mid(i, j)))
  }

  lemma MidsNext(v: Vol, n: nat, i: nat, j: nat)
    requires n in v.addrs && |v.addrs[n]| == NADDR && 6 <= i < NADDR && j < WORDS
    ensures At(v, n, Mid(i, j)) == 0 ==> MidsDown(v, n, i, j) == MidsDown(v, n, i, j + 1)
    ensures At(v, n, Mid(i, j)) != 0 ==>
              var leaves := if i >= 8 then LeavesDown(v, n, i, j, 0) else [];
              MidsDown(v, n, i, j) == MidsDown(v, n, i, j + 1) + leaves + [At(v, n, Mid(i, j))]
  {
  }

  ghost function EntryBlocks(v: Vol, n: nat, i: nat): seq<nat>
    requires n in v.addrs && |v.addrs[n]| == NADDR && i < NADDR
  {
    if At(v, n, Top(i)) == 0 then []
    else (if i >= 6 then MidsDown(v, n, i, 0) else []) + [At(v, n, Top(i))]
  }

  /** Entries 9 down to i: the whole file for i = 0. */
  ghost function BlocksDown(v: Vol, n: nat, i: nat): seq<nat>
    requires n in v.addrs && |v.addrs[n]| == NADDR && i <= NADDR
    decreases NADDR - i, |v.disk|
  {
    if i == NADDR then [] else BlocksDown(v, n, i + 1) + EntryBlocks(v, n, i)
  }

  // --------------------------- they are the file's blocks, and all of them

  lemma {:induction false} LeafIsListed(v: Vol, n: nat, i: nat, j: nat, k: nat, x: nat)
    requires n in v.addrs && |v.addrs[n]| == NADDR && 8 <= i < NADDR && j < WORDS && k <= x < WORDS
    requires At(v, n, Leaf(i, j, x)) != 0
    ensures At(v, n, Leaf(i, j, x)) in LeavesDown(v, n, i, j, k)
    decreases WORDS - k
  {
    if k < x { LeafIsListed(v, n, i, j, k + 1, x); }
    else { assert At(v, n, Leaf(i, j, x)) in One(At(v, n, Leaf(i, j, x))); }
  }

  lemma {:induction false} ListedLeaf(v: Vol, n: nat, i: nat, j: nat, k: nat, b: nat) returns (x: nat)
    requires n in v.addrs && |v.addrs[n]| == NADDR && 8 <= i < NADDR && j < WORDS && k <= WORDS
    requires b in LeavesDown(v, n, i, j, k)
    ensures k <= x < WORDS && At(v, n, Leaf(i, j, x)) == b != 0
    decreases WORDS - k
  {
    if b in LeavesDown(v, n, i, j, k + 1) { x := ListedLeaf(v, n, i, j, k + 1, b); } else { x := k; }
  }

  lemma {:induction false} MidIsListed(v: Vol, n: nat, i: nat, j: nat, p: Path)
    requires n in v.addrs && |v.addrs[n]| == NADDR && 6 <= i < NADDR && j <= WORDS
    requires ValidPath(p) && !p.Top? && p.i == i && j <= p.j && At(v, n, p) != 0
    ensures At(v, n, p) in MidsDown(v, n, i, j)
    decreases WORDS - j
  {
    if j < p.j {
      MidIsListed(v, n, i, j + 1, p);
    } else if p.Mid? {
      assert At(v, n, p) in One(At(v, n, p));
    } else {
      LeafIsListed(v, n, i, j, 0, p.k);
    }
  }

  lemma {:induction false} ListedMid(v: Vol, n: nat, i: nat, j: nat, b: nat) returns (p: Path)
    requires n in v.addrs && |v.addrs[n]| == NADDR && 6 <= i < NADDR && j <= WORDS
    requires b in MidsDown(v, n, i, j)
    ensures ValidPath(p) && !p.Top? && p.i == i && At(v, n, p) == b != 0
    decreases WORDS - j
  {
    if b in MidsDown(v, n, i, j + 1) {
      p := ListedMid(v, n, i, j + 1, b);
    } else if b in One(At(v, n, Mid(i, j))) {
      p := Mid(i, j);
    } else {
      var x := ListedLeaf(v, n, i, j, 0, b);
      p := Leaf(i, j, x);
    }
  }

  /** The list ITrunc frees holds every block a slot of the file names. */
  lemma {:induction false} SlotIsListed(v: Vol, n: nat, i: nat, p: Path)
    requires n in v.addrs && |v.addrs[n]| == NADDR && i <= p.i && ValidPath(p) && At(v, n, p) != 0
    ensures At(v, n, p) in BlocksDown(v, n, i)
    decreases NADDR - i
  {
    if i < p.i {
      SlotIsListed(v, n, i + 1, p);
    } else if p.Top? {
      assert EntryBlocks(v, n, i)[|EntryBlocks(v, n, i)| - 1] == At(v, n, p);
    } else {
      MidIsListed(v, n, i, 0, p);
    }
  }

  /** ... and no other block. */
  lemma {:induction false} ListedSlot(v: Vol, n: nat, i: nat, b: nat) returns (p: Path)
    requires n in v.addrs && |v.addrs[n]| == NADDR && i <= NADDR && b in BlocksDown(v, n, i)
    ensures ValidPath(p) && At(v, n, p) == b != 0
    decreases NADDR - i
  {
    if b in BlocksDown(v, n, i + 1) {
      p := ListedSlot(v, n, i + 1, b);
    } else if b == At(v, n, Top(i)) {
      p := Top(i);
    } else {
      p := ListedMid(v, n, i, 0, b);
    }
  }

  // ---------------------------------------------------------- and the order

  /** Slot p comes before slot q when the file is written from its start: an index block
      before the blocks it names. */
  predicate Precedes(p: Path, q: Path) {
    || p.i < q.i
    || (p.i == q.i && p.Top? && !q.Top?)
    || (p.i == q.i && !p.Top? && !q.Top? &&
          (p.j < q.j || (p.j == q.j && q.Leaf? && (p.Mid? || p.k < q.k))))
  }

  /** Block a is in the list, and b after it. */
  ghost predicate Follow(s: seq<nat>, a: nat, b: nat) {
    exists x, y :: 0 <= x < y < |s| && s[x] == a && s[y] == b
  }

  lemma FollowIn(s: seq<nat>, t: seq<nat>, a: nat, b: nat)
    requires Follow(s, a, b) || Follow(t, a, b) || (a in s && b in t)
    ensures Follow(s + t, a, b)
  {
    var r := s + t;
    if Follow(s, a, b) {
      var x, y :| 0 <= x < y < |s| && s[x] == a && s[y] == b;
      assert r[x] == a && r[y] == b;
    } else if Follow(t, a, b) {
      var x, y :| 0 <= x < y < |t| && t[x] == a && t[y] == b;
      assert r[|s| + x] == a && r[|s| + y] == b;
    } else {
      var x :| 0 <= x < |s| && s[x] == a;
      var y :| 0 <= y < |t| && t[y] == b;
      assert r[x] == a && r[|s| + y] == b;
    }
  }

  lemma {:induction false} LeavesFollow(v: Vol, n: nat, i: nat, j: nat, k: nat, x: nat, y: nat)
    requires n in v.addrs && |v.addrs[n]| == NADDR && 8 <= i < NADDR && j < WORDS && k <= x < y < WORDS
    requires At(v, n, Leaf(i, j, x)) != 0 && At(v, n, Leaf(i, j, y)) != 0
    ensures Follow(LeavesDown(v, n, i, j, k), At(v, n, Leaf(i, j, y)), At(v, n, Leaf(i, j, x)))
    decreases WORDS - k
  {
    var a, b := At(v, n, Leaf(i, j, y)), At(v, n, Leaf(i, j, x));
    if k < x {
      LeavesFollow(v, n, i, j, k + 1, x, y);
    } else {
      LeafIsListed(v, n, i, j, k + 1, y);
      assert b in One(b);
    }
    FollowIn(LeavesDown(v, n, i, j, k + 1), One(At(v, n, Leaf(i, j, k))), a, b);
  }

  /** The blocks behind word j of an index block. */
  ghost function Behind(v: Vol, n: nat, i: nat, j: nat): seq<nat>
    requires n in v.addrs && |v.addrs[n]| == NADDR && 6 <= i < NADDR && j < WORDS
  {
    if i >= 8 then LeavesDown(v, n, i, j, 0) else []
  }

  lemma {:induction false} MidsFollow(v: Vol, n: nat, i: nat, j: nat, p: Path, q: Path)
    requires n in v.addrs && |v.addrs[n]| == NADDR && 6 <= i < NADDR && j < WORDS
    requires ValidPath(p) && ValidPath(q) && !p.Top? && !q.Top? && p.i == q.i == i && j <= p.j
    requires Precedes(p, q) && At(v, n, p) != 0 && At(v, n, q) != 0
    ensures Follow(MidsDown(v, n, i, j), At(v, n, q), At(v, n, p))
    decreases WORDS - j
  {
    if j < p.j {
      MidsFollow(v, n, i, j + 1, p, q);
      MidsJoin(v, n, i, j, At(v, n, q), At(v, n, p));
    } else {
      MidFollows(v, n, i, j, p, q);
    }
  }

  lemma MidsJoin(v: Vol, n: nat, i: nat, j: nat, a: nat, b: nat)
    requires n in v.addrs && |v.addrs[n]| == NADDR && 6 <= i < NADDR && j < WORDS
    requires Follow(MidsDown(v, n, i, j + 1), a, b)
    ensures Follow(MidsDown(v, n, i, j), a, b)
  {
    var c := At(v, n, Mid(i, j));
    MidsNext(v, n, i, j);
    if c != 0 {
      FollowIn(MidsDown(v, n, i, j + 1), Behind(v, n, i, j), a, b);
      FollowIn(MidsDown(v, n, i, j + 1) + Behind(v, n, i, j), [c], a, b);
    }
  }

  lemma MidFollows(v: Vol, n: nat, i: nat, j: nat, p: Path, q: Path)
    requires n in v.addrs && |v.addrs[n]| == NADDR && 6 <= i < NADDR && j < WORDS
    requires ValidPath(p) && ValidPath(q) && !p.Top? && !q.Top? && p.i == q.i == i && j == p.j
    requires Precedes(p, q) && At(v, n, p) != 0 && At(v, n, q) != 0
    ensures Follow(MidsDown(v, n, i, j), At(v, n, q), At(v, n, p))
  {
    var a, b, c, rest := At(v, n, q), At(v, n, p), At(v, n, Mid(i, j)), MidsDown(v, n, i, j + 1);
    MidsNext(v, n, i, j);
    if q.j > j { MidIsListed(v, n, i, j + 1, q); } else { LeafIsListed(v, n, i, j, 0, q.k); }
    if p.Leaf? { LeafFollows(v, n, i, j, p, q); }
    MidEnds(rest, Behind(v, n, i, j), c, a, b);
  }

  lemma MidEnds(rest: seq<nat>, leaves: seq<nat>, c: nat, a: nat, b: nat)
    requires a in rest || a in leaves
    requires b == c || Follow(leaves, a, b) || (a in rest && b in leaves)
    ensures Follow(rest + leaves + [c], a, b)
  {
    if b == c {
      assert a in rest + leaves && b in [c];
    } else {
      FollowIn(rest, leaves, a, b);
    }
    FollowIn(rest + leaves, [c], a, b);
  }

  lemma LeafFollows(v: Vol, n: nat, i: nat, j: nat, p: Path, q: Path)
    requires n in v.addrs && |v.addrs[n]| == NADDR && 6 <= i < NADDR && j < WORDS
    requires ValidPath(p) && ValidPath(q) && p.Leaf? && !q.Top? && p.i == q.i == i && j == p.j
    requires Precedes(p, q) && At(v, n, p) != 0 && At(v, n, q) != 0
    ensures At(v, n, p) in Behind(v, n, i, j)
    ensures q.j == j ==> Follow(Behind(v, n, i, j), At(v, n, q), At(v, n, p))
  {
    LeafIsListed(v, n, i, j, 0, p.k);
    if q.j == j { LeavesFollow(v, n, i, j, 0, p.k, q.k); }
  }

  lemma EntryFollows(v: Vol, n: nat, i: nat, p: Path, q: Path)
    requires n in v.addrs && |v.addrs[n]| == NADDR && i < NADDR && ValidPath(p) && ValidPath(q) && p.i == i
    requires Precedes(p, q) && At(v, n, p) != 0 && At(v, n, q) != 0
    ensures At(v, n, p) in EntryBlocks(v, n, i)
    ensures q.i == i ==> Follow(EntryBlocks(v, n, i), At(v, n, q), At(v, n, p))
  {
    var mids := if i >= 6 then MidsDown(v, n, i, 0) else [];
    var top := [At(v, n, Top(i))];
    if !p.Top? { MidIsListed(v, n, i, 0, p); }
    assert EntryBlocks(v, n, i) == mids + top;
    if q.i == i {
      MidIsListed(v, n, i, 0, q);
      if !p.Top? { MidsFollow(v, n, i, 0, p, q); }
      FollowIn(mids, top, At(v, n, q), At(v, n, p));
    }
  }

  lemma EntriesJoin(v: Vol, n: nat, i: nat, a: nat, b: nat)
    requires n in v.addrs && |v.addrs[n]| == NADDR && i < NADDR
    requires Follow(BlocksDown(v, n, i + 1), a, b) || Follow(EntryBlocks(v, n, i), a, b)
    ensures Follow(BlocksDown(v, n, i), a, b)
  {
    FollowIn(BlocksDown(v, n, i + 1), EntryBlocks(v, n, i), a, b);
  }

  lemma EntriesApart(v: Vol, n: nat, i: nat, a: nat, b: nat)
    requires n in v.addrs && |v.addrs[n]| == NADDR && i < NADDR
    requires a in BlocksDown(v, n, i + 1) && b in EntryBlocks(v, n, i)
    ensures Follow(BlocksDown(v, n, i), a, b)
  {
    FollowIn(BlocksDown(v, n, i + 1), EntryBlocks(v, n, i), a, b);
  }

  lemma LaterEntry(v: Vol, n: nat, i: nat, q: Path, b: nat)
    requires n in v.addrs && |v.addrs[n]| == NADDR && ValidPath(q) && i < q.i && At(v, n, q) != 0
    requires b in EntryBlocks(v, n, i)
    ensures Follow(BlocksDown(v, n, i), At(v, n, q), b)
  {
    SlotIsListed(v, n, i + 1, q);
    EntriesApart(v, n, i, At(v, n, q), b);
  }

  lemma BlocksFollow(v: Vol, n: nat, p: Path, q: Path)
    requires n in v.addrs && |v.addrs[n]| == NADDR && ValidPath(p) && ValidPath(q)
    requires Precedes(p, q) && At(v, n, p) != 0 && At(v, n, q) != 0
    ensures Follow(BlocksDown(v, n, p.i), At(v, n, q), At(v, n, p))
  {
    EntryFollows(v, n, p.i, p, q);
    if q.i == p.i {
      EntriesJoin(v, n, p.i, At(v, n, q), At(v, n, p));
    } else {
      LaterEntry(v, n, p.i, q, At(v, n, p));
    }
  }

  /** ITrunc frees the blocks in the reverse of that order, so that the chain hands them out
      again in the order in which they make up a file. */
  lemma {:induction false} FreedInReverse(v: Vol, n: nat, i: nat, p: Path, q: Path)
    requires n in v.addrs && |v.addrs[n]| == NADDR && i <= p.i && ValidPath(p) && ValidPath(q)
    requires Precedes(p, q) && At(v, n, p) != 0 && At(v, n, q) != 0
    ensures Follow(BlocksDown(v, n, i), At(v, n, q), At(v, n, p))
    decreases NADDR - i
  {
    if i == p.i {
      BlocksFollow(v, n, p, q);
    } else {
      FreedInReverse(v, n, i + 1, p, q);
      EntriesJoin(v, n, i, At(v, n, q), At(v, n, p));
    }
  }

  ghost predicate SlotSame(v: Vol, w: Vol, n: nat, p: Path)
    requires n in v.addrs && |v.addrs[n]| == NADDR && n in w.addrs && |w.addrs[n]| == NADDR && ValidPath(p)
  {
    At(v, n, p) == At(w, n, p)
  }

  lemma {:induction false} LeavesSame(v: Vol, w: Vol, n: nat, i: nat, j: nat, k: nat)
    requires n in v.addrs && |v.addrs[n]| == NADDR && n in w.addrs && |w.addrs[n]| == NADDR
    requires 8 <= i < NADDR && j < WORDS && k <= WORDS
    requires forall p {:trigger SlotSame(v, w, n, p)} :: ValidPath(p) && p.i == i ==> SlotSame(v, w, n, p)
    ensures LeavesDown(v, n, i, j, k) == LeavesDown(w, n, i, j, k)
    decreases WORDS - k
  {
    if k < WORDS {
      assert SlotSame(v, w, n, Leaf(i, j, k));
      LeavesSame(v, w, n, i, j, k + 1);
    }
  }

  lemma {:induction false} MidsSame(v: Vol, w: Vol, n: nat, i: nat, j: nat)
    requires n in v.addrs && |v.addrs[n]| == NADDR && n in w.addrs && |w.addrs[n]| == NADDR
    requires 6 <= i < NADDR && j <= WORDS
    requires forall p {:trigger SlotSame(v, w, n, p)} :: ValidPath(p) && p.i == i ==> SlotSame(v, w, n, p)
    ensures MidsDown(v, n, i, j) == MidsDown(w, n, i, j)
    decreases WORDS - j
  {
    if j < WORDS {
      MidsSame(v, w, n, i, j + 1);
      assert SlotSame(v, w, n, Mid(i, j));
      if i >= 8 { LeavesSame(v, w, n, i, j, 0); }
      MidSame(v, w, n, i, j);
    }
  }

  lemma MidSame(v: Vol, w: Vol, n: nat, i: nat, j: nat)
    requires n in v.addrs && |v.addrs[n]| == NADDR && n in w.addrs && |w.addrs[n]| == NADDR
    requires 6 <= i < NADDR && j < WORDS && MidsDown(v, n, i, j + 1) == MidsDown(w, n, i, j + 1)
    requires At(v, n, Mid(i, j)) == At(w, n, Mid(i, j))
    requires (i >= 8 ==> LeavesDown(v, n, i, j, 0) == LeavesDown(w, n, i, j, 0))
    ensures MidsDown(v, n, i, j) == MidsDown(w, n, i, j)
  {
  }

  lemma EntrySame(v: Vol, w: Vol, n: nat, i: nat)
    requires n in v.addrs && |v.addrs[n]| == NADDR && n in w.addrs && |w.addrs[n]| == NADDR && i < NADDR
    requires forall p {:trigger SlotSame(v, w, n, p)} :: ValidPath(p) && p.i == i ==> SlotSame(v, w, n, p)
    ensures EntryBlocks(v, n, i) == EntryBlocks(w, n, i)
  {
    assert SlotSame(v, w, n, Top(i));
    if i >= 6 { MidsSame(v, w, n, i, 0); }
  }

  // ------------------------------------------------ how far freeing has got

  /** Work left in the subtree of one i_addr entry: second-level slots below j, and,
      when inside table j, that table with its leaves below k. */
  datatype Todo = Todo(j: nat, inside: bool, k: nat) | Nothing

  predicate Pending(p: Path, t: Todo) {
    t.Todo? &&
    match p
    case Top(_) => true
    case Mid(_, j) => j < t.j || (t.inside && j == t.j)
    case Leaf(_, j, k) => j < t.j || (t.inside && j == t.j && k < t.k)
  }

  ghost predicate Mine(v: Vol, n: nat, i: nat, b: nat) {
    InZone(b) && b in v.owner && v.owner[b].InFile? && v.owner[b].ino == n && v.owner[b].path.i == i
  }

  /** State w has freed part of entry i of file n, which state v still had; `freed`
      lists the blocks returned so far. */
  ghost predicate Freeing(v: Vol, w: Vol, n: nat, i: nat, t: Todo, freed: seq<nat>) {
    && n in v.addrs && |v.addrs[n]| == NADDR && i < NADDR && w.addrs == v.addrs[n := v.addrs[n][i := 0]]
    && w.stack == v.stack + freed
    && |w.disk| == |v.disk|
    && (forall b: nat :: InZone(b) ==> b in v.owner && b in w.owner)
    && (forall b: nat :: InZone(b) && !Mine(v, n, i, b) ==> w.owner[b] == v.owner[b])
    && (forall b: nat :: Mine(v, n, i, b) ==> w.owner[b] == if Pending(v.owner[b].path, t) then Held else w.owner[b])
    && (forall b: nat :: Mine(v, n, i, b) && !Pending(v.owner[b].path, t) ==> w.owner[b].OnChain?)
    && (forall b: nat :: b < |v.disk| && !(Mine(v, n, i, b) && !Pending(v.owner[b].path, t)) ==> w.disk[b] == v.disk[b])
  }

  /** What is to do and what is done once the second-level slots from j on are gone. */
  ghost predicate FromSlot(v: Vol, n: nat, i: nat, j: nat, t: Todo, freed: seq<nat>)
    requires n in v.addrs && |v.addrs[n]| == NADDR && 6 <= i < NADDR && j <= WORDS
  {
    t == Todo(j, false, 0) && freed == MidsDown(v, n, i, j)
  }

  ghost predicate FreedFrom(v: Vol, w: Vol, n: nat, i: nat, j: nat) {
    && n in v.addrs && |v.addrs[n]| == NADDR && 6 <= i < NADDR && j <= WORDS
    && forall t, freed :: FromSlot(v, n, i, j, t, freed) ==> Freeing(v, w, n, i, t, freed)
  }

  lemma FreedFromIs(v: Vol, w: Vol, n: nat, i: nat, j: nat)
    requires n in v.addrs && |v.addrs[n]| == NADDR && 6 <= i < NADDR && j <= WORDS
    ensures FreedFrom(v, w, n, i, j) <==> Freeing(v, w, n, i, Todo(j, false, 0), MidsDown(v, n, i, j))
  {
    assert FromSlot(v, n, i, j, Todo(j, false, 0), MidsDown(v, n, i, j));
  }

  lemma FreeingStarts(v: Vol, n: nat, i: nat, t: Todo)
    requires Settled(v) && n in v.addrs && i < NADDR
    requires t == Todo(WORDS, false, 0)
    ensures Owned(Cut(v, n, i)) && Freeing(v, Cut(v, n, i), n, i, t, [])
  {
    CutStep(v, n, i);
    forall b: nat | Mine(v, n, i, b) ensures Pending(v.owner[b].path, t) { assert OwnerTrue(v, b); }
    forall b: nat | InZone(b) ensures b in v.owner { assert OwnerTrue(v, b); }
  }

  /** A slot of the entry still reads as it did. */
  lemma PendingReads(v: Vol, w: Vol, n: nat, i: nat, t: Todo, freed: seq<nat>, p: Path)
    requires Settled(v) && Freeing(v, w, n, i, t, freed) && ValidPath(p) && p.i == i && Pending(p, t)
    requires At(v, n, p) != 0
    ensures InZone(At(v, n, p)) && w.disk[At(v, n, p)] == v.disk[At(v, n, p)]
    ensures At(v, n, p) in w.owner && w.owner[At(v, n, p)] == Held
  {
    assert SlotOwned(v, n, p);
  }

  /** Only slot p leaves the work list, and its block goes back to the chain. */
  lemma FreeOne(v: Vol, w: Vol, n: nat, i: nat, t: Todo, freed: seq<nat>, p: Path, u: Todo)
    requires Settled(v) && Owned(w) && Freeing(v, w, n, i, t, freed)
    requires ValidPath(p) && p.i == i && Pending(p, t) && !Pending(p, u) && At(v, n, p) != 0
    requires forall q :: ValidPath(q) && q.i == i && q != p && At(v, n, q) != 0 ==> (Pending(q, u) <==> Pending(q, t))
    ensures TableOk(w.super) && w.super.nfree <= GROUP && At(v, n, p) < |w.disk|
    ensures InZone(At(v, n, p)) && At(v, n, p) in w.owner && w.owner[At(v, n, p)] == Held
    ensures var x := Give(w, At(v, n, p)); Owned(x) && Freeing(v, x, n, i, u, freed + [At(v, n, p)])
  {
    PendingReads(v, w, n, i, t, freed, p);
    var b := At(v, n, p);
    GiveStep(w, b);
    var x := Give(w, b);
    assert SlotOwned(v, n, p);
    forall c: nat | Mine(v, n, i, c) ensures c != b ==> (Pending(v.owner[c].path, u) <==> Pending(v.owner[c].path, t)) {
      assert OwnerTrue(v, c);
    }
    assert x.stack == v.stack + (freed + [b]);
  }

  /** Slots without blocks leave the work list for free. */
  lemma FreeNone(v: Vol, w: Vol, n: nat, i: nat, t: Todo, freed: seq<nat>, u: Todo)
    requires Settled(v) && Freeing(v, w, n, i, t, freed)
    requires forall q :: ValidPath(q) && q.i == i && At(v, n, q) != 0 ==> (Pending(q, u) <==> Pending(q, t))
    ensures Freeing(v, w, n, i, u, freed)
  {
    forall c: nat | Mine(v, n, i, c) ensures Pending(v.owner[c].path, u) <==> Pending(v.owner[c].path, t) {
      assert OwnerTrue(v, c);
    }
  }

  /** An index block that is still held reads as it did. */
  lemma WordReads(v: Vol, w: Vol, n: nat, i: nat, t: Todo, freed: seq<nat>, p: Path)
    requires Settled(v) && Freeing(v, w, n, i, t, freed) && ValidPath(p) && p.i == i && !p.Top? && Pending(Parent(p), t)
    requires At(v, n, Parent(p)) != 0
    ensures At(v, n, Parent(p)) < |w.disk|
    ensures WordAt(w.disk[At(v, n, Parent(p))], if p.Mid? then p.j else p.k) == At(v, n, p)
  {
    PendingReads(v, w, n, i, t, freed, Parent(p));
  }

  /** What handling slot p, whose block is b, leaves: nothing to do, or one Free. */
  ghost predicate Handled(v: Vol, w: Vol, n: nat, i: nat, freed: seq<nat>, b: nat, u: Todo) {
    if b == 0 then Freeing(v, w, n, i, u, freed + One(b))
    else
      && InZone(b) && b < |w.disk| && b in w.owner && w.owner[b] == Held
      && TableOk(w.super) && w.super.nfree <= GROUP
      && Owned(Give(w, b)) && Freeing(v, Give(w, b), n, i, u, freed + One(b))
  }

  lemma HandleLeaf(v: Vol, w: Vol, n: nat, i: nat, j: nat, k: nat, freed: seq<nat>)
    requires Settled(v) && Owned(w) && 8 <= i < NADDR && j < WORDS && k < WORDS
    requires Freeing(v, w, n, i, Todo(j, true, k + 1), freed)
    ensures Handled(v, w, n, i, freed, At(v, n, Leaf(i, j, k)), Todo(j, true, k))
  {
    if At(v, n, Leaf(i, j, k)) == 0 {
      FreeNone(v, w, n, i, Todo(j, true, k + 1), freed, Todo(j, true, k));
      assert freed + [] == freed;
    } else {
      FreeOne(v, w, n, i, Todo(j, true, k + 1), freed, Leaf(i, j, k), Todo(j, true, k));
    }
  }

  /** The whole entry has gone: the zone is partitioned again, other slots of the file
      and all other files are as before. */
  lemma FreeingDone(v: Vol, w: Vol, n: nat, i: nat, freed: seq<nat>)
    requires Settled(v) && Owned(w) && Freeing(v, w, n, i, Nothing, freed)
    ensures Settled(w)
    ensures EntryGone(v, w, n, i)
  {
    forall b: nat | InZone(b) ensures w.owner[b] != Held {}
    forall m, p | m in v.addrs && ValidPath(p) && !(m == n && p.i == i)
      ensures BlkAt(w.addrs[m], w.disk, p) == BlkAt(v.addrs[m], v.disk, p)
    {
      assert SlotOwned(v, m, p) && SlotOwned(v, m, Top(p.i));
      if !p.Top? { assert SlotOwned(v, m, Mid(p.i, p.j)); }
    }
    forall m | m in v.addrs && m != n ensures GrownFor(v, w, m) {
      forall p | ValidPath(p) ensures SlotGrown(v, w, m, p) { assert SlotOwned(v, m, p); }
    }
  }

  /** Entry i of file n is empty, its other slots and all other files are untouched. */
  ghost predicate EntryGone(v: Vol, w: Vol, n: nat, i: nat) {
    && n in v.addrs && w.addrs.Keys == v.addrs.Keys
    && (forall m :: m in v.addrs ==> |v.addrs[m]| == NADDR && |w.addrs[m]| == NADDR)
    && (forall p :: ValidPath(p) && p.i != i ==> At(w, n, p) == At(v, n, p))
    && (forall m :: m in v.addrs && m != n ==> GrownFor(v, w, m))
  }

  /** The entry's own block goes last. */
  lemma LastSlot(v: Vol, w: Vol, n: nat, i: nat, t: Todo, freed: seq<nat>)
    requires Settled(v) && Owned(w) && Freeing(v, w, n, i, t, freed) && t.Todo? && !t.inside
    requires if i >= 6 then t.j == 0 && freed == MidsDown(v, n, i, 0) else freed == []
    requires At(v, n, Top(i)) != 0
    ensures TableOk(w.super) && w.super.nfree <= GROUP && At(v, n, Top(i)) < |w.disk|
    ensures InZone(At(v, n, Top(i))) && At(v, n, Top(i)) in w.owner && w.owner[At(v, n, Top(i))] == Held
    ensures var x := Give(w, At(v, n, Top(i)));
            Settled(x) && EntryGone(v, x, n, i) && x.stack == v.stack + EntryBlocks(v, n, i)
            && x.addrs == v.addrs[n := v.addrs[n][i := 0]]
  {
    FreeOne(v, w, n, i, t, freed, Top(i), Nothing);
    FreeingDone(v, Give(w, At(v, n, Top(i))), n, i, freed + [At(v, n, Top(i))]);
  }

  /** ITrunc has freed entries NADDR - 1 down to i. */
  ghost predicate Truncating(v: Vol, w: Vol, n: nat, i: nat) {
    && i <= NADDR && n in v.addrs && w.addrs.Keys == v.addrs.Keys
    && (forall m :: m in v.addrs ==> |v.addrs[m]| == NADDR && |w.addrs[m]| == NADDR)
    && (forall x :: i <= x < NADDR ==> w.addrs[n][x] == 0)
    && w.stack == v.stack + BlocksDown(v, n, i)
    && (forall p :: ValidPath(p) && p.i < i ==> At(w, n, p) == At(v, n, p))
    && (forall m :: m in v.addrs && m != n ==> GrownFor(v, w, m))
  }

  lemma TruncatingStarts(v: Vol, n: nat)
    requires Owned(v) && n in v.addrs
    ensures Truncating(v, v, n, NADDR)
  {
    GrownForRefl(v);
    assert v.stack + [] == v.stack;
  }

  lemma TruncatingSkips(v: Vol, w: Vol, n: nat, i: nat)
    requires Truncating(v, w, n, i + 1) && w.addrs[n][i] == 0
    ensures Truncating(v, w, n, i)
  {
    assert At(w, n, Top(i)) == At(v, n, Top(i));
    assert BlocksDown(v, n, i) == BlocksDown(v, n, i + 1) + [];
  }

  lemma StackGrows(a: seq<nat>, b: seq<nat>, c: seq<nat>)
    ensures a + b + c == a + (b + c)
  {
  }

  lemma TruncatingFrees(v: Vol, w: Vol, x: Vol, n: nat, i: nat)
    requires Truncating(v, w, n, i + 1) && EntryGone(w, x, n, i)
    requires x.stack == w.stack + EntryBlocks(w, n, i) && x.addrs[n] == w.addrs[n][i := 0]
    ensures Truncating(v, x, n, i)
  {
    EntrySame(v, w, n, i);
    StackGrows(v.stack, BlocksDown(v, n, i + 1), EntryBlocks(v, n, i));
    forall m | m in v.addrs && m != n ensures GrownFor(v, x, m) { GrownForTrans(v, w, x, m); }
    forall p | ValidPath(p) && p.i < i ensures At(x, n, p) == At(v, n, p) { assert At(w, n, p) == At(v, n, p); }
  }
}
