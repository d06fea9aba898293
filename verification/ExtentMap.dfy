/** Allocator: first fit on a zero-terminated array of free extents, edited in place. */
module ExtentMap {

  datatype MapNode = MapNode(size: nat, idx: nat)

  const ZERO := MapNode(0, 0)

  /** Sorted, disjoint, and never two extents that touch. */
  ghost predicate Canonical(m: seq<MapNode>) {
    && (forall i :: 0 <= i < |m| ==> m[i].size > 0 && m[i].idx > 0)
    && forall i, j :: 0 <= i < j < |m| ==> m[i].idx + m[i].size < m[j].idx
  }

  /** The array lists the extents m; everything after them is zero. */
  ghost predicate Lists(a: seq<MapNode>, m: seq<MapNode>) {
    |m| < |a| && a[..|m|] == m && forall i :: |m| <= i < |a| ==> a[i] == ZERO
  }

  predicate Within(e: MapNode, u: nat) {
    e.idx <= u < e.idx + e.size
  }

  /** Unit u is free. */
  predicate IsFree(m: seq<MapNode>, u: nat) {
    exists i :: 0 <= i < |m| && Within(m[i], u)
  }

  ghost predicate FreeRun(m: seq<MapNode>, at: nat, n: nat) {
    forall u: nat :: at <= u < at + n ==> IsFree(m, u)
  }

  ghost predicate HasRun(m: seq<MapNode>, n: nat) {
    exists at: nat :: FreeRun(m, at, n)
  }

  // ------------------------------------------------------------- extents

  lemma EndNotFree(m: seq<MapNode>, i: nat)
    requires Canonical(m) && i < |m|
    ensures !IsFree(m, m[i].idx + m[i].size)
  {
    if j :| 0 <= j < |m| && Within(m[j], m[i].idx + m[i].size) { assert false; }
  }

  /** The run starting in an extent stays in it: extents do not touch. */
  lemma RunInOne(m: seq<MapNode>, at: nat, n: nat, i: nat)
    requires Canonical(m) && FreeRun(m, at, n) && i < |m| && Within(m[i], at)
    ensures at + n <= m[i].idx + m[i].size
  {
    EndNotFree(m, i);
  }

  /** n units in a row are free somewhere exactly when some extent has room for them. */
  lemma FitsIffRun(m: seq<MapNode>, n: nat)
    requires Canonical(m) && n > 0
    ensures (exists i :: 0 <= i < |m| && m[i].size >= n) <==> HasRun(m, n)
  {
    if i :| 0 <= i < |m| && m[i].size >= n {
      forall u: nat | m[i].idx <= u < m[i].idx + n ensures IsFree(m, u) { assert Within(m[i], u); }
      assert FreeRun(m, m[i].idx, n);
    }
    if at: nat :| FreeRun(m, at, n) {
      assert IsFree(m, at);
      var i :| 0 <= i < |m| && Within(m[i], at);
      RunInOne(m, at, n, i);
    }
  }

  // --------------------------------------------------------------- Alloc

  /** The map after n units are cut from the front of extent i. */
  function Cut(m: seq<MapNode>, i: nat, n: nat): seq<MapNode>
    requires i < |m| && n <= m[i].size
  {
    if m[i].size == n then m[..i] + m[i + 1..] else m[i := MapNode(m[i].size - n, m[i].idx + n)]
  }

  lemma CutCanonical(m: seq<MapNode>, i: nat, n: nat)
    requires Canonical(m) && i < |m| && 0 < n <= m[i].size
    ensures Canonical(Cut(m, i, n))
  {
  }

  /** Exactly the units handed out stop being free. */
  lemma CutFree(m: seq<MapNode>, i: nat, n: nat, u: nat)
    requires Canonical(m) && i < |m| && 0 < n <= m[i].size
    ensures IsFree(Cut(m, i, n), u) <==> IsFree(m, u) && !(m[i].idx <= u < m[i].idx + n)
    ensures m[i].idx <= u < m[i].idx + n ==> IsFree(m, u)
  {
    var c := Cut(m, i, n);
    if m[i].idx <= u < m[i].idx + n { assert Within(m[i], u); }
    if j :| 0 <= j < |c| && Within(c[j], u) { CutFrom(m, i, n, u, j); }
    if k :| 0 <= k < |m| && Within(m[k], u) && !(m[i].idx <= u < m[i].idx + n) {
      assert Within(c[if m[i].size == n && k > i then k - 1 else k], u);
    }
  }

  lemma CutFrom(m: seq<MapNode>, i: nat, n: nat, u: nat, j: nat)
    requires Canonical(m) && i < |m| && 0 < n <= m[i].size && j < |Cut(m, i, n)| && Within(Cut(m, i, n)[j], u)
    ensures IsFree(m, u) && !(m[i].idx <= u < m[i].idx + n)
  {
    var k := if m[i].size == n && j >= i then j + 1 else j;
    assert Within(m[k], u);
    if k < i { assert m[k].idx + m[k].size < m[i].idx; }
  }

  /** Takes size units from the lowest extent that has them; 0 when none has. A request for
      nothing takes nothing and is answered with the first free unit. */
  method Alloc(nodes: array<MapNode>, size: nat, ghost m: seq<MapNode>)
    returns (r: nat, ghost at: nat, ghost w: seq<MapNode>)
    requires Canonical(m) && Lists(nodes[..], m)
    modifies nodes
    ensures Lists(nodes[..], w)
    ensures size > 0 ==> (r == 0 <==> !HasRun(m, size))
    ensures size == 0 ==> (r == 0 <==> m == [])
    ensures r == 0 ==> w == m
    ensures r != 0 ==>
              && at < |m| && m[at].size >= size && r == m[at].idx
              && (forall j :: 0 <= j < at ==> m[j].size < size)
              && w == if size == 0 then m else Cut(m, at, size)
  {
    if size > 0 { FitsIffRun(m, size); }
    var p := 0;
    at, w := 0, m;
    while nodes[p].size != 0
      invariant 0 <= p <= |m| && Lists(nodes[..], m)
      invariant forall j :: 0 <= j < p ==> m[j].size < size
      decreases |m| - p
    {
      if nodes[p].size >= size {
        at, w := p, if size == 0 then m else Cut(m, p, size);
        r := CutFront(nodes, p, size, m);
        return;
      }
      p := p + 1;
    }
    if |m| > 0 { assert m[0].size < size; }
    r := 0;
  }

  /** The front of entry p is handed out; an entry used up goes. */
  method CutFront(nodes: array<MapNode>, p: nat, size: nat, ghost m: seq<MapNode>) returns (r: nat)
    requires Canonical(m) && Lists(nodes[..], m) && p < |m| && size <= m[p].size
    modifies nodes
    ensures Lists(nodes[..], if size == 0 then m else Cut(m, p, size)) && r == m[p].idx
  {
    r := nodes[p].idx;
    nodes[p] := MapNode(nodes[p].size - size, nodes[p].idx + size);
    if nodes[p].size == 0 {
      CloseUp(nodes, p, m[p := MapNode(0, m[p].idx + size)]);
    }
  }

  /** The entries after entry p move down over it. */
  method CloseUp(nodes: array<MapNode>, p: nat, ghost m: seq<MapNode>)
    requires |m| < nodes.Length && p < |m| && nodes[..|m|] == m && forall i :: |m| <= i < nodes.Length ==>
             nodes[i] == ZERO
    requires forall i :: p < i < |m| ==> m[i].size > 0
    modifies nodes
    ensures Lists(nodes[..], m[..p] + m[p + 1..])
  {
    var q := p;
    while nodes[q + 1].size != 0
      invariant p <= q < |m|
      invariant forall i :: 0 <= i < p ==> nodes[i] == m[i]
      invariant forall i :: p <= i < q ==> nodes[i] == m[i + 1]
      invariant forall i :: q < i < |m| ==> nodes[i] == m[i]
      invariant forall i :: |m| <= i < nodes.Length ==> nodes[i] == ZERO
      decreases |m| - q
    {
      nodes[q] := nodes[q + 1];
      q := q + 1;
    }
    nodes[q] := ZERO;
    ghost var rest := m[..p] + m[p + 1..];
    assert |rest| == |m| - 1;
    assert forall i :: 0 <= i < |rest| ==> nodes[i] == rest[i];
  }

  // ---------------------------------------------------------------- Free

  /** Where Free's scan stops: before the first extent past addr. */
  ghost predicate Before(m: seq<MapNode>, k: nat, addr: nat) {
    k <= |m| && (forall i :: 0 <= i < k ==> m[i].idx <= addr) && (k < |m| ==> addr < m[k].idx)
  }

  /** The block is entirely in use. */
  ghost predicate InUse(m: seq<MapNode>, size: nat, addr: nat) {
    forall i :: 0 <= i < |m| ==> m[i].idx + m[i].size <= addr || addr + size <= m[i].idx
  }

  predicate TouchesPrev(m: seq<MapNode>, k: nat, addr: nat)
    requires k <= |m|
  {
    k > 0 && m[k - 1].idx + m[k - 1].size == addr
  }

  predicate TouchesNext(m: seq<MapNode>, k: nat, end: nat) {
    k < |m| && end == m[k].idx
  }

  /** A block put back before extent k, joined to the neighbours it touches. */
  function Joined(m: seq<MapNode>, k: nat, size: nat, addr: nat): MapNode
    requires k <= |m|
  {
    var prev, next := TouchesPrev(m, k, addr), TouchesNext(m, k, addr + size);
    MapNode((if prev then m[k - 1].size else 0) + size + (if next then m[k].size else 0), if prev then m[k - 1].idx
      else addr)
  }

  function Put(m: seq<MapNode>, k: nat, size: nat, addr: nat): seq<MapNode>
    requires k <= |m|
  {
    var lo, hi := if TouchesPrev(m, k, addr) then k - 1 else k, if TouchesNext(m, k, addr + size) then k + 1 else k;
    m[..lo] + [Joined(m, k, size, addr)] + m[hi..]
  }

  lemma Spliced(m: seq<MapNode>, lo: nat, e: MapNode, hi: nat)
    requires Canonical(m) && lo <= hi <= |m| && e.size > 0 && e.idx > 0
    requires forall i :: 0 <= i < lo ==> m[i].idx + m[i].size < e.idx
    requires forall i :: hi <= i < |m| ==> e.idx + e.size < m[i].idx
    ensures Canonical(m[..lo] + [e] + m[hi..])
  {
    var c := m[..lo] + [e] + m[hi..];
    forall i, j | 0 <= i < j < |c| ensures c[i].idx + c[i].size < c[j].idx {
      assert c[i] == if i < lo then m[i] else if i == lo then e else m[i - lo - 1 + hi];
      assert c[j] == if j < lo then m[j] else if j == lo then e else m[j - lo - 1 + hi];
    }
  }

  /** Before extent k everything ends by the block's start, from k on it begins after its end. */
  lemma Sides(m: seq<MapNode>, k: nat, size: nat, addr: nat)
    requires Canonical(m) && Before(m, k, addr) && InUse(m, size, addr) && size > 0
    ensures forall i :: 0 <= i < k ==> m[i].idx + m[i].size <= addr && (m[i].idx + m[i].size == addr ==> i == k - 1)
    ensures forall i :: k <= i < |m| ==> addr + size <= m[i].idx && (addr + size == m[i].idx ==> i == k)
  {
    if k > 0 { assert m[k - 1].idx <= addr; }
  }

  lemma PutCanonical(m: seq<MapNode>, k: nat, size: nat, addr: nat)
    requires Canonical(m) && Before(m, k, addr) && InUse(m, size, addr) && size > 0 && addr > 0
    ensures Canonical(Put(m, k, size, addr))
  {
    var lo, hi := if TouchesPrev(m, k, addr) then k - 1 else k, if TouchesNext(m, k, addr + size) then k + 1 else k;
    JoinedApart(m, k, size, addr, lo, hi);
    Spliced(m, lo, Joined(m, k, size, addr), hi);
  }

  /** What is joined up touches neither the extents before it nor those after it. */
  lemma JoinedApart(m: seq<MapNode>, k: nat, size: nat, addr: nat, lo: nat, hi: nat)
    requires Canonical(m) && Before(m, k, addr) && InUse(m, size, addr) && size > 0 && addr > 0
    requires lo == if TouchesPrev(m, k, addr) then k - 1 else k
    requires hi == if TouchesNext(m, k, addr + size) then k + 1 else k
    ensures lo <= hi <= |m| && Joined(m, k, size, addr).size > 0 && Joined(m, k, size, addr).idx > 0
    ensures forall i :: 0 <= i < lo ==> m[i].idx + m[i].size < Joined(m, k, size, addr).idx
    ensures forall i :: hi <= i < |m| ==> Joined(m, k, size, addr).idx + Joined(m, k, size, addr).size < m[i].idx
  {
    Sides(m, k, size, addr);
  }

  /** Exactly the units of the block become free. */
  lemma PutFree(m: seq<MapNode>, k: nat, size: nat, addr: nat, u: nat)
    requires Canonical(m) && Before(m, k, addr) && InUse(m, size, addr) && size > 0
    ensures IsFree(Put(m, k, size, addr), u) <==> IsFree(m, u) || addr <= u < addr + size
    ensures addr <= u < addr + size ==> !IsFree(m, u)
  {
    Sides(m, k, size, addr);
    var c := Put(m, k, size, addr);
    var lo, hi := if TouchesPrev(m, k, addr) then k - 1 else k, if TouchesNext(m, k, addr + size) then k + 1 else k;
    if addr <= u < addr + size || IsFree(m, u) { PutInto(m, k, size, addr, u, lo, hi); }
    if j :| 0 <= j < |c| && Within(c[j], u) { PutFrom(m, k, size, addr, u, j, lo, hi); }
  }

  lemma PutInto(m: seq<MapNode>, k: nat, size: nat, addr: nat, u: nat, lo: nat, hi: nat)
    requires k <= |m| && lo == (if TouchesPrev(m, k, addr) then k - 1 else k)
    requires hi == if TouchesNext(m, k, addr + size) then k + 1 else k
    requires addr <= u < addr + size || IsFree(m, u)
    ensures IsFree(Put(m, k, size, addr), u)
  {
    var c := Put(m, k, size, addr);
    assert c[lo] == Joined(m, k, size, addr);
    if addr <= u < addr + size {
      assert Within(c[lo], u);
    } else {
      var j :| 0 <= j < |m| && Within(m[j], u);
      assert Within(c[if j < lo then j else if j < hi then lo else j - hi + lo + 1], u);
    }
  }

  lemma PutFrom(m: seq<MapNode>, k: nat, size: nat, addr: nat, u: nat, j: nat, lo: nat, hi: nat)
    requires k <= |m| && lo == if TouchesPrev(m, k, addr) then k - 1 else k
    requires hi == if TouchesNext(m, k, addr + size) then k + 1 else k
    requires j < |Put(m, k, size, addr)| && Within(Put(m, k, size, addr)[j], u)
    ensures IsFree(m, u) || addr <= u < addr + size
  {
    if j < lo {
      assert Within(m[j], u);
    } else if j > lo {
      assert Within(m[j - lo - 1 + hi], u);
    } else if u < addr {
      assert Within(m[k - 1], u);
    } else if addr + size <= u {
      assert Within(m[k], u);
    }
  }

  /** The block touches no free extent, so it needs a new entry. */
  ghost predicate Alone(m: seq<MapNode>, size: nat, addr: nat) {
    size > 0 && forall i :: 0 <= i < |m| ==> m[i].idx + m[i].size != addr && addr + size != m[i].idx
  }

  lemma AloneHere(m: seq<MapNode>, k: nat, size: nat, addr: nat)
    requires Canonical(m) && Before(m, k, addr) && InUse(m, size, addr) && size > 0
    ensures Alone(m, size, addr) <==> !TouchesPrev(m, k, addr) && !TouchesNext(m, k, addr + size)
  {
    Sides(m, k, size, addr);
    assert forall i :: 0 <= i < k ==> m[i].idx <= addr;
  }

  /** The new entry pushes the later ones up. */
  method Insert(nodes: array<MapNode>, k: nat, e: MapNode, ghost m: seq<MapNode>)
    requires Lists(nodes[..], m) && k <= |m| && |m| + 1 < nodes.Length && forall i :: 0 <= i < |m| ==> m[i].size > 0
    modifies nodes
    ensures Lists(nodes[..], m[..k] + [e] + m[k..])
  {
    ghost var all := m[..k] + [e] + m[k..];
    assert forall i :: 0 <= i < |m| ==> nodes[i] == m[i] by {
      forall i | 0 <= i < |m| ensures nodes[i] == m[i] { assert nodes[..][..|m|][i] == m[i]; }
    }
    var p, carried := k, e;
    while nodes[p].size != 0
      invariant k <= p <= |m| && carried == all[p]
      invariant forall i :: 0 <= i < p ==> nodes[i] == all[i]
      invariant forall i :: p <= i < |m| ==> nodes[i] == m[i]
      invariant forall i :: |m| <= i < nodes.Length ==> nodes[i] == ZERO
      decreases |m| - p
    {
      var displaced := nodes[p];
      nodes[p] := carried;
      carried := displaced;
      p := p + 1;
    }
    nodes[p] := carried;
  }

  /** Puts a block back. Giving back nothing changes nothing. */
  method Free(nodes: array<MapNode>, size: nat, addr: nat, ghost m: seq<MapNode>)
    returns (ghost k: nat, ghost w: seq<MapNode>)
    requires Canonical(m) && Lists(nodes[..], m) && InUse(m, size, addr) && addr > 0
    requires Alone(m, size, addr) ==> |m| + 1 < nodes.Length
    modifies nodes
    ensures Lists(nodes[..], w) && Before(m, k, addr)
    ensures w == if size == 0 then m else Put(m, k, size, addr)
  {
    var p := Scan(nodes, addr, m);
    if size > 0 { AloneHere(m, p, size, addr); }
    k, w := p, if size == 0 then m else Put(m, p, size, addr);
    if p > 0 && addr == nodes[p - 1].idx + nodes[p - 1].size {
      JoinPrevious(nodes, p, size, addr, m);
    } else if addr + size == nodes[p].idx && nodes[p].size != 0 {
      JoinNext(nodes, p, size, addr, m);
    } else if size != 0 {
      Insert(nodes, p, MapNode(size, addr), m);
    }
  }

  method Scan(nodes: array<MapNode>, addr: nat, ghost m: seq<MapNode>) returns (p: nat)
    requires Canonical(m) && Lists(nodes[..], m)
    ensures Before(m, p, addr)
  {
    p := 0;
    while nodes[p].idx <= addr && nodes[p].size != 0
      invariant 0 <= p <= |m| && forall i :: 0 <= i < p ==> m[i].idx <= addr
      decreases |m| - p
    {
      p := p + 1;
    }
  }

  /** The block touches only the extent after it. */
  method JoinNext(nodes: array<MapNode>, p: nat, size: nat, addr: nat, ghost m: seq<MapNode>)
    requires Canonical(m) && Lists(nodes[..], m) && Before(m, p, addr) && p < |m|
    requires !TouchesPrev(m, p, addr) && TouchesNext(m, p, addr + size)
    modifies nodes
    ensures size > 0 && Lists(nodes[..], Put(m, p, size, addr))
  {
    nodes[p] := MapNode(nodes[p].size + size, addr);
    assert Put(m, p, size, addr) == m[p := nodes[p]];
  }

  /** The block touches the extent before it, and perhaps the one after it. */
  method JoinPrevious(nodes: array<MapNode>, p: nat, size: nat, addr: nat, ghost m: seq<MapNode>)
    requires Canonical(m) && Lists(nodes[..], m) && Before(m, p, addr) && addr > 0
    requires p > 0 && m[p - 1].idx + m[p - 1].size == addr
    modifies nodes
    ensures Lists(nodes[..], if size == 0 then m else Put(m, p, size, addr))
  {
    nodes[p - 1] := MapNode(nodes[p - 1].size + size, nodes[p - 1].idx);
    if addr + size == nodes[p].idx {
      JoinBoth(nodes, p, size, addr, m);
    } else {
      ghost var e := nodes[p - 1];
      assert nodes[..|m|] == m[p - 1 := e];
      if size > 0 { PutJoins(m, p, size, addr, e); } else { assert m[p - 1 := e] == m; }
    }
  }

  lemma PutJoins(m: seq<MapNode>, p: nat, size: nat, addr: nat, e: MapNode)
    requires 0 < p <= |m| && TouchesPrev(m, p, addr) && !TouchesNext(m, p, addr + size)
    requires e == MapNode(m[p - 1].size + size, m[p - 1].idx)
    ensures Put(m, p, size, addr) == m[p - 1 := e]
  {
  }

  method JoinBoth(nodes: array<MapNode>, p: nat, size: nat, addr: nat, ghost m: seq<MapNode>)
    requires Canonical(m) && 0 < p < |m| < nodes.Length && addr > 0 && size > 0
    requires TouchesPrev(m, p, addr) && TouchesNext(m, p, addr + size)
    requires forall i :: 0 <= i < nodes.Length && i != p - 1 ==> nodes[i] == if i < |m| then m[i] else ZERO
    requires nodes[p - 1] == MapNode(m[p - 1].size + size, m[p - 1].idx)
    modifies nodes
    ensures Lists(nodes[..], Put(m, p, size, addr))
  {
    nodes[p - 1] := MapNode(nodes[p - 1].size + nodes[p].size, nodes[p - 1].idx);
    ghost var n := m[p - 1 := nodes[p - 1]];
    CloseUp(nodes, p, n);
    assert n[..p] + n[p + 1..] == Put(m, p, size, addr);
  }
}
