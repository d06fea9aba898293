/** The intrusive circular list: nodes owned by others, linked in place around a head node.
    `ring` is the head and then the nodes in list order. */
module IntrusiveList {

  class ListHead {
    var next: ListHead?
    var prev: ListHead?

    /** A node outside any list; Init links it to itself. */
    constructor ()
      ensures next == null && prev == null
    {
      next, prev := null, null;
    }
  }

  predicate Distinct(s: seq<ListHead>) {
    forall i, j :: 0 <= i < j < |s| ==> s[i] != s[j]
  }

  function After(s: seq<ListHead>, k: nat): ListHead
    requires k < |s|
  {
    if k + 1 < |s| then s[k + 1] else s[0]
  }

  predicate Linked(a: ListHead, b: ListHead)
    reads a, b
  {
    a.next == b && b.prev == a
  }

  /** Each node is linked to the one after it, the last to the head. */
  predicate Ring(s: seq<ListHead>)
    reads s
  {
    |s| > 0 && Distinct(s) && forall k {:trigger After(s, k)} :: 0 <= k < |s| ==> Linked(s[k], After(s, k))
  }

  /** The node before a place of the ring. */
  lemma PrevIs(s: seq<ListHead>, k: nat)
    requires Ring(s) && k < |s|
    ensures s[k].prev == (if k > 0 then s[k - 1] else s[|s| - 1]) && s[k].next == After(s, k)
  {
    assert After(s, if k > 0 then k - 1 else |s| - 1) == s[k];
  }

  method Init(head: ListHead)
    modifies head
    ensures Ring([head])
  {
    head.next := head;
    head.prev := head;
  }

  method Empty(head: ListHead, ghost s: seq<ListHead>) returns (e: bool)
    requires Ring(s) && s[0] == head
    ensures e <==> |s| == 1
  {
    PrevIs(s, 0);
    e := head.next == head;
  }

  /** LIST_FIRST_ENTRY: the node after the head. */
  method First(head: ListHead, ghost s: seq<ListHead>) returns (n: ListHead)
    requires Ring(s) && s[0] == head && |s| > 1
    ensures n == s[1]
  {
    PrevIs(s, 0);
    n := head.next;
  }

  /** A node goes between two neighbours of the ring: after place k. */
  method AddBetween(node: ListHead, prev: ListHead, next: ListHead, ghost s: seq<ListHead>, ghost k: nat)
    requires Ring(s) && k < |s| && node !in s
    requires prev == s[k] && next == After(s, k)
    modifies node, prev, next
    ensures Ring(s[..k + 1] + [node] + s[k + 1..])
  {
    next.prev := node;
    node.next := next;
    node.prev := prev;
    prev.next := node;
    ghost var t := s[..k + 1] + [node] + s[k + 1..];
    InsertDistinct(s, node, k, t);
    forall j | 0 <= j < |t| ensures Linked(t[j], After(t, j)) {
      if j < k {
        assert t[j] == s[j] && After(t, j) == After(s, j);
      } else if j > k + 1 {
        assert t[j] == s[j - 1] && After(t, j) == After(s, j - 1);
      }
    }
  }

  lemma InsertDistinct(s: seq<ListHead>, node: ListHead, k: nat, t: seq<ListHead>)
    requires Distinct(s) && node !in s && k < |s| && t == s[..k + 1] + [node] + s[k + 1..]
    ensures Distinct(t)
  {
  }

  method Add(node: ListHead, head: ListHead, ghost s: seq<ListHead>)
    requires Ring(s) && s[0] == head && node !in s
    modifies node, s
    ensures Ring([head, node] + s[1..])
  {
    PrevIs(s, 0);
    AddBetween(node, head, head.next, s, 0);
    assert s[..1] + [node] + s[1..] == [head, node] + s[1..];
  }

  /** The node becomes the last of the list. */
  method AddTail(node: ListHead, head: ListHead, ghost s: seq<ListHead>)
    requires Ring(s) && s[0] == head && node !in s
    modifies node, s
    ensures Ring(s + [node])
  {
    PrevIs(s, 0);
    AddBetween(node, head.prev, head, s, |s| - 1);
    assert s[..|s|] + [node] + s[|s|..] == s + [node];
  }

  method DeleteBetween(prev: ListHead, next: ListHead)
    modifies prev, next
    ensures next.prev == prev && prev.next == next
    ensures prev != next ==> prev.prev == old(prev.prev) && next.next == old(next.next)
  {
    next.prev := prev;
    prev.next := next;
  }

  /** The ring closes over place k when the neighbours are linked to each other. */
  lemma DeletedRing(s: seq<ListHead>, k: nat)
    requires 0 < k < |s| && Distinct(s) && Linked(s[k - 1], After(s, k))
    requires forall j {:trigger After(s, j)} :: 0 <= j < |s| && j != k - 1 && j != k ==> Linked(s[j], After(s, j))
    ensures Ring(s[..k] + s[k + 1..])
  {
    var t := s[..k] + s[k + 1..];
    forall j | 0 <= j < |t| ensures Linked(t[j], After(t, j)) {
      if j < k - 1 {
        assert t[j] == s[j] && After(t, j) == After(s, j);
      } else if j >= k {
        assert t[j] == s[j + 1] && After(t, j) == After(s, j + 1);
      }
    }
  }

  /** A node other than the head leaves the list; the others keep their order, and the
      node is a ring of its own. */
  method DeleteInit(node: ListHead, ghost s: seq<ListHead>, ghost k: nat)
    requires Ring(s) && 0 < k < |s| && s[k] == node
    modifies s
    ensures Ring(s[..k] + s[k + 1..]) && Ring([node])
  {
    PrevIs(s, k);
    DeleteBetween(node.prev, node.next);
    Init(node);
    DeletedRing(s, k);
  }

  /** The same, leaving the node unlinked. */
  method Delete(node: ListHead, ghost s: seq<ListHead>, ghost k: nat)
    requires Ring(s) && 0 < k < |s| && s[k] == node
    modifies s
    ensures Ring(s[..k] + s[k + 1..]) && node.next == null && node.prev == null
  {
    PrevIs(s, k);
    DeleteBetween(node.prev, node.next);
    node.next := null;
    node.prev := null;
    DeletedRing(s, k);
  }

  /** A whole list goes in front of another's nodes; its own head is left behind. */
  method Splice(list: ListHead, head: ListHead, ghost l: seq<ListHead>, ghost s: seq<ListHead>)
    requires Ring(l) && Ring(s) && l[0] == list && s[0] == head
    requires forall i, j :: 0 <= i < |l| && 0 <= j < |s| ==> l[i] != s[j]
    modifies l, s
    ensures Ring([head] + l[1..] + s[1..])
  {
    var empty := Empty(list, l);
    if !empty {
      PrevIs(l, 0);
      PrevIs(s, 0);
      var first, last, next := list.next, list.prev, head.next;
      first.prev := head;
      head.next := first;
      last.next := next;
      next.prev := last;
      ghost var t := [head] + l[1..] + s[1..];
      SpliceDistinct(l, s, t);
      forall j | 0 <= j < |t| ensures Linked(t[j], After(t, j)) {
        if 0 < j < |l| - 1 {
          assert t[j] == l[j] && After(t, j) == After(l, j);
        } else if j >= |l| {
          assert t[j] == s[j - |l| + 1] && After(t, j) == After(s, j - |l| + 1);
        }
      }
    } else {
      assert [head] + l[1..] + s[1..] == s;
    }
  }

  lemma SpliceDistinct(l: seq<ListHead>, s: seq<ListHead>, t: seq<ListHead>)
    requires Distinct(l) && Distinct(s) && |l| > 0 && |s| > 0 && t == [s[0]] + l[1..] + s[1..]
    requires forall i, j :: 0 <= i < |l| && 0 <= j < |s| ==> l[i] != s[j]
    ensures Distinct(t)
  {
  }
}
