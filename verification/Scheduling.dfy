/** ProcessManager.Select: round robin among the runnable processes of best priority. */
module Scheduling {
  import opened Common

  const NPROC: nat := 100
  const LOWEST: int := 256                 // no process of this p_pri or more is chosen

  /** ready: p_stat is SRUN and SLOAD is set. */
  datatype Proc = Proc(ready: bool, pri: int)

  predicate Eligible(p: Proc) {
    p.ready && p.pri < LOWEST
  }

  /** How many entries the scan passes before it reaches i. */
  function Dist(last: nat, i: nat): (d: nat)
    requires last < NPROC && i < NPROC
    ensures d < NPROC
  {
    if i > last then i - last - 1 else i + NPROC - last - 1
  }

  lemma DistOfScan(last: nat, count: nat)
    requires last < NPROC && count < NPROC
    ensures Dist(last, (last + 1 + count) % NPROC) == count
  {
    if last + 1 + count < NPROC {
      assert (last + 1 + count) % NPROC == last + 1 + count;
    } else {
      assert (last + 1 + count) % NPROC == last + 1 + count - NPROC;
    }
  }

  /** b is the first, in scan order after `last`, of the eligible processes of least p_pri. */
  ghost predicate Chosen(table: seq<Proc>, last: nat, b: nat)
    requires |table| == NPROC && last < NPROC
  {
    && b < NPROC && Eligible(table[b])
    && forall i: nat :: i < NPROC && Eligible(table[i]) ==>
         table[b].pri <= table[i].pri && (table[i].pri == table[b].pri ==> Dist(last, b) <= Dist(last, i))
  }

  class ProcessManager {
    var lastSelect: nat
    var CurPri: int

    /** One round of Select; None is where it halts until an interrupt and tries again. */
    method Select(table: seq<Proc>) returns (best: Option<nat>)
      requires |table| == NPROC && lastSelect < NPROC
      modifies this
      ensures lastSelect < NPROC
      ensures best.None? ==> lastSelect == old(lastSelect) && forall i :: 0 <= i < NPROC ==> !Eligible(table[i])
      ensures best.Some? ==> Chosen(table, old(lastSelect), best.value)
      ensures best.Some? ==> lastSelect == best.value && CurPri == table[best.value].pri
    {
      var priority := LOWEST;
      best := None;
      for count := 0 to NPROC
        invariant lastSelect == old(lastSelect) && (best.None? ==> priority == LOWEST)
        invariant best.Some? ==> best.value < NPROC && Eligible(table[best.value]) && priority == table[best.value].pri
        invariant best.Some? ==> Dist(lastSelect, best.value) < count
        invariant forall i: nat :: i < NPROC && Eligible(table[i]) && Dist(lastSelect, i) < count ==>
                    best.Some? && priority <= table[i].pri
                    && (table[i].pri == priority ==> Dist(lastSelect, best.value) <= Dist(lastSelect, i))
      {
        var i := (lastSelect + 1 + count) % NPROC;
        DistOfScan(lastSelect, count);
        forall j: nat | j < NPROC && Dist(lastSelect, j) == count ensures j == i {}
        if table[i].ready {
          if table[i].pri < priority {
            best := Some(i);
            priority := table[i].pri;
          }
        }
      }
      if best.Some? {
        CurPri := priority;
        lastSelect := best.value;
      }
    }
  }

  /** Choice k is made from the table as it is then, after the choice before it. */
  ghost predicate ChosenAt(tables: seq<seq<Proc>>, last: nat, picks: seq<nat>, k: nat)
    requires k < |picks| == |tables|
  {
    var before := if k == 0 then last else picks[k - 1];
    |tables[k]| == NPROC && before < NPROC && Chosen(tables[k], before, picks[k])
  }

  ghost predicate Choices(tables: seq<seq<Proc>>, last: nat, picks: seq<nat>) {
    && |tables| == |picks|
    && forall k: nat {:trigger ChosenAt(tables, last, picks, k)} :: k < |picks| ==> ChosenAt(tables, last, picks, k)
  }

  ghost predicate StaysBest(tables: seq<seq<Proc>>, p: nat) {
    && p < NPROC
    && forall k :: 0 <= k < |tables| ==>
         && |tables[k]| == NPROC && Eligible(tables[k][p])
         && forall i :: 0 <= i < NPROC && Eligible(tables[k][i]) ==> tables[k][p].pri <= tables[k][i].pri
  }

  lemma {:induction false} ComesCloser(tables: seq<seq<Proc>>, last: nat, picks: seq<nat>, p: nat, k: nat)
    requires Choices(tables, last, picks) && StaysBest(tables, p) && 0 < k <= |picks| && p !in picks[..k]
    ensures picks[k - 1] < NPROC && Dist(picks[k - 1], p) + k < NPROC
    decreases k
  {
    assert ChosenAt(tables, last, picks, k - 1);
    assert picks[..k][k - 1] == picks[k - 1];
    if k > 1 {
      assert picks[..k - 1] <= picks[..k];
      ComesCloser(tables, last, picks, p, k - 1);
    }
  }

  /** No starvation at the top: a process that stays runnable at the best priority runs
      within NPROC choices. */
  lemma BestRunsSoon(tables: seq<seq<Proc>>, last: nat, picks: seq<nat>, p: nat)
    requires Choices(tables, last, picks) && StaysBest(tables, p) && |picks| >= NPROC
    ensures p in picks[..NPROC]
  {
    if p !in picks[..NPROC] { ComesCloser(tables, last, picks, p, NPROC); }
  }
}
