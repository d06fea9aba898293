/** SemaphoreManager: FIFO hand-off semaphores behind generation-tagged ids, with waits that
    a signal or a destroy can end. A step is what runs with interrupts off. */
module Semaphore {
  import opened Common

  const NSEMA: nat := 64
  const GEN_LIMIT: nat := 0x80_0000            // 2^23: ids of later generations are negative
  const WORD: nat := 0x1_0000_0000
  const INT_MAX: nat := 0x7fff_ffff

  datatype Reason = WakeNone | WakeGranted | WakeDestroyed

  // ---------------------------------------------------------------- ids

  /** A 32-bit pattern as a C int. */
  function ToInt(w: nat): int
    requires w < WORD
  {
    if w > INT_MAX then w - WORD else w
  }

  function EncodeId(slot: nat, generation: nat): int
    requires slot < NSEMA
  {
    ToInt(generation * 0x100 % WORD + slot)
  }

  /** The slot and generation of an id, None when it cannot be one. */
  function DecodeId(id: int): Option<(nat, nat)> {
    if id < 0 then None
    else
      var (slot, generation) := (id % 0x100, id / 0x100);
      if slot >= NSEMA || generation == 0 then None else Some((slot, generation))
  }

  /** Ids name their slot and generation up to generation 2^23 - 1, and none after. */
  lemma DecodeOfEncode(slot: nat, generation: nat)
    requires slot < NSEMA && 1 <= generation <= GEN_LIMIT
    ensures DecodeId(EncodeId(slot, generation)) == if generation < GEN_LIMIT then Some((slot, generation)) else None
    ensures EncodeId(slot, generation) < 0 <==> generation == GEN_LIMIT
  {
    assert generation * 0x100 + slot < WORD;
  }

  lemma EncodeOfDecode(id: int)
    requires DecodeId(id).Some? && id <= INT_MAX
    ensures var (slot, generation) := DecodeId(id).value;
            generation < GEN_LIMIT && EncodeId(slot, generation) == id
  {
  }

  // -------------------------------------------------------------- state

  datatype Sem = Sem(used: bool, value: nat, generation: nat, queue: seq<nat>)

  /** What has happened to a semaphore since Init: grants counts tokens given out, to
      callers that did not have to wait and to waiters alike. */
  datatype Ledger = Ledger(initial: nat, posts: nat, grants: nat)

  /** waitSem is p_semWaitSem by process (absent for NULL), stamp the order of enqueueing. */
  datatype State = State(slots: seq<Sem>, waitSem: map<nat, nat>, reason: map<nat, Reason>, asleep: set<nat>,
                         ledger: seq<Ledger>, stamp: map<nat, nat>, clock: nat)

  /** Waiters stand in the order they were enqueued in. */
  ghost predicate Ordered(q: seq<nat>, stamp: map<nat, nat>)
    requires forall p :: p in q ==> p in stamp
  {
    q == [] || ((forall p :: p in q[1..] ==> stamp[q[0]] < stamp[p]) && Ordered(q[1..], stamp))
  }

  ghost predicate Stamped(q: seq<nat>, stamp: map<nat, nat>, clock: nat) {
    (forall p :: p in q ==> p in stamp && stamp[p] < clock) && Ordered(q, stamp)
  }

  ghost predicate SlotOk(s: State, i: nat)
    requires i < |s.slots| == |s.ledger|
  {
    var e := s.slots[i];
    && 1 <= e.generation <= GEN_LIMIT && e.value <= INT_MAX
    && (!e.used ==> e.value == 0 && e.queue == [])
    && (e.value > 0 ==> e.queue == [])
    && Stamped(e.queue, s.stamp, s.clock)
    && (forall p :: p in e.queue ==> p in s.waitSem && s.waitSem[p] == i)
    && (e.used ==> e.value + s.ledger[i].grants == s.ledger[i].initial + s.ledger[i].posts)
  }

  /** A process is in a queue exactly when p_semWaitSem names that semaphore, and then it
      is asleep and unwoken. */
  ghost predicate ProcOk(s: State, p: nat)
    requires p in s.waitSem
  {
    s.waitSem[p] < |s.slots| && p in s.slots[s.waitSem[p]].queue && p in s.asleep && p in s.reason
      && s.reason[p] == WakeNone
  }

  ghost predicate Inv(s: State) {
    && |s.slots| == NSEMA == |s.ledger|
    && (forall i: nat {:trigger SlotOk(s, i)} :: i < NSEMA ==> SlotOk(s, i))
    && forall p {:trigger ProcOk(s, p)} :: p in s.waitSem ==> ProcOk(s, p)
  }

  /** Lookup. */
  function Lookup(s: State, id: int): (r: Option<nat>)
    requires |s.slots| == NSEMA
    ensures r.Some? ==> r.value < NSEMA && s.slots[r.value].used
  {
    match DecodeId(id)
    case None => None
    case Some((slot, generation)) =>
      if s.slots[slot].used && s.slots[slot].generation == generation then Some(slot) else None
  }

  // ------------------------------------------------------- stale ids

  ghost predicate GenerationsGrow(s: State, t: State) {
    && |s.slots| == NSEMA == |t.slots|
    && forall i :: 0 <= i < NSEMA ==>
         s.slots[i].generation <= t.slots[i].generation
         && (t.slots[i].generation == s.slots[i].generation ==> (t.slots[i].used || !s.slots[i].used))
  }

  /** The id of a semaphore that was destroyed. */
  ghost predicate Stale(s: State, id: int)
    requires |s.slots| == NSEMA
  {
    var d := DecodeId(id);
    d.Some? && d.value.1 < s.slots[d.value.0].generation
  }

  /** A stale id is invalid, and stays so whatever happens. */
  lemma StaleForever(s: State, t: State, id: int)
    requires GenerationsGrow(s, t) && Stale(s, id)
    ensures Stale(t, id) && Lookup(t, id) == None
  {
  }

  /** A slot whose generation has reached 2^23 is out of reach of every id: no id can
      look it up, so none can destroy it and its generation never moves again. */
  lemma LastGenerationUnreachable(s: State, id: int, slot: nat)
    requires |s.slots| == NSEMA && slot < NSEMA && s.slots[slot].generation >= GEN_LIMIT && id <= INT_MAX
    ensures Lookup(s, id) != Some(slot)
  {
    if DecodeId(id).Some? { EncodeOfDecode(id); }
  }

  // ------------------------------------------------------------ queues

  function Without(q: seq<nat>, x: nat): (r: seq<nat>)
    ensures forall y :: y in r <==> y in q && y != x
  {
    if q == [] then [] else (if q[0] == x then [] else [q[0]]) + Without(q[1..], x)
  }

  lemma {:induction false} WithoutOrdered(q: seq<nat>, x: nat, stamp: map<nat, nat>)
    requires (forall p :: p in q ==> p in stamp) && Ordered(q, stamp)
    ensures Ordered(Without(q, x), stamp)
  {
    if q != [] {
      WithoutOrdered(q[1..], x, stamp);
      if q[0] == x {
        assert Without(q, x) == Without(q[1..], x);
      } else {
        assert Without(q, x)[1..] == Without(q[1..], x);
      }
    }
  }

  lemma {:induction false} WithoutHead(q: seq<nat>, stamp: map<nat, nat>, clock: nat)
    requires q != [] && Stamped(q, stamp, clock)
    ensures Without(q, q[0]) == q[1..]
  {
    assert q[0] !in q[1..];
    WithoutAbsent(q[1..], q[0]);
  }

  lemma {:induction false} WithoutAbsent(q: seq<nat>, x: nat)
    requires x !in q
    ensures Without(q, x) == q
  {
    if q != [] { WithoutAbsent(q[1..], x); }
  }

  lemma {:induction false} AppendOrdered(q: seq<nat>, x: nat, stamp: map<nat, nat>, clock: nat)
    requires Stamped(q, stamp, clock) && x !in q
    ensures Stamped(q + [x], stamp[x := clock], clock + 1)
  {
    var r, t := q + [x], stamp[x := clock];
    if q == [] {
      assert r[1..] == [] && Ordered([], t);
    } else {
      AppendOrdered(q[1..], x, stamp, clock);
      assert (q + [x])[1..] == q[1..] + [x];
    }
  }

  lemma {:induction false} StampFrame(q: seq<nat>, stamp: map<nat, nat>, x: nat, n: nat, clock: nat)
    requires Stamped(q, stamp, clock) && x !in q && n >= clock
    ensures Stamped(q, stamp[x := n], n)
  {
    if q != [] { StampFrame(q[1..], stamp, x, n, clock); }
  }

  /** The head has waited longest. */
  lemma HeadIsFirst(q: seq<nat>, stamp: map<nat, nat>, clock: nat, p: nat)
    requires q != [] && Stamped(q, stamp, clock) && p in q
    ensures stamp[q[0]] <= stamp[p]
  {
    if p != q[0] { assert p in q[1..]; }
  }

  // ------------------------------------------------------- transitions

  function Entry(s: State, i: nat, e: Sem, l: Ledger): State
    requires i < |s.slots| == |s.ledger|
  {
    s.(slots := s.slots[i := e], ledger := s.ledger[i := l])
  }

  /** Init on a free slot. */
  function Made(s: State, i: nat, value: nat): State
    requires i < |s.slots| == |s.ledger|
  {
    Entry(s, i, s.slots[i].(used := true, value := value, queue := []), Ledger(value, 0, 0))
  }

  /** Wait on a positive value. */
  function Taken(s: State, i: nat): State
    requires i < |s.slots| == |s.ledger| && s.slots[i].value > 0
  {
    Entry(s, i, s.slots[i].(value := s.slots[i].value - 1), s.ledger[i].(grants := s.ledger[i].grants + 1))
  }

  /** Wait goes to the end of the queue and to sleep. */
  function Queued(s: State, i: nat, p: nat): State
    requires i < |s.slots|
  {
    s.(slots := s.slots[i := s.slots[i].(queue := s.slots[i].queue + [p])], waitSem := s.waitSem[p := i],
       reason := s.reason[p := WakeNone], asleep := s.asleep + {p}, stamp := s.stamp[p := s.clock],
         clock := s.clock + 1)
  }

  /** WakeProcess and InterruptWait: p leaves its queue, with a reason. */
  function Unqueued(s: State, p: nat, why: Reason): State
    requires p in s.waitSem && s.waitSem[p] < |s.slots|
  {
    var i := s.waitSem[p];
    s.(slots := s.slots[i := s.slots[i].(queue := Without(s.slots[i].queue, p))], waitSem := s.waitSem - {p},
       reason := s.reason[p := why], asleep := s.asleep - {p})
  }

  function Posted(s: State, i: nat): State
    requires i < |s.slots| == |s.ledger|
  {
    Entry(s, i, s.slots[i].(value := s.slots[i].value + 1), s.ledger[i].(posts := s.ledger[i].posts + 1))
  }

  /** Post with a waiter: the token goes straight to it. */
  function HandedOn(s: State, i: nat): State
    requires i < |s.slots| == |s.ledger| && s.slots[i].queue != [] && s.slots[i].queue[0] in s.waitSem
    requires s.waitSem[s.slots[i].queue[0]] < |s.slots|
  {
    Unqueued(s, s.slots[i].queue[0], WakeGranted).(
      ledger := s.ledger[i := s.ledger[i].(posts := s.ledger[i].posts + 1, grants := s.ledger[i].grants + 1)])
  }

  /** ResetEntry after the queue is empty. */
  function Reset(s: State, i: nat): State
    requires i < |s.slots|
  {
    var g := (s.slots[i].generation + 1) % WORD;
    s.(slots := s.slots[i := Sem(false, 0, if g == 0 then 1 else g, [])])
  }

  /** A change to one entry that keeps its queue and the order of waiting. */
  lemma EntryOk(s: State, t: State, i: nat)
    requires Inv(s) && i < NSEMA && |t.slots| == NSEMA == |t.ledger|
    requires t == s.(slots := t.slots, ledger := t.ledger)
    requires t.slots == s.slots[i := t.slots[i]] && t.ledger == s.ledger[i := t.ledger[i]]
    requires t.slots[i].queue == s.slots[i].queue && SlotOk(t, i)
    ensures Inv(t)
  {
    forall j: nat | j < NSEMA ensures SlotOk(t, j) { assert SlotOk(s, j); }
    forall p | p in t.waitSem ensures ProcOk(t, p) { assert ProcOk(s, p); }
  }

  lemma QueuedOk(s: State, i: nat, p: nat)
    requires Inv(s) && i < NSEMA && p !in s.waitSem && s.slots[i].used && s.slots[i].value == 0
    ensures Inv(Queued(s, i, p)) && GenerationsGrow(s, Queued(s, i, p))
  {
    var t := Queued(s, i, p);
    forall j: nat | j < NSEMA ensures SlotOk(t, j) {
      assert SlotOk(s, j);
      assert p !in s.slots[j].queue;
      if j == i {
        AppendOrdered(s.slots[j].queue, p, s.stamp, s.clock);
      } else {
        StampFrame(s.slots[j].queue, s.stamp, p, s.clock, s.clock);
      }
    }
    forall q | q in t.waitSem ensures ProcOk(t, q) { if q != p { assert ProcOk(s, q); } }
  }

  lemma UnqueuedOk(s: State, p: nat, why: Reason)
    requires Inv(s) && p in s.waitSem
    ensures s.waitSem[p] < NSEMA && Inv(Unqueued(s, p, why)) && GenerationsGrow(s, Unqueued(s, p, why))
  {
    assert ProcOk(s, p);
    var t := Unqueued(s, p, why);
    forall j: nat | j < NSEMA ensures SlotOk(t, j) {
      assert SlotOk(s, j);
      WithoutOrdered(s.slots[j].queue, p, s.stamp);
    }
    forall q | q in t.waitSem ensures ProcOk(t, q) { assert ProcOk(s, q); }
  }

  lemma HandedOnOk(s: State, i: nat)
    requires Inv(s) && i < NSEMA && s.slots[i].queue != []
    ensures var p := s.slots[i].queue[0];
            && p in s.waitSem && s.waitSem[p] == i && s.slots[i].used
            && Inv(HandedOn(s, i)) && GenerationsGrow(s, HandedOn(s, i))
            && HandedOn(s, i).slots[i] == s.slots[i].(queue := s.slots[i].queue[1..])
            && forall q :: q in s.slots[i].queue ==> q in s.stamp && p in s.stamp && s.stamp[p] <= s.stamp[q]
  {
    assert SlotOk(s, i);
    var p := s.slots[i].queue[0];
    UnqueuedOk(s, p, WakeGranted);
    WithoutHead(s.slots[i].queue, s.stamp, s.clock);
    forall q | q in s.slots[i].queue ensures s.stamp[p] <= s.stamp[q] {
      HeadIsFirst(s.slots[i].queue, s.stamp, s.clock, q);
    }
    var u, t := Unqueued(s, p, WakeGranted), HandedOn(s, i);
    assert SlotOk(u, i);
    EntryOk(u, t, i);
  }

  lemma ResetOk(s: State, i: nat)
    requires Inv(s) && i < NSEMA && s.slots[i].queue == [] && s.slots[i].generation < GEN_LIMIT
    ensures Inv(Reset(s, i)) && GenerationsGrow(s, Reset(s, i))
    ensures Reset(s, i).slots[i].generation == s.slots[i].generation + 1
  {
    assert SlotOk(s, i);
    EntryOk(s, Reset(s, i), i);
  }

  lemma MadeOk(s: State, i: nat, value: nat)
    requires Inv(s) && i < NSEMA && !s.slots[i].used && value <= INT_MAX
    ensures Inv(Made(s, i, value)) && GenerationsGrow(s, Made(s, i, value))
  {
    assert SlotOk(s, i);
    EntryOk(s, Made(s, i, value), i);
  }

  lemma TakenOk(s: State, i: nat)
    requires Inv(s) && i < NSEMA && s.slots[i].value > 0
    ensures Inv(Taken(s, i)) && GenerationsGrow(s, Taken(s, i))
  {
    assert SlotOk(s, i);
    EntryOk(s, Taken(s, i), i);
  }

  lemma PostedOk(s: State, i: nat)
    requires Inv(s) && i < NSEMA && s.slots[i].used && s.slots[i].queue == [] && s.slots[i].value < INT_MAX
    ensures Inv(Posted(s, i)) && GenerationsGrow(s, Posted(s, i))
  {
    assert SlotOk(s, i);
    EntryOk(s, Posted(s, i), i);
  }

  // --------------------------------------------------------- the manager

  /** Init took slot i, the lowest free one, for a semaphore with this value and nobody
      waiting, and hands out id. */
  ghost predicate MadeAs(s: State, t: State, i: nat, value: nat, id: int) {
    && i < |s.slots| == |s.ledger| == NSEMA && !s.slots[i].used && (forall j: nat :: j < i ==> s.slots[j].used)
    && |t.slots| == NSEMA && t.slots == s.slots[i := Sem(true, value, s.slots[i].generation, [])]
    && t.ledger == s.ledger[i := Ledger(value, 0, 0)] && t == s.(slots := t.slots, ledger := t.ledger)
    && if s.slots[i].generation < GEN_LIMIT then Lookup(t, id) == Some(i) else id < 0
  }

  /** Every token is accounted for, and none lies unused while someone waits. */
  lemma TokensConserved(s: State, i: nat)
    requires Inv(s) && i < NSEMA && s.slots[i].used
    ensures s.slots[i].value + s.ledger[i].grants == s.ledger[i].initial + s.ledger[i].posts
    ensures s.slots[i].value > 0 ==> s.slots[i].queue == []
  {
    assert SlotOk(s, i);
  }

  /** p_semWaitSem and the queues say the same. */
  lemma WaitingIsQueued(s: State, p: nat, i: nat)
    requires Inv(s) && i < NSEMA
    ensures p in s.slots[i].queue <==> p in s.waitSem && s.waitSem[p] == i
  {
    assert SlotOk(s, i);
    if p in s.waitSem { assert ProcOk(s, p); }
  }

  datatype Outcome = Interrupted | Invalid | Acquired | Asleep

  /** What one turn of Wait's loop means to the caller: EINVAL exactly for an id that names
      nothing, a token exactly when there is one, and otherwise the last place in the queue. */
  ghost predicate WaitMeans(s: State, t: State, pid: nat, id: int, isSig: bool, r: Outcome)
    requires |s.slots| == NSEMA == |s.ledger|
  {
    var at := Lookup(s, id);
    && (r == Interrupted <==> isSig)
    && (r == Invalid <==> !isSig && at.None?)
    && (r == Acquired <==> !isSig && at.Some? && s.slots[at.value].value > 0)
    && match r
       case Acquired =>
         && t.slots == s.slots[at.value := s.slots[at.value].(value := s.slots[at.value].value - 1)]
         && t.ledger == s.ledger[at.value := s.ledger[at.value].(grants := s.ledger[at.value].grants + 1)]
         && t.waitSem == s.waitSem && t.asleep == s.asleep && s.slots[at.value].queue == []
       case Asleep =>
         && t.slots == s.slots[at.value := s.slots[at.value].(queue := s.slots[at.value].queue + [pid])]
         && t.ledger == s.ledger && t.waitSem == s.waitSem[pid := at.value] && t.asleep == s.asleep + {pid}
       case _ => t == s
  }

  /** One turn of Wait's loop: a signal, an id that names nothing, a token if there is one, or
      the end of the queue. */
  function WaitResult(s: State, id: int, isSig: bool): Outcome
    requires |s.slots| == NSEMA
  {
    var at := Lookup(s, id);
    if isSig then Interrupted
    else if at.None? then Invalid
    else if s.slots[at.value].value > 0 then Acquired
    else Asleep
  }

  function Waited(s: State, pid: nat, id: int, isSig: bool): State
    requires |s.slots| == NSEMA == |s.ledger|
  {
    var at := Lookup(s, id);
    match WaitResult(s, id, isSig)
    case Acquired => Taken(s, at.value).(reason := s.reason[pid := WakeNone])
    case Asleep => Queued(s, at.value, pid)
    case _ => s
  }

  /** Wait from the return of its sleep, with what the wake-up left as the reason. */
  function ResumeResult(s: State, pid: nat, id: int, isSig: bool): Outcome
    requires |s.slots| == NSEMA && pid in s.reason
  {
    if isSig then Interrupted
    else match s.reason[pid]
      case WakeNone => WaitResult(s, id, false)
      case WakeGranted => Acquired
      case WakeDestroyed => Invalid
  }

  function Resumed(s: State, pid: nat, id: int, isSig: bool): State
    requires |s.slots| == NSEMA == |s.ledger| && pid in s.reason
  {
    if isSig then s
    else if s.reason[pid] == WakeNone then Waited(s, pid, id, false)
    else s.(reason := s.reason[pid := WakeNone])
  }

  // ------------------------------------------------------------- destroy

  /** The first k waiters of slot i have been woken by a destroy. */
  function Drained(s: State, i: nat, k: nat): State
    requires i < |s.slots| && k <= |s.slots[i].queue|
  {
    var q := s.slots[i].queue;
    var gone := Members(q[..k]);
    s.(slots := s.slots[i := s.slots[i].(queue := q[k..])], waitSem := s.waitSem - gone,
       reason := WithReason(s.reason, gone), asleep := s.asleep - gone)
  }

  function WithReason(reason: map<nat, Reason>, gone: set<nat>): map<nat, Reason> {
    reason + map p | p in gone :: WakeDestroyed
  }

  function Members(q: seq<nat>): set<nat> {
    set p | p in q
  }

  function Destroyed(s: State, i: nat): State
    requires i < |s.slots|
  {
    Reset(Drained(s, i, |s.slots[i].queue|), i)
  }

  lemma DrainedNothing(s: State, i: nat)
    requires i < |s.slots|
    ensures Drained(s, i, 0) == s
  {
    assert Drained(s, i, 0).reason == s.reason;
  }

  /** The next waiter is woken. */
  lemma DrainStep(s: State, i: nat, k: nat)
    requires Inv(s) && i < NSEMA && k < |s.slots[i].queue| && Inv(Drained(s, i, k))
    ensures var p := s.slots[i].queue[k]; var t := Drained(s, i, k);
            && t.slots[i].queue != [] && t.slots[i].queue[0] == p && p in t.waitSem && t.waitSem[p] == i
            && Unqueued(t, p, WakeDestroyed) == Drained(s, i, k + 1)
            && Inv(Drained(s, i, k + 1)) && GenerationsGrow(s, Drained(s, i, k + 1))
  {
    var q, t := s.slots[i].queue, Drained(s, i, k);
    assert SlotOk(s, i) && SlotOk(t, i);
    WithoutHead(t.slots[i].queue, t.stamp, t.clock);
    UnqueuedOk(t, q[k], WakeDestroyed);
    assert q[k..][1..] == q[k + 1..];
    DrainedNext(s, i, k);
  }

  lemma DrainedNext(s: State, i: nat, k: nat)
    requires i < |s.slots| && k < |s.slots[i].queue|
    requires var q := s.slots[i].queue; Without(q[k..], q[k]) == q[k + 1..]
    requires var t, p := Drained(s, i, k), s.slots[i].queue[k]; p in t.waitSem && t.waitSem[p] == i
    ensures Unqueued(Drained(s, i, k), s.slots[i].queue[k], WakeDestroyed) == Drained(s, i, k + 1)
  {
    var q := s.slots[i].queue;
    var u, w := Unqueued(Drained(s, i, k), q[k], WakeDestroyed), Drained(s, i, k + 1);
    MembersNext(q, k);
    ReasonNext(s.reason, Members(q[..k]), q[k]);
    assert u.slots == w.slots;
    assert u.waitSem == w.waitSem;
  }

  lemma MembersNext(q: seq<nat>, k: nat)
    requires k < |q|
    ensures Members(q[..k + 1]) == Members(q[..k]) + {q[k]}
  {
    assert q[..k + 1] == q[..k] + [q[k]];
  }

  lemma ReasonNext(reason: map<nat, Reason>, gone: set<nat>, p: nat)
    ensures WithReason(reason, gone)[p := WakeDestroyed] == WithReason(reason, gone + {p})
  {
  }

  lemma {:induction false} DrainedOk(s: State, i: nat, k: nat)
    requires Inv(s) && i < NSEMA && k <= |s.slots[i].queue|
    ensures Inv(Drained(s, i, k)) && GenerationsGrow(s, Drained(s, i, k))
  {
    if k == 0 {
      DrainedNothing(s, i);
    } else {
      DrainedOk(s, i, k - 1);
      DrainStep(s, i, k - 1);
    }
  }

  lemma DestroyedOk(s: State, i: nat)
    requires Inv(s) && i < NSEMA && s.slots[i].generation < GEN_LIMIT
    ensures Inv(Destroyed(s, i)) && GenerationsGrow(s, Destroyed(s, i))
    ensures Destroyed(s, i).slots == s.slots[i := Sem(false, 0, s.slots[i].generation + 1, [])]
  {
    DrainedOk(s, i, |s.slots[i].queue|);
    ResetOk(Drained(s, i, |s.slots[i].queue|), i);
  }

  // ----------------------------------------------------------------- runs

  datatype Step =
    | Init(value: int)
    | Wait(pid: nat, id: int, isSig: bool)             // one turn of Wait's loop, up to its sleep
    | Resume(pid: nat, id: int, isSig: bool)           // Wait from the return of its sleep
    | Post(id: int)
    | Destroy(id: int)
    | Interrupt(pid: nat)                              // a signal for a waiter

  /** Init takes the lowest free slot. */
  ghost predicate Inits(s: State, t: State, value: int)
    requires |s.slots| == |s.ledger| == NSEMA
  {
    if value < 0 || (forall j: nat :: j < NSEMA ==> s.slots[j].used) then t == s
    else
      exists i: nat ::
        && i < NSEMA && !s.slots[i].used && (forall j: nat :: j < i ==> s.slots[j].used)
        && t == Made(s, i, value)
  }

  /** Post: to the head of the queue, or to the value unless it would overflow. */
  function PostTo(s: State, i: nat): State
    requires i < |s.slots| == |s.ledger|
    requires s.slots[i].queue != [] ==> s.slots[i].queue[0] in s.waitSem && s.waitSem[s.slots[i].queue[0]] < |s.slots|
  {
    if s.slots[i].queue != [] then HandedOn(s, i)
    else if s.slots[i].value == INT_MAX then s
    else Posted(s, i)
  }

  ghost predicate Stepped(s: State, t: State, step: Step) {
    && Inv(s)
    && match step
       case Init(value) => value <= INT_MAX && Inits(s, t, value)
       case Wait(pid, id, isSig) => pid !in s.waitSem && t == Waited(s, pid, id, isSig)
       case Resume(pid, id, isSig) =>
         pid !in s.waitSem && pid in s.reason && t == Resumed(s, pid, id, isSig)
       case Post(id) =>
         var at := Lookup(s, id);
         if at.None? then t == s
         else if SlotOk(s, at.value) then t == PostTo(s, at.value) else false
       case Destroy(id) =>
         id <= INT_MAX && t == if Lookup(s, id).None? then s else Destroyed(s, Lookup(s, id).value)
       case Interrupt(pid) =>
         if pid !in s.waitSem then t == s else if ProcOk(s, pid) then t == Unqueued(s, pid, WakeNone) else false
  }

  /** A token lies only where nobody waits. */
  lemma WaitedOk(s: State, pid: nat, id: int, isSig: bool)
    requires Inv(s) && pid !in s.waitSem
    ensures Inv(Waited(s, pid, id, isSig)) && GenerationsGrow(s, Waited(s, pid, id, isSig))
    ensures WaitResult(s, id, isSig) == Acquired ==> s.slots[Lookup(s, id).value].queue == []
  {
    var at := Lookup(s, id);
    if !isSig && at.Some? {
      assert SlotOk(s, at.value);
      if s.slots[at.value].value > 0 {
        TakenOk(s, at.value);
        ReasonOk(Taken(s, at.value), pid, WakeNone);
      } else {
        QueuedOk(s, at.value, pid);
      }
    }
  }

  lemma PostOk(s: State, id: int)
    requires Inv(s) && Lookup(s, id).Some?
    ensures var i := Lookup(s, id).value;
            SlotOk(s, i) && (s.slots[i].queue != [] ==>
              s.slots[i].queue[0] in s.waitSem && s.waitSem[s.slots[i].queue[0]] < |s.slots|)
            && Inv(PostTo(s, i)) && GenerationsGrow(s, PostTo(s, i))
  {
    var i := Lookup(s, id).value;
    assert SlotOk(s, i);
    if s.slots[i].queue != [] {
      HandedOnOk(s, i);
    } else if s.slots[i].value < INT_MAX {
      PostedOk(s, i);
    }
  }

  /** Every step keeps the invariant, and no generation ever goes back. */
  lemma SteppedOk(s: State, t: State, step: Step)
    requires Stepped(s, t, step)
    ensures Inv(t) && GenerationsGrow(s, t)
  {
    match step
    case Init(value) =>
      if t != s {
        var i: nat :| i < NSEMA && !s.slots[i].used && t == Made(s, i, value);
        MadeOk(s, i, value);
      }
    case Wait(pid, id, isSig) =>
      WaitedOk(s, pid, id, isSig);
    case Resume(pid, id, isSig) =>
      if !isSig && s.reason[pid] == WakeNone { WaitedOk(s, pid, id, false); } else { ReasonOk(s, pid, WakeNone); }
    case Post(id) =>
      if Lookup(s, id).Some? { PostOk(s, id); }
    case Destroy(id) =>
      if Lookup(s, id).Some? {
        EncodeOfDecode(id);
        DestroyedOk(s, Lookup(s, id).value);
      }
    case Interrupt(pid) =>
      if pid in s.waitSem { UnqueuedOk(s, pid, WakeNone); }
  }

  /** A set of states that no step leaves. */
  ghost predicate Closure(states: iset<State>) {
    forall s, t, step {:trigger Stepped(s, t, step)} :: s in states && Stepped(s, t, step) ==> t in states
  }

  /** t comes after s in some run of steps. */
  ghost predicate Reaches(s: State, t: State) {
    forall states {:trigger Closure(states)} :: Closure(states) && s in states ==> t in states
  }

  /** In any run every token stays accounted for, and none lies unused while someone waits. */
  lemma TokensOverAnyRun(s: State, t: State, i: nat)
    requires Inv(s) && Reaches(s, t) && i < NSEMA
    ensures Inv(t)
    ensures t.slots[i].used ==> t.slots[i].value + t.ledger[i].grants == t.ledger[i].initial + t.ledger[i].posts
    ensures t.slots[i].value > 0 ==> t.slots[i].queue == []
  {
    var good := iset x: State | Inv(x);
    forall x, y, step | x in good && Stepped(x, y, step) ensures y in good { SteppedOk(x, y, step); }
    assert Closure(good);
    assert SlotOk(t, i);
  }

  /** The id of a destroyed semaphore never becomes valid again, however often slots are
      destroyed and reused. */
  lemma StaleOverAnyRun(s: State, t: State, id: int)
    requires Inv(s) && Reaches(s, t) && Stale(s, id)
    ensures |t.slots| == NSEMA && Stale(t, id) && Lookup(t, id) == None
  {
    var good := iset x: State | Inv(x) && Stale(x, id);
    forall x, y, step | x in good && Stepped(x, y, step) ensures y in good {
      SteppedOk(x, y, step);
      StaleForever(x, y, id);
    }
    assert Closure(good);
    assert t in good;
  }

  // ---------------------------------------------------------------- order

  /** Process p is in the queue of slot i since the moment c. */
  ghost predicate WaitsSince(s: State, p: nat, i: nat, c: nat) {
    p in s.waitSem && s.waitSem[p] == i && p in s.stamp && s.stamp[p] == c
  }

  /** While p waits since c, no q that came to the same queue at d got a token there: at d, or
      not any more at d. */
  ghost predicate InOrder(s: State, p: nat, q: nat, i: nat, c: nat, d: nat) {
    && Inv(s) && c < d < s.clock
    && (p in s.waitSem && p in s.stamp && s.stamp[p] == c ==> s.waitSem[p] == i)
    && (q in s.waitSem && q in s.stamp && s.stamp[q] == d ==> s.waitSem[q] == i)
    && (WaitsSince(s, p, i, c) && q in s.stamp && s.stamp[q] == d && q in s.reason ==> s.reason[q] != WakeGranted)
  }

  lemma OrderKept(s: State, t: State, step: Step, p: nat, q: nat, i: nat, c: nat, d: nat)
    requires InOrder(s, p, q, i, c, d) && Stepped(s, t, step) && p != q
    ensures InOrder(t, p, q, i, c, d)
  {
    SteppedOk(s, t, step);
    match step
    case Init(value) =>
    case Wait(pid, id, isSig) => OrderOfWait(s, pid, id, isSig, p, q, i, c, d);
    case Resume(pid, id, isSig) =>
      if !isSig && s.reason[pid] == WakeNone { OrderOfWait(s, pid, id, false, p, q, i, c, d); }
    case Post(id) => if Lookup(s, id).Some? { OrderOfPost(s, id, p, q, i, c, d); }
    case Destroy(id) => if Lookup(s, id).Some? { OrderOfDestroy(s, id, p, q, i, c, d); }
    case Interrupt(pid) =>
  }

  lemma OrderOfWait(s: State, pid: nat, id: int, isSig: bool, p: nat, q: nat, i: nat, c: nat, d: nat)
    requires InOrder(s, p, q, i, c, d) && p != q && pid !in s.waitSem
    ensures InOrder(Waited(s, pid, id, isSig), p, q, i, c, d)
  {
    WaitedOk(s, pid, id, isSig);
  }

  lemma OrderOfDestroy(s: State, id: int, p: nat, q: nat, i: nat, c: nat, d: nat)
    requires InOrder(s, p, q, i, c, d) && Lookup(s, id).Some? && p != q && Inv(Destroyed(s, Lookup(s, id).value))
    ensures InOrder(Destroyed(s, Lookup(s, id).value), p, q, i, c, d)
  {
  }

  lemma OrderOfPost(s: State, id: int, p: nat, q: nat, i: nat, c: nat, d: nat)
    requires InOrder(s, p, q, i, c, d) && Lookup(s, id).Some? && p != q
    ensures SlotOk(s, Lookup(s, id).value)
    ensures InOrder(PostTo(s, Lookup(s, id).value), p, q, i, c, d)
  {
    PostOk(s, id);
    var j := Lookup(s, id).value;
    if s.slots[j].queue != [] {
      HandedOnOk(s, j);
      if p in s.waitSem { assert ProcOk(s, p); }
    }
  }

  /** Nobody is overtaken: in no run does a process that came to a queue later get a token
      there while one that came before it is still waiting. */
  lemma NoOvertaking(s: State, t: State, p: nat, q: nat, i: nat)
    requires Inv(s) && Reaches(s, t) && i < NSEMA && p in s.slots[i].queue && q in s.slots[i].queue
    requires p in s.stamp && q in s.stamp && s.stamp[p] < s.stamp[q]
    requires WaitsSince(t, p, i, s.stamp[p]) && q in t.stamp && t.stamp[q] == s.stamp[q] && q in t.reason
    ensures t.reason[q] != WakeGranted
  {
    var c, d := s.stamp[p], s.stamp[q];
    var good := iset x: State | InOrder(x, p, q, i, c, d);
    forall x, y, step | x in good && Stepped(x, y, step) ensures y in good { OrderKept(x, y, step, p, q, i, c, d); }
    assert Closure(good);
    assert SlotOk(s, i) && ProcOk(s, p) && ProcOk(s, q);
    assert InOrder(s, p, q, i, c, d);
    assert t in good;
  }

  class SemaphoreManager {
    var m_Semaphores: seq<Sem>
    var p_semWaitSem: map<nat, nat>
    var p_semWakeReason: map<nat, Reason>
    var asleep: set<nat>
    ghost var ledger: seq<Ledger>
    ghost var stamp: map<nat, nat>
    ghost var clock: nat

    ghost function Now(): State
      reads this
    {
      State(m_Semaphores, p_semWaitSem, p_semWakeReason, asleep, ledger, stamp, clock)
    }

    /** Initialize: every slot free, at generation 1. */
    constructor ()
      ensures Inv(Now()) && forall i :: 0 <= i < NSEMA ==> m_Semaphores[i] == Sem(false, 0, 1, [])
    {
      m_Semaphores := seq(NSEMA, _ => Sem(false, 0, 1, []));
      p_semWaitSem, p_semWakeReason, asleep := map[], map[], {};
      ledger, stamp, clock := seq(NSEMA, _ => Ledger(0, 0, 0)), map[], 0;
    }

    method FindFreeSlot() returns (r: Option<nat>)
      requires |m_Semaphores| == NSEMA
      ensures r.Some? ==> r.value < NSEMA && !m_Semaphores[r.value].used && forall j: nat :: j < r.value ==>
              m_Semaphores[j].used
      ensures r.None? ==> forall j: nat :: j < NSEMA ==> m_Semaphores[j].used
    {
      for i := 0 to NSEMA
        invariant forall j: nat :: j < i ==> m_Semaphores[j].used
      {
        if !m_Semaphores[i].used {
          return Some(i);
        }
      }
      return None;
    }

    method Find(id: int) returns (r: Option<nat>)
      requires |m_Semaphores| == NSEMA
      ensures r == Lookup(Now(), id)
    {
      var d := DecodeId(id);
      if d.None? {
        return None;
      }
      var (slot, generation) := d.value;
      if !m_Semaphores[slot].used || m_Semaphores[slot].generation != generation {
        return None;
      }
      return Some(slot);
    }

    /** A new semaphore; None is EINVAL for a negative value and ENOSPC for a full table.
        The id finds it, unless the slot has run out of generations: then it is negative. */
    method Init(value: int) returns (r: Option<int>)
      requires Inv(Now()) && value <= INT_MAX
      modifies this
      ensures Inv(Now()) && Stepped(old(Now()), Now(), Step.Init(value))
      ensures r.None? ==> Now() == old(Now()) && (value < 0 || forall j: nat :: j < NSEMA ==> m_Semaphores[j].used)
      ensures r.Some? ==> value >= 0 && exists i: nat :: MadeAs(old(Now()), Now(), i, value, r.value)
    {
      if value < 0 {
        return None;
      }
      var slot := FindFreeSlot();
      if slot.None? {
        return None;
      }
      ghost var s := Now();
      var i := slot.value;
      assert SlotOk(s, i);
      MadeOk(s, i, value);
      m_Semaphores := m_Semaphores[i := m_Semaphores[i].(used := true, value := value, queue := [])];
      ledger := ledger[i := Ledger(value, 0, 0)];
      DecodeOfEncode(i, m_Semaphores[i].generation);
      r := Some(EncodeId(i, m_Semaphores[i].generation));
      assert MadeAs(s, Now(), i, value, r.value);
    }

    /** One turn of Wait's loop up to its sleep; isSig is what IsSig finds. A caller takes
        a token only if nobody is queued before it. */
    method WaitLoop(pid: nat, id: int, isSig: bool) returns (r: Outcome)
      requires Inv(Now()) && pid !in p_semWaitSem
      modifies this
      ensures Inv(Now()) && r == WaitResult(old(Now()), id, isSig) && Now() == Waited(old(Now()), pid, id, isSig)
      ensures Stepped(old(Now()), Now(), Wait(pid, id, isSig)) && WaitMeans(old(Now()), Now(), pid, id, isSig, r)
    {
      WaitedOk(Now(), pid, id, isSig);
      if isSig {
        return Interrupted;
      }
      var at := Find(id);
      ghost var s := Now();
      if at.None? {
        return Invalid;
      }
      var i := at.value;
      assert SlotOk(s, i);
      if m_Semaphores[i].value > 0 && m_Semaphores[i].queue == [] {
        TakeToken(i, pid);
        return Acquired;
      }
      Enqueue(i, pid);
      return Asleep;
    }

    method TakeToken(i: nat, pid: nat)
      requires i < |m_Semaphores| == |ledger| && m_Semaphores[i].value > 0
      modifies this`m_Semaphores, this`ledger, this`p_semWakeReason
      ensures Now() == Taken(old(Now()), i).(reason := old(p_semWakeReason)[pid := WakeNone])
    {
      m_Semaphores := m_Semaphores[i := m_Semaphores[i].(value := m_Semaphores[i].value - 1)];
      ledger := ledger[i := ledger[i].(grants := ledger[i].grants + 1)];
      p_semWakeReason := p_semWakeReason[pid := WakeNone];
    }

    method Enqueue(i: nat, pid: nat)
      requires i < |m_Semaphores|
      modifies this
      ensures Now() == Queued(old(Now()), i, pid)
    {
      p_semWaitSem := p_semWaitSem[pid := i];
      p_semWakeReason := p_semWakeReason[pid := WakeNone];
      m_Semaphores := m_Semaphores[i := m_Semaphores[i].(queue := m_Semaphores[i].queue + [pid])];
      asleep := asleep + {pid};
      stamp, clock := stamp[pid := clock], clock + 1;
    }

    /** Wait from the return of its sleep. A signal that comes between a grant and this
        point ends the wait, and the token granted is gone: nothing gives it back. */
    method Resume(pid: nat, id: int, isSig: bool) returns (r: Outcome)
      requires Inv(Now()) && pid !in p_semWaitSem && pid in p_semWakeReason
      modifies this
      ensures Inv(Now()) && r == ResumeResult(old(Now()), pid, id, isSig)
      ensures Now() == Resumed(old(Now()), pid, id, isSig)
      ensures Stepped(old(Now()), Now(), Step.Resume(pid, id, isSig))
      ensures isSig ==> r == Interrupted && Now() == old(Now())
      ensures !isSig && old(p_semWakeReason)[pid] == WakeNone ==>
                WaitMeans(old(Now()), Now(), pid, id, false, r)
      ensures !isSig && old(p_semWakeReason)[pid] != WakeNone ==>
                && r == (if old(p_semWakeReason)[pid] == WakeGranted then Acquired else Invalid)
                && m_Semaphores == old(m_Semaphores) && ledger == old(ledger)
                && p_semWaitSem == old(p_semWaitSem) && asleep == old(asleep)
    {
      if isSig {
        return Interrupted;
      }
      if p_semWakeReason[pid] == WakeNone {
        r := WaitLoop(pid, id, false);
        return;
      }
      r := if p_semWakeReason[pid] == WakeGranted then Acquired else Invalid;
      ReasonOk(Now(), pid, WakeNone);
      p_semWakeReason := p_semWakeReason[pid := WakeNone];
    }

    /** WakeProcess, and InterruptWait with reason WakeNone. */
    method WakeProcess(pid: nat, why: Reason)
      requires pid in p_semWaitSem && p_semWaitSem[pid] < |m_Semaphores|
      modifies this`m_Semaphores, this`p_semWaitSem, this`p_semWakeReason, this`asleep
      ensures Now() == Unqueued(old(Now()), pid, why)
    {
      var i := p_semWaitSem[pid];
      m_Semaphores := m_Semaphores[i := m_Semaphores[i].(queue := Without(m_Semaphores[i].queue, pid))];
      p_semWaitSem := p_semWaitSem - {pid};
      p_semWakeReason := p_semWakeReason[pid := why];
      asleep := asleep - {pid};
    }

    /** A token for the process that has waited longest, or for the value when nobody
        waits. False: EINVAL, for a bad id or a value that would overflow. */
    method Post(id: int) returns (ok: bool)
      requires Inv(Now())
      modifies this
      ensures Inv(Now()) && Stepped(old(Now()), Now(), Step.Post(id))
      ensures var s := old(Now()); var at := Lookup(s, id);
              if at.None? then !ok && Now() == s
              else
                var i := at.value; var q := s.slots[i].queue;
                if q != [] then
                  && ok && q[0] in s.waitSem && s.waitSem[q[0]] == i && |s.ledger| == NSEMA && Now() == HandedOn(s, i)
                  && m_Semaphores == s.slots[i := s.slots[i].(queue := q[1..])] && asleep == s.asleep - {q[0]}
                  && p_semWaitSem == s.waitSem - {q[0]} && p_semWakeReason == s.reason[q[0] := WakeGranted]
                  && ledger == s.ledger[i := Ledger(s.ledger[i].initial, s.ledger[i].posts + 1, s.ledger[i].grants + 1)]
                  && (forall p :: p in q ==> p in s.stamp && q[0] in s.stamp && s.stamp[q[0]] <= s.stamp[p])
                else if s.slots[i].value == INT_MAX then !ok && Now() == s
                else
                  && ok && |s.ledger| == NSEMA && Now() == Posted(s, i)
                  && m_Semaphores == s.slots[i := s.slots[i].(value := s.slots[i].value + 1)]
                  && ledger == s.ledger[i := s.ledger[i].(posts := s.ledger[i].posts + 1)] && asleep == s.asleep
    {
      var at := Find(id);
      if at.None? {
        return false;
      }
      ghost var s := Now();
      var i := at.value;
      assert SlotOk(s, i);
      if m_Semaphores[i].queue != [] {
        HandedOnOk(s, i);
        WakeProcess(m_Semaphores[i].queue[0], WakeGranted);
        ledger := ledger[i := ledger[i].(posts := ledger[i].posts + 1, grants := ledger[i].grants + 1)];
        return true;
      }
      if m_Semaphores[i].value == INT_MAX {
        return false;
      }
      PostedOk(s, i);
      m_Semaphores := m_Semaphores[i := m_Semaphores[i].(value := m_Semaphores[i].value + 1)];
      ledger := ledger[i := ledger[i].(posts := ledger[i].posts + 1)];
      return true;
    }

    /** Destroy's loop: every waiter is woken with reason destroyed. */
    method WakeAllDestroyed(i: nat)
      requires Inv(Now()) && i < NSEMA
      modifies this`m_Semaphores, this`p_semWaitSem, this`p_semWakeReason, this`asleep
      ensures Inv(Now()) && Now() == Drained(old(Now()), i, |old(m_Semaphores)[i].queue|)
    {
      ghost var s := Now();
      ghost var k: nat := 0;
      DrainedNothing(s, i);
      while m_Semaphores[i].queue != []
        invariant k <= |s.slots[i].queue| && Inv(Now()) && Now() == Drained(s, i, k)
        decreases |s.slots[i].queue| - k
      {
        DrainStep(s, i, k);
        WakeProcess(m_Semaphores[i].queue[0], WakeDestroyed);
        k := k + 1;
      }
    }

    /** The semaphore goes, its waiters are woken, and its id is stale from here on. */
    method Destroy(id: int) returns (ok: bool)
      requires Inv(Now()) && id <= INT_MAX
      modifies this
      ensures Inv(Now()) && Stepped(old(Now()), Now(), Step.Destroy(id))
      ensures ok <==> Lookup(old(Now()), id).Some?
      ensures !ok ==> Now() == old(Now())
      ensures ok ==>
                && Stale(Now(), id) && Lookup(Now(), id) == None
                && var i := Lookup(old(Now()), id).value;
                   && m_Semaphores == old(m_Semaphores)[i := Sem(false, 0, old(m_Semaphores)[i].generation + 1, [])]
                   && forall p :: p in old(m_Semaphores)[i].queue ==>
                     p in p_semWakeReason && p_semWakeReason[p] == WakeDestroyed && p !in asleep && p !in p_semWaitSem
      ensures ok ==> forall p :: p !in old(m_Semaphores)[Lookup(old(Now()), id).value].queue ==>
                (p in asleep <==> p in old(asleep)) && (p in p_semWaitSem <==> p in old(p_semWaitSem))
    {
      var at := Find(id);
      if at.None? {
        return false;
      }
      ghost var s := Now();
      var i := at.value;
      EncodeOfDecode(id);
      DestroyedOk(s, i);
      WakeAllDestroyed(i);
      var g := (m_Semaphores[i].generation + 1) % WORD;
      m_Semaphores := m_Semaphores[i := Sem(false, 0, if g == 0 then 1 else g, [])];
      return true;
    }

    /** PSignal's InterruptWait: the process leaves its queue without a token. */
    method InterruptWait(pid: nat)
      requires Inv(Now())
      modifies this
      ensures Inv(Now()) && Stepped(old(Now()), Now(), Step.Interrupt(pid)) && ledger == old(ledger)
      ensures pid !in old(p_semWaitSem) ==> Now() == old(Now())
      ensures pid in old(p_semWaitSem) ==>
                && old(p_semWaitSem)[pid] < |old(m_Semaphores)| && Now() == Unqueued(old(Now()), pid, WakeNone)
                && p_semWaitSem == old(p_semWaitSem) - {pid} && asleep == old(asleep) - {pid}
                && p_semWakeReason == old(p_semWakeReason)[pid := WakeNone]
      ensures |m_Semaphores| == NSEMA && forall j, p :: 0 <= j < NSEMA && p != pid ==>
                (p in m_Semaphores[j].queue <==> p in old(m_Semaphores)[j].queue)
      ensures forall j :: 0 <= j < NSEMA ==> m_Semaphores[j] == old(m_Semaphores)[j].(queue := m_Semaphores[j].queue)
    {
      if pid in p_semWaitSem {
        UnqueuedOk(Now(), pid, WakeNone);
        WakeProcess(pid, WakeNone);
      }
    }
  }

  lemma ReasonOk(s: State, p: nat, why: Reason)
    requires Inv(s) && p !in s.waitSem
    ensures Inv(s.(reason := s.reason[p := why]))
  {
    var t := s.(reason := s.reason[p := why]);
    forall i: nat | i < NSEMA ensures SlotOk(t, i) { assert SlotOk(s, i); }
    forall q | q in t.waitSem ensures ProcOk(t, q) { assert ProcOk(s, q); }
  }
}
