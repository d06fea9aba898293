/** The disk image tool's half of the free-block chain (FileSystemAdapter): a chain it
    builds is the chain the kernel reads. */
module ImageTool {
  import opened Common
  import opened DiskBlocks
  import opened FreeChain
  import opened VolumeState
  import opened VolumeSteps

  /** The data zone from its last block down to block lo: what the format loop frees. */
  function ZoneDown(lo: nat): (s: seq<nat>)
    requires ZONE_START <= lo <= ZONE_END
    ensures |s| == ZONE_END - lo
    ensures forall i :: 0 <= i < |s| ==> s[i] == ZONE_END - 1 - i
  {
    seq(ZONE_END - lo, i requires 0 <= i < ZONE_END - lo => ZONE_END - 1 - i)
  }

  class FileSystemAdapter {
    var s_nfree: nat
    var s_free: seq<nat>
    var disk: seq<Block>
    ghost var stack: seq<nat>

    ghost function Table(): Super
      reads this
    {
      Super(s_nfree, s_free)
    }

    ghost function State(): Vol
      reads this
    {
      Vol(Table(), disk, stack, map[], map[])
    }

    ghost predicate Valid()
      reads this
    {
      |disk| == NSECTOR && Chained(State()) && StackOk(stack)
    }

    /** freeBlock. A full table is written through a local block of which only the first
        404 bytes are set; `rest` is whatever the others hold. */
    method FreeBlock(idx: nat, rest: Block)
      requires Valid() && InZone(idx) && idx !in stack
      modifies this
      ensures Valid() && stack == old(stack) + [idx] && s_nfree >= 1
      ensures Table() == Push(old(Table()), idx).0
      ensures |disk| == |old(disk)| && disk == old(disk)[idx := disk[idx]]
      ensures old(s_nfree) < GROUP ==> disk == old(disk)
      ensures old(s_nfree) == GROUP ==> LoadSuper(disk[idx]) == old(Table())
    {
      ghost var v := State();
      if s_nfree == 0 {
        s_free := s_free[0 := 0];
        s_nfree := 1;
      }
      if s_nfree < GROUP {
        s_free := s_free[s_nfree := idx];
        s_nfree := s_nfree + 1;
      } else {
        GroupRoundTrip(rest, s_nfree, s_free);
        disk := disk[idx := WithGroup(rest, s_nfree, s_free)];
        s_nfree := 1;
        s_free := s_free[0 := idx];
      }
      stack := stack + [idx];
      FreedChain(v, State(), idx);
    }

    /** getFreeBlock hands out the block the kernel's Alloc would, and leaves the same
        table. It only differs on a chain with nothing left but its end mark, where Alloc
        reports ENOSPC: here block 0 is handed out, and read as a table. */
    method GetFreeBlock() returns (ret: int)
      requires Valid()
      modifies this`s_nfree, this`s_free, this`stack
      ensures old(stack) != [] ==>
                && Valid() && stack == old(stack)[..|old(stack)| - 1] && ret == old(stack)[|old(stack)| - 1]
                && TableOk(old(Table())) && 1 <= old(s_nfree) <= GROUP
                && Pop(old(Table()), Tables(disk)) == (Some(ret), Table())
      ensures old(stack) == [] && old(s_nfree) == 0 ==> ret == -1 && Table() == old(Table())
      ensures old(stack) == [] && old(s_nfree) != 0 ==>
                && ret == 0 && Table() == LoadSuper(disk[0])
                && TableOk(old(Table())) && 1 <= old(s_nfree) <= GROUP
                && Pop(old(Table()), Tables(disk)).0 == None
    {
      if s_nfree == 0 {
        ret := -1;
        return;
      }
      TopBlock(State());
      if s_nfree >= 2 {
        s_nfree := s_nfree - 1;
        ret := s_free[s_nfree];
      } else {
        var result := s_free[0];
        s_nfree, s_free := GroupCount(disk[result]), GroupTable(disk[result]);
        ret := result;
      }
      if stack != [] { stack := stack[..|stack| - 1]; }
    }

    /** The loop of format that frees the whole data zone, highest block first. */
    method FreeDataZone(rest: nat -> Block)
      requires s_nfree == 0 && |disk| == NSECTOR && TableOk(Table())
      modifies this
      ensures Valid() && stack == ZoneDown(ZONE_START) && s_nfree >= 1
    {
      stack := [];
      assert Chain(Table(), Tables(disk), []);
      for idx := ZONE_END downto ZONE_START
        invariant Valid() && stack == ZoneDown(idx) && (idx < ZONE_END ==> s_nfree >= 1)
      {
        FreeBlock(idx, rest(idx));
        assert stack == ZoneDown(idx);
      }
    }
  }

  /** What the next block is, and what is left of the chain without it. */
  lemma TopBlock(v: Vol)
    requires Chained(v) && StackOk(v.stack) && v.super.nfree >= 1 && |v.disk| == NSECTOR
    ensures v.super.free[v.super.nfree - 1] < NSECTOR
    ensures v.stack == [] ==> v.super.nfree == 1 && v.super.free[0] == 0 && Pop(v.super, Tables(v.disk)).0 == None
    ensures v.stack != [] ==>
              && Pop(v.super, Tables(v.disk)).0 == Some(v.stack[|v.stack| - 1]) && v.stack[|v.stack| - 1] != 0
              && Chained(v.(super := Pop(v.super, Tables(v.disk)).1, stack := v.stack[..|v.stack| - 1]))
  {
    ChainOf(v);
    PopTakesTop(v.super, Tables(v.disk), v.stack);
    if v.stack != [] { ChainIs(v.(super := Pop(v.super, Tables(v.disk)).1, stack := v.stack[..|v.stack| - 1])); }
  }

  // ----------------------------------------- what the kernel then allocates

  /** One call of Alloc on a super block and a disk: it clears the block it hands out. */
  ghost function AllocOne(s: Super, disk: seq<Block>): (Option<nat>, Super, seq<Block>)
    requires TableOk(s) && 1 <= s.nfree <= GROUP
  {
    var (b, t) := Pop(s, Tables(disk));
    (b, t, if b.Some? && b.value < |disk| then disk[b.value := ZeroBlock()] else disk)
  }

  /** The results of n calls of Alloc in a row, with the super block and disk they leave.
      After ENOSPC it is not called again. */
  ghost function Allocs(s: Super, disk: seq<Block>, n: nat): (seq<Option<nat>>, Super, seq<Block>) {
    if n == 0 then ([], s, disk)
    else
      var (bs, t, d) := Allocs(s, disk, n - 1);
      if !TableOk(t) || !(1 <= t.nfree <= GROUP) then (bs, t, d)
      else
        var (b, u, e) := AllocOne(t, d);
        (bs + [b], u, e)
  }

  function FromTop(stack: seq<nat>, n: nat): (bs: seq<Option<nat>>)
    requires n <= |stack|
    ensures |bs| == n && forall i :: 0 <= i < n ==> bs[i] == Some(stack[|stack| - 1 - i])
  {
    seq(n, i requires 0 <= i < n => Some(stack[|stack| - 1 - i]))
  }

  lemma AllocTakesOne(v: Vol)
    requires Chained(v) && StackOk(v.stack) && v.stack != [] && |v.disk| == NSECTOR
    ensures var w := Take(v);
            && Chained(w) && w.super.nfree >= 1 && w.stack == v.stack[..|v.stack| - 1]
            && AllocOne(v.super, v.disk) == (Some(v.stack[|v.stack| - 1]), w.super, w.disk)
  {
    TakeChain(v);
  }

  /** n calls of Alloc at v hand out the top n blocks of the chain and lead to w. */
  ghost predicate Drained(v: Vol, n: nat, w: Vol) {
    && n <= |v.stack| && Allocs(v.super, v.disk, n) == (FromTop(v.stack, n), w.super, w.disk)
    && Chained(w) && w.stack == v.stack[..|v.stack| - n] && w.super.nfree >= 1 && |w.disk| == NSECTOR
  }

  /** Alloc hands out the chain from its top down. */
  lemma {:induction false} AllocsTakeTheStack(v: Vol, n: nat) returns (w: Vol)
    requires Chained(v) && StackOk(v.stack) && v.super.nfree >= 1 && |v.disk| == NSECTOR && n <= |v.stack|
    ensures Drained(v, n, w)
  {
    if n == 0 {
      assert v.stack[..|v.stack|] == v.stack;
      w := v;
    } else {
      var u := AllocsTakeTheStack(v, n - 1);
      DrainOne(v, u, n);
      w := Take(u);
    }
  }

  lemma DrainOne(v: Vol, u: Vol, n: nat)
    requires StackOk(v.stack) && 1 <= n <= |v.stack| && Drained(v, n - 1, u)
    ensures u.stack != [] && TableOk(u.super) && 1 <= u.super.nfree <= GROUP && u.stack[|u.stack| - 1] < |u.disk|
    ensures Drained(v, n, Take(u))
  {
    AllocTakesOne(u);
    OneMore(v.super, v.disk, n, FromTop(v.stack, n - 1), u.super, u.disk);
    TopDown(v.stack, u.stack, n);
  }

  lemma OneMore(s: Super, disk: seq<Block>, n: nat, bs: seq<Option<nat>>, t: Super, d: seq<Block>)
    requires n >= 1 && Allocs(s, disk, n - 1) == (bs, t, d) && TableOk(t) && 1 <= t.nfree <= GROUP
    ensures Allocs(s, disk, n) == (bs + [AllocOne(t, d).0], AllocOne(t, d).1, AllocOne(t, d).2)
  {
  }

  lemma TopDown(stack: seq<nat>, rest: seq<nat>, n: nat)
    requires 1 <= n <= |stack| && rest == stack[..|stack| - (n - 1)]
    ensures FromTop(stack, n) == FromTop(stack, n - 1) + [Some(rest[|rest| - 1])]
    ensures rest[..|rest| - 1] == stack[..|stack| - n]
  {
  }

  /** On a freshly formatted image the kernel allocates the data zone in ascending order,
      each block once, and then reports ENOSPC. */
  lemma FormattedZoneAscends(v: Vol)
    requires Chained(v) && v.stack == ZoneDown(ZONE_START) && v.super.nfree >= 1 && |v.disk| == NSECTOR
    ensures var bs := Allocs(v.super, v.disk, ZONE_END - ZONE_START + 1).0;
            && |bs| == ZONE_END - ZONE_START + 1
            && (forall i :: 0 <= i < ZONE_END - ZONE_START ==> bs[i] == Some(ZONE_START + i))
            && bs[ZONE_END - ZONE_START] == None
  {
    var w := AllocsTakeTheStack(v, |v.stack|);
    assert w.stack == [];
    TopBlock(w);
  }
}
