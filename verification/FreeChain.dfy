/** The free-block list: a table of up to 100 block numbers in the super block, whose
    entry 0 names the block that holds the next table (0 ends the chain). */
module FreeChain {
  import opened Common
  import opened DiskBlocks

  const NSECTOR: nat := 20160           // ATABlockDevice::NSECTOR
  const ZONE_START: nat := 2000         // DATA_ZONE_START_SECTOR
  const ZONE_END: nat := 18000          // DATA_ZONE_END_SECTOR + 1

  predicate InZone(b: nat) {
    ZONE_START <= b < ZONE_END
  }

  /** The part of the super block that Alloc and Free use. */
  datatype Super = Super(nfree: nat, free: seq<nat>)

  predicate TableOk(s: Super) {
    |s.free| == GROUP && forall i :: 0 <= i < GROUP ==> s.free[i] < WORD_LIMIT
  }

  function LoadSuper(b: Block): Super {
    Super(GroupCount(b), GroupTable(b))
  }

  /** The table each block of the disk would yield if it were a link block. */
  function Tables(disk: seq<Block>): (t: seq<Super>)
    ensures |t| == |disk|
    ensures forall b :: 0 <= b < |disk| ==> t[b] == LoadSuper(disk[b])
  {
    seq(|disk|, b requires 0 <= b < |disk| => LoadSuper(disk[b]))
  }

  /** `stack` lists the free blocks, next one to be allocated last. */
  ghost predicate Chain(s: Super, tables: seq<Super>, stack: seq<nat>)
    decreases |stack|
  {
    && TableOk(s) && s.nfree <= GROUP
    && if s.nfree == 0 then stack == []
       else if s.free[0] == 0 then stack == s.free[1..s.nfree]
       else
         && s.nfree <= |stack| && s.free[0] < |tables|
         && stack[|stack| - s.nfree..] == s.free[..s.nfree]
         && tables[s.free[0]].nfree >= 1
         && Chain(tables[s.free[0]], tables, stack[..|stack| - s.nfree])
  }

  ghost predicate StackOk(stack: seq<nat>) {
    && (forall i :: 0 <= i < |stack| ==> InZone(stack[i]))
    && (forall i, j :: 0 <= i < j < |stack| ==> stack[i] != stack[j])
  }

  /** Only the free blocks themselves carry the chain. */
  lemma {:induction false} ChainFrame(s: Super, tables: seq<Super>, other: seq<Super>, stack: seq<nat>)
    requires Chain(s, tables, stack) && |other| == |tables|
    requires forall i :: 0 <= i < |stack| && stack[i] < |tables| ==> other[stack[i]] == tables[stack[i]]
    ensures Chain(s, other, stack)
    decreases |stack|
  {
    if s.nfree != 0 && s.free[0] != 0 {
      var k := |stack| - s.nfree;
      assert stack[k..][0] == stack[k] == s.free[0];
      ChainFrame(tables[s.free[0]], tables, other, stack[..k]);
    }
  }

  // ----------------------------------------------------------- Alloc, Free

  /** Alloc's effect on the super block; None is ENOSPC. */
  function Pop(s: Super, tables: seq<Super>): (Option<nat>, Super)
    requires TableOk(s) && 1 <= s.nfree <= GROUP
  {
    var b := s.free[s.nfree - 1];
    if b == 0 then (None, s.(nfree := 0))
    else if s.nfree == 1 && b < |tables| then (Some(b), tables[b])
    else (Some(b), s.(nfree := s.nfree - 1))
  }

  lemma PopTakesTop(s: Super, tables: seq<Super>, stack: seq<nat>)
    requires Chain(s, tables, stack) && StackOk(stack) && s.nfree >= 1
    ensures stack == [] ==> Pop(s, tables) == (None, s.(nfree := 0)) && Chain(Pop(s, tables).1, tables, [])
    ensures stack != [] ==>
              var (b, t) := Pop(s, tables); var top := |stack| - 1;
              b == Some(stack[top]) && t.nfree >= 1 && Chain(t, tables, stack[..top])
  {
    if stack != [] {
      var top := |stack| - 1;
      if s.free[0] == 0 {
        assert stack[top] == s.free[1..s.nfree][top];
        assert stack[..top] == s.free[1..s.nfree - 1];
      } else {
        var k := |stack| - s.nfree;
        assert stack[k..][s.nfree - 1] == s.free[..s.nfree][s.nfree - 1];
        if s.nfree >= 2 { ChainShrinks(s, tables, stack); }
      }
    }
  }

  lemma ChainShrinks(s: Super, tables: seq<Super>, stack: seq<nat>)
    requires Chain(s, tables, stack) && s.nfree >= 2 && s.free[0] != 0
    ensures stack != [] && Chain(s.(nfree := s.nfree - 1), tables, stack[..|stack| - 1])
  {
    var t := s.(nfree := s.nfree - 1);
    var rest := stack[..|stack| - 1];
    var k := |stack| - s.nfree;
    assert rest[k..] == t.free[..t.nfree] by {
      assert stack[k..][..t.nfree] == s.free[..s.nfree][..t.nfree];
    }
    assert rest[..k] == stack[..k];
    assert |rest| - t.nfree == k;
  }

  /** Free's effect on the super block; a full table is what the freed block takes over. */
  function Push(s: Super, b: nat): (Super, Option<Super>)
    requires TableOk(s) && s.nfree <= GROUP
  {
    var t := if s.nfree == 0 then Super(1, s.free[0 := 0]) else s;
    if t.nfree >= GROUP then (Super(1, t.free[0 := b]), Some(t))
    else (Super(t.nfree + 1, t.free[t.nfree := b]), None)
  }

  /** The contents the freed block is left with. */
  function Pushed(s: Super, b: nat, block: Block): Block
    requires TableOk(s) && s.nfree <= GROUP
  {
    match Push(s, b).1
    case Some(t) => WithGroup(block, t.nfree, t.free)
    case None => block
  }

  lemma PushedLoads(s: Super, b: nat, block: Block)
    requires TableOk(s) && s.nfree <= GROUP
    ensures LoadSuper(Pushed(s, b, block)) == if s.nfree >= GROUP then s else LoadSuper(block)
  {
    if s.nfree >= GROUP { GroupRoundTrip(block, s.nfree, s.free); }
  }

  lemma PushAddsTop(s: Super, tables: seq<Super>, stack: seq<nat>, b: nat, x: Super)
    requires Chain(s, tables, stack) && StackOk(stack)
    requires b < |tables| && InZone(b) && b !in stack
    requires x == if s.nfree >= GROUP then s else tables[b]
    ensures var t := Push(s, b).0;
            t.nfree >= 1 && Chain(t, tables[b := x], stack + [b]) && StackOk(stack + [b])
  {
    var t := Push(s, b).0;
    var other := tables[b := x];
    ChainFrame(s, tables, other, stack);
    var grown := stack + [b];
    if s.nfree == 0 {
      assert grown == t.free[1..2];
    } else if s.nfree >= GROUP {
      assert grown[..|grown| - 1] == stack;
      assert grown[|grown| - 1..] == [b] == t.free[..1];
    } else if s.free[0] == 0 {
      assert grown == t.free[1..t.nfree];
    } else {
      PushFitsLinked(s, other, stack, b);
    }
  }

  lemma PushFitsLinked(s: Super, tables: seq<Super>, stack: seq<nat>, b: nat)
    requires Chain(s, tables, stack) && 1 <= s.nfree < GROUP && s.free[0] != 0 && b < WORD_LIMIT
    ensures Chain(Super(s.nfree + 1, s.free[s.nfree := b]), tables, stack + [b])
  {
    var t := Super(s.nfree + 1, s.free[s.nfree := b]);
    var grown := stack + [b];
    var k := |stack| - s.nfree;
    assert grown[k..] == t.free[..t.nfree] by {
      assert t.free[..t.nfree] == s.free[..s.nfree] + [b];
      assert grown[k..] == stack[k..] + [b];
    }
    assert grown[..k] == stack[..k];
    assert |grown| - t.nfree == k;
  }

  lemma TablesUpdate(disk: seq<Block>, b: nat, x: Block)
    requires b < |disk|
    ensures Tables(disk[b := x]) == Tables(disk)[b := LoadSuper(x)]
  {
  }

  /** Freeing a block and allocating again gives the same block and the same chain,
      whatever the table held and however full it was. */
  lemma AllocUndoesFree(s: Super, disk: seq<Block>, stack: seq<nat>, b: nat)
    requires Chain(s, Tables(disk), stack) && StackOk(stack)
    requires b < |disk| && InZone(b) && b !in stack
    ensures var t := Push(s, b).0;
            var after := Tables(disk[b := Pushed(s, b, disk[b])]);
            TableOk(t) && 1 <= t.nfree <= GROUP
            && var (c, u) := Pop(t, after);
               && c == Some(b)
               && Chain(u, Tables(disk), stack)
               && (s.nfree >= 1 ==> u.nfree == s.nfree && u.free[..u.nfree] == s.free[..s.nfree])
  {
    var block := Pushed(s, b, disk[b]);
    PushedLoads(s, b, disk[b]);
    TablesUpdate(disk, b, block);
    PushAddsTop(s, Tables(disk), stack, b, LoadSuper(block));
    PopAfterPush(Push(s, b).0, Tables(disk), LoadSuper(block), stack, b);
  }

  lemma PopAfterPush(t: Super, tables: seq<Super>, x: Super, stack: seq<nat>, b: nat)
    requires b < |tables| && t.nfree >= 1 && Chain(t, tables[b := x], stack + [b]) && StackOk(stack + [b])
    ensures var (c, u) := Pop(t, tables[b := x]); c == Some(b) && Chain(u, tables, stack)
  {
    var other := tables[b := x];
    PopTakesTop(t, other, stack + [b]);
    assert (stack + [b])[..|stack|] == stack;
    forall i | 0 <= i < |stack| && stack[i] < |tables| ensures tables[stack[i]] == other[stack[i]] {
      assert (stack + [b])[i] != (stack + [b])[|stack|];
    }
    ChainFrame(Pop(t, other).1, other, tables, stack);
  }
}
