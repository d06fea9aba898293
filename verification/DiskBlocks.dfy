/** A disk block as the kernel sees it: 512 bytes, or 128 little-endian words. */
module DiskBlocks {
  import opened Common

  const BLOCK_SIZE: nat := 512
  const WORDS: nat := 128          // ADDRESS_PER_INDEX_BLOCK
  const WORD_LIMIT: nat := 0x1_0000_0000

  type Block = s: seq<byte> | |s| == BLOCK_SIZE witness seq(BLOCK_SIZE, _ => 0 as byte)

  function Word4(a: byte, b: byte, c: byte, d: byte): (w: nat)
    ensures w < WORD_LIMIT
  {
    a as nat + 0x100 * (b as nat) + 0x1_0000 * (c as nat) + 0x100_0000 * (d as nat)
  }

  function ByteOf(w: nat, i: nat): byte
    requires i < 4
  {
    if i == 0 then (w % 0x100) as byte
    else if i == 1 then (w / 0x100 % 0x100) as byte
    else if i == 2 then (w / 0x1_0000 % 0x100) as byte
    else (w / 0x100_0000 % 0x100) as byte
  }

  lemma WordRoundTrip(w: nat)
    requires w < WORD_LIMIT
    ensures Word4(ByteOf(w, 0), ByteOf(w, 1), ByteOf(w, 2), ByteOf(w, 3)) == w
  {
    var q := w / 0x100;
    var r := q / 0x100;
    assert w / 0x1_0000 == r;
    assert w / 0x100_0000 == r / 0x100 < 0x100;
    assert w == w % 0x100 + 0x100 * q && q == q % 0x100 + 0x100 * r && r == r % 0x100 + 0x100 * (r / 0x100);
  }

  function WordAt(b: Block, i: nat): (w: nat)
    requires i < WORDS
    ensures w < WORD_LIMIT
  {
    Word4(b[4 * i], b[4 * i + 1], b[4 * i + 2], b[4 * i + 3])
  }

  /** The lowest byte comes first. */
  lemma LittleEndian(b: Block, i: nat, k: nat)
    requires i < WORDS && k < 4
    ensures ByteOf(WordAt(b, i), k) == b[4 * i + k]
  {
    ByteOfWord(b[4 * i], b[4 * i + 1], b[4 * i + 2], b[4 * i + 3]);
  }

  lemma ByteOfWord(a: byte, b: byte, c: byte, d: byte)
    ensures var w := Word4(a, b, c, d); ByteOf(w, 0) == a && ByteOf(w, 1) == b && ByteOf(w, 2) == c && ByteOf(w, 3) == d
  {
    var w := Word4(a, b, c, d);
    var q := b as nat + 0x100 * (c as nat + 0x100 * d as nat);
    assert w == a as nat + 0x100 * q;
    assert w / 0x100 == q && w / 0x1_0000 == q / 0x100 && w / 0x100_0000 == q / 0x100 / 0x100;
  }

  /** One word of an index block is replaced. */
  function WithWord(b: Block, i: nat, w: nat): Block
    requires i < WORDS && w < WORD_LIMIT
  {
    b[4 * i := ByteOf(w, 0)][4 * i + 1 := ByteOf(w, 1)][4 * i + 2 := ByteOf(w, 2)][4 * i + 3 := ByteOf(w, 3)]
  }

  lemma WordOfWith(b: Block, i: nat, w: nat, j: nat)
    requires i < WORDS && w < WORD_LIMIT && j < WORDS
    ensures WordAt(WithWord(b, i, w), j) == if j == i then w else WordAt(b, j)
  {
    WordRoundTrip(w);
  }

  function ZeroBlock(): (z: Block)
    ensures forall i :: 0 <= i < BLOCK_SIZE ==> z[i] == 0
    ensures forall j: nat :: j < WORDS ==> WordAt(z, j) == 0
  {
    seq(BLOCK_SIZE, _ => 0 as byte)
  }

  // ------------------------------------- the free-block group kept in a block

  const GROUP: nat := 100

  /** Consecutive words of a block are replaced, from word `at` on. */
  function WithWords(b: Block, at: nat, words: seq<nat>): Block
    requires at + |words| <= WORDS && forall i :: 0 <= i < |words| ==> words[i] < WORD_LIMIT
  {
    if words == [] then b
    else
      var k := |words| - 1;
      WithWord(WithWords(b, at, words[..k]), at + k, words[k])
  }

  lemma {:induction false} WordOfWithWords(b: Block, at: nat, words: seq<nat>, j: nat)
    requires at + |words| <= WORDS && forall i :: 0 <= i < |words| ==> words[i] < WORD_LIMIT
    requires j < WORDS
    ensures WordAt(WithWords(b, at, words), j) == if at <= j < at + |words| then words[j - at] else WordAt(b, j)
  {
    if words != [] {
      var k := |words| - 1;
      WordOfWithWords(b, at, words[..k], j);
      WordOfWith(WithWords(b, at, words[..k]), at + k, words[k], j);
    }
  }

  /** Words 0..100 of a link block: the count and the table copied from the super block. */
  function WithGroup(b: Block, n: nat, free: seq<nat>): Block
    requires n < WORD_LIMIT && |free| == GROUP && forall i :: 0 <= i < GROUP ==> free[i] < WORD_LIMIT
  {
    WithWords(WithWord(b, 0, n), 1, free)
  }

  function GroupCount(b: Block): nat {
    WordAt(b, 0)
  }

  function GroupTable(b: Block): (t: seq<nat>)
    ensures |t| == GROUP
  {
    seq(GROUP, i requires 0 <= i < GROUP => WordAt(b, i + 1))
  }

  /** Word j of a link block. */
  lemma GroupWordAt(b: Block, n: nat, free: seq<nat>, j: nat)
    requires n < WORD_LIMIT && |free| == GROUP && forall i :: 0 <= i < GROUP ==> free[i] < WORD_LIMIT
    requires j <= GROUP
    ensures WordAt(WithGroup(b, n, free), j) == if j == 0 then n else free[j - 1]
  {
    WordOfWithWords(WithWord(b, 0, n), 1, free, j);
    WordOfWith(b, 0, n, 0);
  }

  lemma GroupReads(w: Block, n: nat, free: seq<nat>)
    requires |free| == GROUP && WordAt(w, 0) == n && forall i: nat :: i < GROUP ==> WordAt(w, i + 1) == free[i]
    ensures GroupCount(w) == n && GroupTable(w) == free
  {
  }

  lemma GroupRoundTrip(b: Block, n: nat, free: seq<nat>)
    requires n < WORD_LIMIT && |free| == GROUP && forall i :: 0 <= i < GROUP ==> free[i] < WORD_LIMIT
    ensures GroupCount(WithGroup(b, n, free)) == n && GroupTable(WithGroup(b, n, free)) == free
  {
    var w := WithGroup(b, n, free);
    GroupWordAt(b, n, free, 0);
    forall i: nat | i < GROUP ensures WordAt(w, i + 1) == free[i] { GroupWordAt(b, n, free, i + 1); }
    GroupReads(w, n, free);
  }
}
