/**
 The driver of RIPEMD-160: cutting a message into blocks, padding it as sections 3.1 and 3.2
 of RFC 1320 say, and feeding the blocks to the compression function. The compression
 function is a parameter, so everything here holds whatever it computes.
 */
module Ripemd160 {
  import opened Common
  import opened NumberTheory
  import opened Bits

  type Block = s: seq<nat> | |s| == 16 witness [0, 0, 0, 0, 0, 0, 0, 0, 0, 0, 0, 0, 0, 0, 0, 0]
  type Chain = s: seq<nat> | |s| == 5 witness [0, 0, 0, 0, 0]
  type Compressor = (Chain, Block) -> Chain

  const INIT: Chain := [0x67452301, 0xefcdab89, 0x98badcfe, 0x10325476, 0xc3d2e1f0]

  // ---------------------------------------------------------------- specification

  function Zeros(n: nat): (s: seq<Byte>)
    ensures |s| == n && forall i :: 0 <= i < n ==> s[i] == 0
  {
    seq(n, i => 0)
  }

  /** Word i of some bytes, low-order byte first. */
  function WordAt(bytes: seq<Byte>, i: nat): nat
    requires 4 * i + 4 <= |bytes|
  {
    var b0: int, b1: int, b2: int, b3: int := bytes[4 * i], bytes[4 * i + 1], bytes[4 * i + 2], bytes[4 * i + 3];
    b0 + 0x100 * b1 + 0x1_0000 * b2 + 0x100_0000 * b3
  }

  function Words(bytes: seq<Byte>): (w: Block)
    requires |bytes| == 64
    ensures forall i :: 0 <= i < 16 ==> w[i] == WordAt(bytes, i)
  {
    seq(16, i requires 0 <= i < 16 => WordAt(bytes, i))
  }

  /** The eight bytes of the length in bits, low-order byte first. */
  function LengthBytes(len: nat): seq<Byte> {
    var b := 8 * len;
    [b % 0x100, b / 0x100 % 0x100, b / 0x1_0000 % 0x100, b / 0x100_0000 % 0x100,
     b / 0x1_0000_0000 % 0x100, b / 0x100_0000_0000 % 0x100,
     b / 0x1_0000_0000_0000 % 0x100, b / 0x100_0000_0000_0000 % 0x100]
  }

  /** How many zero bytes bring a message, the bit 1 and the length to whole blocks. */
  function ZeroCount(len: nat): (z: nat)
    ensures (len + 9 + z) % 64 == 0 && z < 64
  {
    var r := len % 64;
    assert (len - r) % 64 == 0;
    if r <= 55 then 55 - r else 119 - r
  }

  /** One bit 1, then zeros up to 8 bytes short of a whole block, then the length. */
  function Padding(len: nat): (p: seq<Byte>)
    ensures |p| == 9 + ZeroCount(len)
  {
    [0x80] + Zeros(ZeroCount(len)) + LengthBytes(len)
  }

  /** The compression function over all blocks, first to last. */
  function Fold(c: Compressor, bytes: seq<Byte>): Chain
    requires |bytes| % 64 == 0
    decreases |bytes|
  {
    if bytes == [] then INIT
    else c(Fold(c, bytes[..|bytes| - 64]), Words(bytes[|bytes| - 64..]))
  }

  function ByteOf(chain: Chain, i: nat): Byte
    requires i < 20
  {
    Shr(chain[i / 4], 8 * (i % 4)) % 0x100
  }

  function ChainBytes(chain: Chain): (s: seq<Byte>)
    ensures |s| == 20 && forall i :: 0 <= i < 20 ==> s[i] == ByteOf(chain, i)
  {
    seq(20, i requires 0 <= i < 20 => ByteOf(chain, i))
  }

  function Digest(c: Compressor, message: seq<Byte>): seq<Byte> {
    ChainBytes(Fold(c, message + Padding(|message|)))
  }

  // ---------------------------------------------------------------- building words in place

  lemma EightBitShifts(b: nat)
    ensures Shl(b, 0) == b && Shl(b, 8) == 0x100 * b && Shl(b, 16) == 0x1_0000 * b && Shl(b, 24) == 0x100_0000 * b
    ensures Pow2(0) == 1 && Pow2(8) == 0x100 && Pow2(16) == 0x1_0000 && Pow2(24) == 0x100_0000
  {
    EightPlaces(b, 0);
    EightPlaces(b, 8);
    EightPlaces(b, 16);
  }

  /** Four bytes joined by shifts and or. */
  function BytesToWord(b0: Byte, b1: Byte, b2: Byte, b3: Byte): nat {
    Bitwise(OR, Bitwise(OR, Bitwise(OR, Shl(b3, 24), Shl(b2, 16)), Shl(b1, 8)), b0)
  }

  lemma BytesToWordIsSum(b0: Byte, b1: Byte, b2: Byte, b3: Byte)
    ensures BytesToWord(b0, b1, b2, b3) == b0 + 0x100 * b1 + 0x1_0000 * b2 + 0x100_0000 * b3
  {
    JoinByte(b3, b2, 16);
    var high: nat := 0x100 * b3 as int + b2 as int;
    JoinByte(high, b1, 8);
    JoinByte(0x100 * high + b1 as int, b0, 0);
  }

  /** Adding a byte to a word whose bytes from there on are 0. */
  lemma WordAtUpdate(bytes: seq<Byte>, i: nat, b: Byte)
    requires |bytes| == 64 && i < 64 && forall j :: i <= j < 64 ==> bytes[j] == 0
    ensures WordAt(bytes, i / 4) < Pow2(8 * (i % 4))
    ensures WordAt(bytes[i := b], i / 4) == WordAt(bytes, i / 4) + Shl(b, 8 * (i % 4))
  {
    EightBitShifts(b);
    var k, r := i / 4, i % 4;
    if r == 0 {
      assert bytes[4 * k] == 0;
    } else if r == 1 {
      assert bytes[4 * k + 1] == 0;
    } else if r == 2 {
      assert bytes[4 * k + 2] == 0;
    } else {
      assert bytes[4 * k + 3] == 0;
    }
  }

  /** Xoring a byte into its place in a word sets that byte, if it and all later ones are 0. */
  lemma XorSetsByte(bytes: seq<Byte>, i: nat, b: Byte)
    requires |bytes| == 64 && i < 64 && forall j :: i <= j < 64 ==> bytes[j] == 0
    ensures var w := Words(bytes);
            Words(bytes[i := b]) == w[i / 4 := Bitwise(XOR, w[i / 4], Shl(b, 8 * (i % 4)))]
  {
    var k := i / 4;
    WordAtUpdate(bytes, i, b);
    DisjointIsSum(XOR, WordAt(bytes, k), b, 8 * (i % 4));
    forall m | 0 <= m < 16 && m != k
      ensures WordAt(bytes[i := b], m) == WordAt(bytes, m)
    {
      OtherWord(bytes, i, b, m);
    }
  }

  lemma OtherWord(bytes: seq<Byte>, i: nat, b: Byte, m: nat)
    requires |bytes| == 64 && i < 64 && m < 16 && m != i / 4
    ensures WordAt(bytes[i := b], m) == WordAt(bytes, m)
  {
    assert i < 4 * m || i > 4 * m + 3;
  }

  method CompressInto(c: Compressor, chain: array<nat>, X: array<nat>)
    requires chain.Length == 5 && X.Length == 16 && chain != X
    modifies chain
    ensures chain[..] == c(old(chain[..]), X[..])
  {
    ghost var words := X[..];
    var next := c(chain[..], X[..]);
    forall i | 0 <= i < 5 {
      chain[i] := next[i];
    }
    assert chain[..] == next && X[..] == words;
  }

  method Clear(X: array<nat>)
    requires X.Length == 16
    modifies X
    ensures X[..] == Words(Zeros(64))
  {
    forall i | 0 <= i < 16 {
      X[i] := 0;
    }
    assert forall i :: 0 <= i < 16 ==> WordAt(Zeros(64), i) == 0;
  }

  /** The rest of a message at the front of a zero block. */
  function TailBlock(tail: seq<Byte>): (b: seq<Byte>)
    requires |tail| <= 64
    ensures |b| == 64
  {
    tail + Zeros(64 - |tail|)
  }

  /** Xors b, already shifted to its place in word i / 4, into a block that is 0 from byte i on. */
  method XorByte(X: array<nat>, i: nat, shifted: nat, ghost bytes: seq<Byte>, ghost b: Byte)
    requires X.Length == 16 && i < 64 && |bytes| == 64 && X[..] == Words(bytes)
    requires shifted == Shl(b, 8 * (i % 4))
    requires forall j :: i <= j < 64 ==> bytes[j] == 0
    modifies X
    ensures X[..] == Words(bytes[i := b])
  {
    XorSetsByte(bytes, i, b);
    ghost var was := X[..];
    X[i / 4] := Bitwise(XOR, X[i / 4], shifted);
    assert X[..] == was[i / 4 := X[i / 4]];
  }

  method LoadTail(X: array<nat>, tail: seq<Byte>)
    requires X.Length == 16 && |tail| < 64
    modifies X
    ensures X[..] == Words(TailBlock(tail + [0x80]))
  {
    Clear(X);
    assert TailBlock(tail[..0]) == Zeros(64);
    for i := 0 to |tail|
      invariant X[..] == Words(TailBlock(tail[..i]))
    {
      assert tail[..i + 1] == tail[..i] + [tail[i]];
      TailGrows(tail[..i], tail[i]);
      XorByte(X, i, Shl(tail[i], 8 * (i % 4)), TailBlock(tail[..i]), tail[i]);
    }
    assert tail[..|tail|] == tail;
    AppendBit(X, tail);
  }

  lemma TailGrows(tail: seq<Byte>, b: Byte)
    requires |tail| < 64
    ensures TailBlock(tail)[|tail| := b] == TailBlock(tail + [b])
    ensures forall j :: |tail| <= j < 64 ==> TailBlock(tail)[j] == 0
  {
  }

  /** Appends the bit 1. */
  method AppendBit(X: array<nat>, tail: seq<Byte>)
    requires X.Length == 16 && |tail| < 64 && X[..] == Words(TailBlock(tail))
    modifies X
    ensures X[..] == Words(TailBlock(tail + [0x80]))
  {
    var i := |tail|;
    TopBit(8 * (i % 4));
    TailGrows(tail, 0x80);
    XorByte(X, i, Shl(1, 8 * (i % 4) + 7), TailBlock(tail), 0x80);
  }

  lemma {:induction false} TopBit(k: nat)
    ensures Shl(1, k + 7) == Shl(0x80, k)
  {
    if k == 0 {
      FourPlaces(1, 0);
      assert Shl(1, 5) == 32 && Shl(1, 6) == 64;
    } else {
      TopBit(k - 1);
    }
  }

  /** The block with the length, on top of the bytes already there. */
  function LastBlock(bytes: seq<Byte>, len: nat): (b: seq<Byte>)
    requires |bytes| == 64
    ensures |b| == 64
  {
    bytes[..56] + LengthBytes(len)
  }

  lemma LengthWords(bytes: seq<Byte>, len: nat)
    requires |bytes| == 64 && len < TWO_32
    ensures Words(LastBlock(bytes, len)) == Words(bytes)[14 := 8 * len % TWO_32][15 := Shr(len, 29)]
  {
    var last := LastBlock(bytes, len);
    forall i | 0 <= i < 14
      ensures WordAt(last, i) == WordAt(bytes, i)
    {
    }
    var l := LengthBytes(len);
    assert last[56] == l[0] && last[57] == l[1] && last[58] == l[2] && last[59] == l[3];
    assert last[60] == l[4] && last[61] == l[5] && last[62] == l[6] && last[63] == l[7];
    LowWord(8 * len);
    HighWord(len);
  }

  lemma LowWord(b: nat)
    ensures b % 0x100 + 0x100 * (b / 0x100 % 0x100) + 0x1_0000 * (b / 0x1_0000 % 0x100)
            + 0x100_0000 * (b / 0x100_0000 % 0x100) == b % TWO_32
  {
    var q1 := b / 0x100;
    var q2 := q1 / 0x100;
    var q3 := q2 / 0x100;
    assert b / 0x1_0000 == q2;
    assert b / 0x100_0000 == q3;
    assert b / TWO_32 == q3 / 0x100;
    assert b % TWO_32 == b - TWO_32 * (b / TWO_32);
  }

  lemma HighWord(len: nat)
    requires len < TWO_32
    ensures var b := 8 * len;
            b / 0x1_0000_0000 % 0x100 == Shr(len, 29) && b / 0x100_0000_0000 % 0x100 == 0
            && b / 0x1_0000_0000_0000 % 0x100 == 0 && b / 0x100_0000_0000_0000 % 0x100 == 0
  {
    Shr29(len);
    var q := len / 0x2000_0000;
    assert len == 0x2000_0000 * q + len % 0x2000_0000;
  }

  lemma Shr29(len: nat)
    ensures Shr(len, 29) == len / 0x2000_0000
  {
    var v1 := len / 16;
    var v2 := v1 / 16;
    var v3 := v2 / 16;
    var v4 := v3 / 16;
    var v5 := v4 / 16;
    var v6 := v5 / 16;
    var v7 := v6 / 16;
    ShrFour(len, 25);
    ShrFour(v1, 21);
    ShrFour(v2, 17);
    ShrFour(v3, 13);
    ShrFour(v4, 9);
    ShrFour(v5, 5);
    ShrFour(v6, 1);
    assert Shr(v7, 1) == v7 / 2;
    assert len / 0x2000_0000 == v7 / 2;
  }

  /** Pads and compresses what is left of a message of len bytes: one block, or two. */
  method Finish(c: Compressor, chain: array<nat>, tail: seq<Byte>, len: nat)
    requires chain.Length == 5 && len < TWO_32 && |tail| == len % 64
    modifies chain
    ensures chain[..] == AfterTail(c, old(chain[..]), tail, len)
  {
    var X := new nat[16];
    LoadTail(X, tail);
    ghost var bytes := TailBlock(tail + [0x80]);
    if len % 64 > 55 {
      CompressInto(c, chain, X);
      Clear(X);
      bytes := Zeros(64);
    }
    LengthWords(bytes, len);
    WithZero(OR, Shr(len, 29));
    X[14] := 8 * len % TWO_32;
    X[15] := Bitwise(OR, Shr(len, 29), 0);
    CompressInto(c, chain, X);
  }

  function AfterTail(c: Compressor, chain: Chain, tail: seq<Byte>, len: nat): Chain
    requires |tail| == len % 64
  {
    var first := TailBlock(tail + [0x80]);
    if |tail| > 55 then c(c(chain, Words(first)), Words(LastBlock(Zeros(64), len)))
    else c(chain, Words(LastBlock(first, len)))
  }

  lemma OneBlockTail(message: seq<Byte>)
    requires |message| % 64 <= 55
    ensures var k := |message| - |message| % 64;
            var padded := message + Padding(|message|);
            && |padded| == k + 64 && padded[..k] == message[..k]
            && padded[k..] == LastBlock(TailBlock(message[k..] + [0x80]), |message|)
  {
  }

  lemma TwoBlockTail(message: seq<Byte>)
    requires |message| % 64 > 55
    ensures var k := |message| - |message| % 64;
            var padded := message + Padding(|message|);
            && |padded| == k + 128 && padded[..k] == message[..k]
            && padded[k..k + 64] == TailBlock(message[k..] + [0x80])
            && padded[k + 64..] == LastBlock(Zeros(64), |message|)
  {
  }

  lemma FoldOne(c: Compressor, bytes: seq<Byte>, k: nat)
    requires k % 64 == 0 && |bytes| == k + 64
    ensures Fold(c, bytes) == c(Fold(c, bytes[..k]), Words(bytes[k..]))
  {
  }

  lemma TwoBlockFold(c: Compressor, message: seq<Byte>, k: nat)
    requires |message| % 64 > 55 && k == |message| - |message| % 64 && k % 64 == 0
    ensures |message + Padding(|message|)| % 64 == 0
    ensures AfterTail(c, Fold(c, message[..k]), message[k..], |message|) == Fold(c, message + Padding(|message|))
  {
    var padded := message + Padding(|message|);
    TwoBlockTail(message);
    FoldOne(c, padded, k + 64);
    var front := padded[..k + 64];
    assert front[..k] == padded[..k] && front[k..] == padded[k..k + 64];
    FoldOne(c, front, k);
  }

  /** The tail with its padding is exactly the last one or two blocks of the padded message. */
  lemma TailCompletesFold(c: Compressor, message: seq<Byte>, k: nat)
    requires k == |message| - |message| % 64 && k % 64 == 0
    ensures |message + Padding(|message|)| % 64 == 0
    ensures AfterTail(c, Fold(c, message[..k]), message[k..], |message|) == Fold(c, message + Padding(|message|))
  {
    if |message| % 64 > 55 {
      TwoBlockFold(c, message, k);
    } else {
      OneBlockTail(message);
      FoldOne(c, message + Padding(|message|), k);
    }
  }

  lemma PrefixFold(c: Compressor, message: seq<Byte>, k: nat)
    requires k % 64 == 0 && k + 64 <= |message|
    ensures Fold(c, message[..k + 64]) == c(Fold(c, message[..k]), Words(message[k..k + 64]))
  {
    var upto := message[..k + 64];
    assert upto[..k] == message[..k] && upto[k..] == message[k..k + 64];
    FoldOne(c, upto, k);
  }

  /** The whole blocks at the front of a message. */
  method WholeBlocks(c: Compressor, chain: array<nat>, message: seq<Byte>) returns (pos: nat)
    requires chain.Length == 5 && chain[..] == INIT
    modifies chain
    ensures pos == |message| - |message| % 64 && pos % 64 == 0
    ensures chain[..] == Fold(c, message[..pos])
  {
    var X := new nat[16];
    var nbytes := |message|;
    pos := 0;
    assert message[..0] == [];
    while nbytes > 63
      invariant pos + nbytes == |message| && pos % 64 == 0 && nbytes >= 0
      invariant chain[..] == Fold(c, message[..pos])
    {
      NextBlock(c, chain, X, message, pos);
      pos, nbytes := pos + 64, nbytes - 64;
    }
    WholeBlocksEnd(|message|, pos);
  }

  lemma OneBlockFurther(k: nat)
    requires k % 64 == 0
    ensures (k + 64) % 64 == 0
  {
  }

  lemma WholeBlocksEnd(len: nat, k: nat)
    requires k % 64 == 0 && k <= len < k + 64
    ensures k == len - len % 64
  {
  }

  /** One turn of the loop over the whole blocks. */
  method NextBlock(c: Compressor, chain: array<nat>, X: array<nat>, message: seq<Byte>, pos: nat)
    requires chain.Length == 5 && X.Length == 16 && chain != X && pos % 64 == 0 && pos + 64 <= |message|
    modifies chain, X
    ensures (pos + 64) % 64 == 0
    ensures old(chain[..]) == Fold(c, message[..pos]) ==> chain[..] == Fold(c, message[..pos + 64])
  {
    LoadBlock(X, message[pos..pos + 64]);
    CompressInto(c, chain, X);
    OneBlockFurther(pos);
    PrefixFold(c, message, pos);
  }

  method StoreBytes(chain: array<nat>, storage: array<Byte>)
    requires chain.Length == 5 && storage.Length == 20
    modifies storage
    ensures storage[..] == ChainBytes(chain[..])
  {
    ghost var words := chain[..];
    for i := 0 to 5
      invariant chain[..] == words
      invariant forall j :: 0 <= j < 4 * i ==> storage[j] == ByteOf(words, j)
    {
      StoreWord(storage, i, chain[i]);
      FourBytes(words, i);
    }
  }

  lemma FourBytes(chain: Chain, i: nat)
    requires i < 5
    ensures ByteOf(chain, 4 * i) == chain[i] % 0x100 && ByteOf(chain, 4 * i + 1) == Shr(chain[i], 8) % 0x100
    ensures ByteOf(chain, 4 * i + 2) == Shr(chain[i], 16) % 0x100 && ByteOf(chain, 4 * i + 3) == Shr(chain[i], 24) % 0x100
  {
  }

  method StoreWord(storage: array<Byte>, i: nat, word: nat)
    requires storage.Length == 20 && i < 5
    modifies storage
    ensures storage[4 * i] == word % 0x100 && storage[4 * i + 1] == Shr(word, 8) % 0x100
    ensures storage[4 * i + 2] == Shr(word, 16) % 0x100 && storage[4 * i + 3] == Shr(word, 24) % 0x100
    ensures forall j :: 0 <= j < 20 && j / 4 != i ==> storage[j] == old(storage[j])
  {
    storage[4 * i] := word % 0x100;
    storage[4 * i + 1] := Shr(word, 8) % 0x100;
    storage[4 * i + 2] := Shr(word, 16) % 0x100;
    storage[4 * i + 3] := Shr(word, 24) % 0x100;
  }

  /** The hash of data: its digest, for every message below 2^32 bytes. A longer one is cut,
      since its length is stored in 32 bits. */
  method Hash(c: Compressor, storage: array<Byte>, data: seq<Byte>)
    requires storage.Length == 20
    modifies storage
    ensures storage[..] == Digest(c, data[..|data| % TWO_32])
    ensures |data| < TWO_32 ==> storage[..] == Digest(c, data)
  {
    var message := data[..|data| % TWO_32];
    assert |data| < TWO_32 ==> message == data;
    var chain := new nat[5];
    InitChain(chain);
    FoldMessage(c, chain, message);
    StoreBytes(chain, storage);
  }

  method InitChain(chain: array<nat>)
    requires chain.Length == 5
    modifies chain
    ensures chain[..] == INIT
  {
    chain[0], chain[1], chain[2], chain[3], chain[4] := 0x67452301, 0xefcdab89, 0x98badcfe, 0x10325476, 0xc3d2e1f0;
  }

  /** The whole blocks of a message, then its padded tail. */
  method FoldMessage(c: Compressor, chain: array<nat>, message: seq<Byte>)
    requires chain.Length == 5 && chain[..] == INIT && |message| < TWO_32
    modifies chain
    ensures chain[..] == Fold(c, message + Padding(|message|))
  {
    var pos := WholeBlocks(c, chain, message);
    TailCompletesFold(c, message, pos);
    Finish(c, chain, message[pos..], |message|);
  }

  method LoadBlock(X: array<nat>, bytes: seq<Byte>)
    requires X.Length == 16 && |bytes| == 64
    modifies X
    ensures X[..] == Words(bytes)
  {
    for i := 0 to 16
      invariant forall j :: 0 <= j < i ==> X[j] == WordAt(bytes, j)
    {
      BytesToWordIsSum(bytes[4 * i], bytes[4 * i + 1], bytes[4 * i + 2], bytes[4 * i + 3]);
      X[i] := BytesToWord(bytes[4 * i], bytes[4 * i + 1], bytes[4 * i + 2], bytes[4 * i + 3]);
    }
  }
}
