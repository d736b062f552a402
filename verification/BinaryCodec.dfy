/**
 The binary serializer and deserializer: integers as their bytes in memory (low-order byte
 first), strings and sequences with a 32-bit size in front. Reading checks the end of the
 buffer before every access.
 */
module BinaryCodec {
  import opened Common

  /** A value read and the bytes behind it, or the out_of_range exception. */
  datatype Parsed<+T> = Ok(value: T, rest: seq<Byte>) | OutOfRange

  datatype Result<+T> = Success(value: T) | Failure

  lemma Regroup(a: seq<Byte>, b: seq<Byte>, c: seq<Byte>, d: seq<Byte>)
    ensures a + b + c + d == a + (b + (c + d)) == a + (b + c) + d
    ensures a + b + c == a + (b + c)
  {
  }

  lemma Compose(a: seq<Byte>, b: seq<Byte>, c: seq<Byte>, d: seq<Byte>, tail: seq<Byte>, s: seq<Byte>)
    requires s == a + tail && tail == b + (c + d)
    ensures s == a + b + c + d
  {
  }

  // ---------------------------------------------------------------- integers

  function Pow256(k: nat): (p: nat)
    ensures p > 0
  {
    if k == 0 then 1 else 0x100 * Pow256(k - 1)
  }

  function IntBytes(v: nat, k: nat): (s: seq<Byte>)
    ensures |s| == k
  {
    if k == 0 then [] else [v % 0x100] + IntBytes(v / 0x100, k - 1)
  }

  function IntValue(s: seq<Byte>): nat {
    if s == [] then 0 else s[0] as int + 0x100 * IntValue(s[1..])
  }

  /** Reading what was written gives the value back, if it fits. */
  lemma {:induction false} IntRoundTrip(v: nat, k: nat)
    requires v < Pow256(k)
    ensures IntValue(IntBytes(v, k)) == v
  {
    if k > 0 {
      IntRoundTrip(v / 0x100, k - 1);
      assert IntBytes(v, k)[1..] == IntBytes(v / 0x100, k - 1);
    }
  }

  /** And every byte string is what is written for its value. */
  lemma {:induction false} IntBytesOfValue(s: seq<Byte>)
    ensures IntValue(s) < Pow256(|s|) && IntBytes(IntValue(s), |s|) == s
  {
    if s != [] {
      IntBytesOfValue(s[1..]);
      var b: int, v := s[0], IntValue(s[1..]);
      assert (b + 0x100 * v) % 0x100 == b && (b + 0x100 * v) / 0x100 == v;
      assert s == [s[0]] + s[1..];
    }
  }

  lemma Pow256Of4()
    ensures Pow256(4) == TWO_32
  {
    assert Pow256(2) == 0x100 * Pow256(1);
    assert Pow256(3) == 0x100 * Pow256(2);
  }

  function ParseInt(s: seq<Byte>, k: nat): Parsed<nat> {
    if k > |s| then OutOfRange else Ok(IntValue(s[..k]), s[k..])
  }

  function SizeBytes(n: nat): (s: seq<Byte>)
    ensures |s| == 4
  {
    IntBytes(n % TWO_32, 4)
  }

  /** What is read back as a size. */
  lemma SizeRoundTrip(n: nat, rest: seq<Byte>)
    ensures ParseInt(SizeBytes(n) + rest, 4) == Ok(n % TWO_32, rest)
  {
    Pow256Of4();
    IntRoundTrip(n % TWO_32, 4);
    var s := SizeBytes(n) + rest;
    assert s[..4] == SizeBytes(n) && s[4..] == rest;
  }

  lemma IntParsesBack(v: nat, k: nat, rest: seq<Byte>)
    requires v < Pow256(k)
    ensures ParseInt(IntBytes(v, k) + rest, k) == Ok(v, rest)
  {
    IntRoundTrip(v, k);
    var s := IntBytes(v, k) + rest;
    assert s[..k] == IntBytes(v, k) && s[k..] == rest;
  }

  /** A parsed integer is exactly the bytes in front of the rest. */
  lemma ParsedIntBytes(s: seq<Byte>, k: nat)
    requires ParseInt(s, k).Ok?
    ensures var r := ParseInt(s, k);
            r.value < Pow256(k) && s == IntBytes(r.value, k) + r.rest
  {
    var front, rest := s[..k], s[k..];
    assert s == front + rest;
    assert |front| == k && IntValue(front) < Pow256(k) && IntBytes(IntValue(front), k) == front by {
      IntBytesOfValue(front);
    }
  }

  // ---------------------------------------------------------------- strings

  /** Characters of k bytes each. */
  function CharBytes(str: seq<nat>, k: nat): seq<Byte> {
    if str == [] then [] else IntBytes(str[0], k) + CharBytes(str[1..], k)
  }

  function StringBytes(str: seq<nat>, k: nat): seq<Byte> {
    SizeBytes(|str|) + CharBytes(str, k)
  }

  /** n more characters, appended to `acc`. */
  function ParseChars(s: seq<Byte>, k: nat, n: nat, acc: seq<nat>): Parsed<seq<nat>>
    decreases n
  {
    if n == 0 then Ok(acc, s)
    else
      match ParseInt(s, k)
      case OutOfRange => OutOfRange
      case Ok(c, rest) => ParseChars(rest, k, n - 1, acc + [c])
  }

  function ParseString(s: seq<Byte>, k: nat, acc: seq<nat>): Parsed<seq<nat>> {
    match ParseInt(s, 4)
    case OutOfRange => OutOfRange
    case Ok(n, rest) => ParseChars(rest, k, n, acc)
  }

  predicate CharsFit(str: seq<nat>, k: nat) {
    forall c :: c in str ==> c < Pow256(k)
  }

  lemma TakeOneMore(str: seq<nat>, n: nat, acc: seq<nat>)
    requires 0 < n <= |str|
    ensures acc + [str[0]] + str[1..][..n - 1] == acc + str[..n] && str[1..][n - 1..] == str[n..]
  {
    assert str[..n] == [str[0]] + str[1..][..n - 1];
  }

  /** The first character is taken off the front. */
  lemma FirstCharParses(c: nat, more: seq<nat>, k: nat, n: nat, acc: seq<nat>, rest: seq<Byte>)
    requires c < Pow256(k) && n > 0
    ensures ParseChars(CharBytes([c] + more, k) + rest, k, n, acc) ==
            ParseChars(CharBytes(more, k) + rest, k, n - 1, acc + [c])
  {
    assert ([c] + more)[1..] == more;
    assert CharBytes([c] + more, k) + rest == IntBytes(c, k) + (CharBytes(more, k) + rest) by {
      Regroup(IntBytes(c, k), CharBytes(more, k), rest, []);
    }
    IntParsesBack(c, k, CharBytes(more, k) + rest);
  }

  /** The first n characters come back, and the rest of the bytes is untouched. */
  lemma {:induction false} CharsParseBack(str: seq<nat>, k: nat, n: nat, acc: seq<nat>, rest: seq<Byte>)
    requires CharsFit(str, k) && n <= |str|
    ensures ParseChars(CharBytes(str, k) + rest, k, n, acc) == Ok(acc + str[..n], CharBytes(str[n..], k) + rest)
    decreases n
  {
    if n == 0 {
      assert acc + str[..0] == acc && str[0..] == str;
    } else {
      var c, more := str[0], str[1..];
      assert c in str && forall d :: d in more ==> d in str;
      CharsParseBack(more, k, n - 1, acc + [c], rest);
      FirstCharParses(c, more, k, n, acc, rest);
      assert str == [c] + more;
      TakeOneMore(str, n, acc);
    }
  }

  /** What comes back has the characters that its size in 32 bits counts. */
  lemma StringParses(str: seq<nat>, k: nat, n: nat, rest: seq<Byte>)
    requires CharsFit(str, k) && n == |str| % TWO_32
    ensures ParseString(StringBytes(str, k) + rest, k, []) == Ok(str[..n], CharBytes(str[n..], k) + rest)
  {
    var s, body := StringBytes(str, k) + rest, CharBytes(str, k) + rest;
    assert ParseInt(s, 4) == Ok(n, body) by {
      Regroup(SizeBytes(|str|), CharBytes(str, k), rest, []);
      SizeRoundTrip(|str|, body);
    }
    assert ParseChars(body, k, n, []) == Ok(str[..n], CharBytes(str[n..], k) + rest) by {
      CharsParseBack(str, k, n, [], rest);
      assert [] + str[..n] == str[..n];
    }
  }

  /** A string comes back exactly when it is shorter than 2^32 characters: its size is written
      in 32 bits. */
  lemma StringRoundTripIff(str: seq<nat>, k: nat, rest: seq<Byte>)
    requires CharsFit(str, k)
    ensures ParseString(StringBytes(str, k) + rest, k, []) == Ok(str, rest) <==> |str| < TWO_32
  {
    var n := |str| % TWO_32;
    StringParses(str, k, n, rest);
    if |str| < TWO_32 {
      assert str[..n] == str && str[n..] == [];
      assert CharBytes([], k) + rest == rest;
    } else {
      assert |str[..n]| != |str|;
    }
  }

  lemma CharStep(bytes: seq<Byte>, str: seq<nat>, i: nat, k: nat)
    requires i < |str|
    ensures bytes + CharBytes(str[i..], k) == bytes + IntBytes(str[i], k) + CharBytes(str[i + 1..], k)
  {
    assert str[i..][0] == str[i] && str[i..][1..] == str[i + 1..];
    Regroup(bytes, IntBytes(str[i], k), CharBytes(str[i + 1..], k), []);
  }

  // ---------------------------------------------------------------- writing and reading in place

  class Sink {
    var bytes: seq<Byte>

    constructor ()
      ensures bytes == []
    {
      bytes := [];
    }

    method WriteInt(v: nat, k: nat)
      modifies this
      ensures bytes == old(bytes) + IntBytes(v, k)
    {
      bytes := bytes + IntBytes(v, k);
    }

    method BeginSequence(n: nat)
      modifies this
      ensures bytes == old(bytes) + SizeBytes(n)
    {
      WriteInt(n % TWO_32, 4);
    }

    method WriteString(str: seq<nat>, k: nat)
      modifies this
      ensures bytes == old(bytes) + StringBytes(str, k)
    {
      WriteInt(|str| % TWO_32, 4);
      ghost var start := bytes;
      for i := 0 to |str|
        invariant bytes + CharBytes(str[i..], k) == start + CharBytes(str, k)
      {
        CharStep(bytes, str, i, k);
        WriteInt(str[i], k);
      }
      assert str[|str|..] == [] && bytes + [] == bytes;
      Regroup(old(bytes), SizeBytes(|str|), CharBytes(str, k), []);
    }
  }

  class Source {
    const buffer: seq<Byte>
    var pos: nat

    constructor (buffer: seq<Byte>)
      ensures this.buffer == buffer && pos == 0
    {
      this.buffer, pos := buffer, 0;
    }

    ghost predicate Valid()
      reads this
    {
      pos <= |buffer|
    }

    /** The bytes not yet read. */
    ghost function Ahead(): seq<Byte>
      reads this
      requires Valid()
    {
      buffer[pos..]
    }

    /** Reads k bytes as an integer; past the end it fails and stays where it is. */
    method ReadInt(k: nat) returns (r: Result<nat>)
      requires Valid()
      modifies this
      ensures Valid() && pos >= old(pos)
      ensures match ParseInt(old(Ahead()), k)
              case OutOfRange => r == Failure && pos == old(pos)
              case Ok(v, rest) => r == Success(v) && Ahead() == rest && pos == old(pos) + k
    {
      if pos + k > |buffer| {
        return Failure;
      }
      assert Ahead()[..k] == buffer[pos..pos + k] && Ahead()[k..] == buffer[pos + k..];
      r := Success(IntValue(buffer[pos..pos + k]));
      pos := pos + k;
    }

    method BeginSequence() returns (r: Result<nat>)
      requires Valid()
      modifies this
      ensures Valid() && pos >= old(pos)
      ensures match ParseInt(old(Ahead()), 4)
              case OutOfRange => r == Failure && pos == old(pos)
              case Ok(v, rest) => r == Success(v) && Ahead() == rest && pos == old(pos) + 4
    {
      r := ReadInt(4);
    }

    /** Appends to what the caller's string already holds, as the wide-string reader does. */
    method ReadString(k: nat, str: seq<nat>) returns (r: Result<seq<nat>>)
      requires Valid()
      modifies this
      ensures Valid()
      ensures match ParseString(old(Ahead()), k, str)
              case OutOfRange => r == Failure && pos == old(pos)
              case Ok(v, rest) => r == Success(v) && Ahead() == rest
    {
      var start := pos;
      var size := BeginSequence();
      if size.Failure? {
        return Failure;
      }
      var acc := str;
      for i := 0 to size.value
        invariant Valid()
        invariant ParseString(old(Ahead()), k, str) == ParseChars(Ahead(), k, size.value - i, acc)
      {
        var c := ReadInt(k);
        if c.Failure? {
          pos := start;
          return Failure;
        }
        acc := acc + [c.value];
      }
      return Success(acc);
    }
  }
}
