/**
 The hand-written codec of a tree: a node is its value, the number of its children, and the
 children one after the other.
 */
module TreeCodec {
  import opened Common
  import opened BinaryCodec

  type Word = v: nat | v < TWO_32

  datatype Tree = Node(value: Word, children: seq<Tree>)

  function Encode(t: Tree): seq<Byte>
    decreases t, 1
  {
    IntBytes(t.value, 4) + SizeBytes(|t.children|) + EncodeAll(t.children)
  }

  function EncodeAll(ts: seq<Tree>): seq<Byte>
    decreases ts, 0
  {
    if ts == [] then [] else Encode(ts[0]) + EncodeAll(ts[1..])
  }

  /** The value of a node and the number of its children. */
  function ParseHead(s: seq<Byte>): (r: Parsed<(Word, Word)>)
    ensures r.Ok? ==> |r.rest| + 8 == |s|
  {
    match ParseInt(s, 4)
    case OutOfRange => OutOfRange
    case Ok(v, s1) =>
      match ParseInt(s1, 4)
      case OutOfRange => OutOfRange
      case Ok(n, body) =>
        ParsedIntBytes(s, 4);
        ParsedIntBytes(s1, 4);
        Pow256Of4();
        Ok((v, n), body)
  }

  lemma HeadParsesBack(v: Word, n: nat, body: seq<Byte>)
    ensures ParseHead(IntBytes(v, 4) + (SizeBytes(n) + body)) == Ok((v, n % TWO_32), body)
  {
    Pow256Of4();
    IntParsesBack(v, 4, SizeBytes(n) + body);
    SizeRoundTrip(n, body);
  }

  lemma ParsedHeadBytes(s: seq<Byte>)
    requires ParseHead(s).Ok?
    ensures var (v, n) := ParseHead(s).value;
            s == IntBytes(v, 4) + (SizeBytes(n) + ParseHead(s).rest)
  {
    var s1 := ParseInt(s, 4).rest;
    assert s == IntBytes(ParseInt(s, 4).value, 4) + s1 by {
      ParsedIntBytes(s, 4);
    }
    SizeParsed(s1);
  }

  lemma SizeParsed(s: seq<Byte>)
    requires ParseInt(s, 4).Ok?
    ensures s == SizeBytes(ParseInt(s, 4).value) + ParseInt(s, 4).rest
  {
    ParsedIntBytes(s, 4);
    Pow256Of4();
  }

  /** One node off the front of any bytes. Every node takes at least eight of them, which is
      why this ends. */
  function Decode(s: seq<Byte>): (r: Parsed<Tree>)
    ensures r.Ok? ==> |r.rest| + 8 <= |s|
    decreases |s|, 0, 0
  {
    match ParseHead(s)
    case OutOfRange => OutOfRange
    case Ok((v, n), body) =>
      match DecodeMore(body, n, [])
      case OutOfRange => OutOfRange
      case Ok(ts, rest) => Ok(Node(v, ts), rest)
  }

  /** n more children, appended to `acc`. */
  function DecodeMore(s: seq<Byte>, n: nat, acc: seq<Tree>): (r: Parsed<seq<Tree>>)
    ensures r.Ok? ==> |r.rest| <= |s|
    decreases |s|, 1, n
  {
    if n == 0 then Ok(acc, s)
    else
      match Decode(s)
      case OutOfRange => OutOfRange
      case Ok(t, rest) => DecodeMore(rest, n - 1, acc + [t])
  }

  /** Every node has fewer than 2^32 children. */
  predicate Sized(t: Tree) {
    |t.children| < TWO_32 && forall c :: c in t.children ==> Sized(c)
  }

  lemma {:induction false} DecodeEncode(t: Tree, rest: seq<Byte>)
    requires Sized(t)
    ensures Decode(Encode(t) + rest) == Ok(t, rest)
    decreases t, 1
  {
    var s, body := Encode(t) + rest, EncodeAll(t.children) + rest;
    assert ParseHead(s) == Ok((t.value, |t.children|), body) by {
      Regroup(IntBytes(t.value, 4), SizeBytes(|t.children|), EncodeAll(t.children), rest);
      HeadParsesBack(t.value, |t.children|, body);
    }
    assert DecodeMore(body, |t.children|, []) == Ok(t.children, rest) by {
      DecodeEncodeAll(t.children, [], rest);
      assert [] + t.children == t.children;
    }
  }

  lemma {:induction false} DecodeEncodeAll(ts: seq<Tree>, acc: seq<Tree>, rest: seq<Byte>)
    requires forall c :: c in ts ==> Sized(c)
    ensures DecodeMore(EncodeAll(ts) + rest, |ts|, acc) == Ok(acc + ts, rest)
    decreases ts, 0
  {
    if ts == [] {
      assert acc + ts == acc && EncodeAll(ts) + rest == rest;
    } else {
      var t, more := ts[0], ts[1..];
      assert t in ts && forall c :: c in more ==> c in ts;
      DecodeEncode(t, EncodeAll(more) + rest);
      DecodeEncodeAll(more, acc + [t], rest);
      DecodeFirst(t, more, acc, rest);
      assert ts == [t] + more && acc + [t] + more == acc + ts;
    }
  }

  /** The first of several trees is taken off the front. */
  lemma DecodeFirst(t: Tree, more: seq<Tree>, acc: seq<Tree>, rest: seq<Byte>)
    requires Decode(Encode(t) + (EncodeAll(more) + rest)) == Ok(t, EncodeAll(more) + rest)
    ensures DecodeMore(EncodeAll([t] + more) + rest, 1 + |more|, acc) ==
            DecodeMore(EncodeAll(more) + rest, |more|, acc + [t])
  {
    assert ([t] + more)[1..] == more;
    assert EncodeAll([t] + more) + rest == Encode(t) + (EncodeAll(more) + rest) by {
      Regroup(Encode(t), EncodeAll(more), rest, []);
    }
  }

  /** Whatever bytes decode are the encoding of the result, followed by the rest. */
  lemma {:induction false} EncodeDecode(s: seq<Byte>)
    requires Decode(s).Ok?
    ensures Sized(Decode(s).value) && s == Encode(Decode(s).value) + Decode(s).rest
    decreases |s|, 0, 0
  {
    ParsedHeadBytes(s);
    var (v, n) := ParseHead(s).value;
    var body := ParseHead(s).rest;
    EncodeDecodeMore(body, n, []);
    var ts, rest := DecodeMore(body, n, []).value, DecodeMore(body, n, []).rest;
    assert ts[0..] == ts;
    Compose(IntBytes(v, 4), SizeBytes(n), EncodeAll(ts), rest, SizeBytes(n) + body, s);
  }

  lemma {:induction false} EncodeDecodeMore(s: seq<Byte>, n: nat, acc: seq<Tree>)
    requires DecodeMore(s, n, acc).Ok?
    requires forall c :: c in acc ==> Sized(c)
    ensures var r := DecodeMore(s, n, acc);
            && |r.value| == |acc| + n && acc <= r.value
            && (forall c :: c in r.value ==> Sized(c))
            && s == EncodeAll(r.value[|acc|..]) + r.rest
    decreases |s|, 1, n
  {
    if n > 0 {
      EncodeDecode(s);
      var t, rest := Decode(s).value, Decode(s).rest;
      EncodeDecodeMore(rest, n - 1, acc + [t]);
      var r := DecodeMore(s, n, acc);
      var more := r.value[|acc|..];
      assert more[0] == t && more[1..] == r.value[|acc| + 1..];
    }
  }

  /** A tree comes back from its bytes, whatever follows them, exactly when every node has fewer
      than 2^32 children. */
  lemma RoundTripIff(t: Tree, rest: seq<Byte>)
    ensures Decode(Encode(t) + rest) == Ok(t, rest) <==> Sized(t)
  {
    if Sized(t) {
      DecodeEncode(t, rest);
    } else if Decode(Encode(t) + rest) == Ok(t, rest) {
      EncodeDecode(Encode(t) + rest);
    }
  }

  // ---------------------------------------------------------------- in place

  method SerializeNode(t: Tree, sink: Sink)
    modifies sink
    ensures sink.bytes == old(sink.bytes) + Encode(t)
    decreases t
  {
    sink.WriteInt(t.value, 4);
    sink.BeginSequence(|t.children|);
    ghost var start := sink.bytes;
    for i := 0 to |t.children|
      invariant sink.bytes + EncodeAll(t.children[i..]) == start + EncodeAll(t.children)
    {
      var cs := t.children[i..];
      assert cs[0] == t.children[i] && cs[1..] == t.children[i + 1..];
      Regroup(sink.bytes, Encode(cs[0]), EncodeAll(cs[1..]), []);
      SerializeNode(t.children[i], sink);
    }
    assert t.children[|t.children|..] == [] && sink.bytes + [] == sink.bytes;
    Regroup(old(sink.bytes), IntBytes(t.value, 4), SizeBytes(|t.children|), EncodeAll(t.children));
    Regroup(old(sink.bytes), IntBytes(t.value, 4) + SizeBytes(|t.children|), EncodeAll(t.children), []);
  }

  method ReadHead(source: Source) returns (r: Result<(Word, Word)>)
    requires source.Valid()
    modifies source
    ensures source.Valid() && source.pos >= old(source.pos)
    ensures match ParseHead(old(source.Ahead()))
            case OutOfRange => r == Failure
            case Ok(h, rest) => r == Success(h) && source.Ahead() == rest && source.pos == old(source.pos) + 8
  {
    ghost var s := source.Ahead();
    var value := source.ReadInt(4);
    if value.Failure? {
      return Failure;
    }
    ParsedIntBytes(s, 4);
    ParsedIntBytesAhead(source.Ahead());
    var count := source.BeginSequence();
    if count.Failure? {
      return Failure;
    }
    Pow256Of4();
    return Success((value.value, count.value));
  }

  lemma ParsedIntBytesAhead(s: seq<Byte>)
    ensures ParseInt(s, 4).Ok? ==> ParseInt(s, 4).value < Pow256(4)
  {
    if ParseInt(s, 4).Ok? {
      ParsedIntBytes(s, 4);
    }
  }

  /** On every buffer this ends, with the tree that is there or with a failure; the position
      never passes the end. */
  method DeserializeNode(source: Source) returns (r: Result<Tree>)
    requires source.Valid()
    modifies source
    ensures source.Valid() && source.pos >= old(source.pos)
    ensures match Decode(old(source.Ahead()))
            case OutOfRange => r == Failure
            case Ok(t, rest) => r == Success(t) && source.Ahead() == rest && source.pos >= old(source.pos) + 8
    decreases |source.buffer| - source.pos
  {
    var head := ReadHead(source);
    if head.Failure? {
      return Failure;
    }
    var (value, count) := head.value;
    var children: seq<Tree> := [];
    ghost var body := source.Ahead();
    for i := 0 to count
      invariant source.Valid() && source.pos >= old(source.pos) + 8
      invariant DecodeMore(body, count, []) == DecodeMore(source.Ahead(), count - i, children)
    {
      var child := DeserializeNode(source);
      if child.Failure? {
        return Failure;
      }
      children := children + [child.value];
    }
    return Success(Node(value, children));
  }
}
