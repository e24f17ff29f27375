/**
 The record layer is a parameter of the results about generated code.  This one, with numbers in unary, shows
 that what is asked of it can be met, for records of any size as for those of bounded size.
 */
module RpcWire {
  import opened Prelude
  import opened RpcMessage

  function Encode(k: Kind, v: Value): seq<Byte> {
    match v
    case Num(n) => seq(n, i => 1)
    case Str(s) => s
    case Raw(b) => b
    case _ => []
  }

  function Decode(k: Kind, b: seq<Byte>): (v: Option<Value>)
    ensures v.Some? ==> ScalarOk(k, v.value)
  {
    match k
    case Int32 => if |b| < 0x1_0000_0000 then Some(Num(|b|)) else None
    case Int64 => if |b| < 0x1_0000_0000_0000_0000 then Some(Num(|b|)) else None
    case Text => if 0 !in b then Some(Str(b)) else None
    case FixedBytes(n) => if |b| == n then Some(Raw(b)) else None
    case VarBytes => if |b| < 0x1_0000_0000 then Some(Raw(b)) else None
    case Nested(_) => None
  }

  /** A number in front of more bytes: ones ended by a zero. */
  function Number(n: nat, rest: seq<Byte>): seq<Byte> {
    seq(n, i => 1) + [0] + rest
  }

  function ReadNumber(b: seq<Byte>): (r: Option<nat>)
    ensures r.Some? ==> r.value < |b|
  {
    if b == [] then None
    else if b[0] == 0 then Some(0)
    else
      var r := ReadNumber(b[1..]);
      if r.Some? then Some(r.value + 1) else None
  }

  lemma {:induction false} NumberRead(n: nat, rest: seq<Byte>)
    ensures ReadNumber(Number(n, rest)) == Some(n) && Number(n, rest)[n + 1..] == rest
  {
    if n > 0 {
      assert Number(n, rest)[1..] == Number(n - 1, rest);
      NumberRead(n - 1, rest);
    }
  }

  function Join(recs: seq<Rec>): seq<Byte> {
    if recs == [] then []
    else Number(recs[0].tag, Number(|recs[0].payload|, recs[0].payload + Join(recs[1..])))
  }

  function Split(b: seq<Byte>): (recs: Option<seq<Rec>>)
    ensures recs.Some? ==> forall r :: r in recs.value ==> |r.payload| < |b|
    decreases |b|
  {
    if b == [] then Some([])
    else
      var tag := ReadNumber(b);
      if tag.None? then None
      else
        var c := b[tag.value + 1..];
        var len := ReadNumber(c);
        if len.None? || |c| < 2 * len.value + 1 then None
        else
          var d := c[len.value + 1..];
          var others := Split(d[len.value..]);
          if others.Some? then Some([Rec(tag.value, d[..len.value])] + others.value) else None
  }

  /** The bytes after the two numbers. */
  lemma {:induction false} SplitOne(r: Rec, tail: seq<Byte>, b: seq<Byte>, c: seq<Byte>, d: seq<Byte>)
    requires d == r.payload + tail && c == Number(|r.payload|, d) && b == Number(r.tag, c)
    requires Split(tail).Some?
    ensures Split(b) == Some([r] + Split(tail).value)
  {
    NumberRead(r.tag, c);
    NumberRead(|r.payload|, d);
    assert b[r.tag + 1..] == c && c[|r.payload| + 1..] == d;
    assert d[..|r.payload|] == r.payload && d[|r.payload|..] == tail;
  }

  lemma {:induction false} SplitJoin(recs: seq<Rec>)
    ensures Split(Join(recs)) == Some(recs)
    decreases |recs|
  {
    if recs != [] {
      var r, tail := recs[0], Join(recs[1..]);
      SplitJoin(recs[1..]);
      var d := r.payload + tail;
      SplitOne(r, tail, Join(recs), Number(|r.payload|, d), d);
      assert recs == [r] + recs[1..];
    }
  }

  lemma {:induction false} SpanWithin(recs: seq<Rec>, n: nat)
    requires forall r :: r in recs ==> |r.payload| < n
    ensures Span(recs) <= n
  {
    if recs != [] {
      var front, last := recs[..|recs| - 1], recs[|recs| - 1];
      assert last in recs && forall r :: r in front ==> r in recs;
      SpanWithin(front, n);
    }
  }

  lemma {:induction false} ScalarRead(k: Kind, v: Value)
    requires ScalarOk(k, v)
    ensures Decode(k, Encode(k, v)) == Some(v)
  {
  }

  function UnaryWire(fits: Rec -> bool): Wire {
    Wire(Encode, Decode, Join, Split, fits)
  }

  /** Whatever is taken to fit: everything, or only what has room in 32 bits (Fits32). */
  lemma {:induction false} UnaryLossless(fits: Rec -> bool)
    ensures Lossless(UnaryWire(fits))
  {
    var w := UnaryWire(fits);
    forall k, v | ScalarOk(k, v)
      ensures w.decode(k, w.encode(k, v)) == Some(v)
    {
      ScalarRead(k, v);
    }
    forall recs | AllFit(w, recs)
      ensures w.split(w.join(recs)) == Some(recs)
    {
      SplitJoin(recs);
    }
    forall b | w.split(b).Some?
      ensures Span(w.split(b).value) <= |b|
    {
      SpanWithin(Split(b).value, |b|);
    }
  }
}
