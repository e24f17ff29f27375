/** Exactly which record sequences `unmarshal` accepts, and what it makes of them. */
module RpcAcceptance {
  import opened Prelude
  import opened RpcMessage

  /** The records carrying `tag`, in order. */
  function Sub(recs: seq<Rec>, tag: nat): (s: seq<Rec>)
    ensures |s| <= |recs|
    ensures forall i :: 0 <= i < |s| ==> s[i].tag == tag && s[i] in recs
  {
    if recs == [] then []
    else
      var n := |recs| - 1;
      Sub(recs[..n], tag) + if recs[n].tag == tag then [recs[n]] else []
  }

  /** Array fields hold arrays, the others a single value. */
  ghost predicate Shaped(es: seq<Entry>, cells: seq<Cell>) {
    |es| == |cells| && forall i :: 0 <= i < |es| ==> (cells[i].Many? <==> es[i].mode == Array)
  }

  /** The tag is declared and the payload decodes at its type. */
  predicate Readable(sch: Schema, es: seq<Entry>, r: Rec) {
    var at := FindTag(es, r.tag);
    at.Some? && Decode(sch, es[at.value].kind, r.payload).Some?
  }

  /** How many values a non-array field would have received. */
  function Load(c: Cell, e: Entry, recs: seq<Rec>): nat {
    |Sub(recs, e.tag)| + if c.isSet then 1 else 0
  }

  ghost predicate Fits(sch: Schema, es: seq<Entry>, cells: seq<Cell>, recs: seq<Rec>)
    requires |es| == |cells|
  {
    && (forall r :: r in recs ==> Readable(sch, es, r))
    && (forall i :: 0 <= i < |es| && es[i].mode != Array ==> Load(cells[i], es[i], recs) <= 1)
  }

  function Decoded(sch: Schema, k: Kind, r: Rec): Value {
    var v := Decode(sch, k, r.payload);
    if v.Some? then v.value else Num(0)
  }

  function DecodedAll(sch: Schema, k: Kind, recs: seq<Rec>): (vs: seq<Value>)
    ensures |vs| == |recs|
    ensures forall i :: 0 <= i < |vs| ==> vs[i] == Decoded(sch, k, recs[i])
  {
    seq(|recs|, i requires 0 <= i < |recs| => Decoded(sch, k, recs[i]))
  }

  /** A field's state after its own records `own` have been stored in it. */
  function CellAfter(sch: Schema, e: Entry, c: Cell, own: seq<Rec>): Cell {
    if own == [] then c
    else
      match c
      case One(_, _) => One(true, Decoded(sch, e.kind, own[|own| - 1]))
      case Many(_, items) => Many(true, items + DecodedAll(sch, e.kind, own))
  }

  lemma {:induction false} FindTagUnique(es: seq<Entry>, i: nat)
    requires DistinctTags(es) && i < |es|
    ensures FindTag(es, es[i].tag) == Some(i)
  {
    var at := FindTag(es, es[i].tag).value;
    assert es[at].tag == es[i].tag;
  }

  lemma {:induction false} CellAfterSnoc(sch: Schema, e: Entry, c: Cell, own: seq<Rec>, r: Rec)
    requires Decode(sch, e.kind, r.payload).Some?
    ensures CellAfter(sch, e, c, own + [r]) == StoreCell(e, CellAfter(sch, e, c, own), Decode(sch, e.kind, r.payload).value)
  {
    if c.Many? {
      assert DecodedAll(sch, e.kind, own + [r]) == DecodedAll(sch, e.kind, own) + [Decoded(sch, e.kind, r)];
      if own == [] {
        assert own + [r] == [r];
      }
    }
  }

  /** The loop succeeds exactly on the sequences that fit, and its effect on each field depends only on
      that field's own records. */
  lemma {:induction false} FeedExact(sch: Schema, es: seq<Entry>, cells: seq<Cell>, recs: seq<Rec>)
    requires DistinctTags(es) && Shaped(es, cells)
    ensures Feed(sch, es, cells, recs).Some? <==> Fits(sch, es, cells, recs)
    ensures Feed(sch, es, cells, recs).Some? ==> Shaped(es, Feed(sch, es, cells, recs).value)
    ensures Feed(sch, es, cells, recs).Some? ==>
      forall i :: 0 <= i < |es| ==>
        Feed(sch, es, cells, recs).value[i] == CellAfter(sch, es[i], cells[i], Sub(recs, es[i].tag))
  {
    if recs == [] {
    } else {
      var n := |recs| - 1;
      var front, r := recs[..n], recs[n];
      FeedExact(sch, es, cells, front);
      assert recs == front + [r];
      if Fits(sch, es, cells, front) {
        var before := Feed(sch, es, cells, front).value;
        AcceptExact(sch, es, cells, front, r, before);
      } else if i :| 0 <= i < |es| && es[i].mode != Array && Load(cells[i], es[i], front) > 1 {
        assert Load(cells[i], es[i], recs) > 1;
      } else {
        var q :| q in front && !Readable(sch, es, q);
        assert q in recs;
      }
    }
  }

  lemma {:induction false} SubSnoc(front: seq<Rec>, r: Rec, tag: nat)
    ensures Sub(front + [r], tag) == Sub(front, tag) + if r.tag == tag then [r] else []
  {
    assert (front + [r])[..|front|] == front;
  }

  /** Appending a readable record keeps the fit exactly when its field can still take it. */
  lemma {:induction false} FitsSnoc(sch: Schema, es: seq<Entry>, cells: seq<Cell>, front: seq<Rec>, r: Rec, k: nat)
    requires DistinctTags(es) && |es| == |cells| && k < |es| && es[k].tag == r.tag
    requires Fits(sch, es, cells, front) && Readable(sch, es, r)
    ensures Fits(sch, es, cells, front + [r]) <==> es[k].mode == Array || Load(cells[k], es[k], front) == 0
  {
    forall i | 0 <= i < |es|
      ensures Load(cells[i], es[i], front + [r]) == Load(cells[i], es[i], front) + if i == k then 1 else 0
    {
      SubSnoc(front, r, es[i].tag);
      if i != k {
        assert es[i].tag != es[k].tag;
      }
    }
    assert forall q :: q in front + [r] ==> q in front || q == r;
  }

  lemma {:induction false} AcceptExact(sch: Schema, es: seq<Entry>, cells: seq<Cell>, front: seq<Rec>, r: Rec,
                                       before: seq<Cell>)
    requires DistinctTags(es) && Shaped(es, cells) && Shaped(es, before)
    requires Fits(sch, es, cells, front)
    requires forall i :: 0 <= i < |es| ==> before[i] == CellAfter(sch, es[i], cells[i], Sub(front, es[i].tag))
    ensures var res := Accept(sch, es, before, r);
      && (res.Some? <==> Fits(sch, es, cells, front + [r]))
      && (res.Some? ==> Shaped(es, res.value))
      && (res.Some? ==> forall i :: 0 <= i < |es| ==>
            res.value[i] == CellAfter(sch, es[i], cells[i], Sub(front + [r], es[i].tag)))
  {
    if !Readable(sch, es, r) {
      assert r in front + [r];
    } else {
      var k := FindTag(es, r.tag).value;
      FitsSnoc(sch, es, cells, front, r, k);
      assert es[k].mode != Array ==> (before[k].isSet <==> Load(cells[k], es[k], front) > 0);
      var res := Accept(sch, es, before, r);
      if res.Some? {
        CellAfterSnoc(sch, es[k], cells[k], Sub(front, es[k].tag), r);
        forall i | 0 <= i < |es|
          ensures res.value[i] == CellAfter(sch, es[i], cells[i], Sub(front + [r], es[i].tag))
        {
          SubSnoc(front, r, es[i].tag);
          if i != k {
            assert es[i].tag != es[k].tag;
            assert Sub(front, es[i].tag) + [] == Sub(front, es[i].tag);
          }
        }
      }
    }
  }

  // ----- acceptance, declaratively -----

  /** A scalar's payload is acceptable when the primitive for its type can read it, a nested message's when it
      splits into records that are acceptable in turn. */
  ghost predicate AcceptedPayload(sch: Schema, k: Kind, b: seq<Byte>)
    decreases |b|, 2
  {
    match k
    case Nested(ref) =>
      var recs := sch.wire.split(b);
      recs.Some? && ref in sch.structs && Span(recs.value) <= |b| && Accepted(sch, sch.structs[ref], recs.value)
    case _ => sch.wire.decode(k, b).Some?
  }

  /** The record's tag is declared and its payload acceptable at the declared type. */
  ghost predicate AcceptedRec(sch: Schema, es: seq<Entry>, r: Rec)
    decreases |r.payload|, 3
  {
    exists i :: 0 <= i < |es| && es[i].tag == r.tag && AcceptedPayload(sch, es[i].kind, r.payload)
  }

  /** Every record has a declared tag and an acceptable payload, no single-valued field occurs twice,
      and every required field occurs. */
  ghost predicate Accepted(sch: Schema, es: seq<Entry>, recs: seq<Rec>)
    decreases Span(recs), 1
  {
    && (forall k :: 0 <= k < |recs| ==> AcceptedRec(sch, es, recs[k]))
    && NoRepeats(es, recs)
    && NoneMissing(es, recs)
  }

  ghost predicate NoRepeats(es: seq<Entry>, recs: seq<Rec>) {
    forall i :: 0 <= i < |es| && es[i].mode != Array ==> |Sub(recs, es[i].tag)| <= 1
  }

  ghost predicate NoneMissing(es: seq<Entry>, recs: seq<Rec>) {
    forall i :: 0 <= i < |es| && es[i].mode == Required ==> |Sub(recs, es[i].tag)| >= 1
  }

  /** What a decoder delivers is complete: nested messages were checked when they were read. */
  lemma {:induction false} DecodedComplete(sch: Schema, k: Kind, b: seq<Byte>)
    requires Lossless(sch.wire) && Decode(sch, k, b).Some?
    ensures CompleteValue(sch, k, Decode(sch, k, b).value)
  {
    assert !k.Nested? ==> ScalarOk(k, Decode(sch, k, b).value);
  }

  lemma {:induction false} FilledComplete(sch: Schema, e: Entry, own: seq<Rec>)
    requires forall j :: 0 <= j < |own| ==> CompleteValue(sch, e.kind, Decoded(sch, e.kind, own[j]))
    ensures CompleteCell(sch, e, CellAfter(sch, e, NewCell(e), own)) <==> (e.mode == Required ==> own != [])
  {
  }

  lemma {:induction false} FreshCellComplete(sch: Schema, es: seq<Entry>, recs: seq<Rec>, i: nat)
    requires Lossless(sch.wire) && DistinctTags(es) && i < |es| && forall r :: r in recs ==> Readable(sch, es, r)
    ensures CompleteCell(sch, es[i], CellAfter(sch, es[i], NewCell(es[i]), Sub(recs, es[i].tag))) <==>
            (es[i].mode == Required ==> Sub(recs, es[i].tag) != [])
  {
    var e, own := es[i], Sub(recs, es[i].tag);
    FindTagUnique(es, i);
    forall j | 0 <= j < |own|
      ensures CompleteValue(sch, e.kind, Decoded(sch, e.kind, own[j]))
    {
      assert Readable(sch, es, own[j]);
      DecodedComplete(sch, e.kind, own[j].payload);
    }
    FilledComplete(sch, e, own);
  }

  /** Starting from a fresh message, the final completeness check amounts to the required fields. */
  lemma {:induction false} FreshComplete(sch: Schema, es: seq<Entry>, recs: seq<Rec>)
    requires Lossless(sch.wire) && DistinctTags(es) && Fits(sch, es, New(es), recs)
    ensures Unmarshal(sch, es, New(es), recs).Some? <==> NoneMissing(es, recs)
  {
    var cells := FedFresh(sch, es, recs);
    FedComplete(sch, es, recs, cells);
    LastCheck(sch, es, New(es), recs);
  }

  lemma {:induction false} FedFresh(sch: Schema, es: seq<Entry>, recs: seq<Rec>) returns (cells: seq<Cell>)
    requires DistinctTags(es) && Fits(sch, es, New(es), recs)
    ensures Feed(sch, es, New(es), recs) == Some(cells) && |cells| == |es|
    ensures forall i :: 0 <= i < |es| ==> cells[i] == CellAfter(sch, es[i], NewCell(es[i]), Sub(recs, es[i].tag))
  {
    FeedExact(sch, es, New(es), recs);
    cells := Feed(sch, es, New(es), recs).value;
  }

  lemma {:induction false} LastCheck(sch: Schema, es: seq<Entry>, cells: seq<Cell>, recs: seq<Rec>)
    requires |es| == |cells| && Feed(sch, es, cells, recs).Some?
    ensures Unmarshal(sch, es, cells, recs).Some? <==> Complete(sch, es, Feed(sch, es, cells, recs).value)
  {
  }

  lemma {:induction false} FedComplete(sch: Schema, es: seq<Entry>, recs: seq<Rec>, cells: seq<Cell>)
    requires Lossless(sch.wire) && DistinctTags(es) && |cells| == |es|
    requires forall r :: r in recs ==> Readable(sch, es, r)
    requires forall i :: 0 <= i < |es| ==> cells[i] == CellAfter(sch, es[i], NewCell(es[i]), Sub(recs, es[i].tag))
    ensures Complete(sch, es, cells) <==> NoneMissing(es, recs)
  {
    forall i: nat | i < |es|
      ensures CompleteCell(sch, es[i], cells[i]) <==> (es[i].mode == Required ==> |Sub(recs, es[i].tag)| >= 1)
    {
      FreshCellComplete(sch, es, recs, i);
    }
  }

  lemma {:induction false} DecodeAccepts(sch: Schema, k: Kind, b: seq<Byte>)
    requires ValidSchema(sch)
    ensures Decode(sch, k, b).Some? <==> AcceptedPayload(sch, k, b)
    decreases |b|, 2
  {
    if k.Nested? && k.ref in sch.structs && sch.wire.split(b).Some? {
      var recs := sch.wire.split(b).value;
      assert Span(recs) <= |b|;
      UnmarshalAccepts(sch, sch.structs[k.ref], recs);
    }
  }

  lemma {:induction false} RecAccepts(sch: Schema, es: seq<Entry>, r: Rec)
    requires ValidSchema(sch) && DistinctTags(es)
    ensures Readable(sch, es, r) <==> AcceptedRec(sch, es, r)
    decreases |r.payload|, 3
  {
    var at := FindTag(es, r.tag);
    if at.Some? {
      DecodeAccepts(sch, es[at.value].kind, r.payload);
      assert forall i :: 0 <= i < |es| && es[i].tag == r.tag ==> i == at.value;
    }
  }

  /** Into a fresh message, unmarshal succeeds exactly on the accepted sequences, to any nesting depth. */
  lemma {:induction false} UnmarshalAccepts(sch: Schema, es: seq<Entry>, recs: seq<Rec>)
    requires ValidSchema(sch) && DistinctTags(es)
    ensures Unmarshal(sch, es, New(es), recs).Some? <==> Accepted(sch, es, recs)
    decreases Span(recs), 1
  {
    forall k | 0 <= k < |recs|
      ensures Readable(sch, es, recs[k]) <==> AcceptedRec(sch, es, recs[k])
    {
      RecAccepts(sch, es, recs[k]);
    }
    FreshFits(sch, es, recs);
    FreshFeeds(sch, es, recs);
    if Fits(sch, es, New(es), recs) {
      FreshComplete(sch, es, recs);
    }
  }

  lemma {:induction false} FreshFeeds(sch: Schema, es: seq<Entry>, recs: seq<Rec>)
    requires DistinctTags(es)
    ensures Unmarshal(sch, es, New(es), recs).Some? ==> Fits(sch, es, New(es), recs)
  {
    FeedExact(sch, es, New(es), recs);
  }

  lemma {:induction false} FreshFits(sch: Schema, es: seq<Entry>, recs: seq<Rec>)
    ensures Fits(sch, es, New(es), recs) <==>
            (forall k :: 0 <= k < |recs| ==> Readable(sch, es, recs[k])) && NoRepeats(es, recs)
  {
    assert forall i :: 0 <= i < |es| ==> Load(New(es)[i], es[i], recs) == |Sub(recs, es[i].tag)|;
  }

  // ----- order of records -----

  lemma {:induction false} SubCounts(recs: seq<Rec>, tag: nat, r: Rec)
    ensures multiset(Sub(recs, tag))[r] == if r.tag == tag then multiset(recs)[r] else 0
  {
    if recs != [] {
      var front, last := recs[..|recs| - 1], recs[|recs| - 1];
      assert recs == front + [last];
      SubCounts(front, tag, r);
    }
  }

  lemma {:induction false} SubSameBag(a: seq<Rec>, b: seq<Rec>, tag: nat)
    requires multiset(a) == multiset(b)
    ensures multiset(Sub(a, tag)) == multiset(Sub(b, tag)) && |Sub(a, tag)| == |Sub(b, tag)|
  {
    forall r: Rec
      ensures multiset(Sub(a, tag))[r] == multiset(Sub(b, tag))[r]
    {
      SubCounts(a, tag, r);
      SubCounts(b, tag, r);
    }
    assert multiset(Sub(a, tag)) == multiset(Sub(b, tag));
    assert |multiset(Sub(a, tag))| == |Sub(a, tag)| && |multiset(Sub(b, tag))| == |Sub(b, tag)|;
  }

  lemma {:induction false} SameMembers(a: seq<Rec>, b: seq<Rec>)
    requires multiset(a) == multiset(b)
    ensures forall r :: r in a <==> r in b
  {
    forall r: Rec
      ensures r in a <==> r in b
    {
      assert r in a <==> r in multiset(a);
      assert r in b <==> r in multiset(b);
    }
  }

  lemma {:induction false} SingletonSame(a: seq<Rec>, b: seq<Rec>)
    requires multiset(a) == multiset(b) && |a| == |b| <= 1
    ensures a == b
  {
    if a != [] {
      assert b[0] in multiset(b);
    }
  }

  /** A field whose own records are the same, in any order if there can be but one. */
  lemma {:induction false} OwnRecordsSame(a: seq<Rec>, b: seq<Rec>, tag: nat)
    requires multiset(a) == multiset(b) && |Sub(a, tag)| <= 1
    ensures Sub(a, tag) == Sub(b, tag)
  {
    SubSameBag(a, b, tag);
    SingletonSame(Sub(a, tag), Sub(b, tag));
  }

  lemma {:induction false} FitsPermuted(sch: Schema, es: seq<Entry>, cells: seq<Cell>, a: seq<Rec>, b: seq<Rec>)
    requires |es| == |cells| && multiset(a) == multiset(b)
    ensures Fits(sch, es, cells, a) <==> Fits(sch, es, cells, b)
  {
    SameMembers(a, b);
    forall i | 0 <= i < |es|
      ensures Load(cells[i], es[i], a) == Load(cells[i], es[i], b)
    {
      SubSameBag(a, b, es[i].tag);
    }
  }

  /** Rearranging the records, as long as each array keeps its own order, changes nothing: not the
      verdict and not the message, whatever message one starts from. */
  lemma {:induction false} PermutationInvariant(sch: Schema, es: seq<Entry>, cells: seq<Cell>, a: seq<Rec>, b: seq<Rec>)
    requires DistinctTags(es) && Shaped(es, cells)
    requires multiset(a) == multiset(b)
    requires forall i :: 0 <= i < |es| && es[i].mode == Array ==> Sub(a, es[i].tag) == Sub(b, es[i].tag)
    ensures Unmarshal(sch, es, cells, a) == Unmarshal(sch, es, cells, b)
  {
    FeedExact(sch, es, cells, a);
    FeedExact(sch, es, cells, b);
    FitsPermuted(sch, es, cells, a, b);
    if Fits(sch, es, cells, a) {
      forall i | 0 <= i < |es|
        ensures Sub(a, es[i].tag) == Sub(b, es[i].tag)
      {
        if es[i].mode != Array {
          assert Load(cells[i], es[i], a) <= 1;
          OwnRecordsSame(a, b, es[i].tag);
        }
      }
      assert Feed(sch, es, cells, a).value == Feed(sch, es, cells, b).value;
    }
  }
}
