/** Marshalling an unmarshalled message gives the records back in canonical order. */
module RpcCanonical {
  import opened Prelude
  import opened RpcMessage
  import opened RpcAcceptance
  import opened RpcRoundTrip

  /** The canonical form of a payload: scalars as the primitives write them, nested messages rearranged. */
  function ArrangePayload(sch: Schema, k: Kind, b: seq<Byte>): seq<Byte>
    decreases |b|, 2
  {
    if k.Nested? then
      var recs := sch.wire.split(b);
      if k.ref in sch.structs && recs.Some? && Span(recs.value) <= |b|
      then sch.wire.join(Arrange(sch, sch.structs[k.ref], recs.value)) else b
    else
      var v := sch.wire.decode(k, b);
      if v.Some? then sch.wire.encode(k, v.value) else b
  }

  function ArrangeRec(sch: Schema, k: Kind, r: Rec): Rec
    decreases |r.payload|, 3
  {
    Rec(r.tag, ArrangePayload(sch, k, r.payload))
  }

  /** The records of one field, in their own order. */
  function ArrangeField(sch: Schema, e: Entry, recs: seq<Rec>): seq<Rec>
    decreases Span(recs), 0, |recs|
  {
    if recs == [] then []
    else
      var n := |recs| - 1;
      ArrangeField(sch, e, recs[..n]) + if recs[n].tag == e.tag then [ArrangeRec(sch, e.kind, recs[n])] else []
  }

  /** Field by field in declaration order. */
  function Arrange(sch: Schema, es: seq<Entry>, recs: seq<Rec>): seq<Rec>
    decreases Span(recs), 1, |es|
  {
    if es == [] then []
    else
      var n := |es| - 1;
      Arrange(sch, es[..n], recs) + ArrangeField(sch, es[n], recs)
  }

  lemma {:induction false} ArrangeFieldAt(sch: Schema, e: Entry, recs: seq<Rec>)
    ensures |ArrangeField(sch, e, recs)| == |Sub(recs, e.tag)|
    ensures forall j :: 0 <= j < |Sub(recs, e.tag)| ==>
      ArrangeField(sch, e, recs)[j] == ArrangeRec(sch, e.kind, Sub(recs, e.tag)[j])
  {
    if recs != [] {
      ArrangeFieldAt(sch, e, recs[..|recs| - 1]);
    }
  }

  lemma {:induction false} MarshalIsArranged(sch: Schema, es: seq<Entry>, cells: seq<Cell>, recs: seq<Rec>)
    requires |es| == |cells|
    requires forall i :: 0 <= i < |es| ==> MarshalCell(sch, es[i], cells[i]) == ArrangeField(sch, es[i], recs)
    ensures Marshal(sch, es, cells) == Arrange(sch, es, recs)
    decreases |es|
  {
    if es != [] {
      var n := |es| - 1;
      forall i | 0 <= i < n
        ensures MarshalCell(sch, es[..n][i], cells[..n][i]) == ArrangeField(sch, es[..n][i], recs)
      {
        assert es[..n][i] == es[i] && cells[..n][i] == cells[i];
      }
      MarshalIsArranged(sch, es[..n], cells[..n], recs);
    }
  }

  /** What is known of a value that came out of the decoder. */
  ghost predicate Canonical(sch: Schema, k: Kind, b: seq<Byte>, v: Value) {
    && ValueOk(sch, k, v) && SendableValue(sch, k, v) && SettledValue(sch, k, v) == v
    && MarshalValue(sch, k, v) == ArrangePayload(sch, k, b)
  }

  lemma {:induction false} DecodeCanonical(sch: Schema, k: Kind, b: seq<Byte>)
    requires ValidSchema(sch) && Decode(sch, k, b).Some?
    ensures Canonical(sch, k, b, Decode(sch, k, b).value)
    decreases |b|, 2
  {
    if k.Nested? {
      UnmarshalCanonical(sch, sch.structs[k.ref], sch.wire.split(b).value);
    } else {
      assert ScalarOk(k, Decode(sch, k, b).value);
    }
  }

  lemma {:induction false} RecCanonical(sch: Schema, k: Kind, r: Rec)
    requires ValidSchema(sch) && Decode(sch, k, r.payload).Some?
    ensures Canonical(sch, k, r.payload, Decode(sch, k, r.payload).value)
    decreases |r.payload|, 3
  {
    DecodeCanonical(sch, k, r.payload);
  }

  ghost predicate DecodesCanonically(sch: Schema, k: Kind, r: Rec) {
    Decode(sch, k, r.payload).Some? && Canonical(sch, k, r.payload, Decode(sch, k, r.payload).value)
  }

  /** A field's state agrees with the canonical records `arranged`. */
  ghost predicate Faithful(sch: Schema, e: Entry, c: Cell, arranged: seq<Rec>) {
    && CellOk(sch, e, c) && SendableCell(sch, e, c) && SettledCell(sch, e, c) == c
    && MarshalCell(sch, e, c) == arranged
  }

  lemma {:induction false} NoRecord(sch: Schema, e: Entry)
    requires e.mode != Required
    ensures Faithful(sch, e, NewCell(e), [])
  {
  }

  lemma {:induction false} OneRecord(sch: Schema, e: Entry, r: Rec)
    requires e.mode != Array && DecodesCanonically(sch, e.kind, r) && r.tag == e.tag
    ensures Faithful(sch, e, One(true, Decoded(sch, e.kind, r)), [ArrangeRec(sch, e.kind, r)])
  {
  }

  lemma {:induction false} ManyRecords(sch: Schema, e: Entry, own: seq<Rec>, arranged: seq<Rec>)
    requires e.mode == Array && own != []
    requires forall j :: 0 <= j < |own| ==> DecodesCanonically(sch, e.kind, own[j]) && own[j].tag == e.tag
    requires |arranged| == |own| && forall j :: 0 <= j < |own| ==> arranged[j] == ArrangeRec(sch, e.kind, own[j])
    ensures Faithful(sch, e, Many(true, DecodedAll(sch, e.kind, own)), arranged)
  {
    var vs := DecodedAll(sch, e.kind, own);
    var sent := MarshalItems(sch, e, vs);
    forall j: nat | j < |own|
      ensures ValueOk(sch, e.kind, vs[j]) && SendableValue(sch, e.kind, vs[j]) && SettledValue(sch, e.kind, vs[j]) == vs[j]
      ensures sent[j] == arranged[j]
    {
      MarshalItemsAt(sch, e, vs, j);
    }
    assert sent == arranged;
    assert SettledCell(sch, e, Many(true, vs)).items == vs;
  }

  /** One field that has received its own records `own`. */
  lemma {:induction false} FieldCanonical(sch: Schema, e: Entry, own: seq<Rec>, arranged: seq<Rec>)
    requires forall j :: 0 <= j < |own| ==> DecodesCanonically(sch, e.kind, own[j]) && own[j].tag == e.tag
    requires |arranged| == |own| && forall j :: 0 <= j < |own| ==> arranged[j] == ArrangeRec(sch, e.kind, own[j])
    requires e.mode != Array ==> |own| <= 1
    requires e.mode == Required ==> |own| >= 1
    ensures Faithful(sch, e, CellAfter(sch, e, NewCell(e), own), arranged)
  {
    if own == [] {
      NoRecord(sch, e);
      assert arranged == [];
    } else if e.mode != Array {
      OneRecord(sch, e, own[0]);
      assert arranged == [ArrangeRec(sch, e.kind, own[0])];
      assert CellAfter(sch, e, NewCell(e), own) == One(true, Decoded(sch, e.kind, own[0]));
    } else {
      ManyRecords(sch, e, own, arranged);
      assert [] + DecodedAll(sch, e.kind, own) == DecodedAll(sch, e.kind, own);
      assert CellAfter(sch, e, NewCell(e), own) == Many(true, DecodedAll(sch, e.kind, own));
    }
  }

  lemma {:induction false} OwnFaithful(sch: Schema, e: Entry, recs: seq<Rec>, c: Cell)
    requires c == CellAfter(sch, e, NewCell(e), Sub(recs, e.tag))
    requires forall j :: 0 <= j < |Sub(recs, e.tag)| ==> DecodesCanonically(sch, e.kind, Sub(recs, e.tag)[j])
    requires e.mode != Array ==> |Sub(recs, e.tag)| <= 1
    requires e.mode == Required ==> |Sub(recs, e.tag)| >= 1
    ensures Faithful(sch, e, c, ArrangeField(sch, e, recs))
  {
    ArrangeFieldAt(sch, e, recs);
    FieldCanonical(sch, e, Sub(recs, e.tag), ArrangeField(sch, e, recs));
  }

  lemma {:induction false} AllFaithful(sch: Schema, es: seq<Entry>, recs: seq<Rec>, cells: seq<Cell>)
    requires |es| == |cells|
    requires forall i :: 0 <= i < |es| ==> Faithful(sch, es[i], cells[i], ArrangeField(sch, es[i], recs))
    ensures CellsOk(sch, es, cells) && Sendable(sch, es, cells) && Settled(sch, es, cells) == cells
    ensures Marshal(sch, es, cells) == Arrange(sch, es, recs)
  {
    assert Settled(sch, es, cells) == cells;
    MarshalIsArranged(sch, es, cells, recs);
  }

  /** An unmarshalled message is well typed, free of null pointers and settled, and marshalling it yields the stable
      rearrangement of what was read into declaration order, at every level of nesting. */
  lemma {:induction false} UnmarshalCanonical(sch: Schema, es: seq<Entry>, recs: seq<Rec>)
    requires ValidSchema(sch) && DistinctTags(es)
    requires Unmarshal(sch, es, New(es), recs).Some?
    ensures var cells := Unmarshal(sch, es, New(es), recs).value;
      && CellsOk(sch, es, cells) && Sendable(sch, es, cells) && Settled(sch, es, cells) == cells
      && Marshal(sch, es, cells) == Arrange(sch, es, recs)
    decreases Span(recs), 1
  {
    FreshFeeds(sch, es, recs);
    FreshFits(sch, es, recs);
    FreshComplete(sch, es, recs);
    var cells := FedFresh(sch, es, recs);
    forall i: nat | i < |es|
      ensures Faithful(sch, es[i], cells[i], ArrangeField(sch, es[i], recs))
    {
      var own := Sub(recs, es[i].tag);
      FindTagUnique(es, i);
      forall j | 0 <= j < |own|
        ensures DecodesCanonically(sch, es[i].kind, own[j])
      {
        assert Readable(sch, es, own[j]);
        RecCanonical(sch, es[i].kind, own[j]);
      }
      OwnFaithful(sch, es[i], recs, cells[i]);
    }
    AllFaithful(sch, es, recs, cells);
  }

  /** The canonical form of a buffer's records, if they fit the encoding, means the same as the original. */
  lemma {:induction false} ArrangedSame(sch: Schema, name: string, recs: seq<Rec>)
    requires ValidSchema(sch) && name in sch.structs
    requires Unmarshal(sch, sch.structs[name], New(sch.structs[name]), recs).Some?
    requires InRange(sch, sch.structs[name], Unmarshal(sch, sch.structs[name], New(sch.structs[name]), recs).value)
    ensures Unmarshal(sch, sch.structs[name], New(sch.structs[name]), Arrange(sch, sch.structs[name], recs))
         == Unmarshal(sch, sch.structs[name], New(sch.structs[name]), recs)
  {
    var es := sch.structs[name];
    var cells := Unmarshal(sch, es, New(es), recs).value;
    UnmarshalCanonical(sch, es, recs);
    CellsRoundTrip(sch, es, cells);
  }

  // ----- a stable sort -----

  /** Each record with its payload in canonical form, in the order of arrival. */
  function ArrangeEach(sch: Schema, es: seq<Entry>, recs: seq<Rec>): (out: seq<Rec>)
    ensures |out| == |recs|
  {
    if recs == [] then []
    else
      var r := recs[|recs| - 1];
      var at := FindTag(es, r.tag);
      ArrangeEach(sch, es, recs[..|recs| - 1]) + [if at.Some? then ArrangeRec(sch, es[at.value].kind, r) else r]
  }

  predicate Declared(es: seq<Entry>, recs: seq<Rec>) {
    forall i :: 0 <= i < |recs| ==> FindTag(es, recs[i].tag).Some?
  }

  lemma {:induction false} OneMoreInField(sch: Schema, e: Entry, front: seq<Rec>, r: Rec)
    ensures ArrangeField(sch, e, front + [r]) ==
      ArrangeField(sch, e, front) + if r.tag == e.tag then [ArrangeRec(sch, e.kind, r)] else []
  {
    assert (front + [r])[..|front|] == front;
  }

  /** What record `r` adds: itself in canonical form, if its tag is declared. */
  function Added(sch: Schema, es: seq<Entry>, r: Rec): multiset<Rec> {
    var at := FindTag(es, r.tag);
    if at.Some? then multiset{ArrangeRec(sch, es[at.value].kind, r)} else multiset{}
  }

  lemma {:induction false} BagGrows(a: seq<Rec>, a': seq<Rec>, b: seq<Rec>, b': seq<Rec>, x: multiset<Rec>, y: multiset<Rec>)
    requires multiset(a') == multiset(a) + x && multiset(b') == multiset(b) + y
    ensures multiset(a' + b') == multiset(a + b) + (x + y)
  {
  }

  lemma {:induction false} OneMoreRecord(sch: Schema, es: seq<Entry>, front: seq<Rec>, r: Rec)
    requires DistinctTags(es)
    ensures multiset(Arrange(sch, es, front + [r])) == multiset(Arrange(sch, es, front)) + Added(sch, es, r)
    decreases |es|
  {
    if es != [] {
      var n := |es| - 1;
      var here := if r.tag == es[n].tag then multiset{ArrangeRec(sch, es[n].kind, r)} else multiset{};
      OneMoreRecord(sch, es[..n], front, r);
      OneMoreInField(sch, es[n], front, r);
      BagGrows(Arrange(sch, es[..n], front), Arrange(sch, es[..n], front + [r]),
               ArrangeField(sch, es[n], front), ArrangeField(sch, es[n], front + [r]), Added(sch, es[..n], r), here);
      LastAdded(sch, es, r);
    }
  }

  lemma {:induction false} LastAdded(sch: Schema, es: seq<Entry>, r: Rec)
    requires es != [] && DistinctTags(es)
    ensures var n := |es| - 1;
      Added(sch, es, r) == Added(sch, es[..n], r) +
        if r.tag == es[n].tag then multiset{ArrangeRec(sch, es[n].kind, r)} else multiset{}
  {
    if r.tag == es[|es| - 1].tag {
      assert FindTag(es[..|es| - 1], r.tag).None?;
    }
  }

  lemma {:induction false} ArrangeKeeps(sch: Schema, es: seq<Entry>, recs: seq<Rec>)
    requires DistinctTags(es) && Declared(es, recs)
    ensures multiset(Arrange(sch, es, recs)) == multiset(ArrangeEach(sch, es, recs))
  {
    if recs == [] {
      ArrangeNothing(sch, es);
    } else {
      var front, r := recs[..|recs| - 1], recs[|recs| - 1];
      assert recs == front + [r];
      ArrangeKeeps(sch, es, front);
      OneMoreRecord(sch, es, front, r);
    }
  }

  lemma {:induction false} ArrangeNothing(sch: Schema, es: seq<Entry>)
    ensures Arrange(sch, es, []) == []
    decreases |es|
  {
    if es != [] {
      ArrangeNothing(sch, es[..|es| - 1]);
    }
  }

  lemma {:induction false} FieldTags(sch: Schema, e: Entry, recs: seq<Rec>)
    ensures forall r :: r in ArrangeField(sch, e, recs) ==> r.tag == e.tag
  {
    if recs != [] {
      FieldTags(sch, e, recs[..|recs| - 1]);
    }
  }

  /** Where a tag stands in the declaration. */
  function Rank(es: seq<Entry>, r: Rec): nat {
    var at := FindTag(es, r.tag);
    if at.Some? then at.value else |es|
  }

  ghost predicate InOrder(es: seq<Entry>, recs: seq<Rec>) {
    && Declared(es, recs)
    && forall p, q :: 0 <= p < q < |recs| ==> Rank(es, recs[p]) <= Rank(es, recs[q])
  }

  /** A record of an earlier field keeps its rank when a field is declared after it. */
  lemma {:induction false} RankFront(es: seq<Entry>, r: Rec)
    requires es != [] && DistinctTags(es) && FindTag(es[..|es| - 1], r.tag).Some?
    ensures r.tag != es[|es| - 1].tag && FindTag(es, r.tag) == FindTag(es[..|es| - 1], r.tag)
  {
    var at := FindTag(es[..|es| - 1], r.tag).value;
    assert es[at].tag == r.tag;
  }

  lemma {:induction false} AppendField(es: seq<Entry>, front: seq<Rec>, last: seq<Rec>)
    requires es != [] && DistinctTags(es) && InOrder(es[..|es| - 1], front)
    requires forall q :: 0 <= q < |last| ==> last[q].tag == es[|es| - 1].tag
    ensures InOrder(es, front + last)
  {
    forall p | 0 <= p < |front|
      ensures front[p].tag != es[|es| - 1].tag && FindTag(es, front[p].tag) == FindTag(es[..|es| - 1], front[p].tag)
    {
      RankFront(es, front[p]);
    }
    var all := front + last;
    forall p | 0 <= p < |all|
      ensures FindTag(es, all[p].tag) == if p < |front| then FindTag(es[..|es| - 1], front[p].tag) else Some(|es| - 1)
    {
    }
  }

  lemma {:induction false} ArrangeSorted(sch: Schema, es: seq<Entry>, recs: seq<Rec>)
    requires DistinctTags(es)
    ensures InOrder(es, Arrange(sch, es, recs))
    decreases |es|
  {
    if es != [] {
      var n := |es| - 1;
      ArrangeSorted(sch, es[..n], recs);
      FieldTags(sch, es[n], recs);
      AppendField(es, Arrange(sch, es[..n], recs), ArrangeField(sch, es[n], recs));
    }
  }

  lemma {:induction false} EarlierTags(es: seq<Entry>, front: seq<Rec>)
    requires es != [] && DistinctTags(es) && Declared(es[..|es| - 1], front)
    ensures forall r :: r in front ==> r.tag != es[|es| - 1].tag
  {
    forall r | r in front
      ensures r.tag != es[|es| - 1].tag
    {
      RankFront(es, r);
    }
  }

  lemma {:induction false} SubAppend(front: seq<Rec>, last: seq<Rec>, tag: nat, own: nat)
    requires forall r :: r in last ==> r.tag == own
    requires tag == own ==> forall r :: r in front ==> r.tag != own
    ensures Sub(front + last, tag) == if tag == own then last else Sub(front, tag)
  {
    SubConcat(front, last, tag);
    SubAll(last, tag);
    if tag == own {
      SubAll(front, tag);
    }
  }

  lemma {:induction false} ArrangeSubLast(sch: Schema, es: seq<Entry>, recs: seq<Rec>, tag: nat)
    requires DistinctTags(es) && es != []
    ensures var n := |es| - 1;
      Sub(Arrange(sch, es, recs), tag) ==
        if tag == es[n].tag then ArrangeField(sch, es[n], recs) else Sub(Arrange(sch, es[..n], recs), tag)
  {
    var n := |es| - 1;
    FieldTags(sch, es[n], recs);
    ArrangeSorted(sch, es[..n], recs);
    EarlierTags(es, Arrange(sch, es[..n], recs));
    SubAppend(Arrange(sch, es[..n], recs), ArrangeField(sch, es[n], recs), tag, es[n].tag);
  }

  lemma {:induction false} ArrangeSub(sch: Schema, es: seq<Entry>, recs: seq<Rec>, i: nat)
    requires DistinctTags(es) && i < |es|
    ensures Sub(Arrange(sch, es, recs), es[i].tag) == ArrangeField(sch, es[i], recs)
    decreases |es|
  {
    var n := |es| - 1;
    ArrangeSubLast(sch, es, recs, es[i].tag);
    if i < n {
      assert es[i].tag != es[n].tag;
      ArrangeSub(sch, es[..n], recs, i);
    }
  }

  /** The canonical form is a stable sort of the records into declaration order: the same records up to their
      payloads' canonical form, none lost or invented, in the order of their fields, and within
      a field in the order of arrival. */
  lemma {:induction false} ArrangeIsStableSort(sch: Schema, es: seq<Entry>, recs: seq<Rec>)
    requires DistinctTags(es) && Declared(es, recs)
    ensures var out := Arrange(sch, es, recs);
      && multiset(out) == multiset(ArrangeEach(sch, es, recs))
      && InOrder(es, out)
      && forall i :: 0 <= i < |es| ==>
           && |Sub(out, es[i].tag)| == |Sub(recs, es[i].tag)|
           && forall j :: 0 <= j < |Sub(recs, es[i].tag)| ==>
                Sub(out, es[i].tag)[j] == ArrangeRec(sch, es[i].kind, Sub(recs, es[i].tag)[j])
  {
    ArrangeKeeps(sch, es, recs);
    ArrangeSorted(sch, es, recs);
    forall i: nat | i < |es|
      ensures Sub(Arrange(sch, es, recs), es[i].tag) == ArrangeField(sch, es[i], recs)
      ensures |ArrangeField(sch, es[i], recs)| == |Sub(recs, es[i].tag)|
      ensures forall j :: 0 <= j < |Sub(recs, es[i].tag)| ==>
        ArrangeField(sch, es[i], recs)[j] == ArrangeRec(sch, es[i].kind, Sub(recs, es[i].tag)[j])
    {
      ArrangeSub(sch, es, recs, i);
      ArrangeFieldAt(sch, es[i], recs);
    }
  }
}
