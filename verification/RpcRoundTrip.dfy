/** Unmarshalling what was marshalled, and marshalling what was unmarshalled. */
module RpcRoundTrip {
  import opened Prelude
  import opened RpcMessage
  import opened RpcAcceptance

  // ----- well-typed messages -----

  predicate ValueOk(sch: Schema, k: Kind, v: Value)
    decreases v, 0
  {
    match k
    case Nested(ref) => v.Msg? && ref in sch.structs && CellsOk(sch, sch.structs[ref], v.m.cells)
    case _ => ScalarOk(k, v)
  }

  /** The emitted add of a string array takes a null pointer and stores it. */
  predicate CellOk(sch: Schema, e: Entry, c: Cell)
    decreases c, 0
  {
    match c
    case One(isSet, data) =>
      && e.mode != Array
      && (isSet || (!e.kind.Text? && !e.kind.Nested?) ==> !data.Null?)
      && (!data.Null? ==> ValueOk(sch, e.kind, data))
    case Many(isSet, items) =>
      && e.mode == Array
      && (isSet <==> items != [])
      && forall i :: 0 <= i < |items| ==> (e.kind.Text? && items[i].Null?) || ValueOk(sch, e.kind, items[i])
  }

  predicate CellsOk(sch: Schema, es: seq<Entry>, cells: seq<Cell>)
    decreases cells, 0
  {
    |es| == |cells| && forall i :: 0 <= i < |cells| ==> CellOk(sch, es[i], cells[i])
  }

  /** No null pointer is met when marshalling: optional fields may be unset, a required string or struct and the
      elements of an array must at least be there. */
  predicate SendableValue(sch: Schema, k: Kind, v: Value)
    decreases v, 0
  {
    !v.Null? && (v.Msg? ==> Sendable(sch, EntriesOf(sch, k), v.m.cells))
  }

  predicate SendableCell(sch: Schema, e: Entry, c: Cell)
    decreases c, 0
  {
    match c
    case One(isSet, data) => (e.mode == Optional && !isSet) || SendableValue(sch, e.kind, data)
    case Many(isSet, items) => forall i :: 0 <= i < |items| ==> SendableValue(sch, e.kind, items[i])
  }

  predicate Sendable(sch: Schema, es: seq<Entry>, cells: seq<Cell>)
    decreases cells, 0
  {
    |es| == |cells| && forall i :: 0 <= i < |cells| ==> SendableCell(sch, es[i], cells[i])
  }

  /** What a receiver sees: required fields set, unset fields as new. */
  function SettledValue(sch: Schema, k: Kind, v: Value): Value
    decreases v, 0
  {
    match v
    case Msg(m) => Msg(Message(Settled(sch, EntriesOf(sch, k), m.cells)))
    case _ => v
  }

  function SettledCell(sch: Schema, e: Entry, c: Cell): Cell
    decreases c, 0
  {
    match c
    case One(isSet, data) =>
      if (e.mode == Optional && !isSet) || data.Null? then NewCell(e)
      else One(true, SettledValue(sch, e.kind, data))
    case Many(isSet, items) =>
      Many(items != [], seq(|items|, i requires 0 <= i < |items| => SettledValue(sch, e.kind, items[i])))
  }

  function Settled(sch: Schema, es: seq<Entry>, cells: seq<Cell>): (settled: seq<Cell>)
    decreases cells, 0
    ensures |settled| == |cells|
  {
    seq(|cells|, i requires 0 <= i < |cells| => if i < |es| then SettledCell(sch, es[i], cells[i]) else cells[i])
  }

  /** Every record that marshalling writes, at every depth, is one the encoding has room for. */
  predicate InRangeValue(sch: Schema, k: Kind, v: Value)
    decreases v, 0
  {
    v.Msg? ==> InRange(sch, EntriesOf(sch, k), v.m.cells)
  }

  predicate InRangeCell(sch: Schema, e: Entry, c: Cell)
    decreases c, 0
  {
    match c
    case One(isSet, data) => (e.mode == Optional && !isSet) || InRangeValue(sch, e.kind, data)
    case Many(_, items) => forall i :: 0 <= i < |items| ==> InRangeValue(sch, e.kind, items[i])
  }

  predicate InRange(sch: Schema, es: seq<Entry>, cells: seq<Cell>)
    decreases cells, 0
  {
    && |es| == |cells| && AllFit(sch.wire, Marshal(sch, es, cells))
    && forall i :: 0 <= i < |cells| ==> InRangeCell(sch, es[i], cells[i])
  }

  /** What a caller can check before marshalling a complete message: no string array in it, at any depth, holds
      a null element. */
  predicate NoNullIn(sch: Schema, k: Kind, v: Value)
    decreases v, 0
  {
    v.Msg? ==> NoNullElements(sch, EntriesOf(sch, k), v.m.cells)
  }

  predicate NoNullInCell(sch: Schema, e: Entry, c: Cell)
    decreases c, 0
  {
    c.isSet ==>
      match c
      case One(_, data) => NoNullIn(sch, e.kind, data)
      case Many(_, items) => forall i :: 0 <= i < |items| ==> !items[i].Null? && NoNullIn(sch, e.kind, items[i])
  }

  predicate NoNullElements(sch: Schema, es: seq<Entry>, cells: seq<Cell>)
    decreases cells, 0
  {
    |es| == |cells| && forall i :: 0 <= i < |cells| ==> NoNullInCell(sch, es[i], cells[i])
  }

  /** Equal as far as the accessors can tell: same flags, and same values wherever the flag is set. */
  predicate SameValue(sch: Schema, k: Kind, a: Value, b: Value)
    decreases a, 0
  {
    match a
    case Msg(m) => b.Msg? && Same(sch, EntriesOf(sch, k), m.cells, b.m.cells)
    case _ => a == b
  }

  predicate SameCell(sch: Schema, e: Entry, a: Cell, b: Cell)
    decreases a, 0
  {
    && a.isSet == b.isSet
    && match a
       case One(isSet, data) =>
         b.One? && (isSet ==> SameValue(sch, e.kind, data, b.data))
       case Many(isSet, items) =>
         b.Many? && |items| == |b.items| && forall i :: 0 <= i < |items| ==> SameValue(sch, e.kind, items[i], b.items[i])
  }

  predicate Same(sch: Schema, es: seq<Entry>, a: seq<Cell>, b: seq<Cell>)
    decreases a, 0
  {
    |es| == |a| == |b| && forall i :: 0 <= i < |a| ==> SameCell(sch, es[i], a[i], b[i])
  }

  // ----- round trip -----

  lemma {:induction false} MarshalItemsAt(sch: Schema, e: Entry, items: seq<Value>, j: nat)
    requires j < |items|
    ensures MarshalItems(sch, e, items)[j] == Rec(e.tag, MarshalValue(sch, e.kind, items[j]))
  {
    if j < |items| - 1 {
      MarshalItemsAt(sch, e, items[..|items| - 1], j);
    }
  }

  lemma {:induction false} MarshalCellTags(sch: Schema, e: Entry, c: Cell)
    ensures forall r :: r in MarshalCell(sch, e, c) ==> r.tag == e.tag
  {
    if c.Many? && c.isSet {
      forall j: nat | j < |c.items|
        ensures MarshalItems(sch, e, c.items)[j].tag == e.tag
      {
        MarshalItemsAt(sch, e, c.items, j);
      }
    }
  }

  lemma {:induction false} SubAll(recs: seq<Rec>, tag: nat)
    ensures (forall r :: r in recs ==> r.tag == tag) ==> Sub(recs, tag) == recs
    ensures (forall r :: r in recs ==> r.tag != tag) ==> Sub(recs, tag) == []
  {
    if recs != [] {
      var front := recs[..|recs| - 1];
      SubAll(front, tag);
      assert recs == front + [recs[|recs| - 1]];
      assert forall r :: r in front ==> r in recs;
    }
  }

  lemma {:induction false} SubConcat(a: seq<Rec>, b: seq<Rec>, tag: nat)
    ensures Sub(a + b, tag) == Sub(a, tag) + Sub(b, tag)
  {
    if b == [] {
      assert a + b == a;
    } else {
      SubConcat(a, b[..|b| - 1], tag);
      assert (a + b)[..|a + b| - 1] == a + b[..|b| - 1];
    }
  }

  lemma {:induction false} SubMarshalLast(sch: Schema, es: seq<Entry>, cells: seq<Cell>, tag: nat)
    requires |es| == |cells| > 0
    ensures var n := |es| - 1;
      Sub(Marshal(sch, es, cells), tag) ==
        Sub(Marshal(sch, es[..n], cells[..n]), tag) + if es[n].tag == tag then MarshalCell(sch, es[n], cells[n]) else []
  {
    var n := |es| - 1;
    SubConcat(Marshal(sch, es[..n], cells[..n]), MarshalCell(sch, es[n], cells[n]), tag);
    MarshalCellTags(sch, es[n], cells[n]);
    SubAll(MarshalCell(sch, es[n], cells[n]), tag);
  }

  lemma {:induction false} SubMarshalNone(sch: Schema, es: seq<Entry>, cells: seq<Cell>, tag: nat)
    requires |es| == |cells| && forall i :: 0 <= i < |es| ==> es[i].tag != tag
    ensures Sub(Marshal(sch, es, cells), tag) == []
    decreases |es|
  {
    if cells != [] {
      SubMarshalLast(sch, es, cells, tag);
      SubMarshalNone(sch, es[..|es| - 1], cells[..|es| - 1], tag);
    }
  }

  /** Each field's records can be picked out of the marshalled message by tag. */
  lemma {:induction false} SubMarshal(sch: Schema, es: seq<Entry>, cells: seq<Cell>, i: nat)
    requires DistinctTags(es) && |es| == |cells| && i < |es|
    ensures Sub(Marshal(sch, es, cells), es[i].tag) == MarshalCell(sch, es[i], cells[i])
    decreases |es|
  {
    var n := |es| - 1;
    SubMarshalLast(sch, es, cells, es[i].tag);
    if i == n {
      SubMarshalNone(sch, es[..n], cells[..n], es[i].tag);
    } else {
      SubMarshal(sch, es[..n], cells[..n], i);
      assert es[i].tag != es[n].tag;
    }
  }

  lemma {:induction false} MarshalMember(sch: Schema, es: seq<Entry>, cells: seq<Cell>, r: Rec) returns (i: nat)
    requires |es| == |cells| && r in Marshal(sch, es, cells)
    ensures i < |es| && r in MarshalCell(sch, es[i], cells[i])
    decreases |es|
  {
    var n := |es| - 1;
    if r in MarshalCell(sch, es[n], cells[n]) {
      i := n;
    } else {
      i := MarshalMember(sch, es[..n], cells[..n], r);
    }
  }

  lemma {:induction false} ValueRoundTrip(sch: Schema, k: Kind, v: Value)
    requires ValidSchema(sch) && ValueOk(sch, k, v) && SendableValue(sch, k, v) && InRangeValue(sch, k, v)
    ensures Decode(sch, k, MarshalValue(sch, k, v)) == Some(SettledValue(sch, k, v))
    decreases v, 0
  {
    if v.Msg? {
      var recs := Marshal(sch, EntriesOf(sch, k), v.m.cells);
      assert sch.wire.split(sch.wire.join(recs)) == Some(recs);
      CellsRoundTrip(sch, sch.structs[k.ref], v.m.cells);
    }
  }

  /** Elements that decode one by one decode to the settled array. */
  lemma {:induction false} ArrayDecodes(sch: Schema, e: Entry, c: Cell, own: seq<Rec>)
    requires CellOk(sch, e, c) && c.Many? && |own| == |c.items|
    requires forall j :: 0 <= j < |own| ==>
      Decode(sch, e.kind, own[j].payload) == Some(SettledValue(sch, e.kind, c.items[j]))
    ensures CellAfter(sch, e, NewCell(e), own) == SettledCell(sch, e, c)
  {
    if own != [] {
      assert CellAfter(sch, e, NewCell(e), own) == Many(true, [] + DecodedAll(sch, e.kind, own));
      assert DecodedAll(sch, e.kind, own) == SettledCell(sch, e, c).items;
    }
  }

  /** A field's own records decode to the settled field. */
  lemma {:induction false} CellRoundTrip(sch: Schema, e: Entry, c: Cell)
    requires ValidSchema(sch) && CellOk(sch, e, c) && SendableCell(sch, e, c) && InRangeCell(sch, e, c)
    ensures forall r :: r in MarshalCell(sch, e, c) ==> Decode(sch, e.kind, r.payload).Some?
    ensures e.mode != Array ==> |MarshalCell(sch, e, c)| <= 1
    ensures e.mode == Required ==> |MarshalCell(sch, e, c)| >= 1
    ensures CellAfter(sch, e, NewCell(e), MarshalCell(sch, e, c)) == SettledCell(sch, e, c)
    decreases c, 1
  {
    match c
    case One(isSet, data) =>
      if !(e.mode == Optional && !isSet) {
        ValueRoundTrip(sch, e.kind, data);
      }
    case Many(isSet, items) =>
      var own := MarshalCell(sch, e, c);
      forall j: nat | j < |items|
        ensures Decode(sch, e.kind, own[j].payload) == Some(SettledValue(sch, e.kind, items[j]))
      {
        MarshalItemsAt(sch, e, items, j);
        ValueRoundTrip(sch, e.kind, items[j]);
      }
      ArrayDecodes(sch, e, c, own);
  }

  /** Unmarshalling the marshalled form of any message that can be marshalled at all, complete or not,
      succeeds and yields the settled message. */
  lemma {:induction false} CellsRoundTrip(sch: Schema, es: seq<Entry>, cells: seq<Cell>)
    requires ValidSchema(sch) && DistinctTags(es)
    requires CellsOk(sch, es, cells) && Sendable(sch, es, cells) && InRange(sch, es, cells)
    ensures Unmarshal(sch, es, New(es), Marshal(sch, es, cells)) == Some(Settled(sch, es, cells))
    decreases cells, 2
  {
    var recs := Marshal(sch, es, cells);
    forall i: nat | i < |es|
      ensures Sub(recs, es[i].tag) == MarshalCell(sch, es[i], cells[i])
      ensures forall r :: r in MarshalCell(sch, es[i], cells[i]) ==> Decode(sch, es[i].kind, r.payload).Some?
      ensures es[i].mode != Array ==> |MarshalCell(sch, es[i], cells[i])| <= 1
      ensures es[i].mode == Required ==> |MarshalCell(sch, es[i], cells[i])| >= 1
      ensures CellAfter(sch, es[i], NewCell(es[i]), MarshalCell(sch, es[i], cells[i])) == SettledCell(sch, es[i], cells[i])
    {
      SubMarshal(sch, es, cells, i);
      CellRoundTrip(sch, es[i], cells[i]);
    }
    AssembleFits(sch, es, cells);
    Assemble(sch, es, cells, recs);
  }

  lemma {:induction false} AssembleFits(sch: Schema, es: seq<Entry>, cells: seq<Cell>)
    requires DistinctTags(es) && |es| == |cells|
    requires forall i :: 0 <= i < |es| ==> Sub(Marshal(sch, es, cells), es[i].tag) == MarshalCell(sch, es[i], cells[i])
    requires forall i :: 0 <= i < |es| ==>
      forall r :: r in MarshalCell(sch, es[i], cells[i]) ==> Decode(sch, es[i].kind, r.payload).Some?
    requires forall i :: 0 <= i < |es| && es[i].mode != Array ==> |MarshalCell(sch, es[i], cells[i])| <= 1
    ensures Fits(sch, es, New(es), Marshal(sch, es, cells))
  {
    var recs := Marshal(sch, es, cells);
    forall r | r in recs
      ensures Readable(sch, es, r)
    {
      var i := MarshalMember(sch, es, cells, r);
      MarshalCellTags(sch, es[i], cells[i]);
      FindTagUnique(es, i);
    }
    FreshFits(sch, es, recs);
  }

  /** When every field's own records decode to the settled field, the whole message does. */
  lemma {:induction false} Assemble(sch: Schema, es: seq<Entry>, cells: seq<Cell>, recs: seq<Rec>)
    requires Lossless(sch.wire) && DistinctTags(es) && |es| == |cells|
    requires Fits(sch, es, New(es), recs) && NoneMissing(es, recs)
    requires forall i :: 0 <= i < |es| ==>
      CellAfter(sch, es[i], NewCell(es[i]), Sub(recs, es[i].tag)) == SettledCell(sch, es[i], cells[i])
    ensures Unmarshal(sch, es, New(es), recs) == Some(Settled(sch, es, cells))
  {
    var got := FedFresh(sch, es, recs);
    assert got == Settled(sch, es, cells);
    FreshComplete(sch, es, recs);
    LastCheck(sch, es, New(es), recs);
  }

  // ----- complete messages -----

  lemma {:induction false} CompleteValueSent(sch: Schema, k: Kind, v: Value)
    requires ValueOk(sch, k, v) && CompleteValue(sch, k, v)
    ensures SendableValue(sch, k, v) <==> NoNullIn(sch, k, v)
    ensures SameValue(sch, k, v, SettledValue(sch, k, v))
    decreases v, 0
  {
    if v.Msg? {
      CompleteSent(sch, EntriesOf(sch, k), v.m.cells);
    }
  }

  lemma {:induction false} CompleteCellSent(sch: Schema, e: Entry, c: Cell)
    requires CellOk(sch, e, c) && CompleteCell(sch, e, c)
    ensures SendableCell(sch, e, c) <==> NoNullInCell(sch, e, c)
    ensures SameCell(sch, e, c, SettledCell(sch, e, c))
    decreases c, 1
  {
    match c
    case One(isSet, data) =>
      if isSet {
        CompleteValueSent(sch, e.kind, data);
      }
    case Many(isSet, items) =>
      forall i: nat | i < |items|
        ensures SendableValue(sch, e.kind, items[i]) <==> !items[i].Null? && NoNullIn(sch, e.kind, items[i])
        ensures SameValue(sch, e.kind, items[i], SettledValue(sch, e.kind, items[i]))
      {
        if !items[i].Null? {
          CompleteValueSent(sch, e.kind, items[i]);
        }
      }
  }

  /** A complete message can be marshalled exactly when it holds no null element, and settling it changes
      nothing that can be observed. */
  lemma {:induction false} CompleteSent(sch: Schema, es: seq<Entry>, cells: seq<Cell>)
    requires CellsOk(sch, es, cells) && Complete(sch, es, cells)
    ensures Sendable(sch, es, cells) <==> NoNullElements(sch, es, cells)
    ensures Same(sch, es, cells, Settled(sch, es, cells))
    decreases cells, 2
  {
    forall i: nat | i < |cells|
      ensures SendableCell(sch, es[i], cells[i]) <==> NoNullInCell(sch, es[i], cells[i])
      ensures SameCell(sch, es[i], cells[i], SettledCell(sch, es[i], cells[i]))
    {
      CompleteCellSent(sch, es[i], cells[i]);
    }
  }

  /** Round trip: for every schema, every struct in it and every complete message, marshalling meets no null
      pointer exactly when no string array holds one, and then, if its records fit the encoding, unmarshalling
      succeeds with an equal message, flags included, to any depth. */
  lemma {:induction false} RoundTrip(sch: Schema, name: string, cells: seq<Cell>)
    requires ValidSchema(sch) && name in sch.structs
    requires CellsOk(sch, sch.structs[name], cells) && Complete(sch, sch.structs[name], cells)
    ensures Sendable(sch, sch.structs[name], cells) <==> NoNullElements(sch, sch.structs[name], cells)
    ensures NoNullElements(sch, sch.structs[name], cells) && InRange(sch, sch.structs[name], cells) ==>
      var back := FromWire(sch, sch.structs[name], ToWire(sch, sch.structs[name], cells));
      back.Some? && Same(sch, sch.structs[name], cells, back.value)
  {
    CompleteSent(sch, sch.structs[name], cells);
    if NoNullElements(sch, sch.structs[name], cells) && InRange(sch, sch.structs[name], cells) {
      WireRoundTrip(sch, name, cells);
    }
  }

  lemma {:induction false} NewSendable(sch: Schema, es: seq<Entry>)
    requires forall i :: 0 <= i < |es| && es[i].mode == Required ==> !es[i].kind.Text? && !es[i].kind.Nested?
    ensures CellsOk(sch, es, New(es)) && Sendable(sch, es, New(es))
  {
    forall i | 0 <= i < |es|
      ensures CellOk(sch, es[i], NewCell(es[i])) && SendableCell(sch, es[i], NewCell(es[i]))
    {
    }
  }

  /** What a new field looks like to a receiver: zeros and empty bytes where it is required, unset elsewhere. */
  predicate ArrivesAsNew(e: Entry, c: Cell) {
    if e.mode == Array then c == Many(false, [])
    else if e.mode == Optional then c.One? && !c.isSet
    else
      match e.kind
      case Int32 => c == One(true, Num(0))
      case Int64 => c == One(true, Num(0))
      case FixedBytes(n) =>
        c.One? && c.isSet && c.data.Raw? && |c.data.b| == n && forall k :: 0 <= k < n ==> c.data.b[k] == 0
      case VarBytes => c == One(true, Raw([]))
      case _ => true
  }

  lemma {:induction false} SettledNew(sch: Schema, e: Entry)
    ensures ArrivesAsNew(e, SettledCell(sch, e, NewCell(e)))
  {
  }

  lemma {:induction false} WireRoundTrip(sch: Schema, name: string, cells: seq<Cell>)
    requires ValidSchema(sch) && name in sch.structs
    requires CellsOk(sch, sch.structs[name], cells) && Sendable(sch, sch.structs[name], cells)
    requires InRange(sch, sch.structs[name], cells)
    ensures FromWire(sch, sch.structs[name], ToWire(sch, sch.structs[name], cells)) ==
            Some(Settled(sch, sch.structs[name], cells))
  {
    CellsRoundTrip(sch, sch.structs[name], cells);
    var recs := Marshal(sch, sch.structs[name], cells);
    assert sch.wire.split(sch.wire.join(recs)) == Some(recs);
  }

  /** What was never assigned is sent all the same where it is required. */
  lemma {:induction false} NewArrives(sch: Schema, name: string)
    requires ValidSchema(sch) && name in sch.structs
    requires forall j :: 0 <= j < |sch.structs[name]| && sch.structs[name][j].mode == Required ==>
      !sch.structs[name][j].kind.Text? && !sch.structs[name][j].kind.Nested?
    requires InRange(sch, sch.structs[name], New(sch.structs[name]))
    ensures var es := sch.structs[name];
      var back := FromWire(sch, es, ToWire(sch, es, New(es)));
      back.Some? && |back.value| == |es| && forall i :: 0 <= i < |es| ==> ArrivesAsNew(es[i], back.value[i])
  {
    var es := sch.structs[name];
    NewSendable(sch, es);
    WireRoundTrip(sch, name, New(es));
    forall i | 0 <= i < |es|
      ensures ArrivesAsNew(es[i], SettledCell(sch, es[i], New(es)[i]))
    {
      SettledNew(sch, es[i]);
    }
  }

  // ----- null elements -----

  /** Adding a null pointer to a string array of any complete message leaves it complete and makes it impossible
      to marshal. */
  lemma {:induction false} NullAddedUnsendable(sch: Schema, es: seq<Entry>, cells: seq<Cell>, i: nat)
    requires CellsOk(sch, es, cells) && Complete(sch, es, cells)
    requires i < |es| && es[i].mode == Array && es[i].kind.Text?
    ensures var after := cells[i := StoreCell(es[i], cells[i], Null)];
      CellsOk(sch, es, after) && Complete(sch, es, after) && !Sendable(sch, es, after)
  {
    var c := cells[i];
    var c' := StoreCell(es[i], c, Null);
    assert CellOk(sch, es[i], c);
    assert c'.items[|c.items|] == Null;
    assert !SendableCell(sch, es[i], c');
    var after := cells[i := c'];
    assert !SendableCell(sch, es[i], after[i]);
  }

  /** The smallest case: a struct with one string array, and one null pointer added to it. */
  lemma {:induction false} CompleteButUnsendable(wire: Wire)
    requires Lossless(wire)
    ensures var es := [Entry("s", 1, Text, Array)];
      var sch, cells := Schema(map["m" := es], wire), [StoreCell(es[0], NewCell(es[0]), Null)];
      && ValidSchema(sch) && CellsOk(sch, es, cells) && Complete(sch, es, cells)
      && !Sendable(sch, es, cells) && !NoNullElements(sch, es, cells)
  {
    var es := [Entry("s", 1, Text, Array)];
    var sch := Schema(map["m" := es], wire);
    NullAddedUnsendable(sch, es, New(es), 0);
    var cells := New(es)[0 := StoreCell(es[0], NewCell(es[0]), Null)];
    assert cells == [StoreCell(es[0], NewCell(es[0]), Null)];
    CompleteSent(sch, es, cells);
  }
}
