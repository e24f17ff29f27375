/**
 Schemas, messages and wire records of the RPC generator, and what the emitted C does to them:
 new, clear, complete, marshal, unmarshal, and the assignment of a struct field.
 A marshalled message is a sequence of tagged records; a nested struct's payload is again one, as bytes.
 */
module RpcMessage {
  import opened Prelude

  datatype Kind = Int32 | Int64 | Text | FixedBytes(len: nat) | VarBytes | Nested(ref: string)

  datatype Mode = Required | Optional | Array

  datatype Entry = Entry(name: string, tag: nat, kind: Kind, mode: Mode)

  /** The structs of a file, and the encoding their code is linked with. */
  datatype Schema = Schema(structs: map<string, seq<Entry>>, wire: Wire)

  type Byte = b: int | 0 <= b < 256

  /** Null is a null pointer: an absent string or struct, or an element added to a string array as such. */
  datatype Value = Null | Num(n: nat) | Str(s: seq<Byte>) | Raw(b: seq<Byte>) | Msg(m: Message)

  /** A field of the emitted struct: its flag and its data.
      Data of an unset field is whatever the last operation left there. */
  datatype Cell = One(isSet: bool, data: Value) | Many(isSet: bool, items: seq<Value>)

  datatype Message = Message(cells: seq<Cell>)

  /** A record on the wire: its payload is bytes and nothing says of which type. */
  datatype Rec = Rec(tag: nat, payload: seq<Byte>)

  // ----- the record layer -----

  /** The tagging primitives: scalars to payloads and back, records to bytes and back.  `fits` says which records
      have a tag and a length that the encoding has room for. */
  datatype Wire = Wire(
    encode: (Kind, Value) -> seq<Byte>,
    decode: (Kind, seq<Byte>) -> Option<Value>,
    join: seq<Rec> -> seq<Byte>,
    split: seq<Byte> -> Option<seq<Rec>>,
    fits: Rec -> bool)

  /** What fits where tags and lengths have 32 bits. */
  predicate Fits32(r: Rec) {
    r.tag < 0x1_0000_0000 && |r.payload| < 0x1_0000_0000
  }

  /** The values of a scalar type; a C string has no zero byte. */
  predicate ScalarOk(k: Kind, v: Value) {
    match k
    case Int32 => v.Num? && v.n < 0x1_0000_0000
    case Int64 => v.Num? && v.n < 0x1_0000_0000_0000_0000
    case Text => v.Str? && 0 !in v.s
    case FixedBytes(n) => v.Raw? && |v.b| == n
    case VarBytes => v.Raw? && |v.b| < 0x1_0000_0000
    case Nested(_) => false
  }

  /** One more than the longest payload, or 0 without records. */
  function Span(recs: seq<Rec>): (n: nat)
    ensures forall r :: r in recs ==> |r.payload| < n
  {
    if recs == [] then 0
    else
      var front, last := recs[..|recs| - 1], recs[|recs| - 1];
      assert recs == front + [last];
      var n := Span(front);
      if |last.payload| < n then n else |last.payload| + 1
  }

  predicate AllFit(w: Wire, recs: seq<Rec>) {
    forall i :: 0 <= i < |recs| ==> w.fits(recs[i])
  }

  /** All that is asked of the primitives: no value and no record that fits is lost, only values of the type asked
      for are read, and a record is longer than its payload. */
  ghost predicate Lossless(w: Wire) {
    && (forall k, v :: ScalarOk(k, v) ==> w.decode(k, w.encode(k, v)) == Some(v))
    && (forall k, b :: w.decode(k, b).Some? ==> ScalarOk(k, w.decode(k, b).value))
    && (forall recs :: AllFit(w, recs) ==> w.split(w.join(recs)) == Some(recs))
    && (forall b :: w.split(b).Some? ==> Span(w.split(b).value) <= |b|)
  }

  // ----- schemas -----

  predicate Arrayable(k: Kind) {
    !k.FixedBytes? && !k.VarBytes?
  }

  ghost predicate DistinctTags(es: seq<Entry>) {
    forall i, j :: 0 <= i < j < |es| ==> es[i].tag != es[j].tag
  }

  /** What the front end guarantees (distinct tags, arrays of the right types) and the C compiler
      adds (every referenced struct is defined). */
  ghost predicate ValidSchema(sch: Schema) {
    && Lossless(sch.wire)
    && forall name :: name in sch.structs ==>
         && DistinctTags(sch.structs[name])
         && forall e :: e in sch.structs[name] ==>
              (e.kind.Nested? ==> e.kind.ref in sch.structs) && (e.mode == Array ==> Arrayable(e.kind))
  }

  function EntriesOf(sch: Schema, k: Kind): seq<Entry> {
    if k.Nested? && k.ref in sch.structs then sch.structs[k.ref] else []
  }

  // ----- new and clear -----

  function Zeros(n: nat): seq<Byte> {
    seq(n, i => 0)
  }

  function NewCell(e: Entry): Cell {
    if e.mode == Array then Many(false, [])
    else
      match e.kind
      case Int32 => One(false, Num(0))
      case Int64 => One(false, Num(0))
      case FixedBytes(n) => One(false, Raw(Zeros(n)))
      case VarBytes => One(false, Raw([]))
      case Text => One(false, Null)
      case Nested(_) => One(false, Null)
  }

  function New(es: seq<Entry>): (cells: seq<Cell>)
    ensures |cells| == |es|
    ensures forall i :: 0 <= i < |es| ==> cells[i] == NewCell(es[i])
  {
    seq(|es|, i requires 0 <= i < |es| => NewCell(es[i]))
  }

  /** Only integers keep their stale value; the other scalars are released or zeroed. */
  function ClearCell(e: Entry, c: Cell): Cell {
    match c
    case Many(isSet, items) => if isSet then Many(false, []) else c
    case One(isSet, data) =>
      match e.kind
      case Int32 => One(false, data)
      case Int64 => One(false, data)
      case FixedBytes(n) => One(false, Raw(Zeros(n)))
      case VarBytes => if isSet then One(false, Raw([])) else c
      case Text => if isSet then One(false, Null) else c
      case Nested(_) => if isSet then One(false, Null) else c
  }

  function Clear(es: seq<Entry>, cells: seq<Cell>): (cleared: seq<Cell>)
    requires |es| == |cells|
    ensures |cleared| == |es|
    ensures forall i :: 0 <= i < |es| ==> cleared[i] == ClearCell(es[i], cells[i])
  {
    seq(|es|, i requires 0 <= i < |es| => ClearCell(es[i], cells[i]))
  }

  // ----- complete -----

  /** Only nested messages are looked into, so a null string passes. */
  predicate CompleteValue(sch: Schema, k: Kind, v: Value)
    decreases v, 0
  {
    v.Msg? ==> |v.m.cells| == |EntriesOf(sch, k)| && Complete(sch, EntriesOf(sch, k), v.m.cells)
  }

  predicate CompleteCell(sch: Schema, e: Entry, c: Cell)
    decreases c, 0
  {
    && (e.mode == Required ==> c.isSet)
    && (c.isSet ==>
          match c
          case One(_, data) => CompleteValue(sch, e.kind, data)
          case Many(_, items) => forall i :: 0 <= i < |items| ==> CompleteValue(sch, e.kind, items[i]))
  }

  predicate Complete(sch: Schema, es: seq<Entry>, cells: seq<Cell>)
    requires |es| == |cells|
    decreases cells, 0
  {
    forall i :: 0 <= i < |cells| ==> CompleteCell(sch, es[i], cells[i])
  }

  // ----- marshal -----

  /** A null pointer has no payload; the emitted code must not be given one. */
  function MarshalValue(sch: Schema, k: Kind, v: Value): seq<Byte>
    decreases v, 0
  {
    match v
    case Null => []
    case Msg(m) =>
      sch.wire.join(if |m.cells| == |EntriesOf(sch, k)| then Marshal(sch, EntriesOf(sch, k), m.cells) else [])
    case _ => sch.wire.encode(k, v)
  }

  function MarshalItems(sch: Schema, e: Entry, items: seq<Value>): (recs: seq<Rec>)
    decreases items, 0
    ensures |recs| == |items|
  {
    if items == [] then []
    else
      var n := |items| - 1;
      MarshalItems(sch, e, items[..n]) + [Rec(e.tag, MarshalValue(sch, e.kind, items[n]))]
  }

  function MarshalCell(sch: Schema, e: Entry, c: Cell): seq<Rec>
    decreases c, 0
  {
    match c
    case One(isSet, data) =>
      if e.mode == Optional && !isSet then [] else [Rec(e.tag, MarshalValue(sch, e.kind, data))]
    case Many(isSet, items) =>
      if isSet then MarshalItems(sch, e, items) else []
  }

  function Marshal(sch: Schema, es: seq<Entry>, cells: seq<Cell>): seq<Rec>
    requires |es| == |cells|
    decreases cells, 0
  {
    if cells == [] then []
    else
      var n := |cells| - 1;
      Marshal(sch, es[..n], cells[..n]) + MarshalCell(sch, es[n], cells[n])
  }

  // ----- unmarshal -----

  function FindTag(es: seq<Entry>, tag: nat): (r: Option<nat>)
    ensures r.Some? ==> r.value < |es| && es[r.value].tag == tag
    ensures r.None? ==> forall i :: 0 <= i < |es| ==> es[i].tag != tag
  {
    if es == [] then None
    else if es[|es| - 1].tag == tag then Some(|es| - 1)
    else FindTag(es[..|es| - 1], tag)
  }

  /** A payload read at the declared type.  Records are always shorter than the buffer that held them
      when the wire is lossless. */
  function Decode(sch: Schema, k: Kind, b: seq<Byte>): Option<Value>
    decreases |b|, 2
  {
    if k.Nested? then
      var recs := sch.wire.split(b);
      if k.ref in sch.structs && recs.Some? && Span(recs.value) <= |b| then
        var r := Unmarshal(sch, sch.structs[k.ref], New(sch.structs[k.ref]), recs.value);
        if r.Some? then Some(Msg(Message(r.value))) else None
      else None
    else sch.wire.decode(k, b)
  }

  /** A value arrives in a field, from the wire or by the emitted add. */
  function StoreCell(e: Entry, c: Cell, v: Value): Cell {
    match c
    case One(_, _) => One(true, v)
    case Many(_, items) => Many(true, items + [v])
  }

  /** One turn of the unmarshalling loop. */
  function Accept(sch: Schema, es: seq<Entry>, cells: seq<Cell>, r: Rec): (res: Option<seq<Cell>>)
    requires |es| == |cells|
    decreases |r.payload|, 3
    ensures res.Some? ==> |res.value| == |es|
  {
    var at := FindTag(es, r.tag);
    if at.None? then None
    else
      var i := at.value;
      if es[i].mode != Array && cells[i].isSet then None
      else
        var v := Decode(sch, es[i].kind, r.payload);
        if v.None? then None else Some(cells[i := StoreCell(es[i], cells[i], v.value)])
  }

  function Feed(sch: Schema, es: seq<Entry>, cells: seq<Cell>, recs: seq<Rec>): (res: Option<seq<Cell>>)
    requires |es| == |cells|
    decreases Span(recs), 0, |recs|
    ensures res.Some? ==> |res.value| == |es|
  {
    if recs == [] then Some(cells)
    else
      var n := |recs| - 1;
      var before := Feed(sch, es, cells, recs[..n]);
      if before.None? then None else Accept(sch, es, before.value, recs[n])
  }

  function Unmarshal(sch: Schema, es: seq<Entry>, cells: seq<Cell>, recs: seq<Rec>): (res: Option<seq<Cell>>)
    requires |es| == |cells|
    decreases Span(recs), 1
    ensures res.Some? ==> |res.value| == |es|
  {
    var r := Feed(sch, es, cells, recs);
    if r.Some? && Complete(sch, es, r.value) then r else None
  }

  // ----- whole buffers -----

  function ToWire(sch: Schema, es: seq<Entry>, cells: seq<Cell>): seq<Byte>
    requires |es| == |cells|
  {
    sch.wire.join(Marshal(sch, es, cells))
  }

  /** A fresh message read from a buffer. */
  function FromWire(sch: Schema, es: seq<Entry>, b: seq<Byte>): Option<seq<Cell>> {
    var recs := sch.wire.split(b);
    if recs.Some? then Unmarshal(sch, es, New(es), recs.value) else None
  }
}
