/** From the text of a schema to the behaviour of the code generated for it. */
module RpcGenerator {
  import opened Prelude
  import F = RpcFrontEnd
  import M = RpcMessage
  import A = RpcAcceptance
  import R = RpcRoundTrip

  /** The structs of a file, each with its entry lines, have been accepted as `structs`. */
  ghost predicate Processed(file: map<string, seq<seq<string>>>, structs: map<string, seq<F.Decl>>) {
    && file.Keys == structs.Keys
    && forall name :: name in file ==>
         && F.Tokens(file[name])
         && F.ParsedAs(file[name], structs[name])
         && F.DistinctTags(structs[name])
  }

  /** Every struct mentioned is defined in the file. */
  predicate Linked(structs: map<string, seq<F.Decl>>) {
    forall name :: name in structs ==>
      forall d :: d in structs[name] ==> d.typ.TStruct? ==> d.typ.ref in structs
  }

  lemma {:induction false} ProcessedIsLegal(file: map<string, seq<seq<string>>>, structs: map<string,
                                            seq<F.Decl>>, name: string, d: F.Decl)
    requires Processed(file, structs) && name in structs && d in structs[name]
    ensures F.Legal(d)
  {
    var i :| 0 <= i < |structs[name]| && structs[name][i] == d;
    assert F.Spells(file[name][i], d);
  }

  // ----- what is read, in terms of the declarations -----

  /** How many records carry a tag. */
  function Count(recs: seq<M.Rec>, tag: nat): nat {
    if recs == [] then 0 else Count(recs[..|recs| - 1], tag) + if recs[|recs| - 1].tag == tag then 1 else 0
  }

  /** A payload that can be read at a declared type: by the primitive of that type, or as the records of a struct. */
  ghost predicate PayloadOk(structs: map<string, seq<F.Decl>>, size: string -> nat, wire: M.Wire, t: F.Type, b: seq<M.Byte>)
    decreases |b|, 2
  {
    match t
    case TInt => wire.decode(M.Int32, b).Some?
    case TInt64 => wire.decode(M.Int64, b).Some?
    case TString => wire.decode(M.Text, b).Some?
    case TBytes(length) => wire.decode(M.FixedBytes(size(length)), b).Some?
    case TVarBytes => wire.decode(M.VarBytes, b).Some?
    case TStruct(ref) =>
      var recs := wire.split(b);
      recs.Some? && ref in structs && M.Span(recs.value) <= |b| && RecordsOk(structs, size, wire, structs[ref], recs.value)
  }

  ghost predicate RecordOk(structs: map<string, seq<F.Decl>>, size: string -> nat, wire: M.Wire, ds: seq<F.Decl>, r: M.Rec)
    decreases |r.payload|, 3
  {
    exists i :: 0 <= i < |ds| && ds[i].tag == r.tag && PayloadOk(structs, size, wire, ds[i].typ, r.payload)
  }

  /** Every record has a declared tag and a payload of the declared type; what is no array occurs at most once, and what
      is neither optional nor an array occurs. */
  ghost predicate RecordsOk(structs: map<string, seq<F.Decl>>, size: string -> nat, wire: M.Wire, ds: seq<F.Decl>, recs: seq<M.Rec>)
    decreases M.Span(recs), 1
  {
    && (forall k :: 0 <= k < |recs| ==> RecordOk(structs, size, wire, ds, recs[k]))
    && (forall i :: 0 <= i < |ds| && !ds[i].isArray ==> Count(recs, ds[i].tag) <= 1)
    && (forall i :: 0 <= i < |ds| && !ds[i].isArray && !ds[i].optional ==> Count(recs, ds[i].tag) >= 1)
  }

  lemma {:induction false} CountIsSub(recs: seq<M.Rec>, tag: nat)
    ensures Count(recs, tag) == |A.Sub(recs, tag)|
  {
    if recs != [] {
      CountIsSub(recs[..|recs| - 1], tag);
    }
  }

  ghost predicate AllLegal(structs: map<string, seq<F.Decl>>) {
    forall name :: name in structs ==> forall d :: d in structs[name] ==> F.Legal(d)
  }

  lemma {:induction false} PayloadDeclared(structs: map<string, seq<F.Decl>>, size: string -> nat, wire: M.Wire,
                                           t: F.Type, b: seq<M.Byte>)
    requires AllLegal(structs)
    ensures A.AcceptedPayload(F.SchemaOf(structs, size, wire), F.KindOf(t, size), b) <==> PayloadOk(structs, size, wire, t, b)
    decreases |b|, 2
  {
    if t.TStruct? && wire.split(b).Some? && t.ref in structs && M.Span(wire.split(b).value) <= |b| {
      RecordsDeclared(structs, size, wire, t.ref, wire.split(b).value);
    }
  }

  lemma {:induction false} RecordDeclared(structs: map<string, seq<F.Decl>>, size: string -> nat, wire: M.Wire,
                                          name: string, r: M.Rec)
    requires AllLegal(structs) && name in structs
    ensures A.AcceptedRec(F.SchemaOf(structs, size, wire), F.SchemaOf(structs, size, wire).structs[name], r) <==>
            RecordOk(structs, size, wire, structs[name], r)
    decreases |r.payload|, 3
  {
    var sch, ds := F.SchemaOf(structs, size, wire), structs[name];
    var es := sch.structs[name];
    forall i | 0 <= i < |ds|
      ensures es[i] == F.EntryOf(ds[i], size)
      ensures A.AcceptedPayload(sch, es[i].kind, r.payload) <==> PayloadOk(structs, size, wire, ds[i].typ, r.payload)
    {
      PayloadDeclared(structs, size, wire, ds[i].typ, r.payload);
    }
  }

  lemma {:induction false} OccurrencesDeclared(structs: map<string, seq<F.Decl>>, size: string -> nat, wire: M.Wire,
                                               name: string, recs: seq<M.Rec>)
    requires AllLegal(structs) && name in structs
    ensures var es, ds := F.SchemaOf(structs, size, wire).structs[name], structs[name];
      && (A.NoRepeats(es, recs) <==> forall i :: 0 <= i < |ds| && !ds[i].isArray ==> Count(recs, ds[i].tag) <= 1)
      && (A.NoneMissing(es, recs) <==>
            forall i :: 0 <= i < |ds| && !ds[i].isArray && !ds[i].optional ==> Count(recs, ds[i].tag) >= 1)
  {
    var es, ds := F.SchemaOf(structs, size, wire).structs[name], structs[name];
    forall i | 0 <= i < |ds|
      ensures es[i] == F.EntryOf(ds[i], size) && Count(recs, ds[i].tag) == |A.Sub(recs, es[i].tag)|
    {
      CountIsSub(recs, ds[i].tag);
    }
  }

  /** The code of a struct accepts what its declarations say. */
  lemma {:induction false} RecordsDeclared(structs: map<string, seq<F.Decl>>, size: string -> nat, wire: M.Wire,
                                           name: string, recs: seq<M.Rec>)
    requires AllLegal(structs) && name in structs
    ensures A.Accepted(F.SchemaOf(structs, size, wire), F.SchemaOf(structs, size, wire).structs[name], recs) <==>
            RecordsOk(structs, size, wire, structs[name], recs)
    decreases M.Span(recs), 1
  {
    forall k | 0 <= k < |recs|
      ensures A.AcceptedRec(F.SchemaOf(structs, size, wire), F.SchemaOf(structs, size, wire).structs[name], recs[k]) <==>
              RecordOk(structs, size, wire, structs[name], recs[k])
    {
      RecordDeclared(structs, size, wire, name, recs[k]);
    }
    OccurrencesDeclared(structs, size, wire, name, recs);
  }

  /** The values of a declared type. */
  predicate HasType(t: F.Type, size: string -> nat, v: M.Value) {
    match t
    case TInt => v.Num? && v.n < 0x1_0000_0000
    case TInt64 => v.Num? && v.n < 0x1_0000_0000_0000_0000
    case TString => v.Str? && 0 !in v.s
    case TBytes(length) => v.Raw? && |v.b| == size(length)
    case TVarBytes => v.Raw? && |v.b| < 0x1_0000_0000
    case TStruct(_) => v.Msg?
  }

  /** Every value of a scalar type survives being written and read, and nothing else is read. */
  lemma {:induction false} ScalarsExact(t: F.Type, size: string -> nat, wire: M.Wire, v: M.Value)
    requires M.Lossless(wire) && !t.TStruct?
    ensures HasType(t, size, v) ==> wire.decode(F.KindOf(t, size), wire.encode(F.KindOf(t, size), v)) == Some(v)
    ensures (exists b :: wire.decode(F.KindOf(t, size), b) == Some(v)) <==> HasType(t, size, v)
  {
    if HasType(t, size, v) {
      assert M.ScalarOk(F.KindOf(t, size), v);
    }
    if b :| wire.decode(F.KindOf(t, size), b) == Some(v) {
      assert M.ScalarOk(F.KindOf(t, size), wire.decode(F.KindOf(t, size), b).value);
    }
  }

  lemma {:induction false} ReadHasType(structs: map<string, seq<F.Decl>>, size: string -> nat, wire: M.Wire, t: F.Type, b: seq<M.Byte>)
    requires M.Lossless(wire)
    ensures var v := M.Decode(F.SchemaOf(structs, size, wire), F.KindOf(t, size), b); v.Some? ==> HasType(t, size, v.value)
  {
  }

  /** What a buffer leaves in the field of a declaration: one value of its type or, in an array, as many as it has
      records; set exactly if there is a record. */
  ghost predicate FieldOk(d: F.Decl, size: string -> nat, c: M.Cell, n: nat) {
    && (c.Many? <==> d.isArray) && (c.isSet <==> n > 0)
    && match c
       case One(isSet, data) => isSet ==> HasType(d.typ, size, data)
       case Many(_, items) => |items| == n && forall j :: 0 <= j < n ==> HasType(d.typ, size, items[j])
  }

  lemma {:induction false} FieldRead(structs: map<string, seq<F.Decl>>, size: string -> nat, wire: M.Wire,
                                     d: F.Decl, own: seq<M.Rec>)
    requires M.Lossless(wire) && F.Legal(d)
    requires var sch := F.SchemaOf(structs, size, wire);
      forall j :: 0 <= j < |own| ==> M.Decode(sch, F.KindOf(d.typ, size), own[j].payload).Some?
    ensures var sch, e := F.SchemaOf(structs, size, wire), F.EntryOf(d, size);
      FieldOk(d, size, A.CellAfter(sch, e, M.NewCell(e), own), |own|)
  {
    forall j | 0 <= j < |own|
      ensures HasType(d.typ, size, A.Decoded(F.SchemaOf(structs, size, wire), F.KindOf(d.typ, size), own[j]))
    {
      ReadHasType(structs, size, wire, d.typ, own[j].payload);
    }
  }
  lemma {:induction false} ProcessedIsValid(file: map<string, seq<seq<string>>>, structs: map<string, seq<F.Decl>>,
                                            size: string -> nat, wire: M.Wire)
    requires Processed(file, structs) && Linked(structs) && M.Lossless(wire)
    ensures AllLegal(structs) && M.ValidSchema(F.SchemaOf(structs, size, wire))
  {
    forall n, d | n in structs && d in structs[n]
      ensures F.Legal(d)
    {
      ProcessedIsLegal(file, structs, n, d);
    }
    F.AcceptedIsValid(structs, size, wire);
  }

  lemma {:induction false} OwnDecode(sch: M.Schema, es: seq<M.Entry>, recs: seq<M.Rec>, i: nat)
    requires M.DistinctTags(es) && i < |es| && forall r :: r in recs ==> A.Readable(sch, es, r)
    ensures forall j :: 0 <= j < |A.Sub(recs, es[i].tag)| ==>
              M.Decode(sch, es[i].kind, A.Sub(recs, es[i].tag)[j].payload).Some?
  {
    A.FindTagUnique(es, i);
  }

  /** For every file the front end accepts and every lossless encoding: what the code of a struct reads has in
      each field values of the declared type, as many as there are records of its tag. */
  lemma {:induction false} GeneratedFields(file: map<string, seq<seq<string>>>, structs: map<string, seq<F.Decl>>,
                                           size: string -> nat, wire: M.Wire, name: string, b: seq<M.Byte>)
    requires Processed(file, structs) && Linked(structs) && name in structs && M.Lossless(wire)
    requires M.FromWire(F.SchemaOf(structs, size, wire), F.SchemaOf(structs, size, wire).structs[name], b).Some?
    ensures var sch, ds := F.SchemaOf(structs, size, wire), structs[name];
      var cells := M.FromWire(sch, sch.structs[name], b).value;
      && |cells| == |ds|
      && forall i :: 0 <= i < |ds| ==> FieldOk(ds[i], size, cells[i], Count(wire.split(b).value, ds[i].tag))
  {
    var sch, ds := F.SchemaOf(structs, size, wire), structs[name];
    var es, recs := sch.structs[name], wire.split(b).value;
    ProcessedIsValid(file, structs, size, wire);
    A.FreshFeeds(sch, es, recs);
    var cells := A.FedFresh(sch, es, recs);
    forall i: nat | i < |ds|
      ensures FieldOk(ds[i], size, cells[i], Count(recs, ds[i].tag))
    {
      assert es[i] == F.EntryOf(ds[i], size);
      OwnDecode(sch, es, recs, i);
      CountIsSub(recs, ds[i].tag);
      FieldRead(structs, size, wire, ds[i], A.Sub(recs, ds[i].tag));
    }
  }

  /** For every file the front end accepts and every lossless encoding: a buffer is read by the code of a struct
      exactly when it splits into records as declared; a complete message can be marshalled
      exactly when no string array in it holds a null element, and then, if its records fit, it is read back as it
      was. */
  lemma {:induction false} GeneratedCodeRoundTrips(file: map<string, seq<seq<string>>>, structs: map<string, seq<F.Decl>>,
                                size: string -> nat, wire: M.Wire, name: string, cells: seq<M.Cell>, b: seq<M.Byte>)
    requires Processed(file, structs) && Linked(structs) && name in structs
    ensures M.Lossless(wire) ==>
      var sch := F.SchemaOf(structs, size, wire);
      var es := sch.structs[name];
      && M.ValidSchema(sch)
      && (M.FromWire(sch, es, b).Some? <==> wire.split(b).Some? && RecordsOk(structs, size, wire, structs[name], wire.split(b).value))
      && (R.CellsOk(sch, es, cells) && M.Complete(sch, es, cells) ==>
            && (R.Sendable(sch, es, cells) <==> R.NoNullElements(sch, es, cells))
            && (R.NoNullElements(sch, es, cells) && R.InRange(sch, es, cells) ==>
                  var back := M.FromWire(sch, es, M.ToWire(sch, es, cells));
                  back.Some? && R.Same(sch, es, cells, back.value)))
  {
    if !M.Lossless(wire) {
      return;
    }
    var sch := F.SchemaOf(structs, size, wire);
    var es := sch.structs[name];
    ProcessedIsValid(file, structs, size, wire);
    if wire.split(b).Some? {
      A.UnmarshalAccepts(sch, es, wire.split(b).value);
      RecordsDeclared(structs, size, wire, name, wire.split(b).value);
    }
    if R.CellsOk(sch, es, cells) && M.Complete(sch, es, cells) {
      R.RoundTrip(sch, name, cells);
    }
  }
}
