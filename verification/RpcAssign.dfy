/**
 Assigning a struct field or an element of a struct array: clear or create the target, marshal the source, unmarshal
 into the target.  The source is marshalled as it stands after the target has been cleared, so it matters where
 it lives.
 */
module RpcAssign {
  import opened Prelude
  import opened RpcMessage
  import opened RpcAcceptance
  import opened RpcRoundTrip
  import opened RpcCanonical
  import opened RpcPlaces

  /** A message no field of which is set, whatever stale data is lying about. */
  ghost predicate Blank(es: seq<Entry>, cells: seq<Cell>) {
    && Shaped(es, cells)
    && forall i :: 0 <= i < |es| ==> !cells[i].isSet && (cells[i].Many? ==> cells[i].items == [])
  }

  lemma {:induction false} ClearBlanks(sch: Schema, es: seq<Entry>, cells: seq<Cell>)
    requires CellsOk(sch, es, cells)
    ensures Blank(es, Clear(es, cells)) && CellsOk(sch, es, Clear(es, cells))
  {
    forall i | 0 <= i < |es|
      ensures CellOk(sch, es[i], ClearCell(es[i], cells[i])) && !ClearCell(es[i], cells[i]).isSet
      ensures cells[i].Many? ==> ClearCell(es[i], cells[i]) == Many(false, [])
    {
      assert CellOk(sch, es[i], cells[i]);
    }
  }

  lemma {:induction false} BlankCell(sch: Schema, e: Entry, base: Cell, own: seq<Rec>, v: Cell)
    requires !base.isSet && (base.Many? ==> base.items == []) && (base.Many? <==> e.mode == Array)
    ensures own != [] ==> CellAfter(sch, e, base, own) == CellAfter(sch, e, NewCell(e), own)
    ensures CompleteCell(sch, e, CellAfter(sch, e, base, own)) == CompleteCell(sch, e, CellAfter(sch, e, NewCell(e), own))
    ensures SameCell(sch, e, v, CellAfter(sch, e, NewCell(e), own)) ==> SameCell(sch, e, v, CellAfter(sch, e, base, own))
  {
  }

  lemma {:induction false} BlankFits(sch: Schema, es: seq<Entry>, base: seq<Cell>, recs: seq<Rec>)
    requires DistinctTags(es) && Blank(es, base)
    ensures Fits(sch, es, base, recs) <==> Fits(sch, es, New(es), recs)
  {
    assert forall i :: 0 <= i < |es| ==> Load(base[i], es[i], recs) == Load(New(es)[i], es[i], recs);
  }

  /** Field by field, a cleared message takes the records as a fresh one does. */
  lemma {:induction false} BlankCells(sch: Schema, es: seq<Entry>, base: seq<Cell>, recs: seq<Rec>,
                                      v: seq<Cell>, f: seq<Cell>, o: seq<Cell>)
    requires Blank(es, base) && |f| == |o| == |es|
    requires forall i :: 0 <= i < |es| ==> f[i] == CellAfter(sch, es[i], NewCell(es[i]), Sub(recs, es[i].tag))
    requires forall i :: 0 <= i < |es| ==> o[i] == CellAfter(sch, es[i], base[i], Sub(recs, es[i].tag))
    ensures Complete(sch, es, o) <==> Complete(sch, es, f)
    ensures Same(sch, es, v, f) ==> Same(sch, es, v, o)
  {
    forall i | 0 <= i < |es|
      ensures CompleteCell(sch, es[i], o[i]) == CompleteCell(sch, es[i], f[i])
      ensures i < |v| && SameCell(sch, es[i], v[i], f[i]) ==> SameCell(sch, es[i], v[i], o[i])
    {
      BlankCell(sch, es[i], base[i], Sub(recs, es[i].tag), if i < |v| then v[i] else base[i]);
    }
  }

  /** Unmarshalling into a cleared message cannot be told from unmarshalling into a fresh one. */
  lemma {:induction false} BlankLikeNew(sch: Schema, es: seq<Entry>, base: seq<Cell>, recs: seq<Rec>, v: seq<Cell>)
    requires DistinctTags(es) && Blank(es, base)
    ensures var anew, over := Unmarshal(sch, es, New(es), recs), Unmarshal(sch, es, base, recs);
      && (over.Some? <==> anew.Some?)
      && (anew.Some? && Same(sch, es, v, anew.value) ==> Same(sch, es, v, over.value))
  {
    FeedExact(sch, es, New(es), recs);
    FeedExact(sch, es, base, recs);
    BlankFits(sch, es, base, recs);
    if Fits(sch, es, base, recs) {
      BlankCells(sch, es, base, recs, v, Feed(sch, es, New(es), recs).value, Feed(sch, es, base, recs).value);
    }
  }

  /** Marshal a message, and unmarshal the result into another. */
  function Transfer(sch: Schema, es: seq<Entry>, source: seq<Cell>, target: seq<Cell>): Option<seq<Cell>>
    requires |source| == |target| == |es|
  {
    var recs := sch.wire.split(ToWire(sch, es, source));
    if recs.Some? then Unmarshal(sch, es, target, recs.value) else None
  }

  // ----- assigning a field to itself -----

  /** The source is the field's own message, so it is cleared before it is marshalled. */
  function AssignSelf(sch: Schema, ref: string, own: seq<Cell>): Option<seq<Cell>>
    requires ref in sch.structs && |own| == |sch.structs[ref]|
  {
    var cleared := Clear(sch.structs[ref], own);
    Unmarshal(sch, sch.structs[ref], cleared, Marshal(sch, sch.structs[ref], cleared))
  }

  /** Clearing leaves a field recoverable: it was unset, or is required with data that survives. */
  predicate SurvivesClear(e: Entry, c: Cell) {
    match c
    case Many(isSet, _) => !isSet
    case One(isSet, data) =>
      if e.mode == Optional then !isSet
      else
        match e.kind
        case Int32 => true
        case Int64 => true
        case FixedBytes(n) => data == Raw(Zeros(n))
        case VarBytes => data == Raw([])
        case Text => false
        case Nested(_) => false
  }

  lemma {:induction false} SelfCell(sch: Schema, e: Entry, c: Cell)
    requires CellOk(sch, e, c) && CompleteCell(sch, e, c) && SendableCell(sch, e, ClearCell(e, c))
    ensures SameCell(sch, e, c, SettledCell(sch, e, ClearCell(e, c))) <==> SurvivesClear(e, c)
  {
    if c.One? && e.mode == Required && e.kind.FixedBytes? {
      assert SettledCell(sch, e, ClearCell(e, c)) == One(true, Raw(Zeros(e.kind.len)));
    }
  }

  /** Self-assignment keeps the message exactly when every field survives being cleared; a required
      string or struct does not even reach the unmarshalling (it is a null pointer by then). */
  lemma {:induction false} SelfAssignExact(sch: Schema, ref: string, own: seq<Cell>)
    requires ValidSchema(sch) && ref in sch.structs
    requires CellsOk(sch, sch.structs[ref], own) && Complete(sch, sch.structs[ref], own)
    ensures Sendable(sch, sch.structs[ref], Clear(sch.structs[ref], own)) <==>
            forall e :: e in sch.structs[ref] && e.mode == Required ==> !e.kind.Text? && !e.kind.Nested?
    ensures Sendable(sch, sch.structs[ref], Clear(sch.structs[ref], own)) && InRange(sch, sch.structs[ref], Clear(sch.structs[ref], own)) ==>
            && AssignSelf(sch, ref, own).Some?
            && (Same(sch, sch.structs[ref], own, AssignSelf(sch, ref, own).value) <==>
                forall i :: 0 <= i < |own| ==> SurvivesClear(sch.structs[ref][i], own[i]))
  {
    var es := sch.structs[ref];
    var cleared := Clear(es, own);
    ClearBlanks(sch, es, own);
    SelfSendable(sch, es, own);
    if Sendable(sch, es, cleared) && InRange(sch, es, cleared) {
      var recs := Marshal(sch, es, cleared);
      CellsRoundTrip(sch, es, cleared);
      var settled := Settled(sch, es, cleared);
      BlankLikeNew(sch, es, cleared, recs, own);
      var over := Unmarshal(sch, es, cleared, recs).value;
      BlankSameBack(sch, es, cleared, recs, own);
      forall i | 0 <= i < |own|
        ensures SameCell(sch, es[i], own[i], settled[i]) <==> SurvivesClear(es[i], own[i])
      {
        SelfCell(sch, es[i], own[i]);
      }
    }
  }

  lemma {:induction false} SelfSendable(sch: Schema, es: seq<Entry>, own: seq<Cell>)
    requires CellsOk(sch, es, own) && Complete(sch, es, own)
    ensures Sendable(sch, es, Clear(es, own)) <==>
            forall e :: e in es && e.mode == Required ==> !e.kind.Text? && !e.kind.Nested?
  {
    forall i | 0 <= i < |es|
      ensures SendableCell(sch, es[i], ClearCell(es[i], own[i])) <==>
              (es[i].mode == Required ==> !es[i].kind.Text? && !es[i].kind.Nested?)
    {
      assert CellOk(sch, es[i], own[i]) && CompleteCell(sch, es[i], own[i]);
    }
  }

  /** The converse of BlankLikeNew. */
  lemma {:induction false} BlankSameBack(sch: Schema, es: seq<Entry>, base: seq<Cell>, recs: seq<Rec>, v: seq<Cell>)
    requires DistinctTags(es) && Blank(es, base) && Unmarshal(sch, es, New(es), recs).Some?
    requires Unmarshal(sch, es, base, recs).Some?
    ensures Same(sch, es, v, Unmarshal(sch, es, base, recs).value) ==> Same(sch, es, v, Unmarshal(sch, es, New(es), recs).value)
  {
    FeedExact(sch, es, New(es), recs);
    FeedExact(sch, es, base, recs);
    var f, o := Unmarshal(sch, es, New(es), recs).value, Unmarshal(sch, es, base, recs).value;
    if Same(sch, es, v, o) {
      forall i | 0 <= i < |es|
        ensures SameCell(sch, es[i], v[i], f[i])
      {
        assert SameCell(sch, es[i], v[i], o[i]);
      }
    }
  }

  // ----- where the source lives -----

  /** The source of an assignment: in memory of its own, or somewhere in the tree of messages that the target
      belongs to (containing it, being it, inside it, or beside it). */
  datatype Source = Apart(value: seq<Cell>) | InTree(path: Path)

  /** Dangling: the source has been freed by the time it is read.  NullMet: a null pointer is marshalled. */
  datatype Outcome = Assigned(copy: seq<Cell>) | Refused | NullMet | Dangling

  /** Does the target exist, to be cleared, or is it to be created? */
  predicate Occupied(c: Cell, s: Step) {
    s.Element? || c.isSet
  }

  /** The target is the struct field, or the existing element of a struct array, at `s` in the message at `p`. */
  predicate SlotOk(sch: Schema, es: seq<Entry>, ref: string, root: seq<Cell>, p: Path, s: Step) {
    && ref in sch.structs && At(root, p).Some? && s.field < |At(root, p).value| && s.field < |EntriesAt(sch, es, p)|
    && EntriesAt(sch, es, p)[s.field].kind == Nested(ref)
    && (s.Field? <==> EntriesAt(sch, es, p)[s.field].mode != Array)
    && (Occupied(At(root, p).value[s.field], s) ==>
          && Child(At(root, p).value[s.field], s).Some?
          && |Child(At(root, p).value[s.field], s).value| == |sch.structs[ref]|)
  }

  /** The target once it has been cleared or created. */
  function Emptied(es: seq<Entry>, c: Cell, s: Step): (target: seq<Cell>)
    requires Occupied(c, s) ==> Child(c, s).Some? && |Child(c, s).value| == |es|
    ensures |target| == |es|
  {
    if Occupied(c, s) then Clear(es, Child(c, s).value) else New(es)
  }

  /** The field at that moment: a struct field has its flag down already, an array keeps it. */
  function Prepared(es: seq<Entry>, c: Cell, s: Step): Cell
    requires Occupied(c, s) ==> Child(c, s).Some? && |Child(c, s).value| == |es|
  {
    if s.Field? then One(false, Msg(Message(Emptied(es, c, s)))) else SetChild(c, s, Emptied(es, c, s))
  }

  /** The source as it is when it is marshalled; None if its memory has been freed.  What an unset field still
      pointed to is abandoned, not freed. */
  function AsRead(sch: Schema, es: seq<Entry>, ref: string, root: seq<Cell>, p: Path, s: Step, src: Source): Option<seq<Cell>>
    requires SlotOk(sch, es, ref, root, p, s)
  {
    var c := At(root, p).value[s.field];
    match src
    case Apart(value) => Some(value)
    case InTree(q) =>
      if !Occupied(c, s) && p + [s] <= q then At(root, q)
      else At(Put(root, p, s.field, Prepared(sch.structs[ref], c, s)), q)
  }

  /** What is marshalled fits the encoding. */
  predicate ReadFits(sch: Schema, es: seq<Entry>, ref: string, root: seq<Cell>, p: Path, s: Step, src: Source)
    requires SlotOk(sch, es, ref, root, p, s)
  {
    var read := AsRead(sch, es, ref, root, p, s, src);
    read.Some? ==> InRange(sch, sch.structs[ref], read.value)
  }

  /** The emitted assign, in its order. */
  function AssignFrom(sch: Schema, es: seq<Entry>, ref: string, root: seq<Cell>, p: Path, s: Step, src: Source): Outcome
    requires SlotOk(sch, es, ref, root, p, s)
  {
    var target := Emptied(sch.structs[ref], At(root, p).value[s.field], s);
    var read := AsRead(sch, es, ref, root, p, s, src);
    if read.None? then Dangling
    else if !Sendable(sch, sch.structs[ref], read.value) then NullMet
    else
      var r := Transfer(sch, sch.structs[ref], read.value, target);
      if r.Some? then Assigned(r.value) else Refused
  }

  /** The source at the moment of the call, a message of the right struct. */
  predicate SourceIs(sch: Schema, es: seq<Entry>, ref: string, root: seq<Cell>, src: Source, value: seq<Cell>) {
    ref in sch.structs &&
    match src
    case Apart(v) => v == value
    case InTree(q) => At(root, q) == Some(value) && EntriesAt(sch, es, q) == sch.structs[ref]
  }

  predicate IsCopy(sch: Schema, ref: string, o: Outcome, value: seq<Cell>)
    requires ref in sch.structs
  {
    o.Assigned? && Same(sch, sch.structs[ref], value, o.copy)
  }

  /** Every field of the message survives being cleared. */
  predicate Survives(es: seq<Entry>, own: seq<Cell>) {
    |es| == |own| && forall i :: 0 <= i < |own| ==> SurvivesClear(es[i], own[i])
  }

  /** What a caller can check: creating the target disturbs nothing; clearing it disturbs a source that contains it
      and sends it along, that is it, or that clear frees with it. */
  predicate Undisturbed(sch: Schema, es: seq<Entry>, ref: string, root: seq<Cell>, p: Path, s: Step, src: Source)
    requires SlotOk(sch, es, ref, root, p, s)
  {
    var c := At(root, p).value[s.field];
    var required := s.Element? || EntriesAt(sch, es, p)[s.field].mode == Required;
    Occupied(c, s) && src.InTree? ==>
      var own, q := Child(c, s).value, src.path;
      if q <= p then
        At(root, q).Some? && (Reached(At(root, q).value, p[|q|..]) ==> required && Survives(sch.structs[ref], own))
      else if q == p + [s] then Survives(sch.structs[ref], own)
      else if p + [s] <= q then q[|p| + 1].field < |own| && !own[q[|p| + 1].field].isSet
      else true
  }

  // ----- proof -----

  lemma {:induction false} NewBlank(sch: Schema, es: seq<Entry>)
    ensures Blank(es, New(es)) && CellsOk(sch, es, New(es))
  {
  }

  /** The target is well typed and has no field set. */
  lemma {:induction false} EmptiedOk(sch: Schema, es: seq<Entry>, ref: string, root: seq<Cell>, p: Path, s: Step)
    requires CellsOk(sch, es, root) && SlotOk(sch, es, ref, root, p, s)
    ensures var c := At(root, p).value[s.field];
      && CellOk(sch, EntriesAt(sch, es, p)[s.field], c)
      && Blank(sch.structs[ref], Emptied(sch.structs[ref], c, s))
      && CellsOk(sch, sch.structs[ref], Emptied(sch.structs[ref], c, s))
      && CellOk(sch, EntriesAt(sch, es, p)[s.field], Prepared(sch.structs[ref], c, s))
      && (Occupied(c, s) ==> CellsOk(sch, sch.structs[ref], Child(c, s).value))
  {
    var e, c := EntriesAt(sch, es, p)[s.field], At(root, p).value[s.field];
    AtOk(sch, es, root, p);
    assert CellOk(sch, e, c);
    if Occupied(c, s) {
      ChildOk(sch, e, c, s);
      ClearBlanks(sch, sch.structs[ref], Child(c, s).value);
      if s.Element? {
        SetChildOk(sch, e, c, s, Emptied(sch.structs[ref], c, s));
      }
    } else {
      NewBlank(sch, sch.structs[ref]);
    }
  }

  /** What is read decides what is copied. */
  lemma {:induction false} ReadDecides(sch: Schema, es: seq<Entry>, read: seq<Cell>, target: seq<Cell>, value: seq<Cell>)
    requires ValidSchema(sch) && DistinctTags(es) && Blank(es, target)
    requires CellsOk(sch, es, read) && Sendable(sch, es, read) && InRange(sch, es, read)
    ensures Transfer(sch, es, read, target).Some?
    ensures Same(sch, es, value, Transfer(sch, es, read, target).value) <==> Same(sch, es, value, Settled(sch, es, read))
  {
    var recs := Marshal(sch, es, read);
    assert sch.wire.split(sch.wire.join(recs)) == Some(recs);
    CellsRoundTrip(sch, es, read);
    BlankLikeNew(sch, es, target, recs, value);
    BlankSameBack(sch, es, target, recs, value);
  }

  lemma {:induction false} SameNoNullIn(sch: Schema, k: Kind, a: Value, b: Value)
    requires SameValue(sch, k, a, b) && NoNullIn(sch, k, b)
    ensures NoNullIn(sch, k, a)
    decreases a, 0
  {
    if a.Msg? {
      SameNoNull(sch, EntriesOf(sch, k), a.m.cells, b.m.cells);
    }
  }

  lemma {:induction false} SameNoNullCell(sch: Schema, e: Entry, a: Cell, b: Cell)
    requires SameCell(sch, e, a, b) && NoNullInCell(sch, e, b)
    ensures NoNullInCell(sch, e, a)
    decreases a, 1
  {
    if a.isSet {
      match a
      case One(_, data) => SameNoNullIn(sch, e.kind, data, b.data);
      case Many(_, items) =>
        forall i: nat | i < |items|
          ensures !items[i].Null? && NoNullIn(sch, e.kind, items[i])
        {
          SameNoNullIn(sch, e.kind, items[i], b.items[i]);
        }
    }
  }

  lemma {:induction false} SameNoNull(sch: Schema, es: seq<Entry>, a: seq<Cell>, b: seq<Cell>)
    requires Same(sch, es, a, b) && NoNullElements(sch, es, b)
    ensures NoNullElements(sch, es, a)
    decreases a, 2
  {
    forall i: nat | i < |a|
      ensures NoNullInCell(sch, es[i], a[i])
    {
      SameNoNullCell(sch, es[i], a[i], b[i]);
    }
  }

  /** Nothing that was ever marshalled shows a null element. */
  lemma {:induction false} SentNoNull(sch: Schema, es: seq<Entry>, read: seq<Cell>, value: seq<Cell>)
    requires ValidSchema(sch) && DistinctTags(es)
    requires CellsOk(sch, es, read) && Sendable(sch, es, read) && InRange(sch, es, read)
    requires Same(sch, es, value, Settled(sch, es, read))
    ensures NoNullElements(sch, es, value)
  {
    var recs := Marshal(sch, es, read);
    CellsRoundTrip(sch, es, read);
    UnmarshalCanonical(sch, es, recs);
    CompleteSent(sch, es, Settled(sch, es, read));
    SameNoNull(sch, es, value, Settled(sch, es, read));
  }

  /** A complete message sent after being cleared arrives as it was exactly when every field survives that. */
  lemma {:induction false} ClearedShows(sch: Schema, es: seq<Entry>, own: seq<Cell>)
    requires CellsOk(sch, es, own) && Complete(sch, es, own)
    ensures Sendable(sch, es, Clear(es, own)) && Same(sch, es, own, Settled(sch, es, Clear(es, own))) <==> Survives(es, own)
    ensures Survives(es, own) ==> NoNullElements(sch, es, own)
  {
    var cleared := Clear(es, own);
    var settled := Settled(sch, es, cleared);
    forall i | 0 <= i < |own|
      ensures SendableCell(sch, es[i], cleared[i]) && SameCell(sch, es[i], own[i], settled[i]) <==> SurvivesClear(es[i], own[i])
      ensures SurvivesClear(es[i], own[i]) ==> NoNullInCell(sch, es[i], own[i])
    {
      CellClearedShows(sch, es[i], own[i]);
    }
  }

  lemma {:induction false} CellClearedShows(sch: Schema, e: Entry, c: Cell)
    requires CellOk(sch, e, c) && CompleteCell(sch, e, c)
    ensures SendableCell(sch, e, ClearCell(e, c)) && SameCell(sch, e, c, SettledCell(sch, e, ClearCell(e, c))) <==> SurvivesClear(e, c)
    ensures SurvivesClear(e, c) ==> NoNullInCell(sch, e, c)
  {
    if SendableCell(sch, e, ClearCell(e, c)) {
      SelfCell(sch, e, c);
    }
  }

  /** The field that holds the target, sent along with a message around it. */
  lemma {:induction false} PreparedShows(sch: Schema, e: Entry, c: Cell, s: Step)
    requires ValidSchema(sch) && e.kind.Nested? && e.kind.ref in sch.structs && (s.Field? <==> e.mode != Array)
    requires CellOk(sch, e, c) && CompleteCell(sch, e, c) && NoNullInCell(sch, e, c)
    requires Occupied(c, s) ==> Child(c, s).Some? && |Child(c, s).value| == |sch.structs[e.kind.ref]|
    ensures var es, x := sch.structs[e.kind.ref], Prepared(sch.structs[e.kind.ref], c, s);
      SendableCell(sch, e, x) && SameCell(sch, e, c, SettledCell(sch, e, x)) <==>
        (Occupied(c, s) ==> (s.Element? || e.mode == Required) && Survives(es, Child(c, s).value))
  {
    var es := sch.structs[e.kind.ref];
    if Occupied(c, s) {
      var own := Child(c, s).value;
      assert c.isSet;
      ChildOk(sch, e, c, s);
      ChildComplete(sch, e, c, s);
      ClearedShows(sch, es, own);
      ChildChange(sch, e, c, s, Clear(es, own));
    }
  }

  /** The source contains the target, or the target's message. */
  lemma {:induction false} FromAbove(sch: Schema, es: seq<Entry>, ref: string, root: seq<Cell>, p: Path,
                                     s: Step, q: Path, value: seq<Cell>)
    requires ValidSchema(sch) && CellsOk(sch, es, root) && SlotOk(sch, es, ref, root, p, s) && q <= p
    requires SourceIs(sch, es, ref, root, InTree(q), value)
    requires CellsOk(sch, sch.structs[ref], value) && Complete(sch, sch.structs[ref], value)
    requires NoNullElements(sch, sch.structs[ref], value)
    ensures var read := AsRead(sch, es, ref, root, p, s, InTree(q));
      && read.Some? && CellsOk(sch, sch.structs[ref], read.value)
      && (Sendable(sch, sch.structs[ref], read.value) && Same(sch, sch.structs[ref], value, Settled(sch, sch.structs[ref], read.value))
          <==> Undisturbed(sch, es, ref, root, p, s, InTree(q)))
  {
    var r := p[|q|..];
    var e, c := EntriesAt(sch, es, p)[s.field], At(root, p).value[s.field];
    var x := Prepared(sch.structs[ref], c, s);
    assert p == q + r;
    EmptiedOk(sch, es, ref, root, p, s);
    AtAbove(root, q, r, s.field, x);
    EntriesAppend(sch, es, q, r);
    PutOk(sch, sch.structs[ref], value, r, s.field, x);
    DeepChange(sch, sch.structs[ref], value, r, s.field, x);
    assert AsRead(sch, es, ref, root, p, s, InTree(q)) == Some(Put(value, r, s.field, x));
    if Reached(value, r) {
      ReachedComplete(sch, sch.structs[ref], value, r);
      PreparedShows(sch, e, c, s);
    }
  }

  /** Below a message that has been cleared: freed with a set field, untouched behind an unset one. */
  lemma {:induction false} BelowCleared(sch: Schema, es: seq<Entry>, own: seq<Cell>, r: Path)
    requires CellsOk(sch, es, own) && r != [] && At(own, r).Some?
    ensures r[0].field < |own|
    ensures At(Clear(es, own), r) == if own[r[0].field].isSet then None else At(own, r)
  {
    var k := r[0].field;
    assert CellOk(sch, es[k], own[k]);
    assert Clear(es, own)[k] == ClearCell(es[k], own[k]);
  }

  /** The source is the target's message or lies inside it. */
  lemma {:induction false} FromBelow(sch: Schema, es: seq<Entry>, ref: string, root: seq<Cell>, p: Path,
                                     s: Step, q: Path, value: seq<Cell>)
    requires CellsOk(sch, es, root) && SlotOk(sch, es, ref, root, p, s) && p + [s] <= q
    requires SourceIs(sch, es, ref, root, InTree(q), value)
    ensures var c, read := At(root, p).value[s.field], AsRead(sch, es, ref, root, p, s, InTree(q));
      if !Occupied(c, s) then read == Some(value)
      else if q == p + [s] then value == Child(c, s).value && read == Some(Clear(sch.structs[ref], value))
      else
        && q[|p| + 1].field < |Child(c, s).value|
        && read == if Child(c, s).value[q[|p| + 1].field].isSet then None else Some(value)
  {
    var c := At(root, p).value[s.field];
    if Occupied(c, s) {
      var own, r := Child(c, s).value, q[|p| + 1..];
      var x := Prepared(sch.structs[ref], c, s);
      assert q == p + [s] + r;
      EmptiedOk(sch, es, ref, root, p, s);
      AtBelow(root, p, s, r, x);
      assert Child(x, s) == Some(Clear(sch.structs[ref], own));
      AtBelow(root, p, s, r, c);
      PutSame(root, p, s.field);
      if r != [] {
        assert r[0] == q[|p| + 1];
        BelowCleared(sch, sch.structs[ref], own, r);
      } else {
        assert q == p + [s];
      }
    }
  }

  lemma {:induction false} PutSame(cells: seq<Cell>, p: Path, i: nat)
    requires At(cells, p).Some? && i < |At(cells, p).value|
    ensures Put(cells, p, i, At(cells, p).value[i]) == cells
    decreases |p|
  {
    if p != [] {
      var c := cells[p[0].field];
      PutSame(Child(c, p[0]).value, p[1..], i);
      if c.Many? {
        assert c.items[p[0].elem := c.items[p[0].elem]] == c.items;
      }
    }
  }

  /** The source is beside the target. */
  lemma {:induction false} FromBeside(sch: Schema, es: seq<Entry>, ref: string, root: seq<Cell>, p: Path,
                                      s: Step, q: Path, value: seq<Cell>)
    requires CellsOk(sch, es, root) && SlotOk(sch, es, ref, root, p, s) && !(q <= p) && !(p + [s] <= q)
    requires SourceIs(sch, es, ref, root, InTree(q), value)
    ensures AsRead(sch, es, ref, root, p, s, InTree(q)) == Some(value)
  {
    var c := At(root, p).value[s.field];
    var x := Prepared(sch.structs[ref], c, s);
    EmptiedOk(sch, es, ref, root, p, s);
    forall t: Step | t.field == s.field && t != s
      ensures Child(x, t) == Child(c, t)
    {
    }
    AtElsewhere(root, p, s, x, q);
  }

  lemma {:induction false} ReadOk(sch: Schema, es: seq<Entry>, ref: string, root: seq<Cell>, p: Path, s: Step,
                                  src: Source, value: seq<Cell>)
    requires CellsOk(sch, es, root) && SlotOk(sch, es, ref, root, p, s) && SourceIs(sch, es, ref, root, src, value)
    requires CellsOk(sch, sch.structs[ref], value)
    ensures var read := AsRead(sch, es, ref, root, p, s, src);
      read.Some? ==> CellsOk(sch, sch.structs[ref], read.value)
  {
    var x := Prepared(sch.structs[ref], At(root, p).value[s.field], s);
    EmptiedOk(sch, es, ref, root, p, s);
    PutOk(sch, es, root, p, s.field, x);
    if src.InTree? && AsRead(sch, es, ref, root, p, s, src).Some? {
      if At(Put(root, p, s.field, x), src.path).Some? {
        AtOk(sch, es, Put(root, p, s.field, x), src.path);
      }
    }
  }

  /** What is read shows the source as it was exactly when it is free of null elements and undisturbed. */
  ghost predicate Arrives(sch: Schema, es: seq<Entry>, read: Option<seq<Cell>>, value: seq<Cell>) {
    read.Some? && Sendable(sch, es, read.value) && Same(sch, es, value, Settled(sch, es, read.value))
  }

  lemma {:induction false} ReadShows(sch: Schema, es: seq<Entry>, ref: string, root: seq<Cell>, p: Path,
                                     s: Step, src: Source, value: seq<Cell>)
    requires ValidSchema(sch) && CellsOk(sch, es, root) && SlotOk(sch, es, ref, root, p, s)
    requires SourceIs(sch, es, ref, root, src, value)
    requires CellsOk(sch, sch.structs[ref], value) && Complete(sch, sch.structs[ref], value)
    requires NoNullElements(sch, sch.structs[ref], value)
    ensures Arrives(sch, sch.structs[ref], AsRead(sch, es, ref, root, p, s, src), value) <==>
            Undisturbed(sch, es, ref, root, p, s, src)
  {
    var c := At(root, p).value[s.field];
    CompleteSent(sch, sch.structs[ref], value);
    if src.InTree? {
      var q := src.path;
      if q <= p {
        FromAbove(sch, es, ref, root, p, s, q, value);
      } else if p + [s] <= q {
        FromBelow(sch, es, ref, root, p, s, q, value);
        if Occupied(c, s) && q == p + [s] {
          ClearedShows(sch, sch.structs[ref], value);
        }
      } else {
        FromBeside(sch, es, ref, root, p, s, q, value);
      }
    }
  }

  /** The emitted assign never refuses a source that can be marshalled and whose records fit. */
  lemma {:induction false} NeverRefused(sch: Schema, es: seq<Entry>, ref: string, root: seq<Cell>, p: Path,
                                        s: Step, src: Source, value: seq<Cell>)
    requires ValidSchema(sch) && CellsOk(sch, es, root) && SlotOk(sch, es, ref, root, p, s)
    requires SourceIs(sch, es, ref, root, src, value) && CellsOk(sch, sch.structs[ref], value)
    ensures var read, o := AsRead(sch, es, ref, root, p, s, src), AssignFrom(sch, es, ref, root, p, s, src);
      ReadFits(sch, es, ref, root, p, s, src) ==>
      && (o == Dangling <==> read.None?)
      && (o.Assigned? <==> read.Some? && Sendable(sch, sch.structs[ref], read.value))
      && !o.Refused?
      && (o.Assigned? ==> (Same(sch, sch.structs[ref], value, o.copy) <==>
                           Same(sch, sch.structs[ref], value, Settled(sch, sch.structs[ref], read.value))))
  {
    var read := AsRead(sch, es, ref, root, p, s, src);
    var c := At(root, p).value[s.field];
    EmptiedOk(sch, es, ref, root, p, s);
    ReadOk(sch, es, ref, root, p, s, src, value);
    if ReadFits(sch, es, ref, root, p, s, src) && read.Some? && Sendable(sch, sch.structs[ref], read.value) {
      ReadDecides(sch, sch.structs[ref], read.value, Emptied(sch.structs[ref], c, s), value);
    }
  }

  /** Deep copy, exactly: for a complete source, wherever it lives, the assignment of a struct field or array element
      yields a message equal to the source as it was at the call if and only if no string array in the source holds a
      null element and clearing the target does not disturb it.  So it does from memory of its own and into any unset
      field; from a message that contains the target and sends it along, it does only if the target is sent even when
      its flag is down and every field of it survives being cleared. */
  lemma {:induction false} AssignCopies(sch: Schema, es: seq<Entry>, ref: string, root: seq<Cell>, p: Path,
                                        s: Step, src: Source, value: seq<Cell>)
    requires ValidSchema(sch) && CellsOk(sch, es, root) && SlotOk(sch, es, ref, root, p, s)
    requires SourceIs(sch, es, ref, root, src, value)
    requires CellsOk(sch, sch.structs[ref], value) && Complete(sch, sch.structs[ref], value)
    ensures ReadFits(sch, es, ref, root, p, s, src) ==>
            (IsCopy(sch, ref, AssignFrom(sch, es, ref, root, p, s, src), value) <==>
             NoNullElements(sch, sch.structs[ref], value) && Undisturbed(sch, es, ref, root, p, s, src))
  {
    var read := AsRead(sch, es, ref, root, p, s, src);
    if !ReadFits(sch, es, ref, root, p, s, src) {
      return;
    }
    NeverRefused(sch, es, ref, root, p, s, src, value);
    ReadOk(sch, es, ref, root, p, s, src, value);
    if NoNullElements(sch, sch.structs[ref], value) {
      ReadShows(sch, es, ref, root, p, s, src, value);
    } else if Arrives(sch, sch.structs[ref], read, value) {
      SentNoNull(sch, sch.structs[ref], read.value, value);
    }
  }

  // ----- the failing inputs -----

  /** The slot of an optional or required struct field of the root's own type. */
  lemma {:induction false} OwnSlot(sch: Schema, ref: string, m: seq<Cell>, i: nat)
    requires ref in sch.structs && i < |m| && CellsOk(sch, sch.structs[ref], m) && m[i].isSet
    requires sch.structs[ref][i].kind == Nested(ref) && sch.structs[ref][i].mode != Array
    ensures m[i].One? && m[i].data.Msg? && CellsOk(sch, sch.structs[ref], m[i].data.m.cells)
    ensures SlotOk(sch, sch.structs[ref], ref, m, [], Field(i))
    ensures Child(m[i], Field(i)) == Some(m[i].data.m.cells)
  {
    assert CellOk(sch, sch.structs[ref][i], m[i]);
  }

  /** A message whose unset optional field holds something is received as one whose field holds nothing. */
  lemma {:induction false} UnsetShows(sch: Schema, es: seq<Entry>, m: seq<Cell>, i: nat, stale: Value)
    requires i < |m| && CellsOk(sch, es, m) && Complete(sch, es, m)
    requires es[i].mode == Optional && es[i].kind.Nested? && m[i].One?
    ensures Same(sch, es, m[i := One(false, Null)], Settled(sch, es, m[i := One(false, stale)]))
  {
    var bare, read := m[i := One(false, Null)], m[i := One(false, stale)];
    forall j | 0 <= j < |m|
      ensures SameCell(sch, es[j], bare[j], Settled(sch, es, read)[j])
    {
      if j != i {
        CompleteCellSent(sch, es[j], m[j]);
      }
    }
  }

  /** A message assigned to an optional field of itself that is set: the call succeeds, and the copy lacks the field. */
  lemma {:induction false} ContainingLosesField(sch: Schema, ref: string, m: seq<Cell>, i: nat, own: seq<Cell>)
    requires ValidSchema(sch) && ref in sch.structs && i < |m| && m[i].isSet
    requires CellsOk(sch, sch.structs[ref], m) && Complete(sch, sch.structs[ref], m)
    requires NoNullElements(sch, sch.structs[ref], m)
    requires sch.structs[ref][i].kind == Nested(ref) && sch.structs[ref][i].mode == Optional
    requires Child(m[i], Field(i)) == Some(own) && |own| == |m|
    requires InRange(sch, sch.structs[ref], m[i := One(false, Msg(Message(Clear(sch.structs[ref], own))))])
    ensures SlotOk(sch, sch.structs[ref], ref, m, [], Field(i))
    ensures var o := AssignFrom(sch, sch.structs[ref], ref, m, [], Field(i), InTree([]));
      && o.Assigned? && !Same(sch, sch.structs[ref], m, o.copy)
      && Same(sch, sch.structs[ref], m[i := One(false, Null)], o.copy)
  {
    var es := sch.structs[ref];
    OwnSlot(sch, ref, m, i);
    var target := Emptied(es, m[i], Field(i));
    var read := m[i := One(false, Msg(Message(target)))];
    assert AsRead(sch, es, ref, m, [], Field(i), InTree([])) == Some(read);
    AssignCopies(sch, es, ref, m, [], Field(i), InTree([]), m);
    EmptiedOk(sch, es, ref, m, [], Field(i));
    OneCellChange(sch, es, m, i, One(false, Msg(Message(target))));
    ReadOk(sch, es, ref, m, [], Field(i), InTree([]), m);
    ReadDecides(sch, es, read, target, m[i := One(false, Null)]);
    UnsetShows(sch, es, m, i, Msg(Message(target)));
  }

  function NodeEntries(): seq<Entry> {
    [Entry("v", 1, Int32, Required), Entry("next", 2, Nested("node"), Optional)]
  }

  function NodeSchema(wire: Wire): Schema {
    Schema(map["node" := NodeEntries()], wire)
  }

  function LastNode(v: nat): seq<Cell> {
    [One(true, Num(v)), One(false, Null)]
  }

  function TwoNodes(): seq<Cell> {
    [One(true, Num(1)), One(true, Msg(Message(LastNode(2))))]
  }

  lemma {:induction false} LastNodeOk(wire: Wire, v: nat)
    requires v < 0x1_0000_0000
    ensures var sch, es, m := NodeSchema(wire), NodeEntries(), LastNode(v);
      CellsOk(sch, es, m) && Complete(sch, es, m) && NoNullElements(sch, es, m)
  {
    assert CellOk(NodeSchema(wire), NodeEntries()[0], LastNode(v)[0]);
    assert CellOk(NodeSchema(wire), NodeEntries()[1], LastNode(v)[1]);
  }

  lemma {:induction false} TwoNodesOk(wire: Wire)
    ensures var sch, es, m := NodeSchema(wire), NodeEntries(), TwoNodes();
      CellsOk(sch, es, m) && Complete(sch, es, m) && NoNullElements(sch, es, m)
  {
    var sch, es, m := NodeSchema(wire), NodeEntries(), TwoNodes();
    LastNodeOk(wire, 2);
    assert EntriesOf(sch, es[1].kind) == es;
    assert CellOk(sch, es[0], m[0]) && CellOk(sch, es[1], m[1]);
    assert CompleteCell(sch, es[1], m[1]) && NoNullInCell(sch, es[1], m[1]);
  }

  lemma {:induction false} NodeSchemaValid(wire: Wire)
    requires Lossless(wire)
    ensures ValidSchema(NodeSchema(wire))
  {
    assert forall e :: e in NodeEntries() ==> e == NodeEntries()[0] || e == NodeEntries()[1];
  }

  lemma {:induction false} BareInRange(wire: Wire, stale: Value)
    requires forall r :: wire.fits(r)
    ensures InRange(NodeSchema(wire), NodeEntries(), [One(true, Num(1)), One(false, stale)])
  {
    var read := [One(true, Num(1)), One(false, stale)];
    assert InRangeCell(NodeSchema(wire), NodeEntries()[0], read[0]);
    assert InRangeCell(NodeSchema(wire), NodeEntries()[1], read[1]);
  }

  /** The smallest case: a list of two nodes (complete and without null elements, TwoNodesOk) assigned to its own
      next field is copied as its first node alone. */
  lemma {:induction false} NodeLosesNext(wire: Wire)
    requires Lossless(wire) && forall r :: wire.fits(r)
    ensures var sch, es, m := NodeSchema(wire), NodeEntries(), TwoNodes();
      && SlotOk(sch, es, "node", m, [], Field(1))
      && var o := AssignFrom(sch, es, "node", m, [], Field(1), InTree([]));
         o.Assigned? && !Same(sch, es, m, o.copy) && Same(sch, es, LastNode(1), o.copy)
  {
    var sch, es, m := NodeSchema(wire), NodeEntries(), TwoNodes();
    NodeSchemaValid(wire);
    TwoNodesOk(wire);
    var stale := Msg(Message(Clear(es, LastNode(2))));
    BareInRange(wire, stale);
    assert m[1 := One(false, stale)] == [One(true, Num(1)), One(false, stale)];
    assert m[1 := One(false, Null)] == LastNode(1);
    ContainingLosesField(sch, "node", m, 1, LastNode(2));
  }

  /** Into a field that is not set, any complete source without null elements is copied, wherever it lives. */
  lemma {:induction false} UnsetFieldCopies(sch: Schema, es: seq<Entry>, ref: string, root: seq<Cell>, p: Path, s: Step,
                                            src: Source, value: seq<Cell>)
    requires ValidSchema(sch) && CellsOk(sch, es, root) && SlotOk(sch, es, ref, root, p, s)
    requires SourceIs(sch, es, ref, root, src, value) && !Occupied(At(root, p).value[s.field], s)
    requires CellsOk(sch, sch.structs[ref], value) && Complete(sch, sch.structs[ref], value)
    requires NoNullElements(sch, sch.structs[ref], value)
    requires ReadFits(sch, es, ref, root, p, s, src)
    ensures IsCopy(sch, ref, AssignFrom(sch, es, ref, root, p, s, src), value)
  {
    AssignCopies(sch, es, ref, root, p, s, src, value);
  }

  /** A list unlinked by assigning a field its grandchild: the source is freed before it is read. */
  lemma {:induction false} UnlinkDangles(sch: Schema, ref: string, head: seq<Cell>, i: nat, next: seq<Cell>)
    requires ValidSchema(sch) && ref in sch.structs && i < |head| && CellsOk(sch, sch.structs[ref], head)
    requires sch.structs[ref][i].kind == Nested(ref) && sch.structs[ref][i].mode != Array && head[i].isSet
    requires Child(head[i], Field(i)) == Some(next) && i < |next| && next[i].isSet
    ensures SlotOk(sch, sch.structs[ref], ref, head, [], Field(i)) && At(head, [Field(i), Field(i)]).Some?
    ensures AssignFrom(sch, sch.structs[ref], ref, head, [], Field(i), InTree([Field(i), Field(i)])) == Dangling
  {
    OwnSlot(sch, ref, head, i);
    OwnSlot(sch, ref, next, i);
    var q := [Field(i), Field(i)];
    assert q[1..] == [Field(i)] && q[1..][1..] == [];
    assert At(head, q) == At(next, [Field(i)]) == Some(next[i].data.m.cells);
    assert EntriesAt(sch, sch.structs[ref], q) == sch.structs[ref] by {
      assert EntriesAt(sch, sch.structs[ref], q) == EntriesAt(sch, sch.structs[ref], q[1..]);
    }
    FromBelow(sch, sch.structs[ref], ref, head, [], Field(i), q, next[i].data.m.cells);
  }

  // ----- getting a struct field -----

  /** The emitted `get` of a struct field creates the message if there is none, and raises the flag. */
  function GetNested(es: seq<Entry>, c: Cell): Cell {
    if c.isSet then c else One(true, Msg(Message(New(es))))
  }

  lemma {:induction false} BlankComplete(sch: Schema, es: seq<Entry>, cells: seq<Cell>)
    requires Blank(es, cells)
    ensures Complete(sch, es, cells) <==> forall e :: e in es ==> e.mode != Required
  {
    forall i | 0 <= i < |es|
      ensures CompleteCell(sch, es[i], cells[i]) <==> es[i].mode != Required
    {
    }
  }

  lemma {:induction false} NestedComplete(sch: Schema, e: Entry, inner: seq<Cell>)
    requires e.kind.Nested? && e.kind.ref in sch.structs && |inner| == |sch.structs[e.kind.ref]|
    ensures CompleteCell(sch, e, One(true, Msg(Message(inner)))) <==> Complete(sch, sch.structs[e.kind.ref], inner)
  {
  }

  /** Whether the other fields of a message leave it to one field to make it complete. */
  lemma {:induction false} CompleteBut(sch: Schema, es: seq<Entry>, cells: seq<Cell>, i: nat, c: Cell)
    requires |es| == |cells| && Complete(sch, es, cells) && i < |es|
    ensures Complete(sch, es, cells[i := c]) <==> CompleteCell(sch, es[i], c)
  {
    var after := cells[i := c];
    assert after[i] == c;
    forall j | 0 <= j < |cells| && j != i
      ensures CompleteCell(sch, es[j], after[j])
    {
      assert after[j] == cells[j];
    }
  }

  /** Getting an unset struct field of a complete message leaves it complete exactly when that struct requires
      nothing. */
  lemma {:induction false} GetKeepsComplete(sch: Schema, es: seq<Entry>, cells: seq<Cell>, i: nat)
    requires CellsOk(sch, es, cells) && Complete(sch, es, cells)
    requires i < |es| && es[i].mode != Array && es[i].kind.Nested? && es[i].kind.ref in sch.structs
    ensures Complete(sch, es, cells[i := GetNested(sch.structs[es[i].kind.ref], cells[i])]) <==>
            cells[i].isSet || forall e :: e in sch.structs[es[i].kind.ref] ==> e.mode != Required
  {
    var nested := sch.structs[es[i].kind.ref];
    CompleteBut(sch, es, cells, i, GetNested(nested, cells[i]));
    assert CompleteCell(sch, es[i], cells[i]);
    NewBlank(sch, nested);
    BlankComplete(sch, nested, New(nested));
    NestedComplete(sch, es[i], New(nested));
  }
}
