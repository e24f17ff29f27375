/** Where a message lives: places in a tree of nested messages, and what changing one of them does to the rest. */
module RpcPlaces {
  import opened Prelude
  import opened RpcMessage
  import opened RpcRoundTrip

  /** From a message to one nested in it: the message of a struct field, or an element of a struct array. */
  datatype Step = Field(field: nat) | Element(field: nat, elem: nat)

  type Path = seq<Step>

  function Child(c: Cell, s: Step): Option<seq<Cell>> {
    match s
    case Field(_) => if c.One? && c.data.Msg? then Some(c.data.m.cells) else None
    case Element(_, j) => if c.Many? && j < |c.items| && c.items[j].Msg? then Some(c.items[j].m.cells) else None
  }

  function SetChild(c: Cell, s: Step, child: seq<Cell>): Cell
    requires Child(c, s).Some?
  {
    match s
    case Field(_) => One(c.isSet, Msg(Message(child)))
    case Element(_, j) => Many(c.isSet, c.items[j := Msg(Message(child))])
  }

  function At(cells: seq<Cell>, path: Path): Option<seq<Cell>>
    decreases |path|
  {
    if path == [] then Some(cells)
    else if path[0].field >= |cells| then None
    else
      var child := Child(cells[path[0].field], path[0]);
      if child.Some? then At(child.value, path[1..]) else None
  }

  /** The declaration of the message at a place. */
  function EntriesAt(sch: Schema, es: seq<Entry>, path: Path): seq<Entry>
    decreases |path|
  {
    if path == [] then es
    else if path[0].field >= |es| then []
    else EntriesAt(sch, EntriesOf(sch, es[path[0].field].kind), path[1..])
  }

  /** The tree with field `i` of the message at `path` overwritten. */
  function Put(cells: seq<Cell>, path: Path, i: nat, x: Cell): (after: seq<Cell>)
    requires At(cells, path).Some? && i < |At(cells, path).value|
    ensures |after| == |cells|
    decreases |path|
  {
    if path == [] then cells[i := x]
    else
      var s := path[0];
      cells[s.field := SetChild(cells[s.field], s, Put(Child(cells[s.field], s).value, path[1..], i, x))]
  }

  /** The place is reached through fields that are set, so it is sent along with the message. */
  predicate Reached(cells: seq<Cell>, path: Path)
    decreases |path|
  {
    path == [] ||
    (&& path[0].field < |cells| && cells[path[0].field].isSet && Child(cells[path[0].field], path[0]).Some?
     && Reached(Child(cells[path[0].field], path[0]).value, path[1..]))
  }

  // ----- navigation -----

  lemma {:induction false} ChildOk(sch: Schema, e: Entry, c: Cell, s: Step)
    requires CellOk(sch, e, c) && Child(c, s).Some?
    ensures e.kind.Nested? && e.kind.ref in sch.structs
    ensures CellsOk(sch, EntriesOf(sch, e.kind), Child(c, s).value)
  {
  }

  lemma {:induction false} SetChildOk(sch: Schema, e: Entry, c: Cell, s: Step, child: seq<Cell>)
    requires CellOk(sch, e, c) && Child(c, s).Some? && CellsOk(sch, EntriesOf(sch, e.kind), child)
    ensures CellOk(sch, e, SetChild(c, s, child))
  {
    ChildOk(sch, e, c, s);
    if s.Element? {
      var items := c.items[s.elem := Msg(Message(child))];
      forall i | 0 <= i < |items|
        ensures ValueOk(sch, e.kind, items[i])
      {
        assert i != s.elem ==> items[i] == c.items[i];
      }
    }
  }

  lemma {:induction false} AtOk(sch: Schema, es: seq<Entry>, cells: seq<Cell>, path: Path)
    requires CellsOk(sch, es, cells) && At(cells, path).Some?
    ensures CellsOk(sch, EntriesAt(sch, es, path), At(cells, path).value)
    decreases |path|
  {
    if path != [] {
      var s := path[0];
      ChildOk(sch, es[s.field], cells[s.field], s);
      AtOk(sch, EntriesOf(sch, es[s.field].kind), Child(cells[s.field], s).value, path[1..]);
    }
  }

  lemma {:induction false} PutOk(sch: Schema, es: seq<Entry>, cells: seq<Cell>, path: Path, i: nat, x: Cell)
    requires CellsOk(sch, es, cells) && At(cells, path).Some? && i < |At(cells, path).value|
    requires i < |EntriesAt(sch, es, path)| && CellOk(sch, EntriesAt(sch, es, path)[i], x)
    ensures CellsOk(sch, es, Put(cells, path, i, x))
    decreases |path|
  {
    if path != [] {
      var s := path[0];
      var e, c := es[s.field], cells[s.field];
      ChildOk(sch, e, c, s);
      PutOk(sch, EntriesOf(sch, e.kind), Child(c, s).value, path[1..], i, x);
      SetChildOk(sch, e, c, s, Put(Child(c, s).value, path[1..], i, x));
    }
  }

  lemma {:induction false} AtAppend(cells: seq<Cell>, a: Path, b: Path)
    ensures At(cells, a + b) == if At(cells, a).Some? then At(At(cells, a).value, b) else None
    decreases |a|
  {
    if a == [] {
      assert a + b == b;
    } else {
      assert (a + b)[1..] == a[1..] + b;
      if a[0].field < |cells| && Child(cells[a[0].field], a[0]).Some? {
        AtAppend(Child(cells[a[0].field], a[0]).value, a[1..], b);
      }
    }
  }

  lemma {:induction false} EntriesAppend(sch: Schema, es: seq<Entry>, a: Path, b: Path)
    ensures EntriesAt(sch, es, a + b) == EntriesAt(sch, EntriesAt(sch, es, a), b)
    decreases |a|
  {
    if a == [] {
      assert a + b == b;
    } else {
      assert (a + b)[1..] == a[1..] + b;
      if a[0].field < |es| {
        EntriesAppend(sch, EntriesOf(sch, es[a[0].field].kind), a[1..], b);
      } else {
        NoEntries(sch, b);
      }
    }
  }

  lemma {:induction false} NoEntries(sch: Schema, b: Path)
    ensures EntriesAt(sch, [], b) == []
  {
  }

  /** The message around a change has that change inside it. */
  lemma {:induction false} AtAbove(cells: seq<Cell>, q: Path, r: Path, i: nat, x: Cell)
    requires At(cells, q + r).Some? && i < |At(cells, q + r).value|
    ensures At(cells, q).Some? && At(At(cells, q).value, r) == At(cells, q + r)
    ensures At(Put(cells, q + r, i, x), q) == Some(Put(At(cells, q).value, r, i, x))
    decreases |q|
  {
    AtAppend(cells, q, r);
    if q == [] {
      assert q + r == r;
    } else {
      assert (q + r)[1..] == q[1..] + r;
      AtAbove(Child(cells[q[0].field], q[0]).value, q[1..], r, i, x);
    }
  }

  /** Below the changed field there is what the new contents hold. */
  lemma {:induction false} AtBelow(cells: seq<Cell>, p: Path, s: Step, r: Path, x: Cell)
    requires At(cells, p).Some? && s.field < |At(cells, p).value|
    ensures At(Put(cells, p, s.field, x), p + [s] + r) == if Child(x, s).Some? then At(Child(x, s).value, r) else None
  {
    var after := Put(cells, p, s.field, x);
    assert p + [] == p;
    AtAbove(cells, p, [], s.field, x);
    assert p + [s] + r == p + ([s] + r);
    AtAppend(after, p, [s] + r);
    assert ([s] + r)[1..] == r;
  }

  lemma {:induction false} PrefixTail(a: Path, b: Path)
    requires a != [] && b != []
    ensures a <= b <==> a[0] == b[0] && a[1..] <= b[1..]
  {
    assert a == [a[0]] + a[1..] && b == [b[0]] + b[1..];
    if |a| <= |b| {
      assert b[..|a|] == [b[0]] + b[1..][..|a| - 1];
    }
  }

  /** Everywhere else nothing changes. */
  lemma {:induction false} AtElsewhere(cells: seq<Cell>, p: Path, s: Step, x: Cell, q: Path)
    requires At(cells, p).Some? && s.field < |At(cells, p).value|
    requires forall t: Step :: t.field == s.field && t != s ==> Child(x, t) == Child(At(cells, p).value[s.field], t)
    requires !(q <= p) && !(p + [s] <= q)
    ensures At(Put(cells, p, s.field, x), q) == At(cells, q)
    decreases |p|
  {
    if p == [] {
      PrefixTail([s], q);
    } else if q[0] == p[0] {
      PrefixTail(q, p);
      PrefixTail(p + [s], q);
      assert (p + [s])[1..] == p[1..] + [s];
      AtElsewhere(Child(cells[p[0].field], p[0]).value, p[1..], s, x, q[1..]);
    }
  }

  // ----- what a change does to the message around it -----

  lemma {:induction false} OneCellChange(sch: Schema, es: seq<Entry>, v: seq<Cell>, k: nat, y: Cell)
    requires CellsOk(sch, es, v) && Complete(sch, es, v) && NoNullElements(sch, es, v)
    requires k < |v| && CellOk(sch, es[k], y)
    ensures var u := v[k := y];
      && (Sendable(sch, es, u) <==> SendableCell(sch, es[k], y))
      && (Same(sch, es, v, Settled(sch, es, u)) <==> SameCell(sch, es[k], v[k], SettledCell(sch, es[k], y)))
  {
    var u := v[k := y];
    CompleteSent(sch, es, v);
    forall i | 0 <= i < |v| && i != k
      ensures SendableCell(sch, es[i], u[i])
      ensures SameCell(sch, es[i], v[i], Settled(sch, es, u)[i])
    {
      assert u[i] == v[i];
      assert SendableCell(sch, es[i], v[i]);
      assert SameCell(sch, es[i], v[i], Settled(sch, es, v)[i]);
    }
    assert Settled(sch, es, u)[k] == SettledCell(sch, es[k], y);
    assert u[k] == y;
  }

  /** A set field with one nested message exchanged for another. */
  lemma {:induction false} ChildChange(sch: Schema, e: Entry, c: Cell, s: Step, child: seq<Cell>)
    requires CellOk(sch, e, c) && CompleteCell(sch, e, c) && NoNullInCell(sch, e, c) && c.isSet
    requires Child(c, s).Some?
    ensures var y := SetChild(c, s, child);
      var was := Child(c, s).value;
      && (SendableCell(sch, e, y) <==> Sendable(sch, EntriesOf(sch, e.kind), child))
      && (SameCell(sch, e, c, SettledCell(sch, e, y)) <==>
            Same(sch, EntriesOf(sch, e.kind), was, Settled(sch, EntriesOf(sch, e.kind), child)))
  {
    var y := SetChild(c, s, child);
    if s.Element? {
      CompleteCellSent(sch, e, c);
      var settled := SettledCell(sch, e, y);
      forall i | 0 <= i < |c.items| && i != s.elem
        ensures SendableValue(sch, e.kind, y.items[i]) && SameValue(sch, e.kind, c.items[i], settled.items[i])
      {
        assert y.items[i] == c.items[i];
        assert SettledCell(sch, e, c).items[i] == SettledValue(sch, e.kind, c.items[i]);
      }
      assert y.items[s.elem] == Msg(Message(child));
      assert settled.items[s.elem] == SettledValue(sch, e.kind, Msg(Message(child)));
    }
  }

  lemma {:induction false} ChildComplete(sch: Schema, e: Entry, c: Cell, s: Step)
    requires CompleteCell(sch, e, c) && NoNullInCell(sch, e, c) && c.isSet && Child(c, s).Some?
    ensures |Child(c, s).value| == |EntriesOf(sch, e.kind)|
    ensures Complete(sch, EntriesOf(sch, e.kind), Child(c, s).value)
    ensures NoNullElements(sch, EntriesOf(sch, e.kind), Child(c, s).value)
  {
    if s.Element? {
      assert CompleteValue(sch, e.kind, c.items[s.elem]) && NoNullIn(sch, e.kind, c.items[s.elem]);
    }
  }

  lemma {:induction false} ReachedComplete(sch: Schema, es: seq<Entry>, v: seq<Cell>, path: Path)
    requires CellsOk(sch, es, v) && Complete(sch, es, v) && NoNullElements(sch, es, v)
    requires At(v, path).Some? && Reached(v, path)
    ensures var m, mes := At(v, path).value, EntriesAt(sch, es, path);
      |m| == |mes| && Complete(sch, mes, m) && NoNullElements(sch, mes, m)
    decreases |path|
  {
    if path != [] {
      var s := path[0];
      ChildOk(sch, es[s.field], v[s.field], s);
      ChildComplete(sch, es[s.field], v[s.field], s);
      ReachedComplete(sch, EntriesOf(sch, es[s.field].kind), Child(v[s.field], s).value, path[1..]);
    }
  }

  /** A field changed deep inside a complete message shows in what a receiver gets exactly when it is sent along, and
      then as the field itself does. */
  lemma {:induction false} DeepChange(sch: Schema, es: seq<Entry>, v: seq<Cell>, path: Path, i: nat, x: Cell)
    requires CellsOk(sch, es, v) && Complete(sch, es, v) && NoNullElements(sch, es, v)
    requires At(v, path).Some? && i < |At(v, path).value| && i < |EntriesAt(sch, es, path)|
    requires CellOk(sch, EntriesAt(sch, es, path)[i], x)
    ensures var u, e, c := Put(v, path, i, x), EntriesAt(sch, es, path)[i], At(v, path).value[i];
      if Reached(v, path) then
        && (Sendable(sch, es, u) <==> SendableCell(sch, e, x))
        && (Same(sch, es, v, Settled(sch, es, u)) <==> SameCell(sch, e, c, SettledCell(sch, e, x)))
      else Sendable(sch, es, u) && Same(sch, es, v, Settled(sch, es, u))
    decreases |path|
  {
    if path == [] {
      OneCellChange(sch, es, v, i, x);
    } else {
      var s := path[0];
      var k, e, c := s.field, es[s.field], v[s.field];
      var child := Child(c, s).value;
      var child' := Put(child, path[1..], i, x);
      var y := SetChild(c, s, child');
      ChildOk(sch, e, c, s);
      PutOk(sch, EntriesOf(sch, e.kind), child, path[1..], i, x);
      SetChildOk(sch, e, c, s, child');
      OneCellChange(sch, es, v, k, y);
      assert CompleteCell(sch, e, c);
      if c.isSet {
        ChildComplete(sch, e, c, s);
        ChildChange(sch, e, c, s, child');
        DeepChange(sch, EntriesOf(sch, e.kind), child, path[1..], i, x);
      }
    }
  }
}
