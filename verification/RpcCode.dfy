/**
 The emitted C, statement by statement: a message object whose fields the generated functions update.
 A return code is 0 or -1, as in the generated code.
 */
module RpcCode {
  import opened Prelude
  import opened RpcMessage
  import opened RpcRoundTrip

  lemma {:induction false} FeedStuck(sch: Schema, es: seq<Entry>, cells: seq<Cell>, recs: seq<Rec>, k: nat)
    requires |es| == |cells| && k <= |recs| && Feed(sch, es, cells, recs[..k]).None?
    ensures Feed(sch, es, cells, recs).None?
    decreases |recs| - k
  {
    if k < |recs| {
      assert recs[..k + 1][..k] == recs[..k];
      FeedStuck(sch, es, cells, recs, k + 1);
    } else {
      assert recs[..k] == recs;
    }
  }

  /** The fields after as many records as can be taken in. */
  function Reached(sch: Schema, es: seq<Entry>, cells: seq<Cell>, recs: seq<Rec>): (reached: seq<Cell>)
    requires |es| == |cells|
    ensures |reached| == |es|
    decreases |recs|
  {
    var fed := Feed(sch, es, cells, recs);
    if recs == [] then cells
    else if fed.Some? then fed.value
    else Reached(sch, es, cells, recs[..|recs| - 1])
  }

  lemma {:induction false} ReachedStuck(sch: Schema, es: seq<Entry>, cells: seq<Cell>, recs: seq<Rec>, k: nat)
    requires |es| == |cells| && k < |recs|
    requires Feed(sch, es, cells, recs[..k]).Some? && Feed(sch, es, cells, recs[..k + 1]).None?
    ensures Feed(sch, es, cells, recs).None?
    ensures Reached(sch, es, cells, recs) == Feed(sch, es, cells, recs[..k]).value
    decreases |recs|
  {
    var n := |recs| - 1;
    FeedStuck(sch, es, cells, recs, k + 1);
    if k < n {
      assert recs[..n][..k] == recs[..k] && recs[..n][..k + 1] == recs[..k + 1];
      ReachedStuck(sch, es, cells, recs[..n], k);
    } else if n > 0 {
      assert recs[..n] != [];
    }
  }

  /** The same as far as set fields go; what an unset field holds is not looked at. */
  predicate SameSet(a: seq<Cell>, b: seq<Cell>) {
    |a| == |b| && forall i :: 0 <= i < |a| ==> a[i].isSet == b[i].isSet && (a[i].isSet ==> a[i] == b[i])
  }

  class MessageObject {
    const sch: Schema
    const es: seq<Entry>
    var cells: seq<Cell>

    ghost predicate Valid()
      reads this
    {
      |cells| == |es|
    }

    /** A fresh message. */
    constructor New(schema: Schema, entries: seq<Entry>)
      ensures Valid() && sch == schema && es == entries && cells == RpcMessage.New(entries)
    {
      sch, es := schema, entries;
      cells := RpcMessage.New(entries);
    }

    /** The struct a pointer field refers to. */
    constructor At(schema: Schema, entries: seq<Entry>, fields: seq<Cell>)
      requires |fields| == |entries|
      ensures Valid() && sch == schema && es == entries && cells == fields
    {
      sch, es, cells := schema, entries, fields;
    }

    method Clear()
      requires Valid()
      modifies this
      ensures Valid() && cells == RpcMessage.Clear(es, old(cells))
    {
      for i := 0 to |es|
        invariant |cells| == |es|
        invariant forall j :: 0 <= j < |es| ==> cells[j] == if j < i then ClearCell(es[j], old(cells)[j]) else old(cells)[j]
      {
        cells := cells[i := ClearCell(es[i], cells[i])];
      }
    }

    /** The emitted complete: required flags, and nested messages that are set. */
    method Complete() returns (rc: int)
      requires Valid()
      ensures rc == if RpcMessage.Complete(sch, es, cells) then 0 else -1
      decreases cells, 2
    {
      for i := 0 to |es|
        invariant forall j :: 0 <= j < i ==> CompleteCell(sch, es[j], cells[j])
      {
        if es[i].mode == Required && !cells[i].isSet {
          return -1;
        }
        if cells[i].isSet {
          var bad := IncompleteNested(es[i], cells[i]);
          if bad {
            return -1;
          }
        }
      }
      return 0;
    }

    method IncompleteNested(e: Entry, c: Cell) returns (bad: bool)
      requires c.isSet
      ensures bad == !CompleteCell(sch, e, c)
      decreases c, 1
    {
      match c
      case One(_, data) =>
        bad := IncompleteValue(e.kind, data);
      case Many(_, items) =>
        for i := 0 to |items|
          invariant forall j :: 0 <= j < i ==> CompleteValue(sch, e.kind, items[j])
        {
          var b := IncompleteValue(e.kind, items[i]);
          if b {
            return true;
          }
        }
        return false;
    }

    method IncompleteValue(k: Kind, v: Value) returns (bad: bool)
      ensures bad == !CompleteValue(sch, k, v)
      decreases v, 1
    {
      bad := false;
      if v.Msg? {
        if |v.m.cells| != |EntriesOf(sch, k)| {
          return true;
        }
        var nested := new MessageObject.At(sch, EntriesOf(sch, k), v.m.cells);
        var rc := nested.Complete();
        bad := rc == -1;
      }
    }

    /** The emitted marshal: append this message's records to the buffer.  It dereferences every string and
        struct it sends, so none of them may be null. */
    method MarshalTo(buf: seq<Rec>) returns (evbuf: seq<Rec>)
      requires Valid() && Sendable(sch, es, cells)
      ensures evbuf == buf + Marshal(sch, es, cells)
      decreases cells, 2
    {
      evbuf := buf;
      for i := 0 to |es|
        invariant evbuf == buf + Marshal(sch, es[..i], cells[..i])
      {
        evbuf := MarshalField(es[i], cells[i], evbuf);
        assert es[..i + 1][..i] == es[..i] && cells[..i + 1][..i] == cells[..i];
      }
      assert es[..|es|] == es && cells[..|es|] == cells;
    }

    method MarshalField(e: Entry, c: Cell, buf: seq<Rec>) returns (evbuf: seq<Rec>)
      requires SendableCell(sch, e, c)
      ensures evbuf == buf + MarshalCell(sch, e, c)
      decreases c, 1
    {
      evbuf := buf;
      match c
      case One(isSet, data) =>
        if e.mode != Optional || isSet {
          var p := PayloadOf(e.kind, data);
          evbuf := evbuf + [Rec(e.tag, p)];
        }
      case Many(isSet, items) =>
        if isSet {
          for i := 0 to |items|
            invariant evbuf == buf + MarshalItems(sch, e, items[..i])
          {
            var p := PayloadOf(e.kind, items[i]);
            evbuf := evbuf + [Rec(e.tag, p)];
            assert items[..i + 1][..i] == items[..i];
          }
          assert items[..|items|] == items;
        }
    }

    method PayloadOf(k: Kind, v: Value) returns (p: seq<Byte>)
      requires SendableValue(sch, k, v)
      ensures p == MarshalValue(sch, k, v)
      decreases v, 1
    {
      if v.Msg? {
        var nested := new MessageObject.At(sch, EntriesOf(sch, k), v.m.cells);
        var recs := nested.MarshalTo([]);
        assert recs == Marshal(sch, EntriesOf(sch, k), v.m.cells);
        p := sch.wire.join(recs);
      } else {
        p := sch.wire.encode(k, v);
      }
    }

    /** The emitted unmarshal: consume the buffer record by record, then check completeness.  After a failure the
        set fields are those of the records taken in before it; the unset field that was being read holds
        whatever the attempt left there. */
    method UnmarshalFrom(evbuf: seq<Rec>) returns (rc: int)
      requires Valid()
      modifies this
      ensures Valid()
      ensures rc == if Unmarshal(sch, es, old(cells), evbuf).Some? then 0 else -1
      ensures rc == 0 ==> cells == Unmarshal(sch, es, old(cells), evbuf).value
      ensures SameSet(cells, Reached(sch, es, old(cells), evbuf))
      decreases Span(evbuf), 1
    {
      var n := 0;
      while n < |evbuf|
        invariant 0 <= n <= |evbuf| && |cells| == |es|
        invariant Feed(sch, es, old(cells), evbuf[..n]) == Some(cells)
      {
        var r := evbuf[n];
        assert evbuf[..n + 1][..n] == evbuf[..n];
        var at := FindTag(es, r.tag);
        if at.None? {
          ReachedStuck(sch, es, old(cells), evbuf, n);
          return -1;
        }
        var i := at.value;
        if es[i].mode != Array && cells[i].isSet {
          ReachedStuck(sch, es, old(cells), evbuf, n);
          return -1;
        }
        var v := ReadValue(es[i].kind, r.payload);
        if v.None? {
          ReachedStuck(sch, es, old(cells), evbuf, n);
          Spoil(i);
          return -1;
        }
        cells := cells[i := StoreCell(es[i], cells[i], v.value)];
        n := n + 1;
      }
      assert evbuf[..n] == evbuf;
      rc := Complete();
    }

    /** A failed read may have allocated or overwritten the data of the field it was for. */
    method Spoil(i: nat)
      requires Valid() && i < |cells|
      modifies this
      ensures Valid() && SameSet(cells, old(cells))
    {
      if cells[i].One? && !cells[i].isSet {
        var left: Value := *;
        cells := cells[i := One(false, left)];
      }
    }

    method ReadValue(k: Kind, b: seq<Byte>) returns (v: Option<Value>)
      ensures v == Decode(sch, k, b)
      decreases |b|, 2
    {
      if k.Nested? {
        v := None;
        var recs := sch.wire.split(b);
        if k.ref in sch.structs && recs.Some? && Span(recs.value) <= |b| {
          var nested := new MessageObject.New(sch, sch.structs[k.ref]);
          var rc := nested.UnmarshalFrom(recs.value);
          if rc == 0 {
            v := Some(Msg(Message(nested.cells)));
          }
        }
      } else {
        v := sch.wire.decode(k, b);
      }
    }
  }
}
