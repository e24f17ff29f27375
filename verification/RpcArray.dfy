/**
 Storage of an array field in the emitted C: `_data` in an allocation of `_num_allocated` elements,
 of which `_length` are in use, doubled on demand.
 */
module RpcArray {

  predicate PowerOfTwo(n: nat) {
    n == 1 || (n > 0 && n % 2 == 0 && PowerOfTwo(n / 2))
  }

  /** Doubling an int of this value overflows; no allocation of the resulting size succeeds. */
  const HALF_INT := 0x4000_0000

  /** The new number of elements, or 0 when the allocation fails. */
  function Grown(held: nat, memory: bool): nat {
    var wanted := if held == 0 then 1 else held * 2;
    if memory && held < HALF_INT then wanted else 0
  }

  lemma {:induction false} GrownIsPower(held: nat, memory: bool)
    requires held == 0 || PowerOfTwo(held)
    ensures Grown(held, memory) == 0 || PowerOfTwo(Grown(held, memory))
    ensures Grown(held, memory) != 0 ==> Grown(held, memory) > held
  {
    if held != 0 {
      assert held * 2 / 2 == held;
    }
  }

  /** Elements in use and elements allocated. */
  datatype Storage = Storage(length: nat, held: nat)

  /** One operation on an array field: `made` and `decoded` say whether the element itself could be built,
      `memory` whether a realloc would succeed. */
  datatype Op = Add(made: bool, memory: bool) | Receive(decoded: bool, memory: bool) | Clear

  /** Make room when the length an operation compares has reached the allocation. */
  function Room(s: Storage, compared: nat, memory: bool): Storage {
    if compared >= s.held && Grown(s.held, memory) != 0 then s.(held := Grown(s.held, memory)) else s
  }

  /** Is there a slot for the element?  The emitted add asks for one more than it needs. */
  predicate HasRoom(s: Storage, op: Op) {
    match op
    case Add(_, memory) => s.length + 1 < s.held || Grown(s.held, memory) != 0
    case Receive(_, memory) => s.length < s.held || Grown(s.held, memory) != 0
    case Clear => true
  }

  predicate Succeeds(s: Storage, op: Op) {
    HasRoom(s, op) && (op.Add? ==> op.made) && (op.Receive? ==> op.decoded)
  }

  function Step(s: Storage, op: Op): Storage {
    var grown := match op
      case Add(_, memory) => Room(s, s.length + 1, memory)
      case Receive(_, memory) => Room(s, s.length, memory)
      case Clear => s;
    if op.Clear? then (if s.length > 0 then Storage(0, 0) else s)
    else if Succeeds(s, op) then grown.(length := s.length + 1)
    else grown
  }

  function Run(s: Storage, ops: seq<Op>): Storage {
    if ops == [] then s else Step(Run(s, ops[..|ops| - 1]), ops[|ops| - 1])
  }

  /** The allocation is nothing or a power of two, and at most twice the next length. */
  predicate Tight(s: Storage) {
    && (s.held == 0 || PowerOfTwo(s.held))
    && s.length <= s.held <= 2 * (s.length + 1)
  }

  lemma {:induction false} StepTight(s: Storage, op: Op)
    requires Tight(s)
    ensures Tight(Step(s, op))
    ensures !op.Clear? && Succeeds(s, op) ==> s.length < Step(s, op).held && Step(s, op).length == s.length + 1
    ensures !op.Clear? && !Succeeds(s, op) ==> Step(s, op).length == s.length
  {
    if op.Add? {
      GrownIsPower(s.held, op.memory);
    } else if op.Receive? {
      GrownIsPower(s.held, op.memory);
    }
  }

  predicate HalfFull(s: Storage) {
    s.held <= 2 * s.length
  }

  /** Does the operation find its slot only by growing? */
  predicate Grows(s: Storage, op: Op) {
    match op
    case Add(_, memory) => s.length + 1 >= s.held && Grown(s.held, memory) != 0
    case Receive(_, memory) => s.length >= s.held && Grown(s.held, memory) != 0
    case Clear => false
  }

  /** The element fails after the storage has grown for it, and the old storage was empty or had a slot left. */
  predicate Spoils(s: Storage, op: Op) {
    Grows(s, op) && !Succeeds(s, op) && (s.held == 0 || s.length < s.held)
  }

  lemma {:induction false} StepSpoils(s: Storage, op: Op)
    requires Tight(s) && HalfFull(s)
    ensures HalfFull(Step(s, op)) <==> !Spoils(s, op)
  {
  }

  /** Half full after every operation of the run, starting from an empty array. */
  predicate AlwaysHalfFull(ops: seq<Op>) {
    HalfFull(Run(Storage(0, 0), ops)) && (ops == [] || AlwaysHalfFull(ops[..|ops| - 1]))
  }

  predicate NeverSpoiled(ops: seq<Op>) {
    ops == [] ||
    (NeverSpoiled(ops[..|ops| - 1]) && !Spoils(Run(Storage(0, 0), ops[..|ops| - 1]), ops[|ops| - 1]))
  }

  /** From an empty array, whatever is done, the allocation is 0 or a power of two and covers the length; it stays
      within twice the length exactly as long as no element spoils it. */
  lemma {:induction false} GrowthBounds(ops: seq<Op>)
    ensures Tight(Run(Storage(0, 0), ops))
    ensures AlwaysHalfFull(ops) <==> NeverSpoiled(ops)
  {
    if ops != [] {
      var before := Run(Storage(0, 0), ops[..|ops| - 1]);
      GrowthBounds(ops[..|ops| - 1]);
      StepTight(before, ops[|ops| - 1]);
      if HalfFull(before) {
        StepSpoils(before, ops[|ops| - 1]);
      }
    }
  }

  /** When every operation succeeds, the factor two holds throughout. */
  lemma {:induction false} SuccessKeepsHalfFull(ops: seq<Op>)
    requires forall k :: 0 <= k < |ops| ==> Succeeds(Run(Storage(0, 0), ops[..k]), ops[k])
    ensures NeverSpoiled(ops) && HalfFull(Run(Storage(0, 0), ops))
  {
    GrowthBounds(ops);
    if ops != [] {
      var front := ops[..|ops| - 1];
      forall k | 0 <= k < |front|
        ensures Succeeds(Run(Storage(0, 0), front[..k]), front[k])
      {
        assert front[..k] == ops[..k];
        assert Succeeds(Run(Storage(0, 0), ops[..k]), ops[k]);
      }
      SuccessKeepsHalfFull(front);
      assert Succeeds(Run(Storage(0, 0), ops[..|front|]), ops[|front|]);
    }
  }

  /** One element that cannot be decoded leaves storage with nothing in it. */
  lemma {:induction false} LostElementBreaksBound()
    ensures !HalfFull(Run(Storage(0, 0), [Receive(false, true)]))
  {
    assert [Receive(false, true)][..0] == [];
  }

  // ----- when there is room -----

  lemma {:induction false} PowerGap(n: nat, m: nat)
    requires PowerOfTwo(n) && PowerOfTwo(m) && n < m
    ensures 2 * n <= m
  {
    if n > 1 {
      PowerGap(n / 2, m / 2);
    }
  }

  lemma {:induction false} PowerTimes(n: nat, k: nat)
    requires PowerOfTwo(n)
    ensures PowerOfTwo(Doubled(n, k))
  {
    if k > 0 {
      PowerTimes(n, k - 1);
      assert Doubled(n, k - 1) * 2 / 2 == Doubled(n, k - 1);
    }
  }

  function Doubled(n: nat, k: nat): (m: nat)
    ensures n > 0 ==> m > 0
  {
    if k == 0 then n else Doubled(n, k - 1) * 2
  }

  lemma {:induction false} HalfIntIsPower()
    ensures PowerOfTwo(0x4000_0000)
  {
    assert Doubled(1, 10) == 1024;
    PowerTimes(1, 10);
    assert Doubled(1024, 10) == 0x10_0000;
    PowerTimes(1024, 10);
    assert Doubled(0x10_0000, 10) == 0x4000_0000;
    PowerTimes(0x10_0000, 10);
  }

  /** No allocation goes beyond 2^30 elements. */
  lemma {:induction false} HeldBounded(ops: seq<Op>)
    ensures Run(Storage(0, 0), ops).held <= 0x4000_0000
  {
    if ops != [] {
      var front := ops[..|ops| - 1];
      HeldBounded(front);
      GrowthBounds(front);
      HalfIntIsPower();
      var held := Run(Storage(0, 0), front).held;
      if 0 < held < 0x4000_0000 {
        PowerGap(held, 0x4000_0000);
      }
    }
  }

  /** After every run: an element that could be built is added, memory allowing, iff the new length is below 2^30, and
      received iff the old one is; without memory only into a slot that is there, of which add asks for one more. */
  lemma {:induction false} RoomExact(ops: seq<Op>, made: bool, memory: bool)
    ensures var s := Run(Storage(0, 0), ops);
      && (Succeeds(s, Add(made, memory)) <==> made && (s.length + 1 < s.held || (memory && s.length + 1 < 0x4000_0000)))
      && (Succeeds(s, Receive(made, memory)) <==> made && (s.length < s.held || (memory && s.length < 0x4000_0000)))
  {
    var s := Run(Storage(0, 0), ops);
    HeldBounded(ops);
    GrowthBounds(ops);
    HalfIntIsPower();
    if 0 < s.held < 0x4000_0000 {
      PowerGap(s.held, 0x4000_0000);
    }
  }

  function Repeat(op: Op, n: nat): (ops: seq<Op>)
    ensures |ops| == n && forall i :: 0 <= i < n ==> ops[i] == op
  {
    seq(n, i => op)
  }

  lemma {:induction false} RepeatSnoc(op: Op, n: nat)
    requires n > 0
    ensures Run(Storage(0, 0), Repeat(op, n)) == Step(Run(Storage(0, 0), Repeat(op, n - 1)), op)
  {
    assert Repeat(op, n)[..n - 1] == Repeat(op, n - 1);
  }

  /** The allocation for n elements received is the least power of two that holds them. */
  lemma {:induction false} HeldAfterReceives(n: nat)
    requires 0 < n <= 0x4000_0000
    ensures var s := Run(Storage(0, 0), Repeat(Receive(true, true), n)); s.length == n <= s.held < 2 * n && PowerOfTwo(s.held)
  {
    RepeatSnoc(Receive(true, true), n);
    GrowthBounds(Repeat(Receive(true, true), n));
    RoomExact(Repeat(Receive(true, true), n - 1), true, true);
    if n > 1 {
      HeldAfterReceives(n - 1);
    }
  }

  /** The allocation for n elements added is the least power of two above n, but for the first two it is n. */
  lemma {:induction false} HeldAfterAdds(n: nat)
    requires 0 < n < 0x4000_0000
    ensures var s := Run(Storage(0, 0), Repeat(Op.Add(true, true), n));
      && s.length == n && PowerOfTwo(s.held)
      && (if n <= 2 then s.held == n else s.held <= 2 * n && n < s.held)
  {
    RepeatSnoc(Op.Add(true, true), n);
    GrowthBounds(Repeat(Op.Add(true, true), n));
    RoomExact(Repeat(Op.Add(true, true), n - 1), true, true);
    if n > 1 {
      HeldAfterAdds(n - 1);
    }
  }

  class ArrayField<T(0)> {
    var data: array<T>          // _data; its length is _num_allocated
    var length: nat
    var isSet: bool

    ghost function View(): Storage
      reads this
    {
      Storage(length, data.Length)
    }

    ghost predicate Valid()
      reads this
    {
      Tight(View()) && (isSet <==> length > 0)
    }

    ghost function Items(): seq<T>
      reads this, data
      requires length <= data.Length
    {
      data[..length]
    }

    constructor Empty()
      ensures Valid() && View() == Storage(0, 0) && fresh(data)
    {
      data := new T[0];
      length, isSet := 0, false;
    }

    /** realloc to twice the size (or to one element); on failure the old storage stays. */
    method ExpandToHoldMore(memory: bool) returns (rc: int)
      requires data.Length == 0 || PowerOfTwo(data.Length)
      modifies this`data
      ensures rc == if Grown(old(data.Length), memory) == 0 then -1 else 0
      ensures rc == -1 ==> data == old(data)
      ensures rc == 0 ==> fresh(data) && data.Length == Grown(old(data.Length), memory) > old(data.Length)
      ensures rc == 0 ==> data[..old(data.Length)] == old(data[..])
    {
      GrownIsPower(data.Length, memory);
      var size := Grown(data.Length, memory);
      if size == 0 {
        return -1;
      }
      var bigger := new T[size];
      for i := 0 to data.Length
        invariant data == old(data) && bigger[..i] == data[..i]
      {
        bigger[i] := data[i];
      }
      data := bigger;
      return 0;
    }

    /** The first lines of the emitted add: count the new element, and make sure there is a slot for it. */
    method Reserve(memory: bool) returns (ok: bool)
      requires length <= data.Length && (data.Length == 0 || PowerOfTwo(data.Length))
      modifies this`length, this`data
      ensures ok <==> HasRoom(old(View()), Op.Add(true, memory))
      ensures length == old(length) + if ok then 1 else 0
      ensures data.Length == Room(old(View()), old(length) + 1, memory).held
      ensures old(length) <= data.Length && data[..old(length)] == old(Items())
      ensures data == old(data) || fresh(data)
    {
      length := length + 1;
      if length >= data.Length {
        ghost var before := data[..];
        var rc := ExpandToHoldMore(memory);
        if rc < 0 {
          length := length - 1;
          return false;
        }
        assert data[..length - 1] == data[..|before|][..length - 1];
      }
      return true;
    }

    /** The emitted add, with the value to store. */
    method Add(value: T, made: bool, memory: bool) returns (ok: bool)
      requires Valid()
      modifies this, data
      ensures Valid() && View() == Step(old(View()), Op.Add(made, memory))
      ensures data == old(data) || fresh(data)
      ensures ok <==> Succeeds(old(View()), Op.Add(made, memory))
      ensures Items() == if ok then old(Items()) + [value] else old(Items())
    {
      ghost var before, view := Items(), View();
      StepTight(view, Op.Add(made, memory));
      var reserved := Reserve(memory);
      if !reserved {
        return false;
      }
      if !made {
        length := length - 1;
        assert View() == Step(view, Op.Add(made, memory));
        return false;
      }
      isSet := true;
      assert View() == Step(view, Op.Add(made, memory));
      data[length - 1] := value;
      assert data[..length] == before + [value];
      return true;
    }

    /** What unmarshal does with one element: make room, decode into the next slot, count it. */
    method Receive(value: T, decoded: bool, memory: bool) returns (ok: bool)
      requires Valid()
      modifies this, data
      ensures Valid() && View() == Step(old(View()), Op.Receive(decoded, memory))
      ensures data == old(data) || fresh(data)
      ensures ok <==> Succeeds(old(View()), Op.Receive(decoded, memory))
      ensures Items() == if ok then old(Items()) + [value] else old(Items())
    {
      ghost var before := Items();
      StepTight(View(), Op.Receive(decoded, memory));
      if length >= data.Length {
        var rc := ExpandToHoldMore(memory);
        if rc < 0 {
          return false;
        }
      }
      if !decoded {
        return false;
      }
      data[length] := value;
      length := length + 1;
      assert data[..length - 1] == before;
      isSet := true;
      return true;
    }

    method Clear()
      requires Valid()
      modifies this
      ensures Valid() && View() == Step(old(View()), Op.Clear) && Items() == []
    {
      if isSet {
        data := new T[0];
        length, isSet := 0, false;
      }
    }
  }
}
