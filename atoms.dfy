/**
  The contract algebra of atoms.py: leaves `At(time)`, tuple-backed `And`/`Or` nodes whose
  children are nodes or scalar constants, the resolution time of a node, and the code
  fragment each callable node writes into a CodeBuilder.
*/
module Atoms {
  import opened Outcomes
  import opened Bytecode

  /**
    A contract term.  `Const` is a plain number placed among a node's children: it is not
    callable and has no `time` attribute.  `And` and `Or` are tuples, so their children are
    fixed when the node is built.
  */
  datatype Item =
    | Const(value: real)
    | At(time: real)
    | And(children: seq<Item>)
    | Or(children: seq<Item>)

  /**
    The outcome of reading `n.time`: no such attribute (a constant), a time, or the
    ValueError that `min` raises over an empty sequence.  `hasattr` only swallows
    AttributeError, so a child whose own `time` raises makes its parent raise too.
  */
  datatype TimeOf = NoTime | HasTime(t: real) | Raises

  predicate Composite(i: Item)
  {
    i.And? || i.Or?
  }

  /** The elements `q.extend(n)` pushes: a node's children, nothing for a leaf or a constant. */
  function Kids(i: Item): seq<Item>
  {
    if Composite(i) then i.children else []
  }

  /**
    `min` over the times of `ts` taken left to right, starting from the smallest seen so
    far (`acc`).  Entries without a time are skipped; a raising entry raises.
  */
  function MinFrom(ts: seq<TimeOf>, acc: Option<real>): (r: TimeOf)
    ensures r != NoTime
  {
    if ts == [] then
      if acc.None? then Raises else HasTime(acc.value)
    else
      match ts[0]
      case Raises => Raises
      case NoTime => MinFrom(ts[1..], acc)
      case HasTime(t) => MinFrom(ts[1..], Some(if acc.None? || t < acc.value then t else acc.value))
  }

  /**
    The running minimum raises exactly when some entry raises or nothing has a time;
    otherwise it is one of the times seen and no later than any of them.
  */
  lemma {:induction false} MinFromSpec(ts: seq<TimeOf>, acc: Option<real>)
    ensures MinFrom(ts, acc).Raises? <==>
      (exists k :: 0 <= k < |ts| && ts[k].Raises?) || (acc.None? && forall k :: 0 <= k < |ts| ==> ts[k].NoTime?)
    ensures var r := MinFrom(ts, acc); r.HasTime? ==>
      && (acc.Some? ==> r.t <= acc.value)
      && (forall k :: 0 <= k < |ts| && ts[k].HasTime? ==> r.t <= ts[k].t)
      && ((acc.Some? && r.t == acc.value) || exists k :: 0 <= k < |ts| && ts[k] == r)
  {
    if ts != [] {
      assert forall k :: 1 <= k < |ts| ==> ts[k] == ts[1..][k - 1];
      match ts[0]
      case Raises =>
      case NoTime => MinFromSpec(ts[1..], acc);
      case HasTime(t) => MinFromSpec(ts[1..], Some(if acc.None? || t < acc.value then t else acc.value));
    }
  }

  /** `min(n.time for n in children if hasattr(n, "time"))`. */
  function Earliest(ts: seq<TimeOf>): (r: TimeOf)
    ensures r != NoTime
  {
    MinFrom(ts, None)
  }

  /**
    `min` raises ValueError exactly when an entry raises or none has a time; otherwise it
    returns the earliest time.
  */
  lemma EarliestSpec(ts: seq<TimeOf>)
    ensures Earliest(ts).Raises? <==>
      (exists k :: 0 <= k < |ts| && ts[k].Raises?) || (forall k :: 0 <= k < |ts| ==> ts[k].NoTime?)
    ensures var r := Earliest(ts); r.HasTime? ==>
      && (forall k :: 0 <= k < |ts| && ts[k].HasTime? ==> r.t <= ts[k].t)
      && (exists k :: 0 <= k < |ts| && ts[k] == r)
  {
    MinFromSpec(ts, None);
  }

  /**
    `n.time`: the leaf's own time, or for a composite the minimum over the children that
    have one.  Only a constant has no time.
  */
  function Time(i: Item): (r: TimeOf)
    decreases i, 1
    ensures r.NoTime? <==> i.Const?
    ensures i.At? ==> r == HasTime(i.time)
  {
    match i
    case Const(_) => NoTime
    case At(t) => HasTime(t)
    case And(_) => Earliest(ChildTimes(i))
    case Or(_) => Earliest(ChildTimes(i))
  }

  /**
    A composite raises when one of its children raises or none of them has a time;
    otherwise its time is that of one of its children and no later than any of them.
  */
  lemma TimeOfComposite(i: Item)
    requires Composite(i)
    ensures Time(i).Raises? <==>
      (exists k :: 0 <= k < |i.children| && Time(i.children[k]).Raises?)
      || (forall k :: 0 <= k < |i.children| ==> i.children[k].Const?)
    ensures Time(i).HasTime? ==>
      && (forall k :: 0 <= k < |i.children| && Time(i.children[k]).HasTime? ==> Time(i).t <= Time(i.children[k]).t)
      && (exists k :: 0 <= k < |i.children| && Time(i.children[k]) == Time(i))
  {
    var ts := ChildTimes(i);
    EarliestSpec(ts);
    assert forall k :: 0 <= k < |ts| ==> (ts[k].NoTime? <==> i.children[k].Const?);
  }

  /** The times of a composite's children, in order. */
  function ChildTimes(i: Item): (r: seq<TimeOf>)
    requires Composite(i)
    decreases i, 0
    ensures |r| == |i.children|
    ensures forall k :: 0 <= k < |r| ==> r[k] == Time(i.children[k])
  {
    seq(|i.children|, k requires 0 <= k < |i.children| => Time(i.children[k]))
  }

  /** `callable(node)`: leaves and composites define `__call__`, numbers do not. */
  predicate Callable(i: Item)
  {
    !i.Const?
  }

  /** The calls a callable node's `__call__` makes on the builder. */
  function Fragment(i: Item): seq<Instr>
    requires Callable(i)
  {
    match i
    case At(_) => [LoadFast("x")]
    case And(_) => [BinaryAdd]
    case Or(_) => [BuildTuple(2), LoadConst(MaximumFn), Swap, CallFunctionEx(0)]
  }

  /**
    `node(b)`: the node appends its fragment to the builder, stopping at the first call that
    raises.
  */
  method Call(i: Item, b: CodeBuilder) returns (ok: bool)
    requires Callable(i) && b.Valid()
    modifies b
    ensures b.Valid()
    ensures Performs(Fragment(i), old(b.Snapshot()), old(b.bytes), b.bytes, b.Snapshot(), ok)
  {
    match i
    case At(_) =>
      ok := b.LoadFast("x");
      PerformsOne(LoadFast("x"), old(b.Snapshot()), old(b.bytes), b.bytes, b.Snapshot(), ok);
    case And(_) =>
      ok := b.BinaryAdd();
      PerformsOne(BinaryAdd, old(b.Snapshot()), old(b.bytes), b.bytes, b.Snapshot(), ok);
    case Or(_) =>
      ok := b.EmitAll(Fragment(i));
  }
}
