/**
  What the straight-line code of a bucket computes.  The calls that node code is made of
  (load a local or a constant, add, build a tuple, swap, call with unpacked arguments) are
  given a stack semantics over numbers and 1-d arrays, enough to state what each node's
  fragment does to the stack and what a whole tree's code leaves on it.
*/
module StackMachine {
  import opened Outcomes
  import opened Bytecode
  import opened Atoms
  import opened Schedule
  import opened Emitter

  /** The objects node code handles: numbers, 1-d arrays, tuples, `np.maximum` and None. */
  datatype Value =
    | Scalar(r: real)
    | Vec(elems: seq<real>)
    | Tuple(items: seq<Value>)
    | MaximumFunc
    | NoneValue

  /** The locals of `evolve(t, x, v)` when a bucket's code runs. */
  datatype Locals = Locals(t: Value, x: Value, v: Value)

  function Plus(p: real, q: real): real
  {
    p + q
  }

  /** `np.maximum` on two numbers. */
  function Larger(p: real, q: real): real
  {
    if p >= q then p else q
  }

  /**
    An element-wise numpy operation: a number is spread over an array, two arrays must
    have the same length, and anything else is not an operand.
  */
  function Pointwise(f: (real, real) -> real, a: Value, b: Value): (r: Result<Value>)
    ensures r.Ok? ==> (r.value.Scalar? <==> a.Scalar? && b.Scalar?)
    ensures r.Ok? && r.value.Vec? ==>
      (a.Vec? ==> |r.value.elems| == |a.elems|) && (b.Vec? ==> |r.value.elems| == |b.elems|)
  {
    match (a, b)
    case (Scalar(p), Scalar(q)) => Ok(Scalar(f(p, q)))
    case (Scalar(p), Vec(w)) => Ok(Vec(seq(|w|, i requires 0 <= i < |w| => f(p, w[i]))))
    case (Vec(u), Scalar(q)) => Ok(Vec(seq(|u|, i requires 0 <= i < |u| => f(u[i], q))))
    case (Vec(u), Vec(w)) =>
      if |u| == |w| then Ok(Vec(seq(|u|, i requires 0 <= i < |u| => f(u[i], w[i])))) else Err(ShapeMismatch)
    case _ => Err(BadOperand)
  }

  /** The calls node code is made of. */
  predicate NodeCall(i: Instr)
  {
    || i.LoadFast? || i.LoadConst? || i.BinaryAdd? || i.BuildTuple? || i.Swap?
    || (i.CallFunctionEx? && i.argc == 0)
  }

  function ConstValue(c: Constant): Value
  {
    match c
    case NoneConst => NoneValue
    case MaximumFn => MaximumFunc
    case Num(r) => Scalar(r)
  }

  /** Replaces the top two values by `r`, or passes on the exception. */
  function Reduce(st: seq<Value>, r: Result<Value>): Result<seq<Value>>
    requires |st| >= 2
  {
    match r
    case Err(f) => Err(f)
    case Ok(x) => Ok(st[..|st| - 2] + [x])
  }

  /** One call's effect on the value stack, whose top is the last element. */
  function Step(i: Instr, st: seq<Value>, l: Locals): Result<seq<Value>>
    requires NodeCall(i)
  {
    match i
    case LoadFast(name) =>
      if name == "t" then Ok(st + [l.t])
      else if name == "x" then Ok(st + [l.x])
      else if name == "v" then Ok(st + [l.v])
      else Err(UnknownName)
    case LoadConst(c) => Ok(st + [ConstValue(c)])
    case BinaryAdd =>
      if |st| < 2 then Err(StackUnderflow) else Reduce(st, Pointwise(Plus, st[|st| - 2], st[|st| - 1]))
    case BuildTuple(count) =>
      if count < 0 || |st| < count then Err(StackUnderflow)
      else Ok(st[..|st| - count] + [Tuple(st[|st| - count..])])
    case Swap =>
      if |st| < 2 then Err(StackUnderflow) else Ok(st[..|st| - 2] + [st[|st| - 1], st[|st| - 2]])
    case CallFunctionEx(_) =>
      if |st| < 2 then Err(StackUnderflow)
      else
        match (st[|st| - 2], st[|st| - 1])
        case (MaximumFunc, Tuple(args)) =>
          if |args| == 2 then Reduce(st, Pointwise(Larger, args[0], args[1])) else Err(BadOperand)
        case _ => Err(BadOperand)
  }

  predicate Calls(code: seq<Instr>)
  {
    forall i :: i in code ==> NodeCall(i)
  }

  /** Runs the calls in order, stopping at the first exception. */
  function Exec(code: seq<Instr>, st: seq<Value>, l: Locals): Result<seq<Value>>
    requires Calls(code)
  {
    if code == [] then Ok(st)
    else
      match Step(code[0], st, l)
      case Err(f) => Err(f)
      case Ok(st') => Exec(code[1..], st', l)
  }

  /** Running two pieces of code one after the other. */
  lemma {:induction false} ExecConcat(a: seq<Instr>, b: seq<Instr>, st: seq<Value>, l: Locals)
    requires Calls(a) && Calls(b)
    ensures Calls(a + b)
    ensures Exec(a + b, st, l) == match Exec(a, st, l) case Err(f) => Err(f) case Ok(mid) => Exec(b, mid, l)
  {
    if a == [] {
      assert a + b == b;
    } else {
      assert (a + b)[0] == a[0] && (a + b)[1..] == a[1..] + b;
      assert a[0] in a;
      match Step(a[0], st, l)
      case Err(_) =>
      case Ok(st') => ExecConcat(a[1..], b, st', l);
    }
  }

  // ---------------------------------------------------------------------------
  // The fragments of atoms.py
  // ---------------------------------------------------------------------------

  /** `At` pushes the prices `x`. */
  lemma AtLoadsPrices(n: Item, st: seq<Value>, l: Locals)
    requires n.At?
    ensures Calls(Fragment(n)) && Exec(Fragment(n), st, l) == Ok(st + [l.x])
  {
  }

  /** `And` adds the two values on top, element-wise, leaving the rest of the stack alone. */
  lemma AndAddsTopTwo(n: Item, st: seq<Value>, a: Value, b: Value, l: Locals)
    requires n.And?
    ensures Calls(Fragment(n))
    ensures Exec(Fragment(n), st + [a, b], l) == match Pointwise(Plus, a, b) case Err(f) => Err(f) case Ok(r) => Ok(st + [r])
  {
    var s := st + [a, b];
    assert s[..|s| - 2] == st && s[|s| - 2] == a && s[|s| - 1] == b;
  }

  /**
    `Or` turns the two values on top into `maximum(a, b)`: build the pair, load `maximum`,
    swap it under the pair and call it with the pair unpacked.
  */
  lemma OrTakesMaximum(n: Item, st: seq<Value>, a: Value, b: Value, l: Locals)
    requires n.Or?
    ensures Calls(Fragment(n))
    ensures Exec(Fragment(n), st + [a, b], l) == match Pointwise(Larger, a, b) case Err(f) => Err(f) case Ok(r) => Ok(st + [r])
  {
    var s0 := st + [a, b];
    var s1 := st + [Tuple([a, b])];
    var s2 := s1 + [MaximumFunc];
    var s3 := st + [MaximumFunc, Tuple([a, b])];
    assert s0[..|s0| - 2] == st && s0[|s0| - 2..] == [a, b];
    assert Step(BuildTuple(2), s0, l) == Ok(s1);
    assert s2[..|s2| - 2] == st;
    assert Step(Swap, s2, l) == Ok(s3);
    assert s3[..|s3| - 2] == st && s3[|s3| - 2] == MaximumFunc && s3[|s3| - 1] == Tuple([a, b]);
    var code := Fragment(n);
    calc {
      Exec(code, s0, l);
      Exec(code[1..], s1, l);
      Exec(code[2..], s2, l);
      Exec(code[3..], s3, l);
      match Pointwise(Larger, a, b) case Err(f) => Err(f) case Ok(r) => Exec([], st + [r], l);
    }
  }

  /** The fragments of `And` and `Or` with fewer than two values on the stack underflow. */
  lemma FragmentsNeedTwo(n: Item, st: seq<Value>, l: Locals)
    requires Composite(n) && |st| < 2
    ensures Calls(Fragment(n)) && Exec(Fragment(n), st, l) == Err(StackUnderflow)
  {
    if n.Or? && |st| == 1 {
      assert Step(BuildTuple(2), st, l) == Err(StackUnderflow);
    }
  }

  // ---------------------------------------------------------------------------
  // A tree's code
  // ---------------------------------------------------------------------------

  /** Every `And` and `Or` in the tree has exactly two children. */
  predicate Binary(n: Item)
  {
    match n
    case Const(_) => true
    case At(_) => true
    case And(ch) => |ch| == 2 && Binary(ch[0]) && Binary(ch[1])
    case Or(ch) => |ch| == 2 && Binary(ch[0]) && Binary(ch[1])
  }

  /** The value of a binary tree: `x` at a leaf, sums at `And`, maxima at `Or`. */
  function Eval(n: Item, l: Locals): Result<Value>
    requires Binary(n)
  {
    match n
    case Const(c) => Ok(Scalar(c))
    case At(_) => Ok(l.x)
    case And(ch) => Combine(Plus, Eval(ch[0], l), Eval(ch[1], l))
    case Or(ch) => Combine(Larger, Eval(ch[0], l), Eval(ch[1], l))
  }

  /** Evaluates the first child, then the second, then applies `f` element-wise. */
  function Combine(f: (real, real) -> real, a: Result<Value>, b: Result<Value>): Result<Value>
  {
    match a
    case Err(e) => Err(e)
    case Ok(x) =>
      match b
      case Err(e) => Err(e)
      case Ok(y) => Pointwise(f, x, y)
  }

  /** A value pushed on `st`, or the exception. */
  function Pushed(st: seq<Value>, r: Result<Value>): Result<seq<Value>>
  {
    match r
    case Err(f) => Err(f)
    case Ok(x) => Ok(st + [x])
  }

  lemma {:induction false} NodesCodeCalls(nodes: seq<Item>)
    ensures Calls(NodesCode(nodes))
  {
    if nodes != [] {
      NodesCodeCalls(nodes[1..]);
    }
  }

  /** A binary composite pops itself, then its second child's subtree, then its first's. */
  lemma PopOrderBinary(n: Item)
    requires Composite(n) && |n.children| == 2
    ensures PopOrder(n) == [n] + PopOrder(n.children[1]) + PopOrder(n.children[0])
  {
    assert KidsOrder(n, 1) == PopOrder(n.children[0]) + KidsOrder(n, 0);
  }

  /** A binary composite's code: its first child's, its second child's, then its own. */
  lemma TreeCodeSplit(n: Item)
    requires Composite(n) && |n.children| == 2
    ensures NodesCode(PopOrder(n))
      == NodesCode(PopOrder(n.children[0])) + (NodesCode(PopOrder(n.children[1])) + Fragment(n))
  {
    PopOrderBinary(n);
    var pa := PopOrder(n.children[0]);
    var pb := PopOrder(n.children[1]);
    var nodes := [n] + pb + pa;
    NodesCodeSplit(nodes, 1 + |pb|);
    assert nodes[1 + |pb|..] == pa;
    NodesCodeSplit(nodes[..1 + |pb|], 1);
    assert nodes[..1 + |pb|][1..] == pb;
    assert nodes[..1 + |pb|][..1] == [n];
    assert NodesCode([n]) == NodesCode([]) + NodeCode(n);
  }

  /**
    A composite's code after its children's: the first child's code pushes `ra`, the
    second's then pushes `rb`, and the node's fragment combines them.
  */
  lemma ChildrenThenNode(n: Item, ca: seq<Instr>, cb: seq<Instr>, st: seq<Value>, l: Locals,
                         ra: Result<Value>, rb: Result<Value>)
    requires Composite(n) && Calls(ca) && Calls(cb)
    requires Exec(ca, st, l) == Pushed(st, ra)
    requires ra.Ok? ==> Exec(cb, st + [ra.value], l) == Pushed(st + [ra.value], rb)
    ensures Calls(ca + (cb + Fragment(n)))
    ensures Exec(ca + (cb + Fragment(n)), st, l)
      == Pushed(st, if n.And? then Combine(Plus, ra, rb) else Combine(Larger, ra, rb))
  {
    var cn := Fragment(n);
    FragmentsNeedTwo(n, [], l);
    ExecConcat(cb, cn, st, l);
    ExecConcat(ca, cb + cn, st, l);
    if ra.Ok? {
      var va := ra.value;
      ExecConcat(cb, cn, st + [va], l);
      if rb.Ok? {
        var vb := rb.value;
        assert st + [va] + [vb] == st + [va, vb];
        if n.And? {
          AndAddsTopTwo(n, st, va, vb, l);
        } else {
          OrTakesMaximum(n, st, va, vb, l);
        }
      }
    }
  }

  /**
    Written last-popped first, a binary tree's pop order is its post-order: the code runs
    each child's code and then the node's own, and leaves the tree's value on top of the
    stack it found.
  */
  lemma {:induction false} TreeCodeEvaluates(n: Item, st: seq<Value>, l: Locals)
    requires Binary(n)
    ensures Calls(NodesCode(PopOrder(n)))
    ensures Exec(NodesCode(PopOrder(n)), st, l) == Pushed(st, Eval(n, l))
    decreases n
  {
    NodesCodeCalls(PopOrder(n));
    if !Composite(n) {
      assert PopOrder(n) == [n];
      assert NodesCode([n]) == NodesCode([]) + NodeCode(n);
    } else {
      var a := n.children[0];
      var b := n.children[1];
      TreeCodeSplit(n);
      NodesCodeCalls(PopOrder(a));
      NodesCodeCalls(PopOrder(b));
      TreeCodeEvaluates(a, st, l);
      var ra := Eval(a, l);
      if ra.Ok? {
        TreeCodeEvaluates(b, st + [ra.value], l);
      }
      ChildrenThenNode(n, NodesCode(PopOrder(a)), NodesCode(PopOrder(b)), st, l, ra, Eval(b, l));
    }
  }

  /**
    When every timed node of a binary contract resolves at the same time, its bucket holds
    the whole pop order and the bucket's code leaves the contract's value on the stack.
  */
  lemma BucketEvaluates(root: Item, when: real, st: seq<Value>, l: Locals)
    requires SingleTime(root, when) && Binary(root)
    ensures Scan(PopOrder(root)).Ok? && when in Scan(PopOrder(root)).value.m.entries
    ensures var nodes := Scan(PopOrder(root)).value.m.entries[when];
      Calls(NodesCode(nodes)) && Exec(NodesCode(nodes), st, l) == Pushed(st, Eval(root, l))
  {
    SingleTimeSchedule(root, when);
    TreeCodeEvaluates(root, st, l);
  }

  /** The contract `Or((At(2.0), At(1.0)))`, whose children resolve at different times. */
  function TwoDates(): Item
  {
    Or([At(2.0), At(1.0)])
  }

  /** Its 2.0 bucket holds `At(2.0)` alone; its 1.0 bucket holds the `Or` and `At(1.0)`. */
  lemma TwoDatesBuckets()
    ensures Scan(PopOrder(TwoDates())).Ok?
    ensures var d := Scan(PopOrder(TwoDates())).value.m.entries;
      && 1.0 in d && 2.0 in d && d[2.0] == [At(2.0)] && d[1.0] == [TwoDates(), At(1.0)]
  {
    var root := TwoDates();
    PopOrderBinary(root);
    assert PopOrder(At(2.0)) == [At(2.0)];
    assert PopOrder(At(1.0)) == [At(1.0)];
    var order := [root, At(1.0), At(2.0)];
    assert PopOrder(root) == order;
    assert Time(root) == HasTime(1.0);
    assert order[..2] == [root, At(1.0)] && order[..2][..1] == [root] && order[..1][..0] == [];
    var m0 := Dict(map[0.0 := []], [0.0]);
    var m1 := Dict(map[0.0 := [], 1.0 := [root]], [0.0, 1.0]);
    var m2 := Dict(map[0.0 := [], 1.0 := [root, At(1.0)]], [0.0, 1.0]);
    var m3 := Dict(map[0.0 := [], 1.0 := [root, At(1.0)], 2.0 := [At(2.0)]], [0.0, 1.0, 2.0]);
    assert Append(m0, 1.0, root) == m1;
    assert Append(m1, 1.0, At(1.0)) == m2;
    assert Append(m2, 2.0, At(2.0)) == m3;
    assert Scan(order[..1]) == Ok(Scanned(m1, Some(1.0)));
    assert Scan(order[..2]) == Ok(Scanned(m2, Some(1.0)));
    assert Scan(order) == Ok(Scanned(m3, Some(2.0)));
  }

  /**
    The 2.0 bucket yields its value, and the resume before the 1.0 bucket leaves the stack
    empty.  Node code loads only `x` and constants, so the `Or` finds one value where it
    needs two, although the contract itself has a value on any price array.
  */
  lemma TwoDatesUnderflow(l: Locals)
    ensures Binary(TwoDates()) && (l.x.Vec? ==> Eval(TwoDates(), l).Ok?)
    ensures Scan(PopOrder(TwoDates())).Ok?
    ensures var d := Scan(PopOrder(TwoDates())).value.m.entries;
      && 1.0 in d && Calls(NodesCode(d[1.0])) && Exec(NodesCode(d[1.0]), [], l) == Err(StackUnderflow)
  {
    var root := TwoDates();
    TwoDatesBuckets();
    var bucket := [root, At(1.0)];
    NodesCodeCalls(bucket);
    assert NodesCode(bucket) == NodesCode([At(1.0)]) + Fragment(root);
    assert NodesCode([At(1.0)]) == Fragment(At(1.0));
    ExecConcat(Fragment(At(1.0)), Fragment(root), [], l);
    AtLoadsPrices(At(1.0), [], l);
    FragmentsNeedTwo(root, [l.x], l);
  }

  /** The European call of the tests, `Or((And((At(1.0), -1.0)), 0.0))`. */
  function CallOption(): Item
  {
    Or([And([At(1.0), Const(-1.0)]), Const(0.0)])
  }

  /** Its value on prices `xs` is `maximum(xs - 1, 0)`. */
  lemma CallOptionPayoff(xs: seq<real>, t: Value, v: Value)
    ensures Binary(CallOption())
    ensures Eval(CallOption(), Locals(t, Vec(xs), v))
      == Ok(Vec(seq(|xs|, i requires 0 <= i < |xs| => if xs[i] - 1.0 >= 0.0 then xs[i] - 1.0 else 0.0)))
  {
    var l := Locals(t, Vec(xs), v);
    var moneyness := seq(|xs|, i requires 0 <= i < |xs| => Plus(xs[i], -1.0));
    var sum := Pointwise(Plus, Vec(xs), Scalar(-1.0));
    assert sum.Ok? && sum.value.elems == moneyness;
    assert Eval(And([At(1.0), Const(-1.0)]), l) == Ok(Vec(moneyness));
    var payoff := seq(|xs|, i requires 0 <= i < |xs| => Larger(moneyness[i], 0.0));
    var larger := Pointwise(Larger, Vec(moneyness), Scalar(0.0));
    assert larger.Ok? && larger.value.elems == payoff;
    assert Eval(CallOption(), l) == Ok(Vec(payoff));
    assert payoff == seq(|xs|, i requires 0 <= i < |xs| => if xs[i] - 1.0 >= 0.0 then xs[i] - 1.0 else 0.0);
  }
}
