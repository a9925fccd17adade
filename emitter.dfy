/**
  The second half of from_graph: the straight-line program written for the buckets, the
  latest time first.  Each bucket gets a drain loop that hands back the value vector
  unchanged while the lattice is still later than the bucket's time, then the code of its
  elements, children before parents, then a yield that hands back their value.
*/
module Emitter {
  import opened Outcomes
  import opened Bytecode
  import opened Atoms
  import opened Schedule

  // ---------------------------------------------------------------------------
  // The tables the builder starts from
  // ---------------------------------------------------------------------------

  /** `names = {"t": 0, "x": 1, "v": 2}`: the three locals of `evolve(t, x, v)`. */
  const InitialNames: map<Name, nat> := map["t" := 0, "x" := 1, "v" := 2]

  /** `consts = {None: 0, np.maximum: 1}`. */
  const InitialConsts: map<Constant, nat> := map[NoneConst := 0, MaximumFn := 1]

  function InitialTables(): (r: Tables)
    ensures ValidTables(r)
  {
    assert InitialNames.Keys == {"t", "x", "v"};
    assert InitialConsts.Keys == {NoneConst, MaximumFn};
    Tables(InitialNames, InitialConsts)
  }

  // ---------------------------------------------------------------------------
  // The drain loop and its forward jump
  // ---------------------------------------------------------------------------

  /**
    Lines 36-49: while `t > time`, yield `v` back and store the triple sent in; the loop
    exits forward to `target`.
  */
  function DrainLoop(time: real, start: nat, target: nat): seq<Instr>
  {
    [ LoadFast("t"), LoadConst(Num(time)), CompareOp(Gt), PopJumpIfFalse(target),
      LoadFast("v"), YieldValue, UnpackSequence(3), StoreFast("t"), StoreFast("x"), StoreFast("v"),
      JumpAbsolute(start) ]
  }

  /** Each call is one pair except the two jumps, which carry their EXTENDED_ARG prefixes. */
  lemma DrainLoopSize(time: real, start: nat, target: nat)
    ensures SizeAll(DrainLoop(time, start, target)) == 22 + 2 * Prefixes(target) + 2 * Prefixes(start)
  {
    var head := [LoadFast("t"), LoadConst(Num(time)), CompareOp(Gt)];
    var body := [LoadFast("v"), YieldValue, UnpackSequence(3), StoreFast("t"), StoreFast("x"), StoreFast("v")];
    assert DrainLoop(time, start, target) == head + [PopJumpIfFalse(target)] + body + [JumpAbsolute(start)];
    SizeAllPlain(head);
    SizeAllPlain(body);
    SizeAllOne(PopJumpIfFalse(target));
    SizeAllOne(JumpAbsolute(start));
    SizeAllConcat(head, [PopJumpIfFalse(target)]);
    SizeAllConcat(head + [PopJumpIfFalse(target)], body);
    SizeAllConcat(head + [PopJumpIfFalse(target)] + body, [JumpAbsolute(start)]);
  }

  /** The first byte after a drain loop that starts at `start` and exits to `target`. */
  function DrainEnd(start: nat, target: nat): nat
  {
    start + 22 + 2 * Prefixes(target) + 2 * Prefixes(start)
  }

  /**
    Lines 41-42 as written: `len(b) + 2 * (start_while.bit_length() // 8 + 8)`, taken after
    the comparison.  It counts the back-edge's own prefixes but not those of the
    conditional jump being emitted.
  */
  function DrainTargetAsWritten(start: nat): nat
  {
    start + 6 + 2 * (Prefixes(start) + 8)
  }

  /** The as-written target is right exactly when the conditional jump needs no prefix. */
  lemma AsWrittenLandsIff(start: nat)
    ensures DrainTargetAsWritten(start) == DrainEnd(start, DrainTargetAsWritten(start))
      <==> DrainTargetAsWritten(start) < 128
  {
    NoPrefixBelow128(DrainTargetAsWritten(start));
  }

  /**
    When the second bucket's drain loop starts at byte 106, its conditional jump needs an
    `EXTENDED_ARG 0` prefix the formula does not count, and exits to byte 128, which is the
    back-edge `JUMP_ABSOLUTE 106` itself, instead of byte 130 after it.
  */
  lemma AsWrittenMisses()
    ensures DrainTargetAsWritten(106) == 128
    ensures DrainEnd(106, 128) == 130
  {
    NoPrefixBelow128(106);
    PrefixOfHighByte(128);
  }

  /**
    The exit target that accounts for the conditional jump's own prefixes: the least
    `base + 2 * k` that needs exactly `k` prefixes, where `base` is the as-written target.
  */
  function DrainTarget(start: nat): nat
  {
    var base := DrainTargetAsWritten(start);
    var k := Prefixes(base);
    if Prefixes(base + 2 * k) == k then base + 2 * k else base + 2 * k + 2
  }

  /**
    The corrected target is the first byte after the back-edge, and no smaller target
    would be: a jump to any earlier byte past the comparison lands inside the loop.
  */
  lemma DrainTargetLands(start: nat)
    ensures DrainTarget(start) == DrainEnd(start, DrainTarget(start))
    ensures forall target: nat :: target < DrainTarget(start) ==> target != DrainEnd(start, target)
  {
    var base := DrainTargetAsWritten(start);
    var k := Prefixes(base);
    PrefixesAtMost(base);
    PrefixesMonotone(base, base + 2 * k);
    PrefixesOfSum(base, 2 * k + 2);
    PrefixesMonotone(base + 2 * k, base + 2 * k + 2);
    forall target | base <= target < DrainTarget(start)
      ensures target != DrainEnd(start, target)
    {
      PrefixesMonotone(base, target);
    }
  }

  /** Below 128 the correction changes nothing. */
  lemma DrainTargetAgrees(start: nat)
    requires DrainTargetAsWritten(start) < 128
    ensures DrainTarget(start) == DrainTargetAsWritten(start)
  {
    NoPrefixBelow128(DrainTargetAsWritten(start));
    NoPrefixBelow128(0);
  }

  // ---------------------------------------------------------------------------
  // The layout of a bucket and of the whole program
  // ---------------------------------------------------------------------------

  /** Lines 51-54: a callable node writes its own fragment, a constant is loaded. */
  function NodeCode(n: Item): seq<Instr>
  {
    if Callable(n) then Fragment(n) else [LoadConst(Num(n.value))]
  }

  /** Line 50: the elements' code, last element first. */
  function NodesCode(nodes: seq<Item>): seq<Instr>
  {
    if nodes == [] then [] else NodesCode(nodes[1..]) + NodeCode(nodes[0])
  }

  /** Lines 56-60: yield the bucket's value and store the triple sent in. */
  const Resume: seq<Instr> := [YieldValue, UnpackSequence(3), StoreFast("t"), StoreFast("x"), StoreFast("v")]

  /** Line 55: only a bucket with elements yields after its code. */
  function Tail(nodes: seq<Item>): seq<Instr>
  {
    if nodes == [] then [] else Resume
  }

  /** Everything written for one bucket whose drain loop starts at byte `start`. */
  function BucketCode(time: real, nodes: seq<Item>, start: nat, target: nat): seq<Instr>
  {
    DrainLoop(time, start, target) + NodesCode(nodes) + Tail(nodes)
  }

  /** How the drain loop's exit target is computed. */
  datatype Rule = AsWritten | Corrected

  function Target(rule: Rule, start: nat): nat
  {
    match rule
    case AsWritten => DrainTargetAsWritten(start)
    case Corrected => DrainTarget(start)
  }

  /** Line 35: the buckets in the given order, each starting where the previous one ended. */
  function Layout(items: seq<(real, seq<Item>)>, rule: Rule): seq<Instr>
  {
    if items == [] then []
    else
      var pre := Layout(items[..|items| - 1], rule);
      var start := SizeAll(pre);
      pre + BucketCode(items[|items| - 1].0, items[|items| - 1].1, start, Target(rule, start))
  }

  /** Lines 62-63: the final `load v; yield`. */
  const Final: seq<Instr> := [LoadFast("v"), YieldValue]

  function Program(items: seq<(real, seq<Item>)>, rule: Rule): seq<Instr>
  {
    Layout(items, rule) + Final
  }

  /**
    The end of from_graph once `code` has been written: the code object made of the bytes
    and tables the builder ends with, or the ValueError of an argument byte out of range.
  */
  function Finish(code: seq<Instr>, effect: (Opcode, Option<nat>) -> int): Result<CodeObject>
  {
    var e := EncodeAll(code, InitialTables());
    EncodeAllSize(code, InitialTables());
    if e.ok then Replace(e.bytes, e.tables, effect) else Err(ByteOutOfRange)
  }

  /** The code object from_graph builds, or the exception it raises. */
  function Build(root: Item, rule: Rule, effect: (Opcode, Option<nat>) -> int): Result<CodeObject>
  {
    match Scan(PopOrder(root))
    case Err(f) => Err(f)
    case Ok(s) =>
      ScanOutcome(PopOrder(root));
      Finish(Program(Items(s.m), rule), effect)
  }

  /** Build either passes on the schedule's exception or finishes the program of its buckets. */
  lemma BuildCases(root: Item, rule: Rule, effect: (Opcode, Option<nat>) -> int)
    ensures var s := Scan(PopOrder(root));
      && (s.Err? ==> Build(root, rule, effect) == Err(s.failure))
      && (s.Ok? ==> WellOrdered(s.value.m) && Build(root, rule, effect) == Finish(Program(Items(s.value.m), rule), effect))
  {
    ScanOutcome(PopOrder(root));
  }

  /** A builder that performed `code` from scratch holds what Finish turns into the code object. */
  lemma FinishOf(code: seq<Instr>, effect: (Opcode, Option<nat>) -> int, bytes: seq<Byte>, tb: Tables, ok: bool)
    requires Performs(code, InitialTables(), [], bytes, tb, ok)
    ensures ok ==> Paired(bytes) && Finish(code, effect) == Replace(bytes, tb, effect)
    ensures !ok ==> Finish(code, effect) == Err(ByteOutOfRange)
  {
    var e := EncodeAll(code, InitialTables());
    EncodeAllSize(code, InitialTables());
    assert [] + e.bytes == e.bytes;
    assert bytes == e.bytes && tb == e.tables && ok == e.ok;
  }

  // ---------------------------------------------------------------------------
  // The emitting code
  // ---------------------------------------------------------------------------

  lemma NodesCodeSplit(nodes: seq<Item>, k: nat)
    requires k <= |nodes|
    ensures NodesCode(nodes) == NodesCode(nodes[k..]) + NodesCode(nodes[..k])
    decreases k
  {
    if k == 0 {
      assert nodes[0..] == nodes;
    } else {
      NodesCodeSplit(nodes[1..], k - 1);
      assert nodes[1..][k - 1..] == nodes[k..];
      assert nodes[..k][1..] == nodes[1..][..k - 1];
      assert nodes[..k][0] == nodes[0];
    }
  }

  /** The drain loop raised: nothing else of the bucket is written. */
  lemma DrainStop(enc: (Instr, Tables) -> Emitted, drain: seq<Instr>, nodes: seq<Item>, tb: Tables,
                  before: seq<Byte>, after: seq<Byte>, tbAfter: Tables)
    requires Runs(enc, drain, tb, before, after, tbAfter, false)
    ensures Runs(enc, drain + NodesCode(nodes) + Tail(nodes), tb, before, after, tbAfter, false)
  {
    RunsStop(enc, drain, NodesCode(nodes) + Tail(nodes), tb, before, after, tbAfter);
    Associative(drain, NodesCode(nodes), Tail(nodes));
  }

  lemma NodesCodeStep(nodes: seq<Item>, k: nat)
    requires k < |nodes|
    ensures NodesCode(nodes[k..]) == NodesCode(nodes[k + 1..]) + NodeCode(nodes[k])
  {
    assert nodes[k..][1..] == nodes[k + 1..];
  }

  /** One more element written, counting down, when its code `piece` did not raise. */
  lemma NodeStep(enc: (Instr, Tables) -> Emitted, drain: seq<Instr>, nodes: seq<Item>, k: nat, piece: seq<Instr>,
                 tb: Tables, before: seq<Byte>, mid: seq<Byte>, tbMid: Tables, after: seq<Byte>, tbAfter: Tables)
    requires k < |nodes| && NodesCode(nodes[k..]) == NodesCode(nodes[k + 1..]) + piece
    requires Runs(enc, drain + NodesCode(nodes[k + 1..]), tb, before, mid, tbMid, true)
    requires Runs(enc, piece, tbMid, mid, after, tbAfter, true)
    ensures Runs(enc, drain + NodesCode(nodes[k..]), tb, before, after, tbAfter, true)
  {
    RunsThen(enc, drain + NodesCode(nodes[k + 1..]), piece, tb, before, mid, tbMid, after, tbAfter, true);
    Associative(drain, NodesCode(nodes[k + 1..]), piece);
  }

  /** The elements written so far, counting down, are the start of the bucket. */
  lemma WrittenPrefix(drain: seq<Instr>, nodes: seq<Item>, k: nat)
    requires k <= |nodes|
    ensures drain + NodesCode(nodes[k..]) <= drain + NodesCode(nodes) + Tail(nodes)
  {
    NodesCodeSplit(nodes, k);
    PrefixOfConcat(drain, NodesCode(nodes[k..]), NodesCode(nodes[..k]), Tail(nodes));
  }

  lemma PrefixOfConcat<T>(a: seq<T>, x: seq<T>, y: seq<T>, t: seq<T>)
    ensures a + x <= a + (x + y) + t
  {
    assert a + (x + y) + t == (a + x) + (y + t);
  }

  lemma Associative<T>(a: seq<T>, b: seq<T>, c: seq<T>)
    ensures a + b + c == a + (b + c)
  {
  }

  /** An element whose code `piece` raised ends the bucket. */
  lemma NodeStop(enc: (Instr, Tables) -> Emitted, drain: seq<Instr>, nodes: seq<Item>, k: nat, piece: seq<Instr>,
                 tb: Tables, before: seq<Byte>, mid: seq<Byte>, tbMid: Tables, after: seq<Byte>, tbAfter: Tables)
    requires k < |nodes| && NodesCode(nodes[k..]) == NodesCode(nodes[k + 1..]) + piece
    requires Runs(enc, drain + NodesCode(nodes[k + 1..]), tb, before, mid, tbMid, true)
    requires Runs(enc, piece, tbMid, mid, after, tbAfter, false)
    ensures Runs(enc, drain + NodesCode(nodes) + Tail(nodes), tb, before, after, tbAfter, false)
  {
    RunsThen(enc, drain + NodesCode(nodes[k + 1..]), piece, tb, before, mid, tbMid, after, tbAfter, false);
    Associative(drain, NodesCode(nodes[k + 1..]), piece);
    WrittenPrefix(drain, nodes, k);
    RunsStopPrefix(enc, drain + NodesCode(nodes[k..]), drain + NodesCode(nodes) + Tail(nodes), tb, before, after, tbAfter);
  }

  /** The closing yield block, written only after a non-empty bucket. */
  lemma TailStep(enc: (Instr, Tables) -> Emitted, drain: seq<Instr>, nodes: seq<Item>, tb: Tables, before: seq<Byte>,
                 mid: seq<Byte>, tbMid: Tables, after: seq<Byte>, tbAfter: Tables, ok: bool)
    requires Runs(enc, drain + NodesCode(nodes), tb, before, mid, tbMid, true)
    requires Runs(enc, Tail(nodes), tbMid, mid, after, tbAfter, ok)
    ensures Runs(enc, drain + NodesCode(nodes) + Tail(nodes), tb, before, after, tbAfter, ok)
  {
    RunsThen(enc, drain + NodesCode(nodes), Tail(nodes), tb, before, mid, tbMid, after, tbAfter, ok);
  }

  /** Lines 36-60 for one bucket: the drain loop, the elements in reverse, and the yield. */
  method EmitBucket(b: CodeBuilder, time: real, nodes: seq<Item>) returns (ok: bool)
    requires b.Valid()
    modifies b
    ensures b.Valid()
    ensures var start := |old(b.bytes)|;
      Performs(BucketCode(time, nodes, start, DrainTarget(start)), old(b.Snapshot()), old(b.bytes), b.bytes, b.Snapshot(), ok)
  {
    var start := |b.bytes|;
    ghost var tb0, bytes0 := b.Snapshot(), b.bytes;
    var drain := DrainLoop(time, start, DrainTarget(start));
    ok := b.EmitAll(drain);
    if !ok {
      DrainStop(Encode, drain, nodes, tb0, bytes0, b.bytes, b.Snapshot());
      return;
    }
    assert nodes[|nodes|..] == [];
    assert drain + NodesCode(nodes[|nodes|..]) == drain;
    var k := |nodes|;
    while k > 0
      invariant 0 <= k <= |nodes| && b.Valid()
      invariant Performs(drain + NodesCode(nodes[k..]), tb0, bytes0, b.bytes, b.Snapshot(), true)
    {
      k := k - 1;
      var n := nodes[k];
      ghost var mid, tbMid := b.bytes, b.Snapshot();
      if Callable(n) {
        ok := Call(n, b);
      } else {
        ok := b.LoadConst(Num(n.value));
        PerformsOne(LoadConst(Num(n.value)), tbMid, mid, b.bytes, b.Snapshot(), ok);
      }
      NodesCodeStep(nodes, k);
      if !ok {
        NodeStop(Encode, drain, nodes, k, NodeCode(n), tb0, bytes0, mid, tbMid, b.bytes, b.Snapshot());
        return;
      }
      NodeStep(Encode, drain, nodes, k, NodeCode(n), tb0, bytes0, mid, tbMid, b.bytes, b.Snapshot());
    }
    assert nodes[0..] == nodes;
    ghost var mid, tbMid := b.bytes, b.Snapshot();
    if nodes != [] {
      ok := b.EmitAll(Resume);
    } else {
      PerformsNothing(tbMid, mid);
    }
    TailStep(Encode, drain, nodes, tb0, bytes0, mid, tbMid, b.bytes, b.Snapshot(), ok);
  }

  lemma PrefixTrans<T>(a: seq<T>, b: seq<T>, c: seq<T>)
    requires a <= b && b <= c
    ensures a <= c
  {
    assert forall k :: 0 <= k < |a| ==> a[k] == b[k] == c[k];
  }

  /** Dropping the last bucket leaves a prefix of the layout. */
  lemma LayoutGrows(items: seq<(real, seq<Item>)>, rule: Rule)
    requires items != []
    ensures Layout(items[..|items| - 1], rule) <= Layout(items, rule)
  {
  }

  lemma {:induction false} LayoutPrefix(items: seq<(real, seq<Item>)>, rule: Rule, i: nat)
    requires i <= |items|
    ensures Layout(items[..i], rule) <= Layout(items, rule)
    decreases |items| - i
  {
    if i < |items| {
      LayoutPrefix(items, rule, i + 1);
      var longer := items[..i + 1];
      assert longer[..|longer| - 1] == items[..i];
      LayoutGrows(longer, rule);
      PrefixTrans(Layout(items[..i], rule), Layout(longer, rule), Layout(items, rule));
    } else {
      assert items[..i] == items;
    }
  }

  /** The bucket `i` written after the buckets before it extends the layout by one bucket. */
  lemma LayoutStep(enc: (Instr, Tables) -> Emitted, items: seq<(real, seq<Item>)>, i: nat, tb: Tables,
                   mid: seq<Byte>, tbMid: Tables, after: seq<Byte>, tbAfter: Tables, ok: bool)
    requires i < |items|
    requires Runs(enc, Layout(items[..i], Corrected), tb, [], mid, tbMid, true)
    requires |mid| == SizeAll(Layout(items[..i], Corrected))
    requires Runs(enc, BucketCode(items[i].0, items[i].1, |mid|, DrainTarget(|mid|)), tbMid, mid, after, tbAfter, ok)
    ensures Runs(enc, Layout(items[..i + 1], Corrected), tb, [], after, tbAfter, ok)
  {
    assert items[..i + 1][..i] == items[..i];
    RunsThen(enc, Layout(items[..i], Corrected), BucketCode(items[i].0, items[i].1, |mid|, DrainTarget(|mid|)),
      tb, [], mid, tbMid, after, tbAfter, ok);
  }

  /** A raise while writing some bucket is a raise of the whole layout. */
  lemma LayoutStop(enc: (Instr, Tables) -> Emitted, items: seq<(real, seq<Item>)>, i: nat, tb: Tables,
                   after: seq<Byte>, tbAfter: Tables)
    requires i <= |items|
    requires Runs(enc, Layout(items[..i], Corrected), tb, [], after, tbAfter, false)
    ensures Runs(enc, Layout(items, Corrected), tb, [], after, tbAfter, false)
  {
    LayoutPrefix(items, Corrected, i);
    RunsStopPrefix(enc, Layout(items[..i], Corrected), Layout(items, Corrected), tb, [], after, tbAfter);
  }

  /** Line 35: the buckets written one after the other into an empty builder. */
  method EmitLayout(b: CodeBuilder, items: seq<(real, seq<Item>)>) returns (ok: bool)
    requires b.Valid() && b.bytes == []
    modifies b
    ensures b.Valid()
    ensures Performs(Layout(items, Corrected), old(b.Snapshot()), [], b.bytes, b.Snapshot(), ok)
  {
    ghost var tb0 := b.Snapshot();
    PerformsNothing(tb0, []);
    assert items[..0] == [];
    for i := 0 to |items|
      invariant b.Valid()
      invariant Performs(Layout(items[..i], Corrected), tb0, [], b.bytes, b.Snapshot(), true)
    {
      EncodeAllSize(Layout(items[..i], Corrected), tb0);
      ghost var mid, tbMid := b.bytes, b.Snapshot();
      ok := EmitBucket(b, items[i].0, items[i].1);
      LayoutStep(Encode, items, i, tb0, mid, tbMid, b.bytes, b.Snapshot(), ok);
      if !ok {
        LayoutStop(Encode, items, i + 1, tb0, b.bytes, b.Snapshot());
        return;
      }
    }
    assert items[..|items|] == items;
    ok := true;
  }

  /**
    from_graph: the worklist pass, then the buckets written the latest first, then the final
    yield, and the code object.  The drain loops exit with the corrected target.
  */
  method FromGraph(root: Item, effect: (Opcode, Option<nat>) -> int) returns (r: Result<CodeObject>)
    ensures r == Build(root, Corrected, effect)
  {
    var schedule := BuildSchedule(root);
    BuildCases(root, Corrected, effect);
    if schedule.Err? {
      return Err(schedule.failure);
    }
    var items := Items(schedule.value);
    ghost var code := Program(items, Corrected);
    var b := new CodeBuilder(InitialNames, InitialConsts);
    assert b.Snapshot() == InitialTables();
    var ok := EmitLayout(b, items);
    if ok {
      ghost var mid, tbMid := b.bytes, b.Snapshot();
      ok := b.EmitAll(Final);
      PerformsThen(Layout(items, Corrected), Final, InitialTables(), [], mid, tbMid, b.bytes, b.Snapshot(), ok);
    } else {
      PerformsStop(Layout(items, Corrected), Final, InitialTables(), [], b.bytes, b.Snapshot());
    }
    FinishOf(code, effect, b.bytes, b.Snapshot(), ok);
    if !ok {
      return Err(ByteOutOfRange);
    }
    r := Replace(b.bytes, b.Snapshot(), effect);
  }
}
