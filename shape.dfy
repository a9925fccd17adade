/**
  What the program from_graph writes looks like as a whole: how many times it yields,
  which locals it touches, what follows each yield, where each drain loop's exit jump
  lands, and when the drain target as written coincides with the corrected one.
*/
module Shape {
  import opened Outcomes
  import opened Bytecode
  import opened Atoms
  import opened Schedule
  import opened Emitter

  /** The number of YIELD_VALUE calls in a sequence of calls. */
  function Yields(code: seq<Instr>): nat
  {
    multiset(code)[YieldValue]
  }

  /** The number of buckets with at least one element. */
  function NonEmpty(items: seq<(real, seq<Item>)>): nat
  {
    if items == [] then 0
    else NonEmpty(items[..|items| - 1]) + (if items[|items| - 1].1 == [] then 0 else 1)
  }

  /** Node code never yields. */
  lemma {:induction false} NodesCodeNoYield(nodes: seq<Item>)
    ensures YieldValue !in NodesCode(nodes)
  {
    if nodes != [] {
      NodesCodeNoYield(nodes[1..]);
    }
  }

  lemma CountOne<T>(a: seq<T>, x: T, b: seq<T>)
    requires x !in a && x !in b
    ensures multiset(a + [x] + b)[x] == 1
  {
    assert multiset(a + [x] + b) == multiset(a) + multiset{x} + multiset(b);
  }

  lemma DrainYields(time: real, start: nat, target: nat)
    ensures Yields(DrainLoop(time, start, target)) == 1
  {
    var head := [LoadFast("t"), LoadConst(Num(time)), CompareOp(Gt), PopJumpIfFalse(target), LoadFast("v")];
    var rest := [UnpackSequence(3), StoreFast("t"), StoreFast("x"), StoreFast("v"), JumpAbsolute(start)];
    assert DrainLoop(time, start, target) == head + [YieldValue] + rest;
    assert YieldValue !in head && YieldValue !in rest;
    CountOne(head, YieldValue, rest);
  }

  lemma TailYields(nodes: seq<Item>)
    ensures Yields(Tail(nodes)) == (if nodes == [] then 0 else 1)
  {
    assert Resume == [YieldValue] + Resume[1..];
    assert multiset(Resume[1..])[YieldValue] == 0;
  }

  lemma BucketYields(time: real, nodes: seq<Item>, start: nat, target: nat)
    ensures Yields(BucketCode(time, nodes, start, target)) == 1 + (if nodes == [] then 0 else 1)
  {
    var drain := DrainLoop(time, start, target);
    NodesCodeNoYield(nodes);
    DrainYields(time, start, target);
    TailYields(nodes);
    assert multiset(drain + NodesCode(nodes) + Tail(nodes))
      == multiset(drain) + multiset(NodesCode(nodes)) + multiset(Tail(nodes));
  }

  /**
    One yield in every drain loop, one more after the code of every non-empty bucket, and
    the final `load v; yield`.
  */
  lemma {:induction false} ProgramYields(items: seq<(real, seq<Item>)>, rule: Rule)
    ensures Yields(Program(items, rule)) == |items| + NonEmpty(items) + 1
  {
    LayoutYields(items, rule);
  }

  lemma {:induction false} LayoutYields(items: seq<(real, seq<Item>)>, rule: Rule)
    ensures Yields(Layout(items, rule)) == |items| + NonEmpty(items)
  {
    if items != [] {
      var pre := Layout(items[..|items| - 1], rule);
      LayoutYields(items[..|items| - 1], rule);
      var start := SizeAll(pre);
      BucketYields(items[|items| - 1].0, items[|items| - 1].1, start, Target(rule, start));
    }
  }

  // ---------------------------------------------------------------------------
  // Locals
  // ---------------------------------------------------------------------------

  /** Every load and store names one of `t`, `x`, `v`. */
  ghost predicate LocalsOnly(code: seq<Instr>)
  {
    forall i :: i in code ==> NamesKnown(i, InitialNames)
  }

  lemma {:induction false} NodesCodeLocals(nodes: seq<Item>)
    ensures LocalsOnly(NodesCode(nodes))
  {
    if nodes != [] {
      NodesCodeLocals(nodes[1..]);
    }
  }

  lemma {:induction false} LayoutLocals(items: seq<(real, seq<Item>)>, rule: Rule)
    ensures LocalsOnly(Layout(items, rule))
  {
    if items != [] {
      var pre := Layout(items[..|items| - 1], rule);
      LayoutLocals(items[..|items| - 1], rule);
      var start := SizeAll(pre);
      var last := items[|items| - 1];
      BucketLocals(last.0, last.1, start, Target(rule, start));
      LocalsConcat(pre, BucketCode(last.0, last.1, start, Target(rule, start)));
    }
  }

  lemma LocalsConcat(a: seq<Instr>, b: seq<Instr>)
    requires LocalsOnly(a) && LocalsOnly(b)
    ensures LocalsOnly(a + b)
  {
  }

  lemma BucketLocals(time: real, nodes: seq<Item>, start: nat, target: nat)
    ensures LocalsOnly(BucketCode(time, nodes, start, target))
  {
    NodesCodeLocals(nodes);
    LocalsConcat(DrainLoop(time, start, target), NodesCode(nodes));
    LocalsConcat(DrainLoop(time, start, target) + NodesCode(nodes), Tail(nodes));
  }

  /**
    Writing the program adds no name to the table seeded with `t`, `x`, `v`, so the code
    object's `co_names` are exactly those three.
  */
  lemma ProgramNames(items: seq<(real, seq<Item>)>, rule: Rule)
    ensures EncodeAll(Program(items, rule), InitialTables()).tables.names == InitialNames
  {
    LayoutLocals(items, rule);
    EncodeAllKeepsNames(Program(items, rule), InitialTables());
  }

  /** Whatever from_graph builds names the locals `t`, `x`, `v` and nothing else. */
  lemma BuildNames(root: Item, rule: Rule, effect: (Opcode, Option<nat>) -> int)
    ensures Build(root, rule, effect).Ok? ==> Build(root, rule, effect).value.names == InitialNames
  {
    BuildCases(root, rule, effect);
    var s := Scan(PopOrder(root));
    if s.Ok? {
      var code := Program(Items(s.value.m), rule);
      ProgramNames(Items(s.value.m), rule);
      EncodeAllSize(code, InitialTables());
    }
  }

  // ---------------------------------------------------------------------------
  // What follows a yield
  // ---------------------------------------------------------------------------

  /** Lines 45-48 and 57-60: unpack the triple sent in and store it into `t`, `x`, `v`. */
  const Stores: seq<Instr> := [UnpackSequence(3), StoreFast("t"), StoreFast("x"), StoreFast("v")]

  /** Every yield is followed by the unpacking of the triple into `t`, `x`, `v`. */
  ghost predicate Resumes(code: seq<Instr>)
  {
    forall k :: 0 <= k < |code| && code[k] == YieldValue ==> k + 5 <= |code| && code[k + 1..k + 5] == Stores
  }

  lemma ResumesConcat(a: seq<Instr>, b: seq<Instr>)
    requires Resumes(a) && Resumes(b)
    ensures Resumes(a + b)
  {
    var c := a + b;
    forall k | 0 <= k < |c| && c[k] == YieldValue
      ensures k + 5 <= |c| && c[k + 1..k + 5] == Stores
    {
      if k < |a| {
        assert c[k + 1..k + 5] == a[k + 1..k + 5];
      } else {
        assert b[k - |a|] == YieldValue;
        assert c[k + 1..k + 5] == b[k - |a| + 1..k - |a| + 5];
      }
    }
  }

  lemma BucketResumes(time: real, nodes: seq<Item>, start: nat, target: nat)
    ensures Resumes(BucketCode(time, nodes, start, target))
  {
    var drain := DrainLoop(time, start, target);
    assert forall k :: 0 <= k < |drain| && drain[k] == YieldValue ==> k == 5;
    assert drain[6..10] == Stores;
    NodesCodeNoYield(nodes);
    assert forall k :: 0 <= k < |Resume| && Resume[k] == YieldValue ==> k == 0;
    assert Resume[1..5] == Stores;
    ResumesConcat(drain, NodesCode(nodes));
    ResumesConcat(drain + NodesCode(nodes), Tail(nodes));
  }

  lemma {:induction false} LayoutResumes(items: seq<(real, seq<Item>)>, rule: Rule)
    ensures Resumes(Layout(items, rule))
  {
    if items != [] {
      var pre := Layout(items[..|items| - 1], rule);
      LayoutResumes(items[..|items| - 1], rule);
      var start := SizeAll(pre);
      var last := items[|items| - 1];
      BucketResumes(last.0, last.1, start, Target(rule, start));
      ResumesConcat(pre, BucketCode(last.0, last.1, start, Target(rule, start)));
    }
  }

  /**
    The program ends with its final yield, and every earlier yield is followed by storing
    the triple sent in into `t`, `x`, `v` in that order.
  */
  lemma ProgramResumes(items: seq<(real, seq<Item>)>, rule: Rule)
    ensures var p := Program(items, rule);
      && p[|p| - 1] == YieldValue
      && forall k :: 0 <= k < |p| - 1 && p[k] == YieldValue ==> k + 5 <= |p| && p[k + 1..k + 5] == Stores
  {
    var l := Layout(items, rule);
    var p := Program(items, rule);
    LayoutResumes(items, rule);
    forall k | 0 <= k < |p| - 1 && p[k] == YieldValue
      ensures k + 5 <= |p| && p[k + 1..k + 5] == Stores
    {
      assert k < |l|;
      assert p[k + 1..k + 5] == l[k + 1..k + 5];
    }
  }

  // ---------------------------------------------------------------------------
  // Where the drain loops exit
  // ---------------------------------------------------------------------------

  /** The byte at which bucket `i` starts: the size of the buckets written before it. */
  function BucketStart(items: seq<(real, seq<Item>)>, rule: Rule, i: nat): nat
    requires i <= |items|
  {
    SizeAll(Layout(items[..i], rule))
  }

  /** Bucket `i` follows the buckets before it. */
  lemma LayoutBucket(items: seq<(real, seq<Item>)>, rule: Rule, i: nat)
    requires i < |items|
    ensures var start := BucketStart(items, rule, i);
      Layout(items[..i + 1], rule) == Layout(items[..i], rule) + BucketCode(items[i].0, items[i].1, start, Target(rule, start))
  {
    assert items[..i + 1][..i] == items[..i];
  }

  /** The drain loop of bucket `i` is a prefix of the layout from the bucket's start. */
  lemma DrainInLayout(items: seq<(real, seq<Item>)>, rule: Rule, i: nat)
    requires i < |items|
    ensures var start := BucketStart(items, rule, i);
      var pre := Layout(items[..i], rule);
      var drain := DrainLoop(items[i].0, start, Target(rule, start));
      && pre + drain <= Layout(items, rule)
      && SizeAll(pre + drain) == DrainEnd(start, Target(rule, start))
  {
    var start := BucketStart(items, rule, i);
    var pre := Layout(items[..i], rule);
    var target := Target(rule, start);
    var drain := DrainLoop(items[i].0, start, target);
    LayoutBucket(items, rule, i);
    LayoutPrefix(items, rule, i + 1);
    PrefixOfConcat(pre, drain, NodesCode(items[i].1), Tail(items[i].1));
    PrefixTrans(pre + drain, Layout(items[..i + 1], rule), Layout(items, rule));
    SizeAllConcat(pre, drain);
    DrainLoopSize(items[i].0, start, target);
  }

  /**
    In the corrected program every drain loop sits at its bucket's start and its exit jump
    goes to the first byte after its back-edge.
  */
  lemma CorrectedTargetsLand(items: seq<(real, seq<Item>)>, i: nat)
    requires i < |items|
    ensures var start := BucketStart(items, Corrected, i);
      var drain := DrainLoop(items[i].0, start, DrainTarget(start));
      && Layout(items[..i], Corrected) + drain <= Layout(items, Corrected)
      && SizeAll(Layout(items[..i], Corrected) + drain) == DrainTarget(start)
  {
    DrainInLayout(items, Corrected, i);
    DrainTargetLands(BucketStart(items, Corrected, i));
  }

  /**
    In the program as written, bucket `i`'s exit jump goes to the first byte after its
    back-edge exactly when its target is below 128.
  */
  lemma AsWrittenTargetsLandIff(items: seq<(real, seq<Item>)>, i: nat)
    requires i < |items|
    ensures var start := BucketStart(items, AsWritten, i);
      var drain := DrainLoop(items[i].0, start, DrainTargetAsWritten(start));
      && Layout(items[..i], AsWritten) + drain <= Layout(items, AsWritten)
      && (SizeAll(Layout(items[..i], AsWritten) + drain) == DrainTargetAsWritten(start)
          <==> DrainTargetAsWritten(start) < 128)
  {
    DrainInLayout(items, AsWritten, i);
    AsWrittenLandsIff(BucketStart(items, AsWritten, i));
  }

  /** While every target as written is below 128, the program as written is the corrected one. */
  lemma {:induction false} AsWrittenAgrees(items: seq<(real, seq<Item>)>)
    requires forall i :: 0 <= i < |items| ==> DrainTargetAsWritten(BucketStart(items, AsWritten, i)) < 128
    ensures Layout(items, AsWritten) == Layout(items, Corrected)
  {
    if items != [] {
      var init := items[..|items| - 1];
      forall i | 0 <= i < |init|
        ensures DrainTargetAsWritten(BucketStart(init, AsWritten, i)) < 128
      {
        assert init[..i] == items[..i];
        assert DrainTargetAsWritten(BucketStart(items, AsWritten, i)) < 128;
      }
      AsWrittenAgrees(init);
      assert items[..|items| - 1] == init;
      DrainTargetAgrees(BucketStart(items, AsWritten, |items| - 1));
    }
  }

  // ---------------------------------------------------------------------------
  // A contract whose program as written loops forever
  // ---------------------------------------------------------------------------

  /** `k` nested `And((prev, 1.0))` around `At(1.0)`. */
  function Chain(k: nat): Item
  {
    if k == 0 then At(1.0) else And([Chain(k - 1), Const(1.0)])
  }

  /** Every element the pass pops is a one-call node at time 1.0 or the constant 1.0. */
  lemma {:induction false} ChainOrder(k: nat)
    ensures Time(Chain(k)) == HasTime(1.0)
    ensures |PopOrder(Chain(k))| == 2 * k + 1
    ensures forall j :: 0 <= j < |PopOrder(Chain(k))| ==>
      !PopOrder(Chain(k))[j].Or? && (Time(PopOrder(Chain(k))[j]) == NoTime || Time(PopOrder(Chain(k))[j]) == HasTime(1.0))
  {
    if k > 0 {
      ChainOrder(k - 1);
      var n := Chain(k);
      assert ChildTimes(n) == [HasTime(1.0), NoTime];
      assert PopOrder(Const(1.0)) == [Const(1.0)];
      assert KidsOrder(n, 1) == PopOrder(Chain(k - 1));
      assert PopOrder(n) == [n, Const(1.0)] + PopOrder(Chain(k - 1));
    }
  }

  /** Without `Or`, every element writes exactly one plain call. */
  lemma {:induction false} NodesCodePlain(nodes: seq<Item>)
    requires forall j :: 0 <= j < |nodes| ==> !nodes[j].Or?
    ensures SizeAll(NodesCode(nodes)) == 2 * |nodes|
  {
    NodesCodeNoJump(nodes);
    SizeAllPlain(NodesCode(nodes));
  }

  lemma {:induction false} NodesCodeNoJump(nodes: seq<Item>)
    requires forall j :: 0 <= j < |nodes| ==> !nodes[j].Or?
    ensures |NodesCode(nodes)| == |nodes|
    ensures forall k :: 0 <= k < |NodesCode(nodes)| ==>
      !NodesCode(nodes)[k].JumpAbsolute? && !NodesCode(nodes)[k].PopJumpIfFalse?
  {
    if nodes != [] {
      NodesCodeNoJump(nodes[1..]);
    }
  }

  /** Strictly descending values drawn from {0.0, 1.0} are at most two. */
  lemma BinaryDescending(s: seq<real>)
    requires forall i :: 0 <= i < |s| ==> s[i] == 0.0 || s[i] == 1.0
    requires forall i, j :: 0 <= i < j < |s| ==> s[i] > s[j]
    ensures |s| <= 2
  {
    if |s| > 2 {
      FirstThree(s);
      assert false;
    }
  }

  lemma FirstThree(s: seq<real>)
    requires |s| > 2
    requires forall i, j :: 0 <= i < j < |s| ==> s[i] > s[j]
    ensures s[0] > s[1] > s[2]
  {
  }

  /** The buckets of a contract whose every timed element resolves at 1.0: first 1.0, then 0.0. */
  lemma TwoBuckets(root: Item)
    requires SingleTime(root, 1.0)
    ensures Scan(PopOrder(root)).Ok?
    ensures WellOrdered(Scan(PopOrder(root)).value.m)
    ensures Items(Scan(PopOrder(root)).value.m) == [(1.0, PopOrder(root)), (0.0, [])]
  {
    SingleTimeSchedule(root, 1.0);
    ScanOutcome(PopOrder(root));
    var d := Scan(PopOrder(root)).value.m;
    ItemsOrdered(d);
    TwoItems(Items(d), d.entries, PopOrder(root));
  }

  /** Listing the two buckets 1.0 and 0.0 once each, latest first, gives 1.0 then 0.0. */
  lemma TwoItems(r: seq<(real, seq<Item>)>, d: map<real, seq<Item>>, whole: seq<Item>)
    requires forall key :: key in d <==> key == 0.0 || key == 1.0
    requires d[1.0] == whole && d[0.0] == []
    requires forall i :: 0 <= i < |r| ==> r[i].0 in d && r[i].1 == d[r[i].0]
    requires forall key :: key in d ==> exists i :: 0 <= i < |r| && r[i].0 == key
    requires forall i, j :: 0 <= i < j < |r| ==> r[i].0 > r[j].0
    ensures r == [(1.0, whole), (0.0, [])]
  {
    var times := seq(|r|, i requires 0 <= i < |r| => r[i].0);
    BinaryDescending(times);
    assert 0.0 in d && 1.0 in d;
    var i0 :| 0 <= i0 < |r| && r[i0].0 == 0.0;
    var i1 :| 0 <= i1 < |r| && r[i1].0 == 1.0;
    assert i1 < i0;
    assert |r| == 2 && i1 == 0 && i0 == 1;
  }

  /** A first bucket of 37 one-call elements, whose drain loop exits to byte 22, ends at byte 106. */
  lemma FirstBucketSize(time: real, nodes: seq<Item>)
    requires |nodes| == 37 && forall j :: 0 <= j < |nodes| ==> !nodes[j].Or?
    ensures SizeAll(BucketCode(time, nodes, 0, 22)) == 106
  {
    NodesCodePlain(nodes);
    NoPrefixBelow128(0);
    NoPrefixBelow128(22);
    DrainLoopSize(time, 0, 22);
    SizeAllConcat(DrainLoop(time, 0, 22), NodesCode(nodes));
    SizeAllPlain(Resume);
    SizeAllConcat(DrainLoop(time, 0, 22) + NodesCode(nodes), Resume);
  }

  /**
    A contract whose timed elements all resolve at 1.0, with 37 elements that each write
    one call, fills the first bucket up to byte 106, where the bucket of 0.0 starts.  Its
    exit jump as written goes to byte 128, which is the back-edge itself, while the loop
    ends at byte 130: once the lattice reaches 0.0 the program jumps back to byte 106 for
    ever.  The corrected target is 130.
  */
  lemma SecondBucketMisses(root: Item)
    requires SingleTime(root, 1.0)
    requires |PopOrder(root)| == 37 && forall j :: 0 <= j < |PopOrder(root)| ==> !PopOrder(root)[j].Or?
    ensures Scan(PopOrder(root)).Ok?
    ensures WellOrdered(Scan(PopOrder(root)).value.m)
    ensures var items := Items(Scan(PopOrder(root)).value.m);
      && |items| == 2 && items[1] == (0.0, [])
      && BucketStart(items, AsWritten, 1) == 106
      && DrainTargetAsWritten(106) == 128
      && SizeAll(Layout(items[..1], AsWritten) + DrainLoop(0.0, 106, 128)) == 130
      && BucketStart(items, Corrected, 1) == 106
      && DrainTarget(106) == 130
  {
    TwoBuckets(root);
    var items := Items(Scan(PopOrder(root)).value.m);
    SecondStart(items, AsWritten);
    SecondStart(items, Corrected);
    AsWrittenMisses();
    DrainInLayout(items, AsWritten, 1);
    DrainTargetLands(106);
  }

  lemma SecondStart(items: seq<(real, seq<Item>)>, rule: Rule)
    requires |items| == 2 && |items[0].1| == 37 && forall j :: 0 <= j < 37 ==> !items[0].1[j].Or?
    ensures BucketStart(items, rule, 1) == 106
  {
    NoPrefixBelow128(0);
    DrainTargetAgrees(0);
    assert Target(rule, 0) == 22;
    assert items[..1] == [items[0]];
    SingleLayout(items[0], rule);
    FirstBucketSize(items[0].0, items[0].1);
  }

  /** A lone bucket starts at byte 0. */
  lemma SingleLayout(item: (real, seq<Item>), rule: Rule)
    ensures Layout([item], rule) == BucketCode(item.0, item.1, 0, Target(rule, 0))
  {
    assert [item][..0] == [];
    var bucket := BucketCode(item.0, item.1, 0, Target(rule, 0));
    assert [] + bucket == bucket;
  }

  /** 18 nested `And((prev, 1.0))` around `At(1.0)` is such a contract. */
  lemma ChainMisses()
    ensures SingleTime(Chain(18), 1.0)
    ensures |PopOrder(Chain(18))| == 37 && forall j :: 0 <= j < |PopOrder(Chain(18))| ==> !PopOrder(Chain(18))[j].Or?
  {
    ChainOrder(18);
  }
}
