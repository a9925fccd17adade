/**
  The first half of from_graph: a depth-first pass over an explicit stack that puts every
  popped element, node or constant, into a bucket keyed by resolution time.
*/
module Schedule {
  import opened Outcomes
  import opened Atoms

  // ---------------------------------------------------------------------------
  // The order in which elements are popped
  // ---------------------------------------------------------------------------

  /**
    The elements popped, in order, from a stack that holds just `n`: `n` itself, then its
    children's subtrees, the last child first because `q.extend` pushes them in order.
  */
  function PopOrder(n: Item): seq<Item>
    decreases n, 1
  {
    [n] + KidsOrder(n, |Kids(n)|)
  }

  /** The pop order of the first `k` children of `n` pushed together: the last pushed comes out first. */
  function KidsOrder(n: Item, k: nat): seq<Item>
    requires k <= |Kids(n)|
    decreases n, 0, k
  {
    if k == 0 then [] else PopOrder(Kids(n)[k - 1]) + KidsOrder(n, k - 1)
  }

  /** The pop order of a whole stack whose top is the last element. */
  function StackOrder(q: seq<Item>): seq<Item>
  {
    if q == [] then [] else PopOrder(q[|q| - 1]) + StackOrder(q[..|q| - 1])
  }

  lemma {:induction false} StackOrderConcat(a: seq<Item>, b: seq<Item>)
    ensures StackOrder(a + b) == StackOrder(b) + StackOrder(a)
  {
    if b == [] {
      assert a + b == a;
    } else {
      assert (a + b)[..|a + b| - 1] == a + b[..|b| - 1];
      assert (a + b)[|a + b| - 1] == b[|b| - 1];
      StackOrderConcat(a, b[..|b| - 1]);
    }
  }

  lemma {:induction false} KidsOrderIsStackOrder(n: Item, k: nat)
    requires k <= |Kids(n)|
    ensures KidsOrder(n, k) == StackOrder(Kids(n)[..k])
    decreases k
  {
    if k > 0 {
      KidsOrderIsStackOrder(n, k - 1);
      assert Kids(n)[..k][..k - 1] == Kids(n)[..k - 1];
    }
  }

  lemma PopOrderOf(x: Item)
    ensures PopOrder(x) == [x] + StackOrder(Kids(x))
  {
    KidsOrderIsStackOrder(x, |Kids(x)|);
    assert Kids(x)[..|Kids(x)|] == Kids(x);
  }

  lemma StackOrderTop(rest: seq<Item>, x: Item)
    ensures StackOrder(rest + [x]) == PopOrder(x) + StackOrder(rest)
  {
    assert (rest + [x])[..|rest|] == rest;
  }

  /** Popping the top element `x` and pushing its children leaves the rest of the pop order unchanged. */
  lemma PopStep(rest: seq<Item>, x: Item)
    ensures StackOrder(rest + [x]) == [x] + StackOrder(rest + Kids(x))
  {
    StackOrderTop(rest, x);
    PopOrderOf(x);
    StackOrderConcat(rest, Kids(x));
    var k, s := StackOrder(Kids(x)), StackOrder(rest);
    assert ([x] + k) + s == [x] + (k + s);
  }

  /** `s` read backwards. */
  function Reverse<T>(s: seq<T>): (r: seq<T>)
    ensures |r| == |s|
    ensures forall k :: 0 <= k < |s| ==> r[k] == s[|s| - 1 - k]
  {
    if s == [] then [] else Reverse(s[1..]) + [s[0]]
  }

  lemma ReverseConcat<T>(a: seq<T>, b: seq<T>)
    ensures Reverse(a + b) == Reverse(b) + Reverse(a)
  {
  }

  /** The left-to-right postorder: children first, in order, then the node. */
  function PostOrder(n: Item): seq<Item>
    decreases n, 1
  {
    PostKids(n, |Kids(n)|) + [n]
  }

  function PostKids(n: Item, k: nat): seq<Item>
    requires k <= |Kids(n)|
    decreases n, 0, k
  {
    if k == 0 then [] else PostKids(n, k - 1) + PostOrder(Kids(n)[k - 1])
  }

  /**
    `reversed(nodes)` over a pop order visits children before their parent, left to right:
    reading the pop order backwards gives the postorder.
  */
  lemma {:induction false} ReversePopOrder(n: Item)
    ensures Reverse(PopOrder(n)) == PostOrder(n)
    decreases n, 1
  {
    ReverseKidsOrder(n, |Kids(n)|);
    ReverseConcat([n], KidsOrder(n, |Kids(n)|));
  }

  lemma {:induction false} ReverseKidsOrder(n: Item, k: nat)
    requires k <= |Kids(n)|
    ensures Reverse(KidsOrder(n, k)) == PostKids(n, k)
    decreases n, 0, k
  {
    if k > 0 {
      ReversePopOrder(Kids(n)[k - 1]);
      ReverseKidsOrder(n, k - 1);
      ReverseConcat(PopOrder(Kids(n)[k - 1]), KidsOrder(n, k - 1));
    }
  }

  // ---------------------------------------------------------------------------
  // Buckets
  // ---------------------------------------------------------------------------

  /** A defaultdict(list) keyed by time; like every Python dict it remembers the order its keys were added in. */
  datatype Dict = Dict(entries: map<real, seq<Item>>, keys: seq<real>)

  /** The keys are listed once each, and they are exactly the keys of the entries. */
  ghost predicate WellOrdered(d: Dict)
  {
    && (forall i, j :: 0 <= i < j < |d.keys| ==> d.keys[i] != d.keys[j])
    && (forall key :: key in d.entries <==> key in d.keys)
  }

  /** `m[key].append(n)`: a missing key is first added with an empty list. */
  function Append(d: Dict, key: real, n: Item): Dict
  {
    if key in d.entries then Dict(d.entries[key := d.entries[key] + [n]], d.keys)
    else Dict(d.entries[key := [n]], d.keys + [key])
  }

  lemma AppendWellOrdered(d: Dict, key: real, n: Item)
    requires WellOrdered(d)
    ensures WellOrdered(Append(d, key, n))
  {
  }

  /** The dict `m` and the variable `time` after some elements were processed. */
  datatype Scanned = Scanned(m: Dict, time: Option<real>)

  /**
    One iteration of the loop for the popped element `n`: read `n.time` (a constant has
    none and keeps the previous value of `time`), then append `n` to that bucket.
  */
  function Visit(s: Scanned, n: Item): Result<Scanned>
  {
    match Time(n)
    case Raises => Err(NoTimedChild)
    case HasTime(t) => Ok(Scanned(Append(s.m, t, n), Some(t)))
    case NoTime =>
      if s.time.None? then Err(UnboundTime) else Ok(Scanned(Append(s.m, s.time.value, n), s.time))
  }

  /** The loop over a given pop order, starting after `m[0.0]` with `time` unbound. */
  function Scan(order: seq<Item>): Result<Scanned>
  {
    if order == [] then Ok(Scanned(Dict(map[0.0 := []], [0.0]), None))
    else
      match Scan(order[..|order| - 1])
      case Err(f) => Err(f)
      case Ok(s) => Visit(s, order[|order| - 1])
  }

  /** An exception ends the loop: whatever follows is never processed. */
  lemma {:induction false} ScanStops(a: seq<Item>, b: seq<Item>)
    requires Scan(a).Err?
    ensures Scan(a + b) == Scan(a)
  {
    if b == [] {
      assert a + b == a;
    } else {
      assert (a + b)[..|a + b| - 1] == a + b[..|b| - 1];
      ScanStops(a, b[..|b| - 1]);
      assert Scan(a + b) == Scan(a + b[..|b| - 1]);
    }
  }

  ghost predicate NoneRaise(order: seq<Item>)
  {
    forall j :: 0 <= j < |order| ==> !Time(order[j]).Raises?
  }

  /**
    The loop raises UnboundLocalError exactly when the first element is a constant, and
    ValueError exactly when the first element is not a constant but some element's `time`
    raises.  Once the loop completes, `time` is bound exactly when an element was popped,
    and the dict keeps its keys in order.
  */
  lemma {:induction false} ScanOutcome(order: seq<Item>)
    ensures Scan(order).Err? ==> Scan(order).failure == UnboundTime || Scan(order).failure == NoTimedChild
    ensures Scan(order) == Err(UnboundTime) <==> |order| > 0 && order[0].Const?
    ensures Scan(order).Ok? <==> (|order| == 0 || !order[0].Const?) && NoneRaise(order)
    ensures Scan(order).Ok? ==> (Scan(order).value.time.None? <==> order == [])
    ensures Scan(order).Ok? ==> WellOrdered(Scan(order).value.m)
  {
    if order != [] {
      var init, n := order[..|order| - 1], order[|order| - 1];
      ScanOutcome(init);
      assert forall j :: 0 <= j < |init| ==> init[j] == order[j];
      if Scan(init).Ok? {
        var s := Scan(init).value;
        if Time(n).HasTime? {
          AppendWellOrdered(s.m, Time(n).t, n);
        } else if Time(n).NoTime? && s.time.Some? {
          AppendWellOrdered(s.m, s.time.value, n);
        }
      }
    }
  }

  /**
    The bucket the element at position `j` goes to: its own time, or for a constant the time
    of the nearest timed element before it; None when there is none.
  */
  function Stamp(order: seq<Item>, j: nat): Option<real>
    requires j < |order|
  {
    match Time(order[j])
    case HasTime(t) => Some(t)
    case _ => if j == 0 then None else Stamp(order, j - 1)
  }

  /** Some element is stamped with `key`. */
  ghost predicate Stamped(order: seq<Item>, key: real)
  {
    exists j :: 0 <= j < |order| && Stamp(order, j) == Some(key)
  }

  /** The elements stamped with `key`, in pop order. */
  function Bucket(order: seq<Item>, key: real): seq<Item>
  {
    if order == [] then []
    else
      Bucket(order[..|order| - 1], key) + if Stamp(order, |order| - 1) == Some(key) then [order[|order| - 1]] else []
  }

  lemma {:induction false} StampOfPrefix(order: seq<Item>, m: nat, j: nat)
    requires j < m <= |order|
    ensures Stamp(order[..m], j) == Stamp(order, j)
  {
    if j > 0 {
      StampOfPrefix(order, m, j - 1);
    }
  }

  /** When the loop completes every element has a stamp, and `time` holds the last one. */
  lemma {:induction false} ScanStamps(order: seq<Item>)
    requires Scan(order).Ok?
    ensures forall j :: 0 <= j < |order| ==> Stamp(order, j).Some?
    ensures order != [] ==> Scan(order).value.time == Stamp(order, |order| - 1)
  {
    if order != [] {
      var init := order[..|order| - 1];
      ScanStamps(init);
      ScanOutcome(init);
      forall j | 0 <= j < |init|
        ensures Stamp(init, j) == Stamp(order, j)
      {
        StampOfPrefix(order, |init|, j);
      }
    }
  }

  /** A key no element is stamped with has an empty bucket. */
  lemma {:induction false} BucketEmpty(order: seq<Item>, key: real)
    requires forall j :: 0 <= j < |order| ==> Stamp(order, j) != Some(key)
    ensures Bucket(order, key) == []
  {
    if order != [] {
      var init := order[..|order| - 1];
      forall j | 0 <= j < |init|
        ensures Stamp(init, j) != Some(key)
      {
        StampOfPrefix(order, |init|, j);
      }
      BucketEmpty(init, key);
    }
  }

  lemma StampsOfPrefix(order: seq<Item>, m: nat)
    requires m <= |order|
    ensures forall j :: 0 <= j < m ==> Stamp(order[..m], j) == Stamp(order, j)
  {
    forall j | 0 <= j < m
      ensures Stamp(order[..m], j) == Stamp(order, j)
    {
      StampOfPrefix(order, m, j);
    }
  }

  /** The last pass appends the last element to the bucket of its stamp. */
  lemma ScanAppends(order: seq<Item>)
    requires order != [] && Scan(order).Ok?
    ensures Scan(order[..|order| - 1]).Ok?
    ensures Stamp(order, |order| - 1).Some?
    ensures Scan(order).value.m ==
      Append(Scan(order[..|order| - 1]).value.m, Stamp(order, |order| - 1).value, order[|order| - 1])
  {
    var init := order[..|order| - 1];
    ScanStamps(order);
    if init != [] {
      ScanStamps(init);
      StampOfPrefix(order, |init|, |init| - 1);
    }
    ScanOutcome(init);
  }

  /** When the loop completes, the keys are 0.0 and the stamps. */
  lemma {:induction false} ScanKeys(order: seq<Item>)
    requires Scan(order).Ok?
    ensures forall key :: key in Scan(order).value.m.entries <==>
      key == 0.0 || Stamped(order, key)
  {
    if order == [] {
      forall key
        ensures key in Scan(order).value.m.entries <==>
          key == 0.0 || Stamped(order, key)
      {
      }
    } else {
      var init := order[..|order| - 1];
      ScanAppends(order);
      ScanKeys(init);
      StampsOfPrefix(order, |init|);
      forall key
        ensures key in Scan(order).value.m.entries <==>
          key == 0.0 || Stamped(order, key)
      {
        KeyStep(order, key);
      }
    }
  }

  lemma KeyStep(order: seq<Item>, key: real)
    requires order != [] && Scan(order).Ok?
    requires var init := order[..|order| - 1]; Scan(init).Ok? && forall key :: key in Scan(init).value.m.entries <==>
      key == 0.0 || Stamped(init, key)
    ensures key in Scan(order).value.m.entries <==>
      key == 0.0 || Stamped(order, key)
  {
    var init := order[..|order| - 1];
    ScanAppends(order);
    StampsOfPrefix(order, |init|);
    var before, after := Scan(init).value.m.entries, Scan(order).value.m.entries;
    var last := Stamp(order, |order| - 1).value;
    assert key in after <==> key in before || key == last;
    if Stamped(order, key) {
      var j :| 0 <= j < |order| && Stamp(order, j) == Some(key);
      if j < |init| {
        assert Stamp(init, j) == Some(key);
      }
    }
    if key in before && key != 0.0 {
      var j :| 0 <= j < |init| && Stamp(init, j) == Some(key);
      assert Stamp(order, j) == Some(key);
    }
    if key == last {
      assert Stamp(order, |order| - 1) == Some(key);
    }
  }

  /**
    When the loop completes each bucket holds exactly the elements stamped with its key, in
    pop order: every popped element is in exactly one bucket, a timed element in the bucket
    of its own time and a constant in that of the element popped before it.
  */
  lemma {:induction false} ScanBuckets(order: seq<Item>)
    requires Scan(order).Ok?
    ensures forall key :: key in Scan(order).value.m.entries ==> Scan(order).value.m.entries[key] == Bucket(order, key)
  {
    if order != [] {
      var init := order[..|order| - 1];
      ScanAppends(order);
      ScanBuckets(init);
      ScanKeys(init);
      StampsOfPrefix(order, |init|);
      var s := Scan(init).value.m.entries;
      forall key | key in Scan(order).value.m.entries
        ensures Scan(order).value.m.entries[key] == Bucket(order, key)
      {
        if key !in s {
          BucketEmpty(init, key);
        }
      }
    }
  }

  /**
    A tree whose timed elements all resolve at `when`, so that every popped element is
    stamped `when`.
  */
  ghost predicate SingleTime(root: Item, when: real)
  {
    && !root.Const?
    && forall j :: 0 <= j < |PopOrder(root)| ==> Time(PopOrder(root)[j]) == NoTime || Time(PopOrder(root)[j]) == HasTime(when)
  }

  lemma {:induction false} StampSingle(order: seq<Item>, when: real, j: nat)
    requires j < |order| && Time(order[0]) == HasTime(when)
    requires forall i :: 0 <= i < |order| ==> Time(order[i]) == NoTime || Time(order[i]) == HasTime(when)
    ensures Stamp(order, j) == Some(when)
  {
    if j > 0 && Time(order[j]).NoTime? {
      StampSingle(order, when, j - 1);
    }
  }

  lemma {:induction false} BucketAll(order: seq<Item>, when: real)
    requires forall j :: 0 <= j < |order| ==> Stamp(order, j) == Some(when)
    ensures Bucket(order, when) == order
  {
    if order != [] {
      var init := order[..|order| - 1];
      forall j | 0 <= j < |init|
        ensures Stamp(init, j) == Some(when)
      {
        StampOfPrefix(order, |init|, j);
      }
      BucketAll(init, when);
      assert order == init + [order[|order| - 1]];
    }
  }

  /**
    For a single-time tree the loop completes with exactly the buckets 0.0 and `when`, and
    the bucket `when` holds the whole pop order.
  */
  lemma SingleTimeSchedule(root: Item, when: real)
    requires SingleTime(root, when)
    ensures Scan(PopOrder(root)).Ok?
    ensures var d := Scan(PopOrder(root)).value.m.entries;
      && (forall key :: key in d <==> key == 0.0 || key == when)
      && d[when] == PopOrder(root)
      && (when != 0.0 ==> d[0.0] == [])
  {
    var order := PopOrder(root);
    assert order[0] == root;
    assert Time(root) == HasTime(when);
    ScanOutcome(order);
    forall j | 0 <= j < |order|
      ensures Stamp(order, j) == Some(when)
    {
      StampSingle(order, when, j);
    }
    ScanKeys(order);
    ScanBuckets(order);
    BucketAll(order, when);
    if when != 0.0 {
      BucketEmpty(order, 0.0);
    }
  }

  // ---------------------------------------------------------------------------
  // The loop
  // ---------------------------------------------------------------------------

  function Filled(r: Result<Scanned>): Result<Dict>
  {
    match r
    case Ok(s) => Ok(s.m)
    case Err(f) => Err(f)
  }

  /**
    One pass of the loop: popping `n` extends the processed prefix of the pop order by `n`.
    A time that raises, or a constant met while `time` is unbound, is the outcome of the
    whole loop; otherwise `n` is appended to the bucket of its own time or of the current
    `time`.
  */
  lemma LoopStep(root: Item, popped: seq<Item>, q: seq<Item>, n: Item, m: Dict, time: Option<real>)
    requires popped + StackOrder(q + [n]) == PopOrder(root)
    requires Scan(popped) == Ok(Scanned(m, time))
    ensures popped + [n] + StackOrder(q + Kids(n)) == PopOrder(root)
    ensures Time(n).Raises? ==> Scan(PopOrder(root)) == Err(NoTimedChild)
    ensures Time(n).NoTime? && time.None? ==> Scan(PopOrder(root)) == Err(UnboundTime)
    ensures Time(n).HasTime? ==> Scan(popped + [n]) == Ok(Scanned(Append(m, Time(n).t, n), Some(Time(n).t)))
    ensures Time(n).NoTime? && time.Some? ==> Scan(popped + [n]) == Ok(Scanned(Append(m, time.value, n), time))
  {
    PopStep(q, n);
    var rest := StackOrder(q + Kids(n));
    assert popped + ([n] + rest) == popped + [n] + rest;
    ScanLast(popped, n);
    if Scan(popped + [n]).Err? {
      ScanStops(popped + [n], rest);
    }
  }

  /** Processing one more element is one more visit. */
  lemma ScanLast(init: seq<Item>, n: Item)
    requires Scan(init).Ok?
    ensures Scan(init + [n]) == Visit(Scan(init).value, n)
  {
    assert (init + [n])[..|init|] == init;
  }

  /** Lines 16-30 of from_graph: the worklist loop that fills the defaultdict. */
  method BuildSchedule(root: Item) returns (r: Result<Dict>)
    ensures r == Filled(Scan(PopOrder(root)))
  {
    var m := Dict(map[0.0 := []], [0.0]);
    var time: Option<real> := None;
    var q := [root];
    ghost var popped: seq<Item> := [];
    assert StackOrder(q) == PopOrder(root) + StackOrder([]);
    while q != []
      invariant popped + StackOrder(q) == PopOrder(root)
      invariant Scan(popped) == Ok(Scanned(m, time))
      invariant |popped| <= |PopOrder(root)|
      decreases |PopOrder(root)| - |popped|
    {
      ghost var whole := q;
      var n := q[|q| - 1];
      q := q[..|q| - 1];
      assert whole == q + [n];
      LoopStep(root, popped, q, n, m, time);
      match Time(n) {
        case Raises =>
          return Err(NoTimedChild);
        case HasTime(t) =>
          time := Some(t);
        case NoTime =>
          if time.None? {
            return Err(UnboundTime);
          }
      }
      m := Append(m, time.value, n);
      popped := popped + [n];
      q := q + Kids(n);
    }
    assert popped == PopOrder(root);
    return Ok(m);
  }

  // ---------------------------------------------------------------------------
  // sorted(m.items(), reverse=True)
  // ---------------------------------------------------------------------------

  ghost predicate Descends(s: seq<real>)
  {
    forall i, j :: 0 <= i < j < |s| ==> s[i] > s[j]
  }

  /** Inserts `k` into a descending sequence, before the first element it exceeds. */
  function Insert(k: real, s: seq<real>): seq<real>
  {
    if s == [] || k > s[0] then [k] + s else [s[0]] + Insert(k, s[1..])
  }

  lemma {:induction false} InsertPermutes(k: real, s: seq<real>)
    ensures multiset(Insert(k, s)) == multiset(s) + multiset{k}
  {
    if s != [] && !(k > s[0]) {
      InsertPermutes(k, s[1..]);
      assert s == [s[0]] + s[1..];
    }
  }

  /** Inserting an element below `b` into elements below `b` keeps everything below `b`. */
  lemma {:induction false} InsertBelow(k: real, s: seq<real>, b: real)
    requires k < b && forall i :: 0 <= i < |s| ==> s[i] < b
    ensures forall i :: 0 <= i < |Insert(k, s)| ==> Insert(k, s)[i] < b
  {
    if s != [] && !(k > s[0]) {
      InsertBelow(k, s[1..], b);
    }
  }

  /** Inserting a new key into a descending sequence keeps it descending. */
  lemma {:induction false} InsertDescends(k: real, s: seq<real>)
    requires Descends(s) && k !in s
    ensures Descends(Insert(k, s))
  {
    if s != [] && !(k > s[0]) {
      assert s[1..] == s[1..];
      InsertDescends(k, s[1..]);
      InsertBelow(k, s[1..], s[0]);
    }
  }

  /** `sorted(keys, reverse=True)`. */
  function SortDescending(s: seq<real>): seq<real>
  {
    if s == [] then [] else Insert(s[0], SortDescending(s[1..]))
  }

  lemma {:induction false} SortPermutes(s: seq<real>)
    ensures multiset(SortDescending(s)) == multiset(s)
  {
    if s != [] {
      SortPermutes(s[1..]);
      InsertPermutes(s[0], SortDescending(s[1..]));
      assert s == [s[0]] + s[1..];
    }
  }

  ghost predicate Distinct(s: seq<real>)
  {
    forall i, j :: 0 <= i < j < |s| ==> s[i] != s[j]
  }

  /** Keys listed once each come out strictly descending. */
  lemma {:induction false} SortDescends(s: seq<real>)
    requires Distinct(s)
    ensures Descends(SortDescending(s))
  {
    if s != [] {
      var rest := s[1..];
      assert Distinct(rest) by {
        assert forall i :: 0 <= i < |rest| ==> rest[i] == s[i + 1];
      }
      SortDescends(rest);
      SortPermutes(rest);
      assert s[0] !in multiset(rest);
      assert s[0] !in SortDescending(rest) by {
        assert multiset(SortDescending(rest)) == multiset(rest);
      }
      InsertDescends(s[0], SortDescending(rest));
    }
  }

  /** `sorted(m.items(), reverse=True)`: the buckets, the latest time first. */
  function Items(d: Dict): seq<(real, seq<Item>)>
    requires WellOrdered(d)
  {
    var keys := SortDescending(d.keys);
    SortPermutes(d.keys);
    assert forall i :: 0 <= i < |keys| ==> keys[i] in multiset(d.keys);
    seq(|keys|, i requires 0 <= i < |keys| => (keys[i], d.entries[keys[i]]))
  }

  /** The listed keys, sorted, are exactly the keys of the entries, each once, the latest first. */
  lemma SortedKeys(d: Dict)
    requires WellOrdered(d)
    ensures |SortDescending(d.keys)| == |d.keys|
    ensures forall key :: key in d.entries <==> key in SortDescending(d.keys)
    ensures Descends(SortDescending(d.keys))
  {
    var keys := SortDescending(d.keys);
    SortPermutes(d.keys);
    SortDescends(d.keys);
    assert |keys| == |multiset(keys)| == |multiset(d.keys)| == |d.keys|;
    forall key
      ensures key in d.entries <==> key in keys
    {
      assert key in keys <==> key in multiset(keys);
      assert key in d.keys <==> key in multiset(d.keys);
    }
  }

  /** Every bucket appears once, with its contents, the latest time first. */
  lemma ItemsOrdered(d: Dict)
    requires WellOrdered(d)
    ensures |Items(d)| == |d.keys|
    ensures forall i :: 0 <= i < |Items(d)| ==> Items(d)[i].0 in d.entries && Items(d)[i].1 == d.entries[Items(d)[i].0]
    ensures forall key :: key in d.entries ==> exists i :: 0 <= i < |Items(d)| && Items(d)[i].0 == key
    ensures forall i, j :: 0 <= i < j < |Items(d)| ==> Items(d)[i].0 > Items(d)[j].0
  {
    var keys := SortDescending(d.keys);
    SortedKeys(d);
    var r := Items(d);
    assert forall i :: 0 <= i < |r| ==> r[i].0 == keys[i];
    forall key | key in d.entries
      ensures exists i :: 0 <= i < |r| && r[i].0 == key
    {
      var i :| 0 <= i < |keys| && keys[i] == key;
      assert r[i].0 == key;
    }
  }
}
