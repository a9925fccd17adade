/**
  present_value: backward induction down a recombining binomial lattice, handing each
  level's prices and continuation values to the evolution generator and taking back the
  contract's values.  The exponentials that give the discount factor `z` and the up move
  `u` are inputs here; the lattice and the loop are stated exactly over the reals.
*/
module BinomialTree {
  import opened Outcomes

  /** `(time, x, v)` as handed to the evolution; the first one is the call `evolve(t, x, v)`. */
  datatype Triple = Triple(t: real, x: seq<real>, v: seq<real>)

  /** What the evolution yields: a vector of values, or some other object (a scalar). */
  datatype Yielded = Vector(elems: seq<real>) | Other

  /**
    The evolution generator seen from outside: what it yields once it has been called with
    the first triple of `history` and sent the others, or the exception it raises.
  */
  type Evolution = seq<Triple> -> Result<Yielded>

  /** The inputs of present_value, with `exp(-r dt)` and `exp(sigma sqrt(dt))` given as `z` and `u`. */
  datatype Inputs = Inputs(years: real, spot: real, z: real, u: real, steps: nat)

  predicate ValidInputs(a: Inputs)
  {
    a.z > 0.0 && a.u > 0.0
  }

  function Pow(b: real, n: nat): real
  {
    if n == 0 then 1.0 else b * Pow(b, n - 1)
  }

  lemma {:induction false} PowAdd(b: real, m: nat, n: nat)
    ensures Pow(b, m + n) == Pow(b, m) * Pow(b, n)
  {
    if m > 0 {
      PowAdd(b, m - 1, n);
    }
  }

  // ---------------------------------------------------------------------------
  // Lattice parameters
  // ---------------------------------------------------------------------------

  /** Line 17: the down move. */
  function Down(a: Inputs): real
    requires ValidInputs(a)
  {
    1.0 / a.u
  }

  /** Line 18: the risk-neutral probability of an up move. */
  function Up(a: Inputs): real
    requires ValidInputs(a) && a.u != Down(a)
  {
    (1.0 / a.z - Down(a)) / (a.u - Down(a))
  }

  /**
    Lines 18-19: `p + q = 1`, and one period's discounted expected growth is one:
    `z (p u + q d) = 1`.
  */
  lemma RiskNeutral(a: Inputs)
    requires ValidInputs(a) && a.u != Down(a)
    ensures var p := Up(a); var q := 1.0 - p;
      p + q == 1.0 && a.z * (p * a.u + q * Down(a)) == 1.0
  {
    var d := Down(a);
    var p := Up(a);
    var q := 1.0 - p;
    assert p * (a.u - d) == 1.0 / a.z - d;
    calc {
      p * a.u + q * d;
      p * (a.u - d) + d;
      1.0 / a.z;
    }
    assert a.z * (1.0 / a.z) == 1.0;
  }

  /** The degenerate lattice `u = d` happens exactly at `u = 1`, a volatility of zero. */
  lemma DegenerateIff(a: Inputs)
    requires ValidInputs(a)
    ensures a.u == Down(a) <==> a.u == 1.0
  {
    if a.u == Down(a) {
      assert a.u * a.u == 1.0;
      assert (a.u - 1.0) * (a.u + 1.0) == 0.0;
    }
  }

  // ---------------------------------------------------------------------------
  // Prices
  // ---------------------------------------------------------------------------

  /**
    Prices `k` levels before expiry, lowest first: `spot d^(steps-k) u^(2i)` for the
    `steps - k + 1` nodes of that level.  Level 0 is line 21's
    `spot * geomspace(d**steps, u**steps, steps + 1)`.
  */
  function Level(a: Inputs, k: nat): seq<real>
    requires ValidInputs(a) && k <= a.steps
  {
    seq(a.steps - k + 1, i requires 0 <= i => a.spot * Pow(Down(a), a.steps - k) * Pow(a.u, 2 * i))
  }

  /**
    The initial prices run from `spot d^steps` to `spot u^steps`, one more than the number
    of steps, each `u^2` times the one before.
  */
  lemma InitialPrices(a: Inputs)
    requires ValidInputs(a)
    ensures var x := Level(a, 0);
      && |x| == a.steps + 1
      && x[0] == a.spot * Pow(Down(a), a.steps)
      && x[a.steps] == a.spot * Pow(a.u, a.steps)
      && Geometric(a.u, x)
  {
    LevelRatio(a, 0);
    TopPrice(a);
  }

  lemma TopPrice(a: Inputs)
    requires ValidInputs(a)
    ensures Level(a, 0)[a.steps] == a.spot * Pow(a.u, a.steps)
  {
    var n := a.steps;
    var dn := Pow(Down(a), n);
    var un := Pow(a.u, n);
    PowAdd(a.u, n, n);
    assert Pow(a.u, 2 * n) == un * un;
    DownPow(a, n);
    assert Level(a, 0)[n] == a.spot * dn * (un * un);
    TopArith(a.spot, dn, un);
  }

  lemma TopArith(s: real, dn: real, un: real)
    requires dn * un == 1.0
    ensures s * dn * (un * un) == s * un
  {
    calc {
      s * dn * (un * un);
      s * (dn * un) * un;
    }
  }

  /** `u d = 1`, so one up move undoes one down move. */
  lemma CancelArith(u: real, d: real, s: real, dn: real, r: real)
    requires u * d == 1.0
    ensures u * (s * (d * dn) * r) == s * dn * r
  {
    calc {
      u * (s * (d * dn) * r);
      s * ((u * d) * dn) * r;
    }
  }

  lemma {:induction false} DownPow(a: Inputs, n: nat)
    requires ValidInputs(a)
    ensures Pow(Down(a), n) * Pow(a.u, n) == 1.0
  {
    if n > 0 {
      DownPow(a, n - 1);
      calc {
        Pow(Down(a), n) * Pow(a.u, n);
        (Down(a) * a.u) * (Pow(Down(a), n - 1) * Pow(a.u, n - 1));
      }
    }
  }

  /** Each price is `u^2` times its lower neighbour. */
  ghost predicate Geometric(u: real, x: seq<real>)
  {
    forall i :: 0 <= i < |x| - 1 ==> x[i + 1] == u * u * x[i]
  }

  /** Line 27: `u * x[:-1]`, every price but the highest moved up once. */
  function Narrow(u: real, x: seq<real>): (r: seq<real>)
    ensures |r| == if x == [] then 0 else |x| - 1
  {
    if x == [] then [] else seq(|x| - 1, i requires 0 <= i < |x| - 1 => u * x[i])
  }

  /** Each narrowing moves down one level; the apex, `steps` levels down, is the spot price. */
  lemma NarrowLevel(a: Inputs, k: nat)
    requires ValidInputs(a) && k < a.steps
    ensures Narrow(a.u, Level(a, k)) == Level(a, k + 1)
  {
    var x := Level(a, k);
    var y := Level(a, k + 1);
    var n := a.steps - k - 1;
    assert Pow(Down(a), n + 1) == Down(a) * Pow(Down(a), n);
    assert a.u * Down(a) == 1.0;
    forall i | 0 <= i < |y|
      ensures Narrow(a.u, x)[i] == y[i]
    {
      CancelArith(a.u, Down(a), a.spot, Pow(Down(a), n), Pow(a.u, 2 * i));
    }
  }

  lemma Apex(a: Inputs)
    requires ValidInputs(a)
    ensures Level(a, a.steps) == [a.spot]
  {
  }

  // ---------------------------------------------------------------------------
  // Values
  // ---------------------------------------------------------------------------

  /** Line 28: `z * (p * v[1:] + q * v[:-1])`, the discounted expectation one level up. */
  function Backward(z: real, p: real, q: real, v: seq<real>): (r: seq<real>)
    ensures |r| == if v == [] then 0 else |v| - 1
  {
    if v == [] then [] else seq(|v| - 1, i requires 0 <= i < |v| - 1 => z * (p * v[i + 1] + q * v[i]))
  }

  /**
    When the values are the prices of a lattice level, rolling them back gives the prices
    of the level below: a claim on the underlying is worth the underlying.
  */
  lemma ClaimRollsBack(a: Inputs, x: seq<real>)
    requires ValidInputs(a) && a.u != Down(a)
    requires Geometric(a.u, x)
    ensures Backward(a.z, Up(a), 1.0 - Up(a), x) == Narrow(a.u, x)
  {
    var p := Up(a);
    var q := 1.0 - p;
    GrowthPerLevel(a);
    if x != [] {
      forall i | 0 <= i < |x| - 1
        ensures Backward(a.z, p, q, x)[i] == Narrow(a.u, x)[i]
      {
        StepArith(a.z, p, q, a.u, x[i], x[i + 1]);
      }
    }
  }

  lemma StepArith(z: real, p: real, q: real, u: real, lo: real, hi: real)
    requires hi == u * u * lo && z * (p * u * u + q) == u
    ensures z * (p * hi + q * lo) == u * lo
  {
    calc {
      z * (p * hi + q * lo);
      z * (p * (u * u * lo) + q * lo);
      z * ((p * u * u + q) * lo);
      (z * (p * u * u + q)) * lo;
    }
  }

  /** Over a price that moves by `u^2` between neighbours: `z (p u^2 + q) = u`. */
  lemma GrowthPerLevel(a: Inputs)
    requires ValidInputs(a) && a.u != Down(a)
    ensures a.z * (Up(a) * a.u * a.u + (1.0 - Up(a))) == a.u
  {
    var p := Up(a);
    var q := 1.0 - p;
    var d := Down(a);
    RiskNeutral(a);
    assert d * a.u == 1.0;
    calc {
      a.z * (p * a.u * a.u + q);
      a.z * (p * a.u * a.u + q * (d * a.u));
      a.z * ((p * a.u + q * d) * a.u);
      (a.z * (p * a.u + q * d)) * a.u;
      a.u;
    }
  }

  // ---------------------------------------------------------------------------
  // The loop
  // ---------------------------------------------------------------------------

  /**
    Line 25: `linspace(years, 0, steps + 1)[k]`, which is `years + k * step` with
    `step = -years / steps`, and exactly the end point for the last one.
  */
  function LevelTime(a: Inputs, k: nat): real
    requires a.steps > 0
  {
    if k == a.steps then 0.0 else a.years + k as real * ((0.0 - a.years) / a.steps as real)
  }

  /** The times start at `years`, fall by `years / steps` per level and reach zero at expiry. */
  lemma LevelTimes(a: Inputs)
    requires a.steps > 0
    ensures LevelTime(a, 0) == a.years
    ensures LevelTime(a, a.steps) == 0.0
    ensures forall k :: 0 <= k < a.steps ==> LevelTime(a, k) - LevelTime(a, k + 1) == a.years / a.steps as real
  {
    var c := a.years / a.steps as real;
    assert a.years == a.steps as real * c;
    assert (0.0 - a.years) / a.steps as real == 0.0 - c;
    forall k | 0 <= k < a.steps
      ensures LevelTime(a, k) - LevelTime(a, k + 1) == c
    {
      if k + 1 == a.steps {
        assert LevelTime(a, k) == a.years - (a.steps - 1) as real * c;
      }
    }
  }

  /** The generator's history, and the prices and values the loop holds. */
  datatype State = State(history: seq<Triple>, x: seq<real>, v: Yielded)

  /** `x * 0.0`. */
  function Zeros(n: nat): seq<real>
  {
    seq(n, _ => 0.0)
  }

  /**
    The state after `k` passes of the loop on lines 26-29, or the exception raised on the
    way: line 22-23 primes the evolution with the initial prices and zero values; each pass
    narrows the prices, rolls the values back, and sends the level's triple.
  */
  function After(ev: Evolution, a: Inputs, k: nat): Result<State>
    requires ValidInputs(a) && a.steps > 0 && a.u != Down(a) && k <= a.steps
  {
    if k == 0 then
      var x := Level(a, 0);
      var h := [Triple(a.years, x, Zeros(|x|))];
      match ev(h)
      case Err(f) => Err(f)
      case Ok(v) => Ok(State(h, x, v))
    else
      match After(ev, a, k - 1)
      case Err(f) => Err(f)
      case Ok(s) =>
        if !s.v.Vector? then Err(NotAVector)
        else
          var x := Narrow(a.u, s.x);
          var h := s.history + [Triple(LevelTime(a, k), x, Backward(a.z, Up(a), 1.0 - Up(a), s.v.elems))];
          match ev(h)
          case Err(f) => Err(f)
          case Ok(v) => Ok(State(h, x, v))
  }

  /** present_value's result, or the exception it raises. */
  function PresentValueOf(ev: Evolution, a: Inputs): Result<real>
    requires ValidInputs(a)
  {
    if a.steps == 0 then Err(ZeroSteps)
    else if a.u == Down(a) then Err(DegenerateLattice)
    else
      match After(ev, a, a.steps)
      case Err(f) => Err(f)
      case Ok(s) =>
        if !s.v.Vector? then Err(NotAVector)
        else if s.v.elems == [] then Err(EmptyVector)
        else Ok(s.v.elems[0])
  }

  /** A pass whose send the evolution answers with `y`. */
  lemma AfterStep(ev: Evolution, a: Inputs, k: nat, y: Yielded)
    requires ValidInputs(a) && a.steps > 0 && a.u != Down(a) && 0 < k <= a.steps
    requires After(ev, a, k - 1).Ok? && After(ev, a, k - 1).value.v.Vector?
    requires var s := After(ev, a, k - 1).value;
      ev(s.history + [Triple(LevelTime(a, k), Narrow(a.u, s.x), Backward(a.z, Up(a), 1.0 - Up(a), s.v.elems))]) == Ok(y)
    ensures var s := After(ev, a, k - 1).value;
      var x := Narrow(a.u, s.x);
      After(ev, a, k) == Ok(State(s.history + [Triple(LevelTime(a, k), x, Backward(a.z, Up(a), 1.0 - Up(a), s.v.elems))], x, y))
  {
  }

  /** A pass that completes follows one that completed with a vector, and sent its triple. */
  lemma AfterCompleted(ev: Evolution, a: Inputs, k: nat)
    requires ValidInputs(a) && a.steps > 0 && a.u != Down(a) && 0 < k <= a.steps
    requires After(ev, a, k).Ok?
    ensures After(ev, a, k - 1).Ok? && After(ev, a, k - 1).value.v.Vector?
    ensures var s := After(ev, a, k - 1).value;
      var x := Narrow(a.u, s.x);
      var h := s.history + [Triple(LevelTime(a, k), x, Backward(a.z, Up(a), 1.0 - Up(a), s.v.elems))];
      ev(h).Ok? && After(ev, a, k).value == State(h, x, ev(h).value)
  {
  }

  /** Once a pass raises, the loop's outcome is that exception. */
  lemma {:induction false} AfterStops(ev: Evolution, a: Inputs, k: nat, n: nat)
    requires ValidInputs(a) && a.steps > 0 && a.u != Down(a) && k <= n <= a.steps
    requires After(ev, a, k).Err?
    ensures After(ev, a, n) == After(ev, a, k)
    decreases n - k
  {
    if n > k {
      AfterStops(ev, a, k, n - 1);
    }
  }

  /** Lines 6-31. */
  method PresentValue(ev: Evolution, a: Inputs) returns (r: Result<real>)
    requires ValidInputs(a)
    ensures r == PresentValueOf(ev, a)
  {
    if a.steps == 0 {
      return Err(ZeroSteps);
    }
    var d := 1.0 / a.u;
    if a.u - d == 0.0 {
      return Err(DegenerateLattice);
    }
    var p := (1.0 / a.z - d) / (a.u - d);
    var q := 1.0 - p;
    var x := Level(a, 0);
    var history := [Triple(a.years, x, Zeros(|x|))];
    var answer := ev(history);
    if answer.Err? {
      AfterStops(ev, a, 0, a.steps);
      return Err(answer.failure);
    }
    var v := answer.value;
    for k := 1 to a.steps + 1
      invariant After(ev, a, k - 1) == Ok(State(history, x, v))
    {
      if !v.Vector? {
        AfterStops(ev, a, k, a.steps);
        return Err(NotAVector);
      }
      x := Narrow(a.u, x);
      var w := Backward(a.z, p, q, v.elems);
      history := history + [Triple(LevelTime(a, k), x, w)];
      answer := ev(history);
      if answer.Err? {
        AfterStops(ev, a, k, a.steps);
        return Err(answer.failure);
      }
      v := answer.value;
    }
    if !v.Vector? {
      return Err(NotAVector);
    }
    if v.elems == [] {
      return Err(EmptyVector);
    }
    return Ok(v.elems[0]);
  }

  // ---------------------------------------------------------------------------
  // Properties of the loop
  // ---------------------------------------------------------------------------

  /**
    The evolution is primed once, at `years`, with the initial prices and zero values, then
    sent the `k` levels at their times with the narrowed prices; the loop's prices are the
    lattice level's.
  */
  lemma {:induction false} History(ev: Evolution, a: Inputs, k: nat)
    requires ValidInputs(a) && a.steps > 0 && a.u != Down(a) && k <= a.steps
    requires After(ev, a, k).Ok?
    ensures var s := After(ev, a, k).value;
      && |s.history| == k + 1
      && s.history[0] == Triple(a.years, Level(a, 0), Zeros(a.steps + 1))
      && (forall j :: 1 <= j <= k ==> s.history[j].t == LevelTime(a, j) && s.history[j].x == Level(a, j))
      && s.x == Level(a, k)
  {
    if k > 0 {
      History(ev, a, k - 1);
      NarrowLevel(a, k - 1);
    }
  }

  /**
    An evolution that, sent prices and values of one length, hands back a vector of that
    length.
  */
  ghost predicate KeepsLength(ev: Evolution)
  {
    forall h: seq<Triple> {:trigger ev(h)} :: h != [] && |h[|h| - 1].x| == |h[|h| - 1].v| && ev(h).Ok? ==>
      ev(h).value.Vector? && |ev(h).value.elems| == |h[|h| - 1].v|
  }

  /** One send to such an evolution. */
  lemma KeepsLengthAt(ev: Evolution, h: seq<Triple>)
    requires KeepsLength(ev) && h != [] && |h[|h| - 1].x| == |h[|h| - 1].v| && ev(h).Ok?
    ensures ev(h).value.Vector? && |ev(h).value.elems| == |h[|h| - 1].v|
  {
  }

  /**
    With such an evolution every pass shortens the prices and the values by one and keeps
    them equally long, so after `steps` passes one value is left and `v[0]` is in range.
  */
  lemma {:induction false} Lengths(ev: Evolution, a: Inputs, k: nat)
    requires ValidInputs(a) && a.steps > 0 && a.u != Down(a) && k <= a.steps
    requires KeepsLength(ev) && After(ev, a, k).Ok?
    ensures var s := After(ev, a, k).value;
      |s.x| == a.steps - k + 1 && s.v.Vector? && |s.v.elems| == |s.x|
  {
    if k == 0 {
      var x := Level(a, 0);
      var h := [Triple(a.years, x, Zeros(|x|))];
      assert ev(h).Ok?;
      assert h[|h| - 1].v == Zeros(|x|);
      assert |h[|h| - 1].x| == |h[|h| - 1].v|;
      KeepsLengthAt(ev, h);
    } else {
      AfterCompleted(ev, a, k);
      Lengths(ev, a, k - 1);
      var s := After(ev, a, k - 1).value;
      var x := Narrow(a.u, s.x);
      var h := s.history + [Triple(LevelTime(a, k), x, Backward(a.z, Up(a), 1.0 - Up(a), s.v.elems))];
      var w := Backward(a.z, Up(a), 1.0 - Up(a), s.v.elems);
      assert |s.x| == |s.v.elems| == a.steps - k + 2;
      assert |x| == |w| == a.steps - k + 1;
      assert h[|h| - 1] == Triple(LevelTime(a, k), x, w);
      KeepsLengthAt(ev, h);
    }
  }

  lemma LengthPreservingEvolutionSucceeds(ev: Evolution, a: Inputs)
    requires ValidInputs(a) && a.steps > 0 && a.u != Down(a)
    requires KeepsLength(ev) && After(ev, a, a.steps).Ok?
    ensures PresentValueOf(ev, a).Ok?
  {
    Lengths(ev, a, a.steps);
  }

  /**
    The evolution of `At(years)`, a claim on the underlying paid at the start time: primed,
    it yields the prices; resumed, it yields back the values it was sent.
  */
  function Underlying(h: seq<Triple>): Result<Yielded>
  {
    if h == [] then Err(SendToUnstarted)
    else if |h| == 1 then Ok(Vector(h[0].x))
    else Ok(Vector(h[|h| - 1].v))
  }

  /** The evolution of `At(years)` meets the hypothesis of `Lengths`. */
  lemma UnderlyingKeepsLength()
    ensures KeepsLength(Underlying)
  {
  }

  lemma {:induction false} UnderlyingTracksPrices(a: Inputs, k: nat)
    requires ValidInputs(a) && a.steps > 0 && a.u != Down(a) && k <= a.steps
    ensures After(Underlying, a, k).Ok?
    ensures After(Underlying, a, k).value.v == Vector(Level(a, k))
    ensures After(Underlying, a, k).value.x == Level(a, k)
  {
    if k > 0 {
      UnderlyingTracksPrices(a, k - 1);
      var s := After(Underlying, a, k - 1).value;
      LevelRollsBack(a, k - 1);
      var x := Narrow(a.u, s.x);
      var h := s.history + [Triple(LevelTime(a, k), x, Backward(a.z, Up(a), 1.0 - Up(a), s.v.elems))];
      assert h[|h| - 1].v == x && h[|h| - 1].x == x;
      assert Underlying(h) == Ok(Vector(x));
      AfterStep(Underlying, a, k, Vector(x));
    }
  }

  /** Rolling back a level's prices as values gives the next level's prices. */
  lemma LevelRollsBack(a: Inputs, k: nat)
    requires ValidInputs(a) && a.u != Down(a) && k < a.steps
    ensures Backward(a.z, Up(a), 1.0 - Up(a), Level(a, k)) == Narrow(a.u, Level(a, k)) == Level(a, k + 1)
  {
    LevelRatio(a, k);
    ClaimRollsBack(a, Level(a, k));
    NarrowLevel(a, k);
  }

  /** Every lattice level keeps the ratio `u^2` between neighbouring prices. */
  lemma LevelRatio(a: Inputs, k: nat)
    requires ValidInputs(a) && k <= a.steps
    ensures Geometric(a.u, Level(a, k))
  {
    var x := Level(a, k);
    forall i | 0 <= i < |x| - 1
      ensures x[i + 1] == a.u * a.u * x[i]
    {
      LevelStep(a, k, i);
    }
  }

  /** Neighbouring prices of a level are `u^2` apart. */
  lemma LevelStep(a: Inputs, k: nat, i: nat)
    requires ValidInputs(a) && k <= a.steps && i < a.steps - k
    ensures Level(a, k)[i + 1] == a.u * a.u * Level(a, k)[i]
  {
    var c := a.spot * Pow(Down(a), a.steps - k);
    var w := Pow(a.u, 2 * i);
    var h := Pow(a.u, 2 * (i + 1));
    PowAdd(a.u, 2, 2 * i);
    assert 2 * (i + 1) == 2 + 2 * i;
    PowTwo(a.u);
    assert h == (a.u * a.u) * w;
    assert Level(a, k)[i + 1] == c * h;
    assert Level(a, k)[i] == c * w;
    ShiftArith(c, a.u * a.u, w);
  }

  lemma PowTwo(b: real)
    ensures Pow(b, 2) == b * b
  {
    assert Pow(b, 1) == b * Pow(b, 0);
  }

  lemma ShiftArith(c: real, f: real, w: real)
    ensures c * (f * w) == f * (c * w)
  {
  }

  /** The present value of a claim on the underlying is the spot price. */
  lemma UnderlyingIsSpot(a: Inputs)
    requires ValidInputs(a) && a.steps > 0 && a.u != 1.0
    ensures PresentValueOf(Underlying, a) == Ok(a.spot)
  {
    DegenerateIff(a);
    UnderlyingTracksPrices(a, a.steps);
    Apex(a);
  }
}
