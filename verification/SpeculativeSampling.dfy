/**
 Speculative sampling (research/speculative-decoding/0a-acceptance-rate.py at a positive temperature):
 when the accept-or-resample rule reproduces the target's distribution, and where the code's residual
 departs from it. Distributions are over a finite vocabulary, in real arithmetic.
 */
module SpeculativeSampling {

  type Token = nat
  type Dist = seq<real>

  function Sum(v: seq<real>): real {
    if v == [] then 0.0 else v[0] + Sum(v[1..])
  }

  /** Non-negative weights summing to one. */
  ghost predicate IsDist(p: Dist) {
    (forall i :: 0 <= i < |p| ==> p[i] >= 0.0) && Sum(p) == 1.0
  }

  function Min(a: real, b: real): real {
    if a <= b then a else b
  }

  /** The code's acceptance probability for drafted token `x`. */
  function AcceptRatio(p: Dist, q: Dist, x: Token): real
    requires x < |p| == |q|
  {
    if q[x] > 0.0 then Min(1.0, p[x] / q[x]) else 0.0
  }

  /** The probability that the draft proposes each token and it is rejected. */
  function Rejected(p: Dist, q: Dist): seq<real>
    requires |p| == |q|
  {
    seq(|p|, x requires 0 <= x < |p| => q[x] * (1.0 - AcceptRatio(p, q, x)))
  }

  /** max(0, p - q), token by token. */
  function Excess(p: Dist, q: Dist): seq<real>
    requires |p| == |q|
  {
    seq(|p|, x requires 0 <= x < |p| => if p[x] > q[x] then p[x] - q[x] else 0.0)
  }

  /** The normalised residual of the algorithm. */
  function Residual(p: Dist, q: Dist): Dist
    requires |p| == |q| && Sum(Excess(p, q)) > 0.0
  {
    seq(|p|, x requires 0 <= x < |p| => Excess(p, q)[x] / Sum(Excess(p, q)))
  }

  /** How often one position emits `x` when rejections are resampled from `resample`. */
  function Emits(p: Dist, q: Dist, resample: Dist, x: Token): real
    requires x < |p| == |q| == |resample|
  {
    q[x] * AcceptRatio(p, q, x) + Sum(Rejected(p, q)) * resample[x]
  }

  // ----- sums -----

  lemma {:induction false} SumOfDifference(a: seq<real>, b: seq<real>, c: seq<real>)
    requires |a| == |b| == |c| && forall i :: 0 <= i < |a| ==> c[i] == a[i] - b[i]
    ensures Sum(c) == Sum(a) - Sum(b)
  {
    if a != [] {
      SumOfDifference(a[1..], b[1..], c[1..]);
    }
  }

  lemma {:induction false} SumIsNonNegative(a: seq<real>)
    requires forall i :: 0 <= i < |a| ==> a[i] >= 0.0
    ensures Sum(a) >= 0.0
    ensures Sum(a) == 0.0 ==> forall i :: 0 <= i < |a| ==> a[i] == 0.0
  {
    if a != [] {
      SumIsNonNegative(a[1..]);
      forall i | 0 <= i < |a| && Sum(a) == 0.0 ensures a[i] == 0.0 {
        if i > 0 {
          assert a[i] == a[1..][i - 1];
        }
      }
    }
  }

  // ----- one position -----

  /** What is accepted is the part of the target the draft covers. */
  lemma AcceptedIsOverlap(p: Dist, q: Dist, x: Token)
    requires x < |p| == |q| && p[x] >= 0.0 && q[x] >= 0.0
    ensures q[x] * AcceptRatio(p, q, x) == Min(p[x], q[x])
  {
  }

  /** The total rejection mass is the total excess of the target over the draft. */
  lemma RejectionMass(p: Dist, q: Dist)
    requires IsDist(p) && IsDist(q) && |p| == |q|
    ensures Sum(Rejected(p, q)) == Sum(Excess(p, q)) >= 0.0
  {
    var overlap := seq(|p|, x requires 0 <= x < |p| => Min(p[x], q[x]));
    forall x | 0 <= x < |p| ensures Rejected(p, q)[x] == q[x] - overlap[x] && Excess(p, q)[x] == p[x] - overlap[x] {
      AcceptedIsOverlap(p, q, x);
    }
    SumOfDifference(q, overlap, Rejected(p, q));
    SumOfDifference(p, overlap, Excess(p, q));
    SumIsNonNegative(Excess(p, q));
  }

  lemma EmitsAt(p: Dist, q: Dist, resample: Dist, x: Token)
    requires x < |p| == |q| == |resample| && p[x] >= 0.0 && q[x] >= 0.0
    requires Sum(Rejected(p, q)) == Sum(Excess(p, q))
    ensures Emits(p, q, resample, x) == Min(p[x], q[x]) + Sum(Excess(p, q)) * resample[x]
    ensures Excess(p, q)[x] == p[x] - Min(p[x], q[x])
  {
    AcceptedIsOverlap(p, q, x);
  }

  lemma Divides(m: real, a: real, b: real)
    requires m > 0.0
    ensures m * a == b <==> a == b / m
  {
  }

  /**
   A position emits the target's distribution exactly when nothing is ever rejected or the resampling
   distribution is the residual.
   */
  lemma EmitsTargetIffResidual(p: Dist, q: Dist, resample: Dist)
    requires IsDist(p) && IsDist(q) && |p| == |q| == |resample|
    ensures (forall x :: 0 <= x < |p| ==> Emits(p, q, resample, x) == p[x])
            <==> (Sum(Excess(p, q)) > 0.0 ==> resample == Residual(p, q))
  {
    RejectionMass(p, q);
    SumIsNonNegative(Excess(p, q));
    forall x | 0 <= x < |p|
      ensures Emits(p, q, resample, x) == p[x] <==>
              (Sum(Excess(p, q)) > 0.0 ==> resample[x] == Residual(p, q)[x])
    {
      EmitsAtIff(p, q, resample, x);
    }
  }

  lemma EmitsAtIff(p: Dist, q: Dist, resample: Dist, x: Token)
    requires x < |p| == |q| == |resample| && p[x] >= 0.0 && q[x] >= 0.0
    requires Sum(Rejected(p, q)) == Sum(Excess(p, q)) >= 0.0
    requires Sum(Excess(p, q)) == 0.0 ==> Excess(p, q)[x] == 0.0
    ensures Emits(p, q, resample, x) == p[x] <==>
            (Sum(Excess(p, q)) > 0.0 ==> resample[x] == Residual(p, q)[x])
  {
    EmitsAt(p, q, resample, x);
    ShareIff(p, q, Sum(Excess(p, q)), resample[x], x, Emits(p, q, resample, x));
  }

  lemma ShareIff(p: Dist, q: Dist, mass: real, share: real, x: Token, emitted: real)
    requires x < |p| == |q| && mass == Sum(Excess(p, q)) >= 0.0 && (mass == 0.0 ==> Excess(p, q)[x] == 0.0)
    requires emitted == Min(p[x], q[x]) + mass * share
    requires Excess(p, q)[x] == p[x] - Min(p[x], q[x])
    ensures emitted == p[x] <==> (mass > 0.0 ==> share == Residual(p, q)[x])
  {
    MassShare(emitted, Min(p[x], q[x]), p[x], mass, share);
  }

  /** Emitting `least + mass * share` is emitting `all` exactly when the share is the right one, or there is no mass. */
  lemma MassShare(emitted: real, least: real, all: real, mass: real, share: real)
    requires emitted == least + mass * share && mass >= 0.0 && (mass == 0.0 ==> all == least)
    ensures emitted == all <==> (mass > 0.0 ==> share == (all - least) / mass)
  {
    if mass > 0.0 {
      Divides(mass, share, all - least);
    }
  }

  // ----- the code's residual -----

  /**
   What the code resamples from after a rejection: the excess over `late`, the draft's distribution at
   the last drafted position, normalised, with `smoothing` added to every token before the draw.
   */
  function CodeResidual(p: Dist, late: Dist, smoothing: real): Dist
    requires |p| == |late| && Sum(Excess(p, late)) > 0.0 && smoothing >= 0.0
  {
    var n := |p| as real;
    seq(|p|, x requires 0 <= x < |p| => (Residual(p, late)[x] + smoothing) / (1.0 + n * smoothing))
  }

  /** A residual always leaves out some token: the target cannot exceed the draft everywhere. */
  lemma ResidualMissesSome(p: Dist, q: Dist)
    requires IsDist(p) && IsDist(q) && |p| == |q| && Sum(Excess(p, q)) > 0.0
    ensures exists x :: 0 <= x < |p| && Residual(p, q)[x] == 0.0
  {
    if forall x :: 0 <= x < |p| ==> p[x] > q[x] {
      var gap := Excess(p, q);
      SumOfDifference(p, q, gap);
    } else {
      var x :| 0 <= x < |p| && p[x] <= q[x];
      assert Residual(p, q)[x] == 0.0;
    }
  }

  /**
   Rejected at the last drafted position, the code's residual is the algorithm's exactly when nothing
   is added before the draw: with 1e-10 added it never is.
   */
  lemma LastPositionIsExactIffUnsmoothed(p: Dist, q: Dist, smoothing: real)
    requires IsDist(p) && IsDist(q) && |p| == |q| && Sum(Excess(p, q)) > 0.0 && smoothing >= 0.0
    ensures (forall x :: 0 <= x < |p| ==> Emits(p, q, CodeResidual(p, q, smoothing), x) == p[x]) <==> smoothing == 0.0
  {
    EmitsTargetIffResidual(p, q, CodeResidual(p, q, smoothing));
    var r, code := Residual(p, q), CodeResidual(p, q, smoothing);
    if smoothing == 0.0 {
      assert forall x :: 0 <= x < |p| ==> code[x] == r[x];
      assert code == r;
    } else {
      ResidualMissesSome(p, q);
      var x :| 0 <= x < |p| && r[x] == 0.0;
      PositiveQuotient(smoothing, 1.0 + |p| as real * smoothing);
      assert code[x] != r[x];
    }
  }

  lemma PositiveQuotient(a: real, b: real)
    requires a > 0.0 && b > 0.0
    ensures a / b > 0.0
  {
  }

  /** The code's draw: where the residual's sum is zero it divides zero by zero, and no token is drawn. */
  function CodeDraw(p: Dist, late: Dist, smoothing: real): (draw: seq<real>)
    requires |p| == |late| && smoothing >= 0.0
    ensures |draw| == |p|
  {
    if Sum(Excess(p, late)) > 0.0 then CodeResidual(p, late, smoothing) else seq(|p|, x requires 0 <= x < |p| => 0.0)
  }

  /** And that is exactly when the draft's last distribution is the target's at the rejected position. */
  lemma DrawIsUndefinedIff(p: Dist, late: Dist)
    requires IsDist(p) && IsDist(late) && |p| == |late|
    ensures Sum(Excess(p, late)) > 0.0 <==> late != p
  {
    SumIsNonNegative(Excess(p, late));
    if late == p {
      AllZero(Excess(p, late));
    } else if forall x :: 0 <= x < |p| ==> Excess(p, late)[x] == 0.0 {
      CoveredIsEqual(p, late);
    }
  }

  lemma CoveredIsEqual(p: Dist, q: Dist)
    requires IsDist(p) && IsDist(q) && |p| == |q| && forall x :: 0 <= x < |p| ==> Excess(p, q)[x] == 0.0
    ensures p == q
  {
    var gap := seq(|p|, x requires 0 <= x < |p| => q[x] - p[x]);
    forall x | 0 <= x < |p| ensures gap[x] >= 0.0 {
      assert Excess(p, q)[x] == 0.0;
    }
    SumOfDifference(q, p, gap);
    SumIsNonNegative(gap);
    assert forall x :: 0 <= x < |p| ==> gap[x] == 0.0 && q[x] == p[x];
  }

  lemma {:induction false} AllZero(a: seq<real>)
    requires forall i :: 0 <= i < |a| ==> a[i] == 0.0
    ensures Sum(a) == 0.0
  {
    if a != [] {
      AllZero(a[1..]);
    }
  }

  /** A later draft can spoil the draw: with two tokens, a fair target and opposite drafts, the emitted text is certain. */
  lemma LateResidualChangesTheText()
    ensures var p, q, late := [0.5, 0.5], [1.0, 0.0], [0.0, 1.0];
            && IsDist(p) && IsDist(q) && IsDist(late)
            && Sum(Excess(p, late)) > 0.0
            && Emits(p, q, CodeResidual(p, late, 0.0), 0) == 1.0
  {
    var p, q, late := [0.5, 0.5], [1.0, 0.0], [0.0, 1.0];
    SumOfTwo(p);
    SumOfTwo(q);
    SumOfTwo(late);
    var excess := Excess(p, late);
    SumOfTwo(excess);
    assert excess[0] == 0.5 && excess[1] == 0.0;
    assert Residual(p, late)[0] == excess[0] / Sum(excess);
    Divides(Sum(excess), 1.0, excess[0]);
    assert CodeResidual(p, late, 0.0)[0] == 1.0;
    AcceptedIsOverlap(p, q, 0);
    RejectionMass(p, q);
    SumOfTwo(Excess(p, q));
  }

  lemma SumOfTwo(v: seq<real>)
    requires |v| == 2
    ensures Sum(v) == v[0] + v[1]
  {
    assert Sum(v[1..]) == v[1] + Sum(v[1..][1..]);
    assert v[1..][1..] == [];
  }

  // ----- the code at any position -----

  /** A model gives one weight per token of the vocabulary after every text. */
  type Model = seq<Token> -> Dist

  ghost predicate Sized(m: Model, n: nat) {
    forall ctx :: |m(ctx)| == n
  }

  ghost predicate IsModel(m: Model, n: nat) {
    Sized(m, n) && forall ctx :: IsDist(m(ctx))
  }

  /** An average of `values`, weighted. */
  function Average(weights: seq<real>, values: seq<real>): real
    requires |weights| == |values|
  {
    if weights == [] then 0.0 else weights[0] * values[0] + Average(weights[1..], values[1..])
  }

  /**
   How often the code draws `x`, `further` drafted tokens before the last drafted position: the residual it
   takes is that of the draft's distribution after them.
   */
  ghost function Late(p: Dist, draft: Model, n: nat, at: seq<Token>, further: nat, smoothing: real, x: Token): real
    requires |p| == n && Sized(draft, n) && x < n && smoothing >= 0.0
    decreases further, 1
  {
    if further == 0 then CodeDraw(p, draft(at), smoothing)[x]
    else Average(draft(at), Lates(p, draft, n, at, further, smoothing, x))
  }

  /** The same, for each token drafted next. */
  ghost function Lates(p: Dist, draft: Model, n: nat, at: seq<Token>, further: nat, smoothing: real, x: Token): (draws: seq<real>)
    requires |p| == n && Sized(draft, n) && x < n && smoothing >= 0.0 && further > 0
    ensures |draws| == n
    decreases further, 0
  {
    seq(n, z requires 0 <= z < n => Late(p, draft, n, at + [z], further - 1, smoothing, x))
  }

  /** How often the code draws `x` when `y`, drafted after `c` with `left` tokens left to verify, is rejected. */
  ghost function AfterRejection(p: Dist, draft: Model, n: nat, c: seq<Token>, y: Token, left: nat, smoothing: real, x: Token): real
    requires |p| == n && Sized(draft, n) && x < n && smoothing >= 0.0
  {
    if left <= 1 then CodeDraw(p, draft(c), smoothing)[x]
    else Late(p, draft, n, c + [y], left - 2, smoothing, x)
  }

  /** What the code draws once each drafted token is rejected. */
  ghost function AfterRejections(p: Dist, draft: Model, n: nat, c: seq<Token>, left: nat, smoothing: real, x: Token): (draws: seq<real>)
    requires |p| == n && Sized(draft, n) && x < n && smoothing >= 0.0
    ensures |draws| == n
  {
    seq(n, y requires 0 <= y < n => AfterRejection(p, draft, n, c, y, left, smoothing, x))
  }

  /** How often a drafted token is rejected and the code draws `x` in its place. */
  ghost function CodeReplaced(p: Dist, draft: Model, n: nat, c: seq<Token>, left: nat, smoothing: real, x: Token): real
    requires |p| == n && Sized(draft, n) && x < n && smoothing >= 0.0
  {
    Average(Rejected(p, draft(c)), AfterRejections(p, draft, n, c, left, smoothing, x))
  }

  /** At this position the code emits the target's distribution. */
  ghost predicate PositionIsExact(p: Dist, draft: Model, n: nat, c: seq<Token>, left: nat, smoothing: real)
    requires |p| == n && Sized(draft, n) && smoothing >= 0.0
  {
    forall x :: 0 <= x < n ==> Kept(p, draft(c), x) + CodeReplaced(p, draft, n, c, left, smoothing, x) == p[x]
  }

  /** `x` is drafted and accepted. */
  function Kept(p: Dist, q: Dist, x: Token): real
    requires x < |p| == |q|
  {
    q[x] * AcceptRatio(p, q, x)
  }

  lemma KeptAt(p: Dist, q: Dist, x: Token)
    requires x < |p| == |q| && p[x] >= 0.0 && q[x] >= 0.0
    ensures Kept(p, q, x) == Min(p[x], q[x]) && Excess(p, q)[x] == p[x] - Kept(p, q, x) && Kept(p, q, x) >= 0.0
    ensures Rejected(p, q)[x] == q[x] - Kept(p, q, x) >= 0.0
  {
    AcceptedIsOverlap(p, q, x);
  }

  lemma {:induction false} NothingToAverage(weights: seq<real>, values: seq<real>)
    requires |weights| == |values| && forall i :: 0 <= i < |weights| ==> weights[i] == 0.0
    ensures Average(weights, values) == 0.0
  {
    if weights != [] {
      NothingToAverage(weights[1..], values[1..]);
    }
  }

  lemma {:induction false} ShareOfSum(a: seq<real>, x: Token)
    requires x < |a| && forall i :: 0 <= i < |a| ==> a[i] >= 0.0
    ensures 0.0 <= a[x] <= Sum(a)
  {
    SumIsNonNegative(a[1..]);
    if x > 0 {
      ShareOfSum(a[1..], x - 1);
    }
  }

  lemma NonNegativeFactor(g: real, d: real)
    requires d > 0.0 && g * d >= 0.0
    ensures g >= 0.0
  {
  }

  lemma Quotient(a: real, b: real)
    requires 0.0 <= a <= b && b > 0.0
    ensures 0.0 <= a / b <= 1.0
  {
    var r := a / b;
    assert r * b == a && (1.0 - r) * b == b - a;
    NonNegativeFactor(r, b);
    NonNegativeFactor(1.0 - r, b);
  }

  lemma ResidualAt(p: Dist, late: Dist, x: Token)
    requires x < |p| == |late| && Sum(Excess(p, late)) > 0.0
    ensures 0.0 <= Residual(p, late)[x] <= 1.0
  {
    ShareOfSum(Excess(p, late), x);
    Quotient(Excess(p, late)[x], Sum(Excess(p, late)));
  }

  lemma DrawAt(p: Dist, late: Dist, smoothing: real, x: Token)
    requires x < |p| == |late| && smoothing >= 0.0
    ensures 1.0 + |p| as real * smoothing >= 1.0
    ensures CodeDraw(p, late, smoothing)[x] ==
            if Sum(Excess(p, late)) > 0.0 then (Residual(p, late)[x] + smoothing) / (1.0 + |p| as real * smoothing) else 0.0
  {
  }

  /** Smoothed, no token is ever much rarer in the code's draw than another. */
  lemma DrawIsSpread(p: Dist, late: Dist, smoothing: real, x: Token, y: Token)
    requires IsDist(p) && x < |p| == |late| && y < |p| && smoothing >= 0.0
    ensures Follows(CodeDraw(p, late, smoothing)[x], CodeDraw(p, late, smoothing)[y], smoothing)
  {
    var draw := CodeDraw(p, late, smoothing);
    DrawAt(p, late, smoothing, x);
    DrawAt(p, late, smoothing, y);
    if Sum(Excess(p, late)) > 0.0 {
      ResidualAt(p, late, x);
      ResidualAt(p, late, y);
      Spread(draw[x], draw[y], Residual(p, late)[x], Residual(p, late)[y], smoothing, 1.0 + |p| as real * smoothing);
    }
  }

  lemma Spread(u: real, v: real, r: real, t: real, s: real, d: real)
    requires 0.0 <= r && t <= 1.0 && s >= 0.0 && d > 0.0 && u == (r + s) / d && v == (t + s) / d
    ensures Follows(u, v, s)
  {
    assert u * d == r + s && v * d == t + s;
    assert (1.0 + s) * r >= 0.0 && s * (1.0 - t) >= 0.0;
    assert (1.0 + s) * (r + s) - s * (t + s) == (1.0 + s) * r + s * (1.0 - t);
    var gap := (1.0 + s) * u - s * v;
    assert gap * d == (1.0 + s) * (u * d) - s * (v * d);
    NonNegativeFactor(gap, d);
  }

  /** With `s` added before the draw, a token drawn as often as `a` is not much rarer than one drawn as often as `b`. */
  predicate Follows(a: real, b: real, s: real) {
    (1.0 + s) * a >= s * b
  }

  ghost predicate AllFollow(a: seq<real>, b: seq<real>, s: real) {
    |a| == |b| && forall i :: 0 <= i < |a| ==> Follows(a[i], b[i], s)
  }

  lemma {:induction false} AverageFollows(weights: seq<real>, a: seq<real>, b: seq<real>, s: real)
    requires |weights| == |a| && AllFollow(a, b, s) && forall i :: 0 <= i < |weights| ==> weights[i] >= 0.0
    ensures Follows(Average(weights, a), Average(weights, b), s)
  {
    if weights != [] {
      AverageFollows(weights[1..], a[1..], b[1..], s);
      OneMoreFollows(weights[0], a[0], b[0], Average(weights[1..], a[1..]), Average(weights[1..], b[1..]), s);
    }
  }

  lemma OneMoreFollows(w: real, a: real, b: real, restA: real, restB: real, s: real)
    requires w >= 0.0 && Follows(a, b, s) && Follows(restA, restB, s)
    ensures Follows(w * a + restA, w * b + restB, s)
  {
    ScaledInOrder(w, (1.0 + s) * a, s * b);
    Regroup(1.0 + s, w, a, restA);
    Regroup(s, w, b, restB);
  }

  lemma ScaledInOrder(w: real, a: real, b: real)
    requires w >= 0.0 && a >= b
    ensures w * a >= w * b
  {
    assert w * (a - b) >= 0.0;
  }

  lemma Regroup(m: real, w: real, a: real, rest: real)
    ensures m * (w * a + rest) == w * (m * a) + m * rest
  {
  }

  lemma {:induction false} LateIsSpread(p: Dist, draft: Model, n: nat, at: seq<Token>, further: nat, smoothing: real, x: Token, y: Token)
    requires IsDist(p) && |p| == n && IsModel(draft, n) && x < n && y < n && smoothing >= 0.0
    ensures Follows(Late(p, draft, n, at, further, smoothing, x), Late(p, draft, n, at, further, smoothing, y), smoothing)
    decreases further
  {
    if further == 0 {
      DrawIsSpread(p, draft(at), smoothing, x, y);
    } else {
      var a := Lates(p, draft, n, at, further, smoothing, x);
      var b := Lates(p, draft, n, at, further, smoothing, y);
      forall z | 0 <= z < n ensures Follows(a[z], b[z], smoothing) {
        LateIsSpread(p, draft, n, at + [z], further - 1, smoothing, x, y);
      }
      assert IsDist(draft(at));
      AverageFollows(draft(at), a, b, smoothing);
    }
  }

  lemma AfterRejectionIsSpread(p: Dist, draft: Model, n: nat, c: seq<Token>, z: Token, left: nat, smoothing: real, x: Token, y: Token)
    requires IsDist(p) && |p| == n && IsModel(draft, n) && x < n && y < n && smoothing >= 0.0
    ensures Follows(AfterRejection(p, draft, n, c, z, left, smoothing, x), AfterRejection(p, draft, n, c, z, left, smoothing, y), smoothing)
  {
    if left <= 1 {
      DrawIsSpread(p, draft(c), smoothing, x, y);
    } else {
      LateIsSpread(p, draft, n, c + [z], left - 2, smoothing, x, y);
    }
  }

  lemma RejectionsAreCounted(p: Dist, q: Dist)
    requires IsDist(p) && IsDist(q) && |p| == |q|
    ensures forall z :: 0 <= z < |p| ==> Rejected(p, q)[z] >= 0.0
  {
    forall z | 0 <= z < |p| ensures Rejected(p, q)[z] >= 0.0 {
      KeptAt(p, q, z);
    }
  }

  lemma ReplacedIsSpread(p: Dist, draft: Model, n: nat, c: seq<Token>, left: nat, smoothing: real, x: Token, y: Token)
    requires IsDist(p) && |p| == n && IsModel(draft, n) && x < n && y < n && smoothing >= 0.0
    ensures Follows(CodeReplaced(p, draft, n, c, left, smoothing, x), CodeReplaced(p, draft, n, c, left, smoothing, y), smoothing)
  {
    assert IsDist(draft(c));
    var a, b := AfterRejections(p, draft, n, c, left, smoothing, x), AfterRejections(p, draft, n, c, left, smoothing, y);
    forall z | 0 <= z < n ensures Follows(a[z], b[z], smoothing) {
      AfterRejectionIsSpread(p, draft, n, c, z, left, smoothing, x, y);
    }
    RejectionsAreCounted(p, draft(c));
    AverageFollows(Rejected(p, draft(c)), a, b, smoothing);
  }

  /** Where draft and target agree nothing is rejected, and nothing drawn in its place. */
  lemma AgreeingDraftRejectsNothing(p: Dist, draft: Model, n: nat, c: seq<Token>, left: nat, smoothing: real, x: Token)
    requires IsDist(p) && |p| == n && Sized(draft, n) && draft(c) == p && x < n && smoothing >= 0.0
    ensures Kept(p, draft(c), x) == p[x] && CodeReplaced(p, draft, n, c, left, smoothing, x) == 0.0
  {
    forall z | 0 <= z < n ensures Rejected(p, p)[z] == 0.0 {
      KeptAt(p, p, z);
    }
    KeptAt(p, p, x);
    NothingToAverage(Rejected(p, p), AfterRejections(p, draft, n, c, left, smoothing, x));
  }

  /**
   The residual averaged over what the draft goes on to write is what counts: a position is exact exactly
   when nothing is rejected there, or that average is the residual of the algorithm.
   */
  lemma PositionIsExactIffAverageIsResidual(p: Dist, draft: Model, n: nat, c: seq<Token>, left: nat, smoothing: real)
    requires IsDist(p) && |p| == n && IsModel(draft, n) && smoothing >= 0.0
    ensures PositionIsExact(p, draft, n, c, left, smoothing) <==>
            var mass := Sum(Excess(p, draft(c)));
            mass > 0.0 ==> forall x :: 0 <= x < n ==>
                CodeReplaced(p, draft, n, c, left, smoothing, x) / mass == Residual(p, draft(c))[x]
  {
    var q := draft(c);
    assert IsDist(q);
    var mass := Sum(Excess(p, q));
    RejectionMass(p, q);
    if mass > 0.0 {
      forall x | 0 <= x < n
        ensures Kept(p, q, x) + CodeReplaced(p, draft, n, c, left, smoothing, x) == p[x] <==>
                CodeReplaced(p, draft, n, c, left, smoothing, x) / mass == Residual(p, q)[x]
      {
        KeptAt(p, q, x);
        SameQuotient(CodeReplaced(p, draft, n, c, left, smoothing, x), Excess(p, q)[x], mass);
      }
    } else {
      DrawIsUndefinedIff(p, q);
      forall x | 0 <= x < n ensures Kept(p, q, x) + CodeReplaced(p, draft, n, c, left, smoothing, x) == p[x] {
        AgreeingDraftRejectsNothing(p, draft, n, c, left, smoothing, x);
      }
    }
  }

  lemma SameQuotient(a: real, b: real, m: real)
    requires m > 0.0
    ensures a == b <==> a / m == b / m
  {
    assert (a / m) * m == a && (b / m) * m == b;
  }

  /** With anything added before the draw, a position of the code is exact exactly when draft and target agree there. */
  lemma SmoothedPositionIsExactIffDraftAgrees(p: Dist, draft: Model, n: nat, c: seq<Token>, left: nat, smoothing: real)
    requires IsDist(p) && |p| == n && IsModel(draft, n) && smoothing > 0.0
    ensures PositionIsExact(p, draft, n, c, left, smoothing) <==> draft(c) == p
  {
    var q := draft(c);
    assert IsDist(q);
    if q == p {
      forall x | 0 <= x < n ensures Kept(p, q, x) + CodeReplaced(p, draft, n, c, left, smoothing, x) == p[x] {
        AgreeingDraftRejectsNothing(p, draft, n, c, left, smoothing, x);
      }
    } else {
      DrawIsUndefinedIff(p, q);
      var x, y := SomeMissedSomeNot(p, q);
      KeptAt(p, q, x);
      KeptAt(p, q, y);
      ReplacedIsSpread(p, draft, n, c, left, smoothing, x, y);
      PositiveProduct(smoothing, Excess(p, q)[y]);
    }
  }

  lemma SomeMissedSomeNot(p: Dist, q: Dist) returns (x: Token, y: Token)
    requires IsDist(p) && IsDist(q) && |p| == |q| && Sum(Excess(p, q)) > 0.0
    ensures x < |p| && y < |p| && Excess(p, q)[x] == 0.0 && Excess(p, q)[y] > 0.0
  {
    ResidualMissesSome(p, q);
    x :| x < |p| && Residual(p, q)[x] == 0.0;
    assert Residual(p, q)[x] * Sum(Excess(p, q)) == Excess(p, q)[x];
    if forall i :: 0 <= i < |p| ==> Excess(p, q)[i] == 0.0 {
      AllZero(Excess(p, q));
    }
    y :| y < |p| && Excess(p, q)[y] != 0.0;
  }

  /** A draft sure, after a first `2`, of token 1, and after anything else of token 0; its first token is 2 or 3. */
  function Crossed(): Model {
    ctx => if ctx == [] then [0.0, 0.0, 0.5, 0.5] else if ctx == [2] then [0.0, 1.0, 0.0, 0.0] else [1.0, 0.0, 0.0, 0.0]
  }

  lemma FairDists()
    ensures IsDist([0.5, 0.5, 0.0, 0.0]) && IsDist([0.0, 0.0, 0.5, 0.5])
  {
    SumOfFour([0.5, 0.5, 0.0, 0.0]);
    SumOfFour([0.0, 0.0, 0.5, 0.5]);
  }

  lemma SureDists()
    ensures IsDist([0.0, 1.0, 0.0, 0.0]) && IsDist([1.0, 0.0, 0.0, 0.0])
  {
    SumOfFour([0.0, 1.0, 0.0, 0.0]);
    SumOfFour([1.0, 0.0, 0.0, 0.0]);
  }

  lemma CrossedIsModel()
    ensures IsModel(Crossed(), 4) && IsDist([0.5, 0.5, 0.0, 0.0])
  {
    FairDists();
    SureDists();
  }

  lemma CrossedDraws(p: Dist)
    requires p == [0.5, 0.5, 0.0, 0.0]
    ensures Sized(Crossed(), 4)
    ensures CodeDraw(p, Crossed()([2]), 0.0) == [1.0, 0.0, 0.0, 0.0]
    ensures CodeDraw(p, Crossed()([3]), 0.0) == [0.0, 1.0, 0.0, 0.0]
  {
    DrawOf(p, [0.0, 1.0, 0.0, 0.0], [0.5, 0.0, 0.0, 0.0], [1.0, 0.0, 0.0, 0.0]);
    DrawOf(p, [1.0, 0.0, 0.0, 0.0], [0.0, 0.5, 0.0, 0.0], [0.0, 1.0, 0.0, 0.0]);
  }

  lemma CrossedReplaces(p: Dist, x: Token)
    requires p == [0.5, 0.5, 0.0, 0.0] && x < 4 && Sized(Crossed(), 4)
    ensures CodeReplaced(p, Crossed(), 4, [], 2, 0.0, x) ==
            0.5 * CodeDraw(p, Crossed()([2]), 0.0)[x] + 0.5 * CodeDraw(p, Crossed()([3]), 0.0)[x]
  {
    var q, values := Crossed()([]), AfterRejections(p, Crossed(), 4, [], 2, 0.0, x);
    assert q == [0.0, 0.0, 0.5, 0.5] && Rejected(p, q) == q;
    assert [] + [2] == [2] && [] + [3] == [3];
    AverageOfFour(q, values);
  }

  /** Unsmoothed, two wrong residuals can average to the right one. */
  lemma TwoWrongResidualsCanAverageRight()
    ensures var p, draft := [0.5, 0.5, 0.0, 0.0], Crossed();
            && IsDist(p) && IsModel(draft, 4)
            && CodeDraw(p, draft([2]), 0.0) == [1.0, 0.0, 0.0, 0.0]
            && CodeDraw(p, draft([3]), 0.0) == [0.0, 1.0, 0.0, 0.0]
            && PositionIsExact(p, draft, 4, [], 2, 0.0)
  {
    var p, draft := [0.5, 0.5, 0.0, 0.0], Crossed();
    CrossedIsModel();
    CrossedDraws(p);
    forall x | 0 <= x < 4 ensures Kept(p, draft([]), x) + CodeReplaced(p, draft, 4, [], 2, 0.0, x) == p[x] {
      CrossedReplaces(p, x);
    }
  }

  lemma SumOfFour(v: seq<real>)
    requires |v| == 4
    ensures Sum(v) == v[0] + v[1] + v[2] + v[3]
  {
    SumOfTwo(v[2..]);
    assert v[1..][1..] == v[2..];
  }

  lemma AverageOfFour(w: seq<real>, v: seq<real>)
    requires |w| == |v| == 4
    ensures Average(w, v) == w[0] * v[0] + w[1] * v[1] + w[2] * v[2] + w[3] * v[3]
  {
    assert w[1..][1..] == w[2..] && v[1..][1..] == v[2..];
    assert w[2..][1..] == w[3..] && v[2..][1..] == v[3..];
    assert w[3..][1..] == [] && v[3..][1..] == [];
    assert Average(w[3..], v[3..]) == w[3] * v[3];
    assert Average(w[2..], v[2..]) == w[2] * v[2] + w[3] * v[3];
  }

  /** The code's unsmoothed draw where the excess is one half, all of it on one token. */
  lemma DrawOf(p: Dist, late: Dist, excess: seq<real>, draw: seq<real>)
    requires |p| == |late| == |excess| == |draw| == 4 && Excess(p, late) == excess
    requires excess[0] + excess[1] + excess[2] + excess[3] == 0.5
    requires forall x :: 0 <= x < 4 ==> draw[x] == 2.0 * excess[x]
    ensures CodeDraw(p, late, 0.0) == draw
  {
    SumOfFour(excess);
    forall x | 0 <= x < 4 ensures CodeDraw(p, late, 0.0)[x] == draw[x] {
      DrawAt(p, late, 0.0, x);
      Divides(0.5, draw[x], excess[x]);
    }
  }

  // ----- whole texts -----

  /** What a rejection is resampled from: the residual (any distribution will do when it never happens). */
  ghost function Resample(p: Dist, q: Dist): Dist
    requires |p| == |q|
  {
    if Sum(Excess(p, q)) > 0.0 then Residual(p, q) else p
  }

  /** A drafted token is rejected and replaced by `x`. */
  ghost function Replaced(p: Dist, q: Dist, x: Token): real
    requires x < |p| == |q|
  {
    Sum(Rejected(p, q)) * Resample(p, q)[x]
  }

  lemma EmitsTarget(p: Dist, q: Dist, x: Token)
    requires IsDist(p) && IsDist(q) && x < |p| == |q|
    ensures Kept(p, q, x) + Replaced(p, q, x) == p[x]
  {
    RejectionMass(p, q);
    SumIsNonNegative(Excess(p, q));
    EmitsAtIff(p, q, Resample(p, q), x);
  }

  ghost predicate InVocabulary(text: seq<Token>, n: nat) {
    forall i :: 0 <= i < |text| ==> text[i] < n
  }

  /** How likely the target alone is to continue `ctx` with `text`. */
  ghost function PlainChance(target: Model, n: nat, ctx: seq<Token>, text: seq<Token>): real
    requires Sized(target, n) && InVocabulary(text, n)
    decreases |text|
  {
    if text == [] then 1.0
    else target(ctx)[text[0]] * PlainChance(target, n, ctx + [text[0]], text[1..])
  }

  /**
   What happens at a drafted position: how often each token is kept, and, with so many left to verify, how
   often it is drawn instead.
   */
  datatype Verifier = Verifier(kept: Model, replacement: (seq<Token>, nat) -> Dist)

  ghost predicate SizedVerifier(v: Verifier, n: nat) {
    && Sized(v.kept, n) && (forall c, left :: |v.replacement(c, left)| == n)
    && forall c, x :: 0 <= x < n ==> v.kept(c)[x] >= 0.0
  }

  /**
   How likely speculative decoding is to continue `ctx` with `text`: `left` drafted tokens of this round
   are still to be verified, `rounds` rounds of `k` are left, and the target goes on alone after them.
   A round that keeps all its drafts draws one more token from `bonus`.
   */
  ghost function SpeculativeChance(target: Model, v: Verifier, bonus: Model, n: nat, k: nat,
                                   ctx: seq<Token>, left: nat, rounds: nat, text: seq<Token>): real
    requires Sized(target, n) && SizedVerifier(v, n) && Sized(bonus, n) && InVocabulary(text, n)
    decreases |text|
  {
    if text == [] then 1.0
    else if rounds == 0 then PlainChance(target, n, ctx, text)
    else
      var x, next, rest := text[0], ctx + [text[0]], text[1..];
      var after := SpeculativeChance(target, v, bonus, n, k, next, k, rounds - 1, rest);
      if left == 0 then bonus(ctx)[x] * after
      else
        v.kept(ctx)[x] * SpeculativeChance(target, v, bonus, n, k, next, left - 1, rounds, rest)
        + v.replacement(ctx, left)[x] * after
  }

  /** At every position a drafted token and its replacement together follow the target. */
  ghost predicate PositionsExact(target: Model, v: Verifier, n: nat)
    requires Sized(target, n) && SizedVerifier(v, n)
  {
    forall c, left: nat, x :: left > 0 && 0 <= x < n ==> v.kept(c)[x] + v.replacement(c, left)[x] == target(c)[x]
  }

  /** How likely drafts `d` are all kept after `c`. */
  ghost function KeptChance(v: Verifier, n: nat, c: seq<Token>, d: seq<Token>): (chance: real)
    requires SizedVerifier(v, n) && InVocabulary(d, n)
    decreases |d|
  {
    if d == [] then 1.0 else v.kept(c)[d[0]] * KeptChance(v, n, c + [d[0]], d[1..])
  }

  /** Wherever `left` more drafts can all be kept after `c`, the bonus is drawn from the target's distribution. */
  ghost predicate BonusIsRight(target: Model, v: Verifier, bonus: Model, n: nat, c: seq<Token>, left: nat)
    requires SizedVerifier(v, n)
  {
    forall d :: |d| == left && InVocabulary(d, n) && KeptChance(v, n, c, d) > 0.0 ==> bonus(c + d) == target(c + d)
  }

  /** It is at the end of every full round, wherever the round starts. */
  ghost predicate BonusIsAlwaysRight(target: Model, v: Verifier, bonus: Model, n: nat, k: nat)
    requires SizedVerifier(v, n)
  {
    forall c :: BonusIsRight(target, v, bonus, n, c, k)
  }

  lemma BonusAfterKept(target: Model, v: Verifier, bonus: Model, n: nat, c: seq<Token>, left: nat, x: Token)
    requires SizedVerifier(v, n) && left > 0 && x < n && v.kept(c)[x] > 0.0 && BonusIsRight(target, v, bonus, n, c, left)
    ensures BonusIsRight(target, v, bonus, n, c + [x], left - 1)
  {
    forall d | |d| == left - 1 && InVocabulary(d, n) && KeptChance(v, n, c + [x], d) > 0.0
      ensures bonus(c + [x] + d) == target(c + [x] + d)
    {
      var all := [x] + d;
      assert all[1..] == d && c + all == c + [x] + d;
      PositiveProduct(v.kept(c)[x], KeptChance(v, n, c + [x], d));
      assert KeptChance(v, n, c, all) > 0.0;
    }
  }

  lemma PositiveProduct(a: real, b: real)
    requires a > 0.0 && b > 0.0
    ensures a * b > 0.0
  {
  }

  lemma BonusNow(target: Model, v: Verifier, bonus: Model, n: nat, c: seq<Token>)
    requires SizedVerifier(v, n) && BonusIsRight(target, v, bonus, n, c, 0)
    ensures bonus(c) == target(c)
  {
    var none: seq<Token> := [];
    assert KeptChance(v, n, c, none) > 0.0 && c + none == c;
  }

  lemma Factors(a: real, b: real, p: real, c: real)
    requires a + b == p
    ensures a * c + b * c == p * c
  {
  }

  lemma {:induction false} TextsExact(target: Model, v: Verifier, bonus: Model, n: nat, k: nat,
                                      ctx: seq<Token>, left: nat, rounds: nat, text: seq<Token>)
    requires Sized(target, n) && SizedVerifier(v, n) && Sized(bonus, n) && InVocabulary(text, n)
    requires k + left > 0 ==> PositionsExact(target, v, n)
    requires BonusIsAlwaysRight(target, v, bonus, n, k) && BonusIsRight(target, v, bonus, n, ctx, left)
    ensures SpeculativeChance(target, v, bonus, n, k, ctx, left, rounds, text) == PlainChance(target, n, ctx, text)
    decreases |text|
  {
    if text == [] || rounds == 0 {
      NoRoundsLeft(target, v, bonus, n, k, ctx, left, rounds, text);
    } else {
      var next, rest := ctx + [text[0]], text[1..];
      RightNext(target, v, bonus, n, k, next);
      TextsExact(target, v, bonus, n, k, next, k, rounds - 1, rest);
      if left == 0 {
        BonusStep(target, v, bonus, n, k, ctx, rounds, text);
      } else {
        if v.kept(ctx)[text[0]] > 0.0 {
          BonusAfterKept(target, v, bonus, n, ctx, left, text[0]);
          TextsExact(target, v, bonus, n, k, next, left - 1, rounds, rest);
        }
        PositionExact(target, v, n, ctx, left, text[0]);
        DraftedStep(target, v, bonus, n, k, ctx, left, rounds, text);
      }
    }
  }

  lemma NoRoundsLeft(target: Model, v: Verifier, bonus: Model, n: nat, k: nat,
                     ctx: seq<Token>, left: nat, rounds: nat, text: seq<Token>)
    requires Sized(target, n) && SizedVerifier(v, n) && Sized(bonus, n) && InVocabulary(text, n) && (text == [] || rounds == 0)
    ensures SpeculativeChance(target, v, bonus, n, k, ctx, left, rounds, text) == PlainChance(target, n, ctx, text)
  {
  }

  lemma RightNext(target: Model, v: Verifier, bonus: Model, n: nat, k: nat, next: seq<Token>)
    requires SizedVerifier(v, n) && BonusIsAlwaysRight(target, v, bonus, n, k)
    ensures BonusIsRight(target, v, bonus, n, next, k)
  {
  }

  lemma BonusStep(target: Model, v: Verifier, bonus: Model, n: nat, k: nat, ctx: seq<Token>, rounds: nat, text: seq<Token>)
    requires Sized(target, n) && SizedVerifier(v, n) && Sized(bonus, n) && InVocabulary(text, n) && text != [] && rounds > 0
    requires BonusIsRight(target, v, bonus, n, ctx, 0)
    requires var next, rest := ctx + [text[0]], text[1..];
             SpeculativeChance(target, v, bonus, n, k, next, k, rounds - 1, rest) == PlainChance(target, n, next, rest)
    ensures SpeculativeChance(target, v, bonus, n, k, ctx, 0, rounds, text) == PlainChance(target, n, ctx, text)
  {
    BonusNow(target, v, bonus, n, ctx);
  }

  lemma PositionExact(target: Model, v: Verifier, n: nat, c: seq<Token>, left: nat, x: Token)
    requires Sized(target, n) && SizedVerifier(v, n) && PositionsExact(target, v, n) && left > 0 && x < n
    ensures v.kept(c)[x] + v.replacement(c, left)[x] == target(c)[x]
  {
  }

  lemma DraftedStep(target: Model, v: Verifier, bonus: Model, n: nat, k: nat,
                    ctx: seq<Token>, left: nat, rounds: nat, text: seq<Token>)
    requires Sized(target, n) && SizedVerifier(v, n) && Sized(bonus, n) && InVocabulary(text, n)
    requires text != [] && rounds > 0 && left > 0
    requires v.kept(ctx)[text[0]] + v.replacement(ctx, left)[text[0]] == target(ctx)[text[0]]
    requires var next, rest := ctx + [text[0]], text[1..];
             && SpeculativeChance(target, v, bonus, n, k, next, k, rounds - 1, rest) == PlainChance(target, n, next, rest)
             && (v.kept(ctx)[text[0]] > 0.0 ==>
                 SpeculativeChance(target, v, bonus, n, k, next, left - 1, rounds, rest) == PlainChance(target, n, next, rest))
    ensures SpeculativeChance(target, v, bonus, n, k, ctx, left, rounds, text) == PlainChance(target, n, ctx, text)
  {
    var x, next, rest := text[0], ctx + [text[0]], text[1..];
    KeptOrReplaced(v.kept(ctx)[x], v.replacement(ctx, left)[x], target(ctx)[x],
                   SpeculativeChance(target, v, bonus, n, k, next, left - 1, rounds, rest), PlainChance(target, n, next, rest));
  }

  lemma KeptOrReplaced(kept: real, replaced: real, all: real, on: real, plain: real)
    requires kept + replaced == all && kept >= 0.0 && (kept > 0.0 ==> on == plain)
    ensures kept * on + replaced * plain == all * plain
  {
    Factors(kept, replaced, all, plain);
  }

  /** What a wrong bonus makes of the chance of the text it ends: in proportion to the chance of keeping all the drafts. */
  lemma {:induction false} BonusGap(target: Model, v: Verifier, bonus: Model, n: nat, k: nat, c: seq<Token>, d: seq<Token>, x: Token)
    requires Sized(target, n) && SizedVerifier(v, n) && Sized(bonus, n) && InVocabulary(d, n) && x < n
    requires d != [] ==> PositionsExact(target, v, n)
    ensures SpeculativeChance(target, v, bonus, n, k, c, |d|, 1, d + [x]) - PlainChance(target, n, c, d + [x])
            == KeptChance(v, n, c, d) * (bonus(c + d)[x] - target(c + d)[x])
    decreases |d|
  {
    if d == [] {
      BonusGapNow(target, v, bonus, n, k, c, x);
      assert d + [x] == [x] && c + d == c;
    } else {
      BonusGap(target, v, bonus, n, k, c + [d[0]], d[1..], x);
      assert c + [d[0]] + d[1..] == c + d;
      PositionExact(target, v, n, c, |d|, d[0]);
      BonusGapStep(target, v, bonus, n, k, c, d, x, bonus(c + d)[x] - target(c + d)[x]);
    }
  }

  lemma BonusGapNow(target: Model, v: Verifier, bonus: Model, n: nat, k: nat, c: seq<Token>, x: Token)
    requires Sized(target, n) && SizedVerifier(v, n) && Sized(bonus, n) && x < n
    ensures InVocabulary([x], n)
    ensures SpeculativeChance(target, v, bonus, n, k, c, 0, 1, [x]) == bonus(c)[x] && PlainChance(target, n, c, [x]) == target(c)[x]
  {
    assert [x][1..] == [];
    assert PlainChance(target, n, c + [x], []) == 1.0;
    assert SpeculativeChance(target, v, bonus, n, k, c + [x], k, 0, []) == 1.0;
  }

  /** The last round, by its first draft. */
  lemma FirstDraft(target: Model, v: Verifier, bonus: Model, n: nat, k: nat, c: seq<Token>, d: seq<Token>, x: Token)
    requires Sized(target, n) && SizedVerifier(v, n) && Sized(bonus, n) && InVocabulary(d, n) && d != [] && x < n
    ensures var next, rest := c + [d[0]], d[1..];
            && SpeculativeChance(target, v, bonus, n, k, c, |d|, 1, d + [x])
               == v.kept(c)[d[0]] * SpeculativeChance(target, v, bonus, n, k, next, |rest|, 1, rest + [x])
                  + v.replacement(c, |d|)[d[0]] * PlainChance(target, n, next, rest + [x])
            && PlainChance(target, n, c, d + [x]) == target(c)[d[0]] * PlainChance(target, n, next, rest + [x])
  {
    var next, rest := c + [d[0]], d[1..];
    assert (d + [x])[0] == d[0] && (d + [x])[1..] == rest + [x];
    AfterTheRounds(target, v, bonus, n, k, next, rest + [x]);
  }

  lemma BonusGapStep(target: Model, v: Verifier, bonus: Model, n: nat, k: nat, c: seq<Token>, d: seq<Token>, x: Token, gap: real)
    requires Sized(target, n) && SizedVerifier(v, n) && Sized(bonus, n) && InVocabulary(d, n) && d != [] && x < n
    requires v.kept(c)[d[0]] + v.replacement(c, |d|)[d[0]] == target(c)[d[0]]
    requires var next, rest := c + [d[0]], d[1..];
             SpeculativeChance(target, v, bonus, n, k, next, |rest|, 1, rest + [x]) - PlainChance(target, n, next, rest + [x])
             == KeptChance(v, n, next, rest) * gap
    ensures SpeculativeChance(target, v, bonus, n, k, c, |d|, 1, d + [x]) - PlainChance(target, n, c, d + [x])
            == KeptChance(v, n, c, d) * gap
  {
    var next, rest := c + [d[0]], d[1..];
    FirstDraft(target, v, bonus, n, k, c, d, x);
    GapScales(v.kept(c)[d[0]], v.replacement(c, |d|)[d[0]], target(c)[d[0]],
              SpeculativeChance(target, v, bonus, n, k, next, |rest|, 1, rest + [x]),
              PlainChance(target, n, next, rest + [x]), KeptChance(v, n, next, rest), gap);
  }

  lemma AfterTheRounds(target: Model, v: Verifier, bonus: Model, n: nat, k: nat, ctx: seq<Token>, text: seq<Token>)
    requires Sized(target, n) && SizedVerifier(v, n) && Sized(bonus, n) && InVocabulary(text, n)
    ensures SpeculativeChance(target, v, bonus, n, k, ctx, k, 0, text) == PlainChance(target, n, ctx, text)
  {
  }

  lemma GapScales(kept: real, replaced: real, all: real, on: real, plain: real, chance: real, gap: real)
    requires kept + replaced == all && on - plain == chance * gap
    ensures kept * on + replaced * plain - all * plain == (kept * chance) * gap
  {
    Factors(kept, replaced, all, plain);
    assert kept * on - kept * plain == kept * (on - plain);
    assert kept * (chance * gap) == (kept * chance) * gap;
  }

  /** From the start of any round, every text has the chance the target alone gives it. */
  ghost predicate RoundsExact(target: Model, v: Verifier, bonus: Model, n: nat, k: nat)
    requires Sized(target, n) && SizedVerifier(v, n) && Sized(bonus, n)
  {
    forall c, rounds: nat, text :: InVocabulary(text, n) ==>
      SpeculativeChance(target, v, bonus, n, k, c, k, rounds, text) == PlainChance(target, n, c, text)
  }

  /**
   With exact positions, rounds are exact exactly when the bonus is drawn from the target's distribution
   after every text that all `k` drafts of a round can lead to.
   */
  lemma RoundsExactIffBonusIsRight(target: Model, v: Verifier, bonus: Model, n: nat, k: nat)
    requires Sized(target, n) && SizedVerifier(v, n) && Sized(bonus, n) && (k > 0 ==> PositionsExact(target, v, n))
    ensures RoundsExact(target, v, bonus, n, k) <==> BonusIsAlwaysRight(target, v, bonus, n, k)
  {
    if BonusIsAlwaysRight(target, v, bonus, n, k) {
      forall c, rounds: nat, text | InVocabulary(text, n)
        ensures SpeculativeChance(target, v, bonus, n, k, c, k, rounds, text) == PlainChance(target, n, c, text)
      {
        TextsExact(target, v, bonus, n, k, c, k, rounds, text);
      }
    }
    if RoundsExact(target, v, bonus, n, k) {
      forall c: seq<Token>, d: seq<Token> | |d| == k && InVocabulary(d, n) && KeptChance(v, n, c, d) > 0.0
        ensures bonus(c + d) == target(c + d)
      {
        forall x | 0 <= x < n ensures bonus(c + d)[x] == target(c + d)[x] {
          BonusGap(target, v, bonus, n, k, c, d, x);
          assert InVocabulary(d + [x], n);
          NoGap(KeptChance(v, n, c, d), bonus(c + d)[x] - target(c + d)[x]);
        }
      }
    }
  }

  lemma NoGap(a: real, b: real)
    requires a > 0.0 && a * b == 0.0
    ensures b == 0.0
  {
  }

  // ----- the algorithm -----

  /** The accept-or-resample rule of the algorithm. */
  ghost function Leviathan(target: Model, draft: Model, n: nat): (v: Verifier)
    requires Sized(target, n) && Sized(draft, n)
  {
    Verifier(c => seq(n, x requires 0 <= x < n => Kept(target(c), draft(c), x)),
             (c: seq<Token>, left: nat) => seq(n, x requires 0 <= x < n => Replaced(target(c), draft(c), x)))
  }

  lemma LeviathanIsExact(target: Model, draft: Model, n: nat)
    requires IsModel(target, n) && IsModel(draft, n)
    ensures SizedVerifier(Leviathan(target, draft, n), n)
    ensures PositionsExact(target, Leviathan(target, draft, n), n)
  {
    var v := Leviathan(target, draft, n);
    forall c, x | 0 <= x < n
      ensures v.kept(c)[x] >= 0.0
      ensures Kept(target(c), draft(c), x) + Replaced(target(c), draft(c), x) == target(c)[x]
    {
      assert IsDist(target(c)) && IsDist(draft(c));
      KeptAt(target(c), draft(c), x);
      EmitsTarget(target(c), draft(c), x);
    }
  }

  /** With the right residual and bonus, every text is exactly as likely as under the target alone. */
  lemma SpeculationIsExact(target: Model, draft: Model, n: nat, k: nat)
    requires IsModel(target, n) && IsModel(draft, n)
    ensures SizedVerifier(Leviathan(target, draft, n), n)
    ensures RoundsExact(target, Leviathan(target, draft, n), target, n, k)
  {
    LeviathanIsExact(target, draft, n);
    RoundsExactIffBonusIsRight(target, Leviathan(target, draft, n), target, n, k);
  }

  // ----- the code -----

  /** The rule as the code has it. */
  ghost function CodeVerifier(target: Model, draft: Model, n: nat, smoothing: real): (v: Verifier)
    requires Sized(target, n) && Sized(draft, n) && smoothing >= 0.0
  {
    Verifier(c => seq(n, x requires 0 <= x < n => Kept(target(c), draft(c), x)),
             (c: seq<Token>, left: nat) => seq(n, x requires 0 <= x < n => CodeReplaced(target(c), draft, n, c, left, smoothing, x)))
  }

  lemma CodeVerifierIsSized(target: Model, draft: Model, n: nat, smoothing: real)
    requires IsModel(target, n) && IsModel(draft, n) && smoothing >= 0.0
    ensures SizedVerifier(CodeVerifier(target, draft, n, smoothing), n)
  {
    var v := CodeVerifier(target, draft, n, smoothing);
    forall c, x | 0 <= x < n ensures v.kept(c)[x] >= 0.0 {
      assert IsDist(target(c)) && IsDist(draft(c));
      KeptAt(target(c), draft(c), x);
    }
  }

  lemma OneTokenOfARound(target: Model, v: Verifier, bonus: Model, n: nat, k: nat, c: seq<Token>, x: Token)
    requires Sized(target, n) && SizedVerifier(v, n) && Sized(bonus, n) && x < n && k > 0
    ensures InVocabulary([x], n) && PlainChance(target, n, c, [x]) == target(c)[x]
    ensures SpeculativeChance(target, v, bonus, n, k, c, k, 1, [x]) == v.kept(c)[x] + v.replacement(c, k)[x]
  {
    assert [x][1..] == [];
    assert PlainChance(target, n, c + [x], []) == 1.0;
    assert SpeculativeChance(target, v, bonus, n, k, c + [x], k, 0, []) == 1.0;
    assert SpeculativeChance(target, v, bonus, n, k, c + [x], k - 1, 1, []) == 1.0;
  }

  lemma ExactRoundsNeedExactPositions(target: Model, draft: Model, bonus: Model, n: nat, k: nat, smoothing: real, c: seq<Token>)
    requires IsModel(target, n) && IsModel(draft, n) && Sized(bonus, n) && smoothing >= 0.0 && k > 0
    requires SizedVerifier(CodeVerifier(target, draft, n, smoothing), n)
    requires RoundsExact(target, CodeVerifier(target, draft, n, smoothing), bonus, n, k)
    ensures PositionIsExact(target(c), draft, n, c, k, smoothing)
  {
    var v := CodeVerifier(target, draft, n, smoothing);
    forall x | 0 <= x < n ensures Kept(target(c), draft(c), x) + CodeReplaced(target(c), draft, n, c, k, smoothing, x) == target(c)[x] {
      OneTokenOfARound(target, v, bonus, n, k, c, x);
    }
  }

  lemma AgreeingDraftIsExact(target: Model, draft: Model, n: nat, smoothing: real)
    requires IsModel(target, n) && Sized(draft, n) && smoothing >= 0.0 && forall c :: draft(c) == target(c)
    requires SizedVerifier(CodeVerifier(target, draft, n, smoothing), n)
    ensures PositionsExact(target, CodeVerifier(target, draft, n, smoothing), n)
  {
    var v := CodeVerifier(target, draft, n, smoothing);
    forall c, left: nat, x | left > 0 && 0 <= x < n ensures v.kept(c)[x] + v.replacement(c, left)[x] == target(c)[x] {
      assert IsDist(target(c));
      AgreeingDraftRejectsNothing(target(c), draft, n, c, left, smoothing, x);
    }
  }

  /**
   The code as it stands, with something added before every draw: its texts follow the target exactly when
   the draft is the target, so that nothing is ever rejected, and the bonus is drawn from the target's
   distribution after every text a full round can lead to.
   */
  lemma CodeIsExactIff(target: Model, draft: Model, bonus: Model, n: nat, k: nat, smoothing: real)
    requires IsModel(target, n) && IsModel(draft, n) && Sized(bonus, n) && smoothing > 0.0
    ensures SizedVerifier(CodeVerifier(target, draft, n, smoothing), n)
    ensures var v := CodeVerifier(target, draft, n, smoothing);
            RoundsExact(target, v, bonus, n, k) <==>
            && (k > 0 ==> forall c :: draft(c) == target(c))
            && BonusIsAlwaysRight(target, v, bonus, n, k)
  {
    var v := CodeVerifier(target, draft, n, smoothing);
    CodeVerifierIsSized(target, draft, n, smoothing);
    if k > 0 && RoundsExact(target, v, bonus, n, k) {
      forall c ensures draft(c) == target(c) {
        assert IsDist(target(c));
        ExactRoundsNeedExactPositions(target, draft, bonus, n, k, smoothing, c);
        SmoothedPositionIsExactIffDraftAgrees(target(c), draft, n, c, k, smoothing);
      }
    }
    if k == 0 || forall c :: draft(c) == target(c) {
      if k > 0 {
        AgreeingDraftIsExact(target, draft, n, smoothing);
      }
      RoundsExactIffBonusIsRight(target, v, bonus, n, k);
    }
  }

  // ----- the bonus and the temperature -----

  function Pow(a: real, m: nat): real {
    if m == 0 then 1.0 else a * Pow(a, m - 1)
  }

  function Powers(weights: seq<real>, m: nat): (powers: seq<real>)
    ensures |powers| == |weights|
  {
    seq(|weights|, x requires 0 <= x < |weights| => Pow(weights[x], m))
  }

  ghost predicate Positive(weights: seq<real>) {
    weights != [] && forall x :: 0 <= x < |weights| ==> weights[x] > 0.0
  }

  lemma {:induction false} PowIsPositive(a: real, m: nat)
    requires a > 0.0
    ensures Pow(a, m) > 0.0
  {
    if m > 0 {
      PowIsPositive(a, m - 1);
      PositiveProduct(a, Pow(a, m - 1));
    }
  }

  lemma SumIsPositive(weights: seq<real>)
    requires Positive(weights)
    ensures Sum(weights) > 0.0
  {
    SumIsNonNegative(weights[1..]);
  }

  lemma PowersArePositive(weights: seq<real>, m: nat)
    requires Positive(weights)
    ensures Positive(Powers(weights, m)) && Sum(Powers(weights, m)) > 0.0
  {
    forall x | 0 <= x < |weights| ensures Powers(weights, m)[x] > 0.0 {
      PowIsPositive(weights[x], m);
    }
    SumIsPositive(Powers(weights, m));
  }

  /** Softmax at temperature j/m, of logits whose exponentials are the `weights` to the power j. */
  ghost function Softmax(weights: seq<real>, m: nat): Dist
    requires Positive(weights)
  {
    PowersArePositive(weights, m);
    seq(|weights|, x requires 0 <= x < |weights| => Powers(weights, m)[x] / Sum(Powers(weights, m)))
  }

  lemma {:induction false} PowInOrder(a: real, b: real, m: nat)
    requires 0.0 < a < b && m > 0
    ensures Pow(a, m) < Pow(b, m)
  {
    if m > 1 {
      PowInOrder(a, b, m - 1);
      PowIsPositive(a, m - 1);
      ProductsInOrder(a, b, Pow(a, m - 1), Pow(b, m - 1));
    } else {
      assert Pow(a, 0) == 1.0 && Pow(b, 0) == 1.0;
    }
  }

  lemma ProductsInOrder(a: real, b: real, c: real, d: real)
    requires 0.0 < a < b && 0.0 < c < d
    ensures a * c < b * d
  {
    assert (b - a) * c > 0.0 && b * (d - c) > 0.0;
  }

  lemma {:induction false} SumScaled(a: seq<real>, b: seq<real>, times: real)
    requires |a| == |b| && forall i :: 0 <= i < |a| ==> b[i] == times * a[i]
    ensures Sum(b) == times * Sum(a)
  {
    if a != [] {
      SumScaled(a[1..], b[1..], times);
      assert times * (a[0] + Sum(a[1..])) == times * a[0] + times * Sum(a[1..]);
    }
  }

  lemma {:induction false} PowersAdd(a: real, j: nat, i: nat)
    ensures Pow(a, j + i) == Pow(a, j) * Pow(a, i)
  {
    if j > 0 {
      PowersAdd(a, j - 1, i);
      Reassociate(a, Pow(a, j - 1), Pow(a, i));
    }
  }

  lemma Reassociate(a: real, b: real, c: real)
    ensures a * (b * c) == (a * b) * c
  {
  }

  lemma PowersDiffer(a: real, b: real, m: nat)
    requires a > 0.0 && b > 0.0 && m > 0
    ensures Pow(a, m) == Pow(b, m) <==> a == b
  {
    if a < b {
      PowInOrder(a, b, m);
    } else if b < a {
      PowInOrder(b, a, m);
    }
  }

  /** Each of `shares`, times the `total`, is the weight. */
  ghost predicate Shares(shares: Dist, weights: seq<real>, total: real) {
    |shares| == |weights| && forall x :: 0 <= x < |weights| ==> shares[x] * total == weights[x]
  }

  lemma SoftmaxShares(weights: seq<real>, m: nat)
    requires Positive(weights)
    ensures Shares(Softmax(weights, m), Powers(weights, m), Sum(Powers(weights, m))) && Sum(Powers(weights, m)) > 0.0
  {
    PowersArePositive(weights, m);
  }

  ghost predicate Multiplied(weights: seq<real>, factors: seq<real>, products: seq<real>) {
    |weights| == |factors| == |products| && forall x :: 0 <= x < |weights| ==> products[x] == weights[x] * factors[x]
  }

  lemma ShareAgreesIff(weights: seq<real>, factors: seq<real>, products: seq<real>, hot: Dist, one: Dist, all: real, total: real, x: Token)
    requires Multiplied(weights, factors, products) && Positive(weights)
    requires Shares(hot, products, all) && Shares(one, weights, total) && all > 0.0 && total > 0.0 && x < |weights|
    ensures hot[x] == one[x] <==> factors[x] * total == all
  {
    SameShare(hot[x], one[x], weights[x], factors[x], all, total);
  }

  lemma AgreeingSharesAreLevel(weights: seq<real>, factors: seq<real>, products: seq<real>, hot: Dist, one: Dist, all: real, total: real, x: Token)
    requires Multiplied(weights, factors, products) && Positive(weights)
    requires Shares(hot, products, all) && Shares(one, weights, total) && all > 0.0 && total > 0.0 && x < |weights|
    requires hot == one
    ensures factors[x] == factors[0]
  {
    ShareAgreesIff(weights, factors, products, hot, one, all, total, x);
    ShareAgreesIff(weights, factors, products, hot, one, all, total, 0);
    SameFactor(factors[x], factors[0], total);
  }

  /** Multiplying the weights leaves their shares as they were exactly when all are multiplied alike. */
  lemma SharesAgreeIff(weights: seq<real>, factors: seq<real>, products: seq<real>, hot: Dist, one: Dist, all: real, total: real)
    requires Multiplied(weights, factors, products) && Positive(weights)
    requires Shares(hot, products, all) && Shares(one, weights, total) && all > 0.0 && total > 0.0
    requires (forall x :: 0 <= x < |factors| ==> factors[x] == factors[0]) ==> all == factors[0] * total
    ensures hot == one <==> forall x :: 0 <= x < |factors| ==> factors[x] == factors[0]
  {
    if hot == one {
      forall x | 0 <= x < |factors| ensures factors[x] == factors[0] {
        AgreeingSharesAreLevel(weights, factors, products, hot, one, all, total, x);
      }
    }
    if forall x :: 0 <= x < |factors| ==> factors[x] == factors[0] {
      LevelSharesAgree(weights, factors, products, hot, one, all, total);
    }
  }

  lemma LevelProducts(weights: seq<real>, factors: seq<real>, products: seq<real>, level: real)
    requires Multiplied(weights, factors, products) && forall x :: 0 <= x < |factors| ==> factors[x] == level
    ensures forall x :: 0 <= x < |weights| ==> products[x] == level * weights[x]
  {
  }

  lemma LevelFactors(weights: seq<real>, factors: seq<real>, products: seq<real>, all: real, total: real)
    requires Multiplied(weights, factors, products) && weights != [] && all == Sum(products) && total == Sum(weights)
    ensures (forall x :: 0 <= x < |factors| ==> factors[x] == factors[0]) ==> all == factors[0] * total
  {
    if forall x :: 0 <= x < |factors| ==> factors[x] == factors[0] {
      LevelProducts(weights, factors, products, factors[0]);
      SumScaled(weights, products, factors[0]);
    }
  }

  lemma LevelSharesAgree(weights: seq<real>, factors: seq<real>, products: seq<real>, hot: Dist, one: Dist, all: real, total: real)
    requires Multiplied(weights, factors, products) && Positive(weights)
    requires Shares(hot, products, all) && Shares(one, weights, total) && all > 0.0 && total > 0.0
    requires all == factors[0] * total && forall x :: 0 <= x < |factors| ==> factors[x] == factors[0]
    ensures hot == one
  {
    forall x | 0 <= x < |factors| ensures hot[x] == one[x] {
      ShareAgreesIff(weights, factors, products, hot, one, all, total, x);
    }
  }

  lemma SameFactor(a: real, b: real, t: real)
    requires t > 0.0
    ensures a * t == b * t <==> a == b
  {
    ZeroFactor(a - b, t);
  }

  lemma PowersMultiply(weights: seq<real>, j: nat, i: nat)
    requires Positive(weights) && i > 0
    ensures Multiplied(Powers(weights, j), Powers(weights, i), Powers(weights, j + i))
    ensures forall x :: 0 <= x < |weights| ==> (Powers(weights, i)[x] == Powers(weights, i)[0] <==> weights[x] == weights[0])
  {
    PowersAreProducts(weights, j, i);
    forall x | 0 <= x < |weights| ensures Powers(weights, i)[x] == Powers(weights, i)[0] <==> weights[x] == weights[0] {
      PowersDiffer(weights[x], weights[0], i);
    }
  }

  lemma PowersAreProducts(weights: seq<real>, j: nat, i: nat)
    ensures Multiplied(Powers(weights, j), Powers(weights, i), Powers(weights, j + i))
  {
    forall x | 0 <= x < |weights| ensures Powers(weights, j + i)[x] == Powers(weights, j)[x] * Powers(weights, i)[x] {
      PowersAdd(weights[x], j, i);
    }
  }

  lemma PowerSharesAgreeIff(weights: seq<real>, j: nat, i: nat, hot: Dist, one: Dist, all: real, total: real)
    requires Positive(weights) && i > 0 && all == Sum(Powers(weights, j + i)) && total == Sum(Powers(weights, j))
    requires Shares(hot, Powers(weights, j + i), all) && Shares(one, Powers(weights, j), total) && all > 0.0 && total > 0.0
    ensures hot == one <==> forall x :: 0 <= x < |weights| ==> weights[x] == weights[0]
  {
    var base, factors, products := Powers(weights, j), Powers(weights, i), Powers(weights, j + i);
    PowersArePositive(weights, j);
    PowersMultiply(weights, j, i);
    LevelFactors(base, factors, products, all, total);
    SharesAgreeIff(base, factors, products, hot, one, all, total);
  }

  lemma ColderSoftmaxAgreesIff(weights: seq<real>, j: nat, m: nat)
    requires Positive(weights) && j < m
    ensures Softmax(weights, m) == Softmax(weights, j) <==> forall x :: 0 <= x < |weights| ==> weights[x] == weights[0]
  {
    SoftmaxShares(weights, m);
    SoftmaxShares(weights, j);
    PowerSharesAgreeIff(weights, j, m - j, Softmax(weights, m), Softmax(weights, j), Sum(Powers(weights, m)), Sum(Powers(weights, j)));
  }

  /** At a temperature j/m other than one, softmax gives what it gives at one exactly when all the weights are equal. */
  lemma SoftmaxIgnoresTemperatureIff(weights: seq<real>, j: nat, m: nat)
    requires Positive(weights) && j != m
    ensures Softmax(weights, m) == Softmax(weights, j) <==> forall x :: 0 <= x < |weights| ==> weights[x] == weights[0]
  {
    if j < m {
      ColderSoftmaxAgreesIff(weights, j, m);
    } else {
      ColderSoftmaxAgreesIff(weights, m, j);
    }
  }

  lemma ZeroFactor(a: real, b: real)
    requires b > 0.0
    ensures a * b == 0.0 <==> a == 0.0
  {
  }

  /** a·b over one sum is a over the other exactly when b times the other is the one. */
  lemma SameShare(u: real, v: real, a: real, b: real, s: real, t: real)
    requires a > 0.0 && s > 0.0 && t > 0.0 && u * s == a * b && v * t == a
    ensures u == v <==> b * t == s
  {
    assert ((u - v) * s) * t == (b * t - s) * a by {
      assert ((u - v) * s) * t == (u * s) * t - s * (v * t);
    }
    ZeroFactor((u - v) * s, t);
    ZeroFactor(u - v, s);
    ZeroFactor(b * t - s, a);
  }

  /**
   A target's logits after every text, as positive weights: to the power j they are the exponentials of the
   logits, so that to the power m they are those of the logits over j/m.
   */
  type Logits = seq<Token> -> seq<real>

  ghost predicate LogitsOver(w: Logits, n: nat) {
    forall c :: |w(c)| == n && Positive(w(c))
  }

  ghost function AtPower(w: Logits, n: nat, m: nat): Model
    requires LogitsOver(w, n)
  {
    c => Softmax(w(c), m)
  }

  /**
   The code's bonus is drawn at temperature one whatever the temperature of the run. At any j/m other than
   one, even with every position exact, rounds are exact exactly when the target has no preference at all
   after any text a full round can lead to.
   */
  lemma TemperedRunsAreExactIff(w: Logits, v: Verifier, n: nat, k: nat, j: nat, m: nat)
    requires LogitsOver(w, n) && j != m && SizedVerifier(v, n)
    requires PositionsExact(AtPower(w, n, m), v, n)
    ensures RoundsExact(AtPower(w, n, m), v, AtPower(w, n, j), n, k) <==>
            forall c: seq<Token>, d: seq<Token> :: |d| == k && InVocabulary(d, n) && KeptChance(v, n, c, d) > 0.0 ==>
              forall x :: 0 <= x < n ==> w(c + d)[x] == w(c + d)[0]
  {
    var target, bonus := AtPower(w, n, m), AtPower(w, n, j);
    RoundsExactIffBonusIsRight(target, v, bonus, n, k);
    forall c: seq<Token>, d: seq<Token> ensures bonus(c + d) == target(c + d) <==> forall x :: 0 <= x < n ==> w(c + d)[x] == w(c + d)[0] {
      SoftmaxIgnoresTemperatureIff(w(c + d), j, m);
    }
    if BonusIsAlwaysRight(target, v, bonus, n, k) {
      forall c: seq<Token>, d: seq<Token> | |d| == k && InVocabulary(d, n) && KeptChance(v, n, c, d) > 0.0
        ensures forall x :: 0 <= x < n ==> w(c + d)[x] == w(c + d)[0]
      {
        assert BonusIsRight(target, v, bonus, n, c, k);
      }
    }
  }
}
