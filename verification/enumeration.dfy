/**
 * Exact inference by enumeration over a finite, ordered support.
 * A distribution is a sequence of probabilities parallel to its support.
 */
module Enumeration {
  import opened Outcomes

  /** The total of all weights. */
  function Sum(ws: seq<real>): (total: real)
  {
    SumTo(ws, |ws|)
  }

  /** The total of the first `n` weights. */
  function SumTo(ws: seq<real>, n: nat): (total: real)
    requires n <= |ws|
  {
    if n == 0 then 0.0 else SumTo(ws, n - 1) + ws[n - 1]
  }

  predicate NonNegative(ws: seq<real>)
  {
    forall i | 0 <= i < |ws| :: 0.0 <= ws[i]
  }

  predicate IsDistribution(ps: seq<real>)
  {
    NonNegative(ps) && Sum(ps) == 1.0
  }

  /** Every weight multiplied by `k`. */
  function Scale(ws: seq<real>, k: real): (r: seq<real>)
    ensures |r| == |ws|
  {
    seq(|ws|, i requires 0 <= i < |ws| => ws[i] * k)
  }

  lemma ScaleNonNegative(ws: seq<real>, k: real)
    requires NonNegative(ws) && 0.0 <= k
    ensures NonNegative(Scale(ws, k))
  {
    forall i | 0 <= i < |ws| ensures 0.0 <= Scale(ws, k)[i] {
      MultiplyNonNegative(ws[i], k);
    }
  }

  lemma ScalePositive(ws: seq<real>, k: real)
    requires 0.0 < k
    ensures forall i | 0 <= i < |ws| :: 0.0 < Scale(ws, k)[i] <==> 0.0 < ws[i]
  {
    forall i | 0 <= i < |ws| ensures 0.0 < Scale(ws, k)[i] <==> 0.0 < ws[i] {
      SignOfProduct(ws[i], k);
    }
  }

  /** Scaling every weight scales the total. */
  lemma SumScale(ws: seq<real>, k: real)
    ensures Sum(Scale(ws, k)) == Sum(ws) * k
  {
    SumToScale(ws, k, |ws|);
  }

  lemma {:induction false} SumToScale(ws: seq<real>, k: real, n: nat)
    requires n <= |ws|
    ensures SumTo(Scale(ws, k), n) == SumTo(ws, n) * k
  {
    if n > 0 {
      SumToScale(ws, k, n - 1);
    }
  }

  lemma SumNonNegative(ws: seq<real>)
    requires NonNegative(ws)
    ensures 0.0 <= Sum(ws)
  {
    SumToNonNegative(ws, |ws|);
  }

  lemma {:induction false} SumToNonNegative(ws: seq<real>, n: nat)
    requires NonNegative(ws) && n <= |ws|
    ensures 0.0 <= SumTo(ws, n)
  {
    if n > 0 {
      SumToNonNegative(ws, n - 1);
    }
  }

  /** A non-negative weight never exceeds the total. */
  lemma SumAtLeast(ws: seq<real>, i: int)
    requires NonNegative(ws) && 0 <= i < |ws|
    ensures ws[i] <= Sum(ws)
  {
    SumToAtLeast(ws, i, |ws|);
  }

  lemma {:induction false} SumToAtLeast(ws: seq<real>, i: int, n: nat)
    requires NonNegative(ws) && 0 <= i < n <= |ws|
    ensures ws[i] <= SumTo(ws, n)
  {
    if i == n - 1 {
      SumToNonNegative(ws, n - 1);
    } else {
      SumToAtLeast(ws, i, n - 1);
    }
  }

  /** Non-negative weights have total zero exactly when each of them is zero. */
  lemma SumZeroIffAllZero(ws: seq<real>)
    requires NonNegative(ws)
    ensures Sum(ws) == 0.0 <==> forall i | 0 <= i < |ws| :: ws[i] == 0.0
  {
    SumToZero(ws, |ws|);
  }

  lemma {:induction false} SumToZero(ws: seq<real>, n: nat)
    requires NonNegative(ws) && n <= |ws|
    ensures SumTo(ws, n) == 0.0 <==> forall i | 0 <= i < n :: ws[i] == 0.0
  {
    if n > 0 {
      SumToNonNegative(ws, n - 1);
      SumToZero(ws, n - 1);
    }
  }

  /** Weights bounded position by position by other weights have a total bounded by theirs. */
  lemma SumMonotone(xs: seq<real>, ys: seq<real>)
    requires |xs| == |ys| && forall i | 0 <= i < |xs| :: xs[i] <= ys[i]
    ensures Sum(xs) <= Sum(ys)
  {
    SumToMonotone(xs, ys, |xs|);
  }

  lemma {:induction false} SumToMonotone(xs: seq<real>, ys: seq<real>, n: nat)
    requires |xs| == |ys| && n <= |xs| && forall i | 0 <= i < |xs| :: xs[i] <= ys[i]
    ensures SumTo(xs, n) <= SumTo(ys, n)
  {
    if n > 0 {
      SumToMonotone(xs, ys, n - 1);
    }
  }

  /** When only position `k` carries weight, the total is that weight. */
  lemma SumOfSingle(ws: seq<real>, k: int)
    requires 0 <= k < |ws|
    requires forall i | 0 <= i < |ws| && i != k :: ws[i] == 0.0
    ensures Sum(ws) == ws[k]
  {
    SumToSingle(ws, k, |ws|);
  }

  lemma {:induction false} SumToSingle(ws: seq<real>, k: int, n: nat)
    requires 0 <= k < |ws| && n <= |ws|
    requires forall i | 0 <= i < |ws| && i != k :: ws[i] == 0.0
    ensures SumTo(ws, n) == if k < n then ws[k] else 0.0
  {
    if n > 0 {
      SumToSingle(ws, k, n - 1);
    }
  }

  /**
   * Divides each weight by the total, keeping exactly the positions of positive weight.
   * That the result sums to one is `NormalizeSumsToOne`.
   */
  function Normalize(ws: seq<real>): (ps: seq<real>)
    requires NonNegative(ws) && 0.0 < Sum(ws)
    ensures |ps| == |ws| && NonNegative(ps)
    ensures forall i | 0 <= i < |ws| :: 0.0 < ps[i] <==> 0.0 < ws[i]
  {
    InversePositive(Sum(ws));
    ScaleNonNegative(ws, 1.0 / Sum(ws));
    ScalePositive(ws, 1.0 / Sum(ws));
    Scale(ws, 1.0 / Sum(ws))
  }

  lemma NormalizeSumsToOne(ws: seq<real>)
    requires NonNegative(ws) && 0.0 < Sum(ws)
    ensures IsDistribution(Normalize(ws))
  {
    SumScale(ws, 1.0 / Sum(ws));
    MultiplyInverse(Sum(Normalize(ws)), Sum(ws), Sum(ws));
  }

  /** Each probability times the total weight gives back the weight: probability is proportional to weight. */
  lemma NormalizeProportional(ws: seq<real>, i: int)
    requires NonNegative(ws) && 0.0 < Sum(ws) && 0 <= i < |ws|
    ensures Normalize(ws)[i] * Sum(ws) == ws[i]
  {
    MultiplyInverse(Normalize(ws)[i], ws[i], Sum(ws));
  }

  /** Normalising keeps the order of the weights. */
  lemma NormalizeMonotone(ws: seq<real>, j: int, k: int)
    requires NonNegative(ws) && 0.0 < Sum(ws) && 0 <= j < |ws| && 0 <= k < |ws|
    requires ws[k] <= ws[j]
    ensures Normalize(ws)[k] <= Normalize(ws)[j]
  {
    InversePositive(Sum(ws));
    ScaleMonotone(ws, 1.0 / Sum(ws), j, k);
  }

  lemma ScaleMonotone(ws: seq<real>, q: real, j: int, k: int)
    requires 0.0 <= q && 0 <= j < |ws| && 0 <= k < |ws| && ws[k] <= ws[j]
    ensures Scale(ws, q)[k] <= Scale(ws, q)[j]
  {
    MultiplyMonotone(q, ws[k], ws[j]);
  }

  /** Normalising is blind to a common positive factor in the weights. */
  lemma NormalizeScale(ws: seq<real>, k: real)
    requires NonNegative(ws) && 0.0 < Sum(ws) && 0.0 < k
    ensures NonNegative(Scale(ws, k)) && 0.0 < Sum(Scale(ws, k))
    ensures Normalize(Scale(ws, k)) == Normalize(ws)
  {
    ScaleNonNegative(ws, k);
    SumScale(ws, k);
    MultiplyPositive(Sum(ws), k);
    var lhs, rhs := Normalize(Scale(ws, k)), Normalize(ws);
    forall i | 0 <= i < |ws| ensures lhs[i] == rhs[i] {
      CancelCommon(ws[i], Sum(ws), k);
    }
  }

  lemma InversePositive(s: real)
    requires 0.0 < s
    ensures 0.0 < 1.0 / s
  {
  }

  lemma MultiplyInverse(x: real, w: real, s: real)
    requires s != 0.0 && x == w * (1.0 / s)
    ensures x * s == w
  {
    assert (1.0 / s) * s == 1.0;
  }

  lemma MultiplyMonotone(k: real, x: real, y: real)
    requires 0.0 <= k && x <= y
    ensures x * k <= y * k
  {
  }

  lemma MultiplyNonNegative(x: real, y: real)
    requires 0.0 <= x && 0.0 <= y
    ensures 0.0 <= x * y
  {
  }

  lemma SignOfProduct(x: real, k: real)
    requires 0.0 < k
    ensures 0.0 < x * k <==> 0.0 < x
  {
  }

  lemma MultiplyPositive(x: real, y: real)
    requires 0.0 < x && 0.0 < y
    ensures 0.0 < x * y
  {
  }

  lemma ProductOfNonNegatives(x: real, y: real)
    requires 0.0 <= x && 0.0 <= y
    ensures 0.0 <= x * y
    ensures 0.0 < x * y <==> 0.0 < x && 0.0 < y
  {
    if 0.0 < x && 0.0 < y {
      MultiplyPositive(x, y);
    }
  }

  lemma ZeroProduct(x: real, k: real)
    requires k != 0.0
    ensures x * k == 0.0 <==> x == 0.0
  {
  }

  lemma CancelCommon(x: real, s: real, k: real)
    requires s != 0.0 && k != 0.0
    ensures (x * k) * (1.0 / (s * k)) == x * (1.0 / s)
  {
    var q := 1.0 / (s * k);
    assert q * (s * k) == 1.0;
    assert (x * k) * q * s == x * (q * (s * k));
    assert (x * k) * q * s == x;
  }

  /**
   * Exact enumeration of a model whose paths have the given non-negative scores:
   * if no path has positive weight the inference fails with `failure`,
   * otherwise it returns the normalised marginal.
   */
  function Enumerate(ws: seq<real>, failure: Failure): (r: Result<seq<real>>)
    requires NonNegative(ws)
    ensures r.Err? <==> forall i | 0 <= i < |ws| :: ws[i] == 0.0
    ensures r.Err? ==> r.error == failure
    ensures r.Ok? ==> |r.value| == |ws| && NonNegative(r.value) && 0.0 < Sum(ws)
    ensures r.Ok? ==> r.value == Normalize(ws)
    ensures r.Ok? ==> forall i | 0 <= i < |ws| :: 0.0 < r.value[i] <==> 0.0 < ws[i]
  {
    SumNonNegative(ws);
    SumZeroIffAllZero(ws);
    if Sum(ws) == 0.0 then Err(failure) else Ok(Normalize(ws))
  }

  /** Each probability enumeration returns, times the total score, gives back that path's score. */
  lemma EnumerateProportional(ws: seq<real>, failure: Failure)
    requires NonNegative(ws) && Enumerate(ws, failure).Ok?
    ensures forall i | 0 <= i < |ws| :: Enumerate(ws, failure).value[i] * Sum(ws) == ws[i]
  {
    forall i | 0 <= i < |ws| ensures Normalize(ws)[i] * Sum(ws) == ws[i] {
      NormalizeProportional(ws, i);
    }
  }

  /** Whenever enumeration has an answer, it is a probability distribution. */
  lemma EnumerateIsDistribution(ws: seq<real>, failure: Failure)
    requires NonNegative(ws) && Enumerate(ws, failure).Ok?
    ensures IsDistribution(Enumerate(ws, failure).value)
  {
    NormalizeSumsToOne(ws);
  }

  /** The probability `x` of path `i`, times the total score `m`, is that path's score `c`. */
  lemma EnumerateAt(ws: seq<real>, failure: Failure, i: int, x: real, m: real, c: real)
    requires NonNegative(ws) && Enumerate(ws, failure).Ok? && 0 <= i < |ws|
    requires x == Enumerate(ws, failure).value[i] && m == Sum(ws) && c == ws[i]
    ensures x * m == c
  {
    NormalizeProportional(ws, i);
  }

  /** Enumeration is blind to a common positive factor in the scores. */
  lemma EnumerateScale(ws: seq<real>, k: real, failure: Failure)
    requires NonNegative(ws) && 0.0 < k
    ensures NonNegative(Scale(ws, k))
    ensures Enumerate(Scale(ws, k), failure) == Enumerate(ws, failure)
  {
    ScaleNonNegative(ws, k);
    ScalePositive(ws, k);
    var r := Enumerate(ws, failure);
    if r.Ok? {
      NormalizeScale(ws, k);
    }
  }

  /** The masses of the positions of `support` holding `x`, and zero elsewhere. */
  function Matching<T(==)>(support: seq<T>, ps: seq<real>, x: T): (r: seq<real>)
    requires |ps| == |support|
    ensures |r| == |ps|
  {
    seq(|ps|, i requires 0 <= i < |ps| => if support[i] == x then ps[i] else 0.0)
  }

  /**
   * The probability a distribution over `support` gives to the value `x`.
   * Positions holding equal values pool their mass, as a marginal keyed by value does.
   */
  function ProbOf<T(==)>(support: seq<T>, ps: seq<real>, x: T): (p: real)
    requires |ps| == |support|
  {
    Sum(Matching(support, ps, x))
  }

  /** A value has zero probability when every position holding it has zero mass. */
  lemma ProbOfZero<T>(support: seq<T>, ps: seq<real>, x: T)
    requires |ps| == |support| && NonNegative(ps)
    requires forall i | 0 <= i < |support| && support[i] == x :: ps[i] == 0.0
    ensures ProbOf(support, ps, x) == 0.0
  {
    SumZeroIffAllZero(Matching(support, ps, x));
  }

  /** The probability of a value lies between the mass of any one position holding it and the total. */
  lemma ProbOfBounds<T>(support: seq<T>, ps: seq<real>, x: T)
    requires |ps| == |support| && NonNegative(ps)
    ensures 0.0 <= ProbOf(support, ps, x) <= Sum(ps)
    ensures forall i | 0 <= i < |support| && support[i] == x :: ps[i] <= ProbOf(support, ps, x)
  {
    var m := Matching(support, ps, x);
    assert NonNegative(m);
    SumNonNegative(m);
    SumMonotone(m, ps);
    forall i | 0 <= i < |support| && support[i] == x ensures ps[i] <= Sum(m) {
      SumAtLeast(m, i);
    }
  }
}
