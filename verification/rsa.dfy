/**
 * The three-level Rational Speech Act engine: literal listener, speaker and pragmatic listener,
 * each an exact enumeration over a scenario's finite worlds or utterances.
 * The engine never branches on which scenario it is given.
 */
module Rsa {
  import opened Outcomes
  import opened Enumeration

  /** A scenario: ordered worlds, ordered utterances, a truth-functional meaning and a cost per utterance. */
  datatype Scenario<!W, !U> = Scenario(
    worlds: seq<W>,
    utterances: seq<U>,
    meaning: (U, W) -> bool,
    cost: (U, real, real) -> real)

  /**
   * The speaker's `exp` and `log`, kept abstract: only the facts a softmax speaker
   * relies on are assumed of them (see `Valid`).
   */
  datatype Calculus = Calculus(exp: real -> real, ln: real -> real)
  {
    ghost predicate Valid()
    {
      && (forall x :: 0.0 < exp(x))
      && (forall x, y :: x < y ==> exp(x) < exp(y))
      && (forall x, y :: 0.0 < x < y ==> ln(x) < ln(y))
    }
  }

  /** A prior the world draw accepts: one non-negative weight per world, not all zero. */
  predicate ValidPrior<W, U>(s: Scenario<W, U>, ws: seq<real>)
  {
    |ws| == |s.worlds| && NonNegative(ws) && exists i | 0 <= i < |ws| :: 0.0 < ws[i]
  }

  /** The utterance is true of some world the prior gives positive weight. */
  predicate Supported<W, U>(s: Scenario<W, U>, u: U, ws: seq<real>)
  {
    |ws| == |s.worlds| && exists i | 0 <= i < |ws| :: s.meaning(u, s.worlds[i]) && 0.0 < ws[i]
  }

  /** The prior gives world `t` positive weight. */
  predicate PriorAllows<W(==), U>(s: Scenario<W, U>, ws: seq<real>, t: W)
  {
    |ws| == |s.worlds| && exists i | 0 <= i < |ws| :: s.worlds[i] == t && 0.0 < ws[i]
  }

  /** The world draw: the prior weights, normalised. */
  function PriorDistribution<W, U>(s: Scenario<W, U>, ws: seq<real>): (r: Result<seq<real>>)
    ensures r.Ok? <==> ValidPrior(s, ws)
    ensures r.Err? ==> r.error == InvalidPrior
    ensures r.Ok? ==> |r.value| == |s.worlds| && NonNegative(r.value)
  {
    if |ws| != |s.worlds| || !NonNegative(ws) then Err(InvalidPrior)
    else Enumerate(ws, InvalidPrior)
  }

  /** Hard conditioning on the literal meaning of `u`: worlds where it is false lose their weight. */
  function Condition<W, U>(s: Scenario<W, U>, u: U, ps: seq<real>): (r: seq<real>)
    requires |ps| == |s.worlds|
    ensures |r| == |ps|
    ensures NonNegative(ps) ==> NonNegative(r)
  {
    seq(|ps|, i requires 0 <= i < |ps| => if s.meaning(u, s.worlds[i]) then ps[i] else 0.0)
  }

  /** The prior weight of the worlds where `u` is true. */
  function Mass<W, U>(s: Scenario<W, U>, u: U, ws: seq<real>): (m: real)
    requires |ws| == |s.worlds|
  {
    Sum(Condition(s, u, ws))
  }

  /** The literal listener: the world draw, conditioned on `u` being literally true. */
  function LiteralListener<W, U>(s: Scenario<W, U>, u: U, ws: seq<real>): (r: Result<seq<real>>)
    ensures r.Ok? ==> |r.value| == |s.worlds| && NonNegative(r.value)
  {
    var prior :- PriorDistribution(s, ws);
    Enumerate(Condition(s, u, prior), InconsistentUtterance)
  }

  /** The literal listener's probability of world `t` after hearing `u` (zero when it has no answer). */
  function ListenerProb<W(==), U>(s: Scenario<W, U>, u: U, ws: seq<real>, t: W): (p: real)
    ensures 0.0 <= p
  {
    match LiteralListener(s, u, ws)
    case Ok(l0) => ProbOfBounds(s.worlds, l0, t); ProbOf(s.worlds, l0, t)
    case Err(_) => 0.0
  }

  /**
   * The literal listener for each of the first `n` utterances, in order;
   * the first one that fails makes the whole fail.
   */
  function LiteralListeners<W, U>(s: Scenario<W, U>, ws: seq<real>, n: nat): (r: Result<seq<seq<real>>>)
    requires n <= |s.utterances|
    ensures r.Ok? <==> forall j | 0 <= j < n :: LiteralListener(s, s.utterances[j], ws).Ok?
    ensures r.Ok? ==> |r.value| == n
    ensures r.Ok? ==> forall j | 0 <= j < n :: r.value[j] == LiteralListener(s, s.utterances[j], ws).value
    ensures r.Err? ==> exists j | 0 <= j < n :: LiteralListener(s, s.utterances[j], ws) == Err(r.error)
  {
    if n == 0 then Ok([])
    else
      var earlier :- LiteralListeners(s, ws, n - 1);
      var last :- LiteralListener(s, s.utterances[n - 1], ws);
      Ok(earlier + [last])
  }

  /**
   * The speaker's factor for an utterance whose literal listener gives the target probability `p`:
   * exp(a * (log p - c)), and zero when log p is minus infinity.
   */
  function SpeakerFactor(cal: Calculus, a: real, p: real, c: real): (f: real)
    ensures cal.Valid() ==> 0.0 <= f
    ensures cal.Valid() ==> (0.0 < f <==> p != 0.0)
    ensures p == 0.0 ==> f == 0.0
  {
    if p == 0.0 then 0.0 else cal.exp(a * (cal.ln(p) - c))
  }

  /** The speaker's unnormalised softmax score of every utterance, given every utterance's literal listener. */
  function SpeakerScores<W(==), U>(s: Scenario<W, U>, cal: Calculus, t: W, a: real, c1: real, c2: real,
                                   l0s: seq<seq<real>>): (r: seq<real>)
    requires cal.Valid()
    requires |l0s| == |s.utterances|
    requires forall j | 0 <= j < |l0s| :: |l0s[j]| == |s.worlds|
    ensures |r| == |s.utterances|
    ensures NonNegative(r)
  {
    var r := seq(|l0s|, j requires 0 <= j < |l0s| =>
      SpeakerFactor(cal, a, ProbOf(s.worlds, l0s[j], t), s.cost(s.utterances[j], c1, c2)));
    assert NonNegative(r) by {
      forall j | 0 <= j < |l0s| ensures 0.0 <= r[j] {
        assert r[j] == SpeakerFactor(cal, a, ProbOf(s.worlds, l0s[j], t), s.cost(s.utterances[j], c1, c2));
      }
    }
    r
  }

  /**
   * The speaker for the target world `t`: a uniform draw over the utterances, each weighted by its
   * softmax factor. It runs the literal listener of every utterance, and fails when no utterance has
   * positive weight.
   */
  function Speaker<W(==), U>(s: Scenario<W, U>, cal: Calculus, t: W, a: real, c1: real, c2: real,
                             ws: seq<real>): (r: Result<seq<real>>)
    requires cal.Valid() && 0.0 < a
    ensures r.Ok? ==> |r.value| == |s.utterances| && NonNegative(r.value)
  {
    var l0s :- LiteralListeners(s, ws, |s.utterances|);
    var scores := SpeakerScores(s, cal, t, a, c1, c2, l0s);
    if |scores| == 0 then Err(InexpressibleWorld)
    else
      InversePositive(|scores| as real);
      ScaleNonNegative(scores, 1.0 / |scores| as real);
      Enumerate(Scale(scores, 1.0 / |scores| as real), InexpressibleWorld)
  }

  /** The probability that the speaker for world `w` says `u` (zero when that speaker has no answer). */
  function Likelihood<W(==), U(==)>(s: Scenario<W, U>, cal: Calculus, w: W, u: U, a: real, c1: real, c2: real,
                                    ws: seq<real>): (p: real)
    requires cal.Valid() && 0.0 < a
    ensures 0.0 <= p
  {
    match Speaker(s, cal, w, a, c1, c2, ws)
    case Ok(spk) => ProbOfBounds(s.utterances, spk, u); ProbOf(s.utterances, spk, u)
    case Err(_) => 0.0
  }

  /**
   * The likelihood of `u` under the speaker of each of the first `n` worlds, in order; a world whose
   * probability under `prior` is zero is never explored, and the first speaker that fails makes the whole fail.
   */
  function Likelihoods<W(==), U(==)>(s: Scenario<W, U>, cal: Calculus, u: U, a: real, c1: real, c2: real,
                                     ws: seq<real>, prior: seq<real>, n: nat): (r: Result<seq<real>>)
    requires cal.Valid() && 0.0 < a && |prior| == |s.worlds| && n <= |prior|
    ensures r.Ok? <==> forall i | 0 <= i < n && prior[i] != 0.0 :: Speaker(s, cal, s.worlds[i], a, c1, c2, ws).Ok?
    ensures r.Ok? ==> |r.value| == n
    ensures r.Ok? ==> forall i | 0 <= i < n ::
      r.value[i] == if prior[i] == 0.0 then 0.0 else Likelihood(s, cal, s.worlds[i], u, a, c1, c2, ws)
    ensures r.Err? ==> exists i | 0 <= i < n && prior[i] != 0.0 :: Speaker(s, cal, s.worlds[i], a, c1, c2, ws) == Err(r.error)
  {
    if n == 0 then Ok([])
    else
      var earlier :- Likelihoods(s, cal, u, a, c1, c2, ws, prior, n - 1);
      var last :- if prior[n - 1] == 0.0 then Ok(0.0) else
        var spk :- Speaker(s, cal, s.worlds[n - 1], a, c1, c2, ws);
        Ok(ProbOf(s.utterances, spk, u));
      Ok(earlier + [last])
  }

  /** Prior times likelihood, world by world. */
  function Joint(prior: seq<real>, lik: seq<real>): (r: seq<real>)
    requires |prior| == |lik|
    ensures |r| == |prior|
    ensures NonNegative(prior) && NonNegative(lik) ==> NonNegative(r)
    ensures NonNegative(prior) && NonNegative(lik) ==>
      forall i | 0 <= i < |r| :: 0.0 < r[i] <==> 0.0 < prior[i] && 0.0 < lik[i]
  {
    var r := seq(|prior|, i requires 0 <= i < |prior| => prior[i] * lik[i]);
    assert NonNegative(prior) && NonNegative(lik) ==>
      NonNegative(r) && forall i | 0 <= i < |r| :: 0.0 < r[i] <==> 0.0 < prior[i] && 0.0 < lik[i]
    by {
      if NonNegative(prior) && NonNegative(lik) {
        forall i | 0 <= i < |prior| ensures 0.0 <= r[i] && (0.0 < r[i] <==> 0.0 < prior[i] && 0.0 < lik[i]) {
          ProductOfNonNegatives(prior[i], lik[i]);
        }
      }
    }
    r
  }

  /** The pragmatic listener: the world draw, updated by the speaker's probability of saying `u`. */
  function PragmaticListener<W(==), U(==)>(s: Scenario<W, U>, cal: Calculus, u: U, a: real, c1: real, c2: real,
                                           ws: seq<real>): (r: Result<seq<real>>)
    requires cal.Valid() && 0.0 < a
    ensures r.Ok? ==> |r.value| == |s.worlds| && NonNegative(r.value)
  {
    var prior :- PriorDistribution(s, ws);
    var lik :- Likelihoods(s, cal, u, a, c1, c2, ws, prior, |prior|);
    assert NonNegative(lik) by {
      forall i | 0 <= i < |lik| ensures 0.0 <= lik[i] {
        if prior[i] != 0.0 {
          assert lik[i] == Likelihood(s, cal, s.worlds[i], u, a, c1, c2, ws);
        }
      }
    }
    Enumerate(Joint(prior, lik), UnreachableUtterance)
  }

  /** The likelihood of `u` under the speaker of every world. */
  function LikelihoodOfEach<W(==), U(==)>(s: Scenario<W, U>, cal: Calculus, u: U, a: real, c1: real, c2: real,
                                          ws: seq<real>): (r: seq<real>)
    requires cal.Valid() && 0.0 < a
    ensures |r| == |s.worlds| && NonNegative(r)
    ensures forall i | 0 <= i < |r| :: r[i] == Likelihood(s, cal, s.worlds[i], u, a, c1, c2, ws)
  {
    var r := seq(|s.worlds|, i requires 0 <= i < |s.worlds| => Likelihood(s, cal, s.worlds[i], u, a, c1, c2, ws));
    assert NonNegative(r) by {
      forall i | 0 <= i < |s.worlds| ensures 0.0 <= r[i] {
        assert r[i] == Likelihood(s, cal, s.worlds[i], u, a, c1, c2, ws);
      }
    }
    r
  }

  /** Prior weight times the likelihood of `u`, world by world: the unnormalised Bayesian posterior. */
  function BayesWeights<W(==), U(==)>(s: Scenario<W, U>, cal: Calculus, u: U, a: real, c1: real, c2: real,
                                      ws: seq<real>): (r: seq<real>)
    requires cal.Valid() && 0.0 < a && |ws| == |s.worlds| && NonNegative(ws)
    ensures |r| == |ws| && NonNegative(r)
  {
    Joint(ws, LikelihoodOfEach(s, cal, u, a, c1, c2, ws))
  }
}
