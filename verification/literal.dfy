/**
 * Laws of the literal listener: it is hard conditioning of the normalised prior on an utterance's
 * literal meaning.
 */
module LiteralLaws {
  import opened Outcomes
  import opened Enumeration
  import opened Rsa

  /** A valid prior, normalised, is the prior scaled by the inverse of its total. */
  lemma PriorIsScaled<W, U>(s: Scenario<W, U>, ws: seq<real>)
    requires ValidPrior(s, ws)
    ensures 0.0 < Sum(ws)
    ensures PriorDistribution(s, ws) == Ok(Scale(ws, 1.0 / Sum(ws)))
  {
    var i :| 0 <= i < |ws| && 0.0 < ws[i];
    SumAtLeast(ws, i);
  }

  /** The world draw is a probability distribution whenever it has an answer. */
  lemma PriorIsDistribution<W, U>(s: Scenario<W, U>, ws: seq<real>)
    requires PriorDistribution(s, ws).Ok?
    ensures IsDistribution(PriorDistribution(s, ws).value)
    ensures forall i | 0 <= i < |ws| :: PriorDistribution(s, ws).value[i] * Sum(ws) == ws[i]
  {
    assert PriorDistribution(s, ws) == Enumerate(ws, InvalidPrior);
    EnumerateIsDistribution(ws, InvalidPrior);
    EnumerateProportional(ws, InvalidPrior);
  }

  /** Conditioning commutes with scaling. */
  lemma ConditionScale<W, U>(s: Scenario<W, U>, u: U, ws: seq<real>, k: real)
    requires |ws| == |s.worlds|
    ensures Condition(s, u, Scale(ws, k)) == Scale(Condition(s, u, ws), k)
  {
    var lhs, rhs := Condition(s, u, Scale(ws, k)), Scale(Condition(s, u, ws), k);
    forall i | 0 <= i < |ws| ensures lhs[i] == rhs[i] {
    }
  }

  /** The literal listener enumerates the prior weights conditioned on `u`: normalising the prior first changes nothing. */
  lemma LiteralListenerEnumeratesCondition<W, U>(s: Scenario<W, U>, u: U, ws: seq<real>)
    requires ValidPrior(s, ws)
    ensures LiteralListener(s, u, ws) == Enumerate(Condition(s, u, ws), InconsistentUtterance)
  {
    PriorIsScaled(s, ws);
    InversePositive(Sum(ws));
    ConditionScale(s, u, ws, 1.0 / Sum(ws));
    EnumerateScale(Condition(s, u, ws), 1.0 / Sum(ws), InconsistentUtterance);
  }

  /**
   * The literal listener is hard conditioning of the prior on the meaning of `u`: it fails exactly when
   * the prior gives no weight to a world where `u` is true, and otherwise gives positive probability
   * exactly to the worlds the prior allows where `u` is true.
   */
  lemma LiteralListenerIsConditioning<W, U>(s: Scenario<W, U>, u: U, ws: seq<real>)
    requires ValidPrior(s, ws)
    ensures var r := LiteralListener(s, u, ws);
      && (r.Ok? <==> Supported(s, u, ws))
      && (r.Err? ==> r.error == InconsistentUtterance)
      && (r.Ok? ==> 0.0 < Mass(s, u, ws))
      && (r.Ok? ==> forall i | 0 <= i < |ws| :: 0.0 < r.value[i] <==> s.meaning(u, s.worlds[i]) && 0.0 < ws[i])
  {
    LiteralListenerEnumeratesCondition(s, u, ws);
    var cw := Condition(s, u, ws);
    if Supported(s, u, ws) {
      var i :| 0 <= i < |ws| && s.meaning(u, s.worlds[i]) && 0.0 < ws[i];
      assert 0.0 < cw[i];
    } else {
      forall i | 0 <= i < |ws| ensures cw[i] == 0.0 {
        assert !(s.meaning(u, s.worlds[i]) && 0.0 < ws[i]);
      }
    }
  }

  /** Without a valid prior the literal listener fails, with the world draw's own error. */
  lemma LiteralListenerNeedsPrior<W, U>(s: Scenario<W, U>, u: U, ws: seq<real>)
    requires !ValidPrior(s, ws)
    ensures LiteralListener(s, u, ws) == Err(InvalidPrior)
  {
  }

  /**
   * Bayes' rule for hard conditioning: the literal listener's probability of a world, times the prior
   * mass of the worlds where `u` is true, is the world's prior weight if `u` is true there and zero if not.
   */
  lemma LiteralListenerAt<W, U>(s: Scenario<W, U>, u: U, ws: seq<real>, i: int)
    requires ValidPrior(s, ws) && LiteralListener(s, u, ws).Ok? && 0 <= i < |ws|
    ensures LiteralListener(s, u, ws).value[i] * Mass(s, u, ws) == if s.meaning(u, s.worlds[i]) then ws[i] else 0.0
  {
    var cw := Condition(s, u, ws);
    LiteralListenerEnumeratesCondition(s, u, ws);
    EnumerateAt(cw, InconsistentUtterance, i, LiteralListener(s, u, ws).value[i], Mass(s, u, ws),
                     if s.meaning(u, s.worlds[i]) then ws[i] else 0.0);
  }

  /** Whenever it has an answer, the literal listener is a probability distribution over the worlds. */
  lemma LiteralListenerIsDistribution<W, U>(s: Scenario<W, U>, u: U, ws: seq<real>)
    requires LiteralListener(s, u, ws).Ok?
    ensures IsDistribution(LiteralListener(s, u, ws).value)
  {
    var prior := PriorDistribution(s, ws).value;
    EnumerateIsDistribution(Condition(s, u, prior), InconsistentUtterance);
  }

  /** Conditioning on an utterance true of every world leaves the world draw unchanged. */
  lemma LiteralListenerOfTautology<W, U>(s: Scenario<W, U>, u: U, ws: seq<real>)
    requires forall i | 0 <= i < |s.worlds| :: s.meaning(u, s.worlds[i])
    ensures LiteralListener(s, u, ws) == PriorDistribution(s, ws)
  {
    var p := PriorDistribution(s, ws);
    if p.Ok? {
      var prior := p.value;
      assert Condition(s, u, prior) == prior;
      PriorIsDistribution(s, ws);
      InversePositive(1.0);
      EnumerateScale(prior, 1.0, InconsistentUtterance);
      assert Scale(prior, 1.0) == prior;
      NormalizeScale(prior, 1.0);
    }
  }

  /** An utterance true of exactly one world, which the prior allows, makes the literal listener certain of it. */
  lemma LiteralListenerCertain<W, U>(s: Scenario<W, U>, u: U, ws: seq<real>, k: int)
    requires ValidPrior(s, ws) && 0 <= k < |s.worlds| && 0.0 < ws[k]
    requires forall i | 0 <= i < |s.worlds| :: s.meaning(u, s.worlds[i]) <==> i == k
    ensures LiteralListener(s, u, ws).Ok?
    ensures forall i | 0 <= i < |s.worlds| :: LiteralListener(s, u, ws).value[i] == if i == k then 1.0 else 0.0
  {
    LiteralListenerIsConditioning(s, u, ws);
    LiteralListenerIsDistribution(s, u, ws);
    var r := LiteralListener(s, u, ws).value;
    SumOfSingle(r, k);
  }

  /** The literal listener gives positive probability to a world the prior allows and the utterance is true of. */
  lemma ListenerProbPositive<W, U>(s: Scenario<W, U>, u: U, ws: seq<real>, t: W)
    requires LiteralListener(s, u, ws).Ok? && s.meaning(u, t) && PriorAllows(s, ws, t)
    ensures 0.0 < ListenerProb(s, u, ws, t)
  {
    var i :| 0 <= i < |ws| && s.worlds[i] == t && 0.0 < ws[i];
    LiteralListenerIsConditioning(s, u, ws);
    var l0 := LiteralListener(s, u, ws).value;
    assert 0.0 < l0[i];
    ProbOfBounds(s.worlds, l0, t);
  }

  /** The literal listener gives zero probability to a world the utterance is false of. */
  lemma ListenerProbOfFalsehood<W, U>(s: Scenario<W, U>, u: U, ws: seq<real>, t: W)
    requires !s.meaning(u, t)
    ensures ListenerProb(s, u, ws, t) == 0.0
  {
    if LiteralListener(s, u, ws).Ok? {
      LiteralListenerIsConditioning(s, u, ws);
      ProbOfZero(s.worlds, LiteralListener(s, u, ws).value, t);
    }
  }
}
