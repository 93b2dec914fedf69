/**
 * Laws of the speaker's likelihood and of the pragmatic listener: a Bayesian update of the world draw
 * by the probability that each world's speaker says the observed utterance.
 */
module PragmaticLaws {
  import opened Outcomes
  import opened Enumeration
  import opened Rsa
  import opened LiteralLaws
  import opened SpeakerLaws

  /** The likelihood of an utterance is a probability. */
  lemma LikelihoodIsProbability<W, U>(s: Scenario<W, U>, cal: Calculus, w: W, u: U, a: real, c1: real,
                                      c2: real, ws: seq<real>)
    requires cal.Valid() && 0.0 < a
    ensures 0.0 <= Likelihood(s, cal, w, u, a, c1, c2, ws) <= 1.0
  {
    var sp := Speaker(s, cal, w, a, c1, c2, ws);
    if sp.Ok? {
      SpeakerIsDistribution(s, cal, w, a, c1, c2, ws);
      ProbOfBounds(s.utterances, sp.value, u);
    }
  }

  /** A speaker never says what is false of its world. */
  lemma LikelihoodOfFalsehood<W, U>(s: Scenario<W, U>, cal: Calculus, w: W, u: U, a: real, c1: real,
                                    c2: real, ws: seq<real>)
    requires cal.Valid() && 0.0 < a && !s.meaning(u, w)
    ensures Likelihood(s, cal, w, u, a, c1, c2, ws) == 0.0
  {
    var sp := Speaker(s, cal, w, a, c1, c2, ws);
    if sp.Ok? {
      forall j | 0 <= j < |s.utterances| && s.utterances[j] == u ensures sp.value[j] == 0.0 {
        SpeakerAvoidsFalsehood(s, cal, w, a, c1, c2, ws, j);
      }
      ProbOfZero(s.utterances, sp.value, u);
    }
  }

  /** A speaker whose world the prior allows says every utterance of the vocabulary true of it with positive probability. */
  lemma LikelihoodOfTruth<W, U>(s: Scenario<W, U>, cal: Calculus, w: W, u: U, a: real, c1: real,
                                c2: real, ws: seq<real>)
    requires cal.Valid() && 0.0 < a && Speaker(s, cal, w, a, c1, c2, ws).Ok?
    requires s.meaning(u, w) && u in s.utterances && PriorAllows(s, ws, w)
    ensures 0.0 < Likelihood(s, cal, w, u, a, c1, c2, ws)
  {
    var sp := Speaker(s, cal, w, a, c1, c2, ws).value;
    var j :| 0 <= j < |s.utterances| && s.utterances[j] == u;
    SpeakerPositive(s, cal, w, a, c1, c2, ws, j);
    ProbOfBounds(s.utterances, sp, u);
  }

  /** (x * q) * y == (x * y) * q */
  lemma Rearrange(x: real, q: real, y: real)
    ensures (x * q) * y == (x * y) * q
  {
  }

  /**
   * Weighing a scaled prior by likelihoods that are skipped (zero) exactly where that prior vanishes gives
   * the scaled product of the unscaled prior and the likelihoods.
   */
  lemma JointOfScaledPrior(ws: seq<real>, q: real, lik: seq<real>, lw: seq<real>)
    requires q != 0.0 && |lik| == |ws| && |lw| == |ws|
    requires forall i | 0 <= i < |ws| :: lik[i] == if Scale(ws, q)[i] == 0.0 then 0.0 else lw[i]
    ensures Joint(Scale(ws, q), lik) == Scale(Joint(ws, lw), q)
  {
    var lhs, rhs := Joint(Scale(ws, q), lik), Scale(Joint(ws, lw), q);
    forall i | 0 <= i < |ws| ensures lhs[i] == rhs[i] {
      ZeroProduct(ws[i], q);
      Rearrange(ws[i], q, lw[i]);
    }
  }

  /** The pragmatic listener answers only for a valid prior and only when every world it allows has a speaker. */
  lemma PragmaticListenerNeeds<W, U>(s: Scenario<W, U>, cal: Calculus, u: U, a: real, c1: real,
                                     c2: real, ws: seq<real>)
    requires cal.Valid() && 0.0 < a
    requires PragmaticListener(s, cal, u, a, c1, c2, ws).Ok?
    ensures ValidPrior(s, ws)
    ensures forall i | 0 <= i < |ws| && 0.0 < ws[i] :: Speaker(s, cal, s.worlds[i], a, c1, c2, ws).Ok?
  {
    PriorIsScaled(s, ws);
    InversePositive(Sum(ws));
    ScalePositive(ws, 1.0 / Sum(ws));
  }

  /**
   * The pragmatic listener is a Bayesian update: once the prior is valid and every world it allows has a
   * speaker, it is the enumeration of prior weight times likelihood. So it fails, for an unreachable
   * utterance, exactly when that product vanishes in every world, and otherwise it is that product normalised.
   */
  lemma PragmaticIsBayesUpdate<W, U>(s: Scenario<W, U>, cal: Calculus, u: U, a: real, c1: real,
                                     c2: real, ws: seq<real>)
    requires cal.Valid() && 0.0 < a && ValidPrior(s, ws)
    requires forall i | 0 <= i < |ws| && 0.0 < ws[i] :: Speaker(s, cal, s.worlds[i], a, c1, c2, ws).Ok?
    ensures PragmaticListener(s, cal, u, a, c1, c2, ws)
         == Enumerate(BayesWeights(s, cal, u, a, c1, c2, ws), UnreachableUtterance)
  {
    var q := 1.0 / Sum(ws);
    PriorIsScaled(s, ws);
    InversePositive(Sum(ws));
    ScalePositive(ws, q);
    var prior := Scale(ws, q);
    var lr := Likelihoods(s, cal, u, a, c1, c2, ws, prior, |prior|);
    assert lr.Ok?;
    var lw := LikelihoodOfEach(s, cal, u, a, c1, c2, ws);
    JointOfScaledPrior(ws, q, lr.value, lw);
    EnumerateScale(BayesWeights(s, cal, u, a, c1, c2, ws), q, UnreachableUtterance);
  }

  /** Whenever it has an answer, the pragmatic listener is a probability distribution over the worlds. */
  lemma PragmaticListenerIsDistribution<W, U>(s: Scenario<W, U>, cal: Calculus, u: U, a: real, c1: real,
                                              c2: real, ws: seq<real>)
    requires cal.Valid() && 0.0 < a
    requires PragmaticListener(s, cal, u, a, c1, c2, ws).Ok?
    ensures IsDistribution(PragmaticListener(s, cal, u, a, c1, c2, ws).value)
  {
    PragmaticListenerNeeds(s, cal, u, a, c1, c2, ws);
    PragmaticIsBayesUpdate(s, cal, u, a, c1, c2, ws);
    EnumerateIsDistribution(BayesWeights(s, cal, u, a, c1, c2, ws), UnreachableUtterance);
  }

  /** The pragmatic listener gives zero mass to every world where the observed utterance is false. */
  lemma PragmaticZeroWhereFalse<W, U>(s: Scenario<W, U>, cal: Calculus, u: U, a: real, c1: real,
                                      c2: real, ws: seq<real>, i: int)
    requires cal.Valid() && 0.0 < a
    requires PragmaticListener(s, cal, u, a, c1, c2, ws).Ok?
    requires 0 <= i < |s.worlds| && !s.meaning(u, s.worlds[i])
    ensures PragmaticListener(s, cal, u, a, c1, c2, ws).value[i] == 0.0
  {
    PragmaticListenerNeeds(s, cal, u, a, c1, c2, ws);
    PragmaticIsBayesUpdate(s, cal, u, a, c1, c2, ws);
    var bw := BayesWeights(s, cal, u, a, c1, c2, ws);
    assert bw[i] == 0.0 by {
      LikelihoodOfFalsehood(s, cal, s.worlds[i], u, a, c1, c2, ws);
    }
  }

  /**
   * The pragmatic listener gives positive mass to every world the prior allows where the observed utterance,
   * a member of the vocabulary, is true.
   */
  lemma PragmaticPositive<W, U>(s: Scenario<W, U>, cal: Calculus, u: U, a: real, c1: real,
                                c2: real, ws: seq<real>, i: int)
    requires cal.Valid() && 0.0 < a
    requires PragmaticListener(s, cal, u, a, c1, c2, ws).Ok?
    requires 0 <= i < |s.worlds| && 0.0 < ws[i] && s.meaning(u, s.worlds[i]) && u in s.utterances
    ensures 0.0 < PragmaticListener(s, cal, u, a, c1, c2, ws).value[i]
  {
    PragmaticListenerNeeds(s, cal, u, a, c1, c2, ws);
    var bw := BayesWeights(s, cal, u, a, c1, c2, ws);
    assert PragmaticListener(s, cal, u, a, c1, c2, ws) == Enumerate(bw, UnreachableUtterance) by {
      PragmaticIsBayesUpdate(s, cal, u, a, c1, c2, ws);
    }
    assert 0.0 < bw[i] by {
      LikelihoodOfTruth(s, cal, s.worlds[i], u, a, c1, c2, ws);
    }
  }

  /**
   * Once every literal listener has an answer, every world the prior allows has a speaker, provided some
   * utterance is true of it.
   */
  lemma SpeakersDefined<W, U>(s: Scenario<W, U>, cal: Calculus, a: real, c1: real, c2: real, ws: seq<real>)
    requires cal.Valid() && 0.0 < a && |ws| == |s.worlds|
    requires LiteralListeners(s, ws, |s.utterances|).Ok?
    requires forall i | 0 <= i < |ws| && 0.0 < ws[i] ::
      exists j | 0 <= j < |s.utterances| :: s.meaning(s.utterances[j], s.worlds[i])
    ensures forall i | 0 <= i < |ws| && 0.0 < ws[i] :: Speaker(s, cal, s.worlds[i], a, c1, c2, ws).Ok?
  {
    forall i | 0 <= i < |ws| && 0.0 < ws[i] ensures Speaker(s, cal, s.worlds[i], a, c1, c2, ws).Ok? {
      assert PriorAllows(s, ws, s.worlds[i]);
      SpeakerDefined(s, cal, s.worlds[i], a, c1, c2, ws);
    }
  }

  /**
   * When every world the prior allows has a speaker, the pragmatic listener has an answer for every
   * utterance of the vocabulary true of some world the prior allows.
   */
  lemma PragmaticReachable<W, U>(s: Scenario<W, U>, cal: Calculus, u: U, a: real, c1: real,
                                 c2: real, ws: seq<real>)
    requires cal.Valid() && 0.0 < a && ValidPrior(s, ws)
    requires forall i | 0 <= i < |ws| && 0.0 < ws[i] :: Speaker(s, cal, s.worlds[i], a, c1, c2, ws).Ok?
    requires u in s.utterances && Supported(s, u, ws)
    ensures PragmaticListener(s, cal, u, a, c1, c2, ws).Ok?
  {
    var bw := BayesWeights(s, cal, u, a, c1, c2, ws);
    var i :| 0 <= i < |ws| && s.meaning(u, s.worlds[i]) && 0.0 < ws[i];
    assert 0.0 < bw[i] by {
      LikelihoodOfTruth(s, cal, s.worlds[i], u, a, c1, c2, ws);
    }
    PragmaticIsBayesUpdate(s, cal, u, a, c1, c2, ws);
  }

  /**
   * One utterance of the vocabulary that is false of every world the prior allows makes the speaker of
   * every world fail, so the pragmatic listener fails with it, whatever utterance it hears. In particular
   * a heard vocabulary utterance that no allowed world makes true fails here, before any likelihood.
   */
  lemma PragmaticFailsOnVacuousUtterance<W, U>(s: Scenario<W, U>, cal: Calculus, u: U, a: real, c1: real,
                                               c2: real, ws: seq<real>, j: int)
    requires cal.Valid() && 0.0 < a && ValidPrior(s, ws)
    requires 0 <= j < |s.utterances| && !Supported(s, s.utterances[j], ws)
    ensures PragmaticListener(s, cal, u, a, c1, c2, ws) == Err(InconsistentUtterance)
  {
    var prior := PriorDistribution(s, ws).value;
    PriorIsDistribution(s, ws);
    var k :| 0 <= k < |ws| && 0.0 < ws[k];
    assert prior[k] != 0.0 by {
      assert prior[k] * Sum(ws) == ws[k];
    }
    forall i | 0 <= i < |ws| ensures Speaker(s, cal, s.worlds[i], a, c1, c2, ws) == Err(InconsistentUtterance) {
      SpeakerFailsOnVacuousUtterance(s, cal, s.worlds[i], a, c1, c2, ws, j);
    }
    var lik := Likelihoods(s, cal, u, a, c1, c2, ws, prior, |prior|);
    assert lik.Err?;
  }

  /**
   * When every world the prior allows has a speaker, an observed utterance that is false of all of them
   * is produced by no speaker, and the pragmatic listener fails for lack of likelihood. By
   * `PragmaticFailsOnVacuousUtterance` this happens only for an utterance outside the vocabulary.
   */
  lemma PragmaticUnreachable<W, U>(s: Scenario<W, U>, cal: Calculus, u: U, a: real, c1: real,
                                   c2: real, ws: seq<real>)
    requires cal.Valid() && 0.0 < a && ValidPrior(s, ws)
    requires forall i | 0 <= i < |ws| && 0.0 < ws[i] :: Speaker(s, cal, s.worlds[i], a, c1, c2, ws).Ok?
    requires !Supported(s, u, ws)
    ensures PragmaticListener(s, cal, u, a, c1, c2, ws) == Err(UnreachableUtterance)
  {
    PragmaticIsBayesUpdate(s, cal, u, a, c1, c2, ws);
    var bw := BayesWeights(s, cal, u, a, c1, c2, ws);
    forall i | 0 <= i < |ws| ensures bw[i] == 0.0 {
      if 0.0 < ws[i] {
        LikelihoodOfFalsehood(s, cal, s.worlds[i], u, a, c1, c2, ws);
      }
    }
  }

  /** When a speaker the pragmatic listener consults fails, the pragmatic listener fails for that speaker's reason. */
  lemma PragmaticSpeakerFailure<W, U>(s: Scenario<W, U>, cal: Calculus, u: U, a: real, c1: real,
                                      c2: real, ws: seq<real>)
    requires cal.Valid() && 0.0 < a && PriorDistribution(s, ws).Ok?
    requires Likelihoods(s, cal, u, a, c1, c2, ws, PriorDistribution(s, ws).value, |s.worlds|).Err?
    ensures PragmaticListener(s, cal, u, a, c1, c2, ws).Err?
    ensures PragmaticListener(s, cal, u, a, c1, c2, ws).error in {InvalidPrior, InconsistentUtterance, InexpressibleWorld}
  {
    var prior := PriorDistribution(s, ws).value;
    var lik := Likelihoods(s, cal, u, a, c1, c2, ws, prior, |prior|);
    var i :| 0 <= i < |prior| && prior[i] != 0.0 && Speaker(s, cal, s.worlds[i], a, c1, c2, ws) == Err(lik.error);
    SpeakerFailureCause(s, cal, s.worlds[i], a, c1, c2, ws);
  }

  /** When the likelihoods have an answer, every world the prior allows has a speaker. */
  lemma AllowedSpeakersAnswer<W, U>(s: Scenario<W, U>, cal: Calculus, u: U, a: real, c1: real,
                                    c2: real, ws: seq<real>)
    requires cal.Valid() && 0.0 < a && PriorDistribution(s, ws).Ok?
    requires Likelihoods(s, cal, u, a, c1, c2, ws, PriorDistribution(s, ws).value, |s.worlds|).Ok?
    ensures ValidPrior(s, ws)
    ensures forall i | 0 <= i < |ws| && 0.0 < ws[i] :: Speaker(s, cal, s.worlds[i], a, c1, c2, ws).Ok?
  {
    PriorIsScaled(s, ws);
    InversePositive(Sum(ws));
    ScalePositive(ws, 1.0 / Sum(ws));
  }

  /**
   * A pragmatic listener that hears an utterance of the vocabulary never fails for lack of likelihood:
   * either some speaker it consults fails first, or some allowed world makes the utterance true and its
   * speaker produces it.
   */
  lemma UnreachableOnlyOutsideVocabulary<W, U>(s: Scenario<W, U>, cal: Calculus, u: U, a: real, c1: real,
                                               c2: real, ws: seq<real>)
    requires cal.Valid() && 0.0 < a && u in s.utterances
    ensures PragmaticListener(s, cal, u, a, c1, c2, ws) != Err(UnreachableUtterance)
  {
    var pd := PriorDistribution(s, ws);
    if pd.Ok? {
      if Likelihoods(s, cal, u, a, c1, c2, ws, pd.value, |s.worlds|).Err? {
        PragmaticSpeakerFailure(s, cal, u, a, c1, c2, ws);
      } else {
        AllowedSpeakersAnswer(s, cal, u, a, c1, c2, ws);
        if Supported(s, u, ws) {
          PragmaticReachable(s, cal, u, a, c1, c2, ws);
        } else {
          var j :| 0 <= j < |s.utterances| && s.utterances[j] == u;
          PragmaticFailsOnVacuousUtterance(s, cal, u, a, c1, c2, ws, j);
        }
      }
    }
  }
}
