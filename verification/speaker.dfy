/**
 * Laws of the speaker: a softmax over the utterances of the literal listener's log-probability of
 * the target world, less the utterance's cost.
 */
module SpeakerLaws {
  import opened Outcomes
  import opened Enumeration
  import opened Rsa
  import opened LiteralLaws

  /** exp(a * (log p - c)) does not decrease when p grows or c shrinks, for a > 0. */
  lemma SpeakerFactorMonotone(cal: Calculus, a: real, p: real, c: real, q: real, d: real)
    requires cal.Valid() && 0.0 < a
    requires 0.0 <= q <= p && c <= d
    ensures SpeakerFactor(cal, a, q, d) <= SpeakerFactor(cal, a, p, c)
  {
    if q != 0.0 {
      assert cal.ln(q) <= cal.ln(p);
      assert cal.ln(q) - d <= cal.ln(p) - c;
      MultiplyMonotone(a, cal.ln(q) - d, cal.ln(p) - c);
      var x, y := a * (cal.ln(q) - d), a * (cal.ln(p) - c);
      if x < y {
        assert cal.exp(x) < cal.exp(y);
      }
    }
  }

  /**
   * Once every literal listener has an answer, the speaker is the enumeration of the softmax scores:
   * the uniform draw over the utterances contributes a common factor that normalisation cancels.
   */
  lemma SpeakerIsSoftmax<W, U>(s: Scenario<W, U>, cal: Calculus, t: W, a: real, c1: real, c2: real,
                               ws: seq<real>)
    requires cal.Valid() && 0.0 < a
    requires LiteralListeners(s, ws, |s.utterances|).Ok?
    ensures Speaker(s, cal, t, a, c1, c2, ws)
         == Enumerate(SpeakerScores(s, cal, t, a, c1, c2, LiteralListeners(s, ws, |s.utterances|).value),
                      InexpressibleWorld)
  {
    var n := |s.utterances|;
    var scores := SpeakerScores(s, cal, t, a, c1, c2, LiteralListeners(s, ws, n).value);
    if n != 0 {
      InversePositive(n as real);
      EnumerateScale(scores, 1.0 / n as real, InexpressibleWorld);
    }
  }

  /** The score of the `j`-th utterance, in terms of its literal listener's probability of the target. */
  lemma SpeakerScoreAt<W, U>(s: Scenario<W, U>, cal: Calculus, t: W, a: real, c1: real, c2: real,
                             ws: seq<real>, j: int)
    requires cal.Valid() && 0.0 < a
    requires LiteralListeners(s, ws, |s.utterances|).Ok? && 0 <= j < |s.utterances|
    ensures LiteralListener(s, s.utterances[j], ws).Ok?
    ensures SpeakerScores(s, cal, t, a, c1, c2, LiteralListeners(s, ws, |s.utterances|).value)[j]
         == SpeakerFactor(cal, a, ListenerProb(s, s.utterances[j], ws, t), s.cost(s.utterances[j], c1, c2))
  {
    var l0s := LiteralListeners(s, ws, |s.utterances|).value;
    assert l0s[j] == LiteralListener(s, s.utterances[j], ws).value;
  }

  /** The speaker has an answer only when every utterance's literal listener has one. */
  lemma SpeakerNeedsListeners<W, U>(s: Scenario<W, U>, cal: Calculus, t: W, a: real, c1: real, c2: real,
                                    ws: seq<real>)
    requires cal.Valid() && 0.0 < a
    requires Speaker(s, cal, t, a, c1, c2, ws).Ok?
    ensures LiteralListeners(s, ws, |s.utterances|).Ok?
    ensures forall j | 0 <= j < |s.utterances| :: LiteralListener(s, s.utterances[j], ws).Ok?
  {
  }

  /** Whenever it has an answer, the speaker is a probability distribution over the utterances. */
  lemma SpeakerIsDistribution<W, U>(s: Scenario<W, U>, cal: Calculus, t: W, a: real, c1: real, c2: real,
                                    ws: seq<real>)
    requires cal.Valid() && 0.0 < a
    requires Speaker(s, cal, t, a, c1, c2, ws).Ok?
    ensures IsDistribution(Speaker(s, cal, t, a, c1, c2, ws).value)
  {
    var l0s := LiteralListeners(s, ws, |s.utterances|).value;
    SpeakerIsSoftmax(s, cal, t, a, c1, c2, ws);
    EnumerateIsDistribution(SpeakerScores(s, cal, t, a, c1, c2, l0s), InexpressibleWorld);
  }

  /** The speaker never says what is false of the target world: its log-score is minus infinity. */
  lemma SpeakerAvoidsFalsehood<W, U>(s: Scenario<W, U>, cal: Calculus, t: W, a: real, c1: real, c2: real,
                                     ws: seq<real>, j: int)
    requires cal.Valid() && 0.0 < a
    requires Speaker(s, cal, t, a, c1, c2, ws).Ok? && 0 <= j < |s.utterances|
    requires !s.meaning(s.utterances[j], t)
    ensures Speaker(s, cal, t, a, c1, c2, ws).value[j] == 0.0
  {
    SpeakerIsSoftmax(s, cal, t, a, c1, c2, ws);
    SpeakerScoreAt(s, cal, t, a, c1, c2, ws, j);
    ListenerProbOfFalsehood(s, s.utterances[j], ws, t);
  }

  /** For a target the prior allows, every utterance true of it gets positive speaker probability. */
  lemma SpeakerPositive<W, U>(s: Scenario<W, U>, cal: Calculus, t: W, a: real, c1: real, c2: real,
                              ws: seq<real>, j: int)
    requires cal.Valid() && 0.0 < a
    requires Speaker(s, cal, t, a, c1, c2, ws).Ok? && 0 <= j < |s.utterances|
    requires s.meaning(s.utterances[j], t) && PriorAllows(s, ws, t)
    ensures 0.0 < Speaker(s, cal, t, a, c1, c2, ws).value[j]
  {
    SpeakerIsSoftmax(s, cal, t, a, c1, c2, ws);
    SpeakerScoreAt(s, cal, t, a, c1, c2, ws, j);
    ListenerProbPositive(s, s.utterances[j], ws, t);
  }

  /**
   * Softmax preference: an utterance that the literal listener reads as no less likely to mean the target,
   * and that costs no more, gets no less speaker probability.
   */
  lemma SpeakerPrefers<W, U>(s: Scenario<W, U>, cal: Calculus, t: W, a: real, c1: real, c2: real,
                             ws: seq<real>, j: int, k: int)
    requires cal.Valid() && 0.0 < a
    requires Speaker(s, cal, t, a, c1, c2, ws).Ok?
    requires 0 <= j < |s.utterances| && 0 <= k < |s.utterances|
    requires ListenerProb(s, s.utterances[k], ws, t) <= ListenerProb(s, s.utterances[j], ws, t)
    requires s.cost(s.utterances[j], c1, c2) <= s.cost(s.utterances[k], c1, c2)
    ensures Speaker(s, cal, t, a, c1, c2, ws).value[k] <= Speaker(s, cal, t, a, c1, c2, ws).value[j]
  {
    var l0s := LiteralListeners(s, ws, |s.utterances|).value;
    var scores := SpeakerScores(s, cal, t, a, c1, c2, l0s);
    SpeakerIsSoftmax(s, cal, t, a, c1, c2, ws);
    SpeakerScoreAt(s, cal, t, a, c1, c2, ws, j);
    SpeakerScoreAt(s, cal, t, a, c1, c2, ws, k);
    var uj, uk := s.utterances[j], s.utterances[k];
    SpeakerFactorMonotone(cal, a, ListenerProb(s, uj, ws, t), s.cost(uj, c1, c2),
                          ListenerProb(s, uk, ws, t), s.cost(uk, c1, c2));
    NormalizeMonotone(scores, j, k);
  }

  /** Every literal listener has an answer when every utterance is true of some world a valid prior allows. */
  lemma ListenersDefined<W, U>(s: Scenario<W, U>, ws: seq<real>)
    requires ValidPrior(s, ws)
    requires forall j | 0 <= j < |s.utterances| :: Supported(s, s.utterances[j], ws)
    ensures LiteralListeners(s, ws, |s.utterances|).Ok?
  {
    forall j | 0 <= j < |s.utterances| ensures LiteralListener(s, s.utterances[j], ws).Ok? {
      LiteralListenerIsConditioning(s, s.utterances[j], ws);
    }
  }

  /**
   * Once every literal listener has an answer, the speaker has one for every target the prior allows
   * that some utterance is true of.
   */
  lemma SpeakerDefined<W, U>(s: Scenario<W, U>, cal: Calculus, t: W, a: real, c1: real, c2: real,
                             ws: seq<real>)
    requires cal.Valid() && 0.0 < a
    requires LiteralListeners(s, ws, |s.utterances|).Ok?
    requires PriorAllows(s, ws, t) && exists j | 0 <= j < |s.utterances| :: s.meaning(s.utterances[j], t)
    ensures Speaker(s, cal, t, a, c1, c2, ws).Ok?
  {
    var j :| 0 <= j < |s.utterances| && s.meaning(s.utterances[j], t);
    SpeakerIsSoftmax(s, cal, t, a, c1, c2, ws);
    SpeakerScoreAt(s, cal, t, a, c1, c2, ws, j);
    ListenerProbPositive(s, s.utterances[j], ws, t);
  }

  /**
   * The speaker fails as soon as one utterance is false of every world the prior allows: that utterance's
   * literal listener fails, and the speaker runs it.
   */
  lemma SpeakerFailsOnVacuousUtterance<W, U>(s: Scenario<W, U>, cal: Calculus, t: W, a: real, c1: real,
                                             c2: real, ws: seq<real>, j: int)
    requires cal.Valid() && 0.0 < a && ValidPrior(s, ws)
    requires 0 <= j < |s.utterances| && !Supported(s, s.utterances[j], ws)
    ensures Speaker(s, cal, t, a, c1, c2, ws) == Err(InconsistentUtterance)
  {
    forall k | 0 <= k < |s.utterances|
      ensures LiteralListener(s, s.utterances[k], ws).Err? ==> LiteralListener(s, s.utterances[k], ws).error == InconsistentUtterance
    {
      LiteralListenerIsConditioning(s, s.utterances[k], ws);
    }
    LiteralListenerIsConditioning(s, s.utterances[j], ws);
  }

  /** When every literal listener has an answer but no utterance is true of the target, the speaker fails. */
  lemma SpeakerInexpressible<W, U>(s: Scenario<W, U>, cal: Calculus, t: W, a: real, c1: real, c2: real,
                                   ws: seq<real>)
    requires cal.Valid() && 0.0 < a
    requires LiteralListeners(s, ws, |s.utterances|).Ok?
    requires forall j | 0 <= j < |s.utterances| :: !s.meaning(s.utterances[j], t)
    ensures Speaker(s, cal, t, a, c1, c2, ws) == Err(InexpressibleWorld)
  {
    var scores := SpeakerScores(s, cal, t, a, c1, c2, LiteralListeners(s, ws, |s.utterances|).value);
    forall j | 0 <= j < |s.utterances| ensures scores[j] == 0.0 {
      SpeakerScoreAt(s, cal, t, a, c1, c2, ws, j);
      ListenerProbOfFalsehood(s, s.utterances[j], ws, t);
    }
    SpeakerIsSoftmax(s, cal, t, a, c1, c2, ws);
  }

  /**
   * The speaker fails only for one of its own reasons: an invalid world draw or a vacuous utterance in a
   * literal listener it runs, or a target no utterance reaches. It never reports an unreachable utterance.
   */
  lemma SpeakerFailureCause<W, U>(s: Scenario<W, U>, cal: Calculus, t: W, a: real, c1: real, c2: real,
                                  ws: seq<real>)
    requires cal.Valid() && 0.0 < a
    requires Speaker(s, cal, t, a, c1, c2, ws).Err?
    ensures Speaker(s, cal, t, a, c1, c2, ws).error in {InvalidPrior, InconsistentUtterance, InexpressibleWorld}
  {
    var l0s := LiteralListeners(s, ws, |s.utterances|);
    if l0s.Err? {
      var j :| 0 <= j < |s.utterances| && LiteralListener(s, s.utterances[j], ws) == Err(l0s.error);
    }
  }
}
