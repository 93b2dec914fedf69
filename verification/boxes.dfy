/**
 * The boxes scenario: three worlds (which of a chair and a footstool are present, at least one being),
 * five utterances, and a world draw given by one weight per world.
 */
module Boxes {
  import opened Outcomes
  import opened Enumeration
  import opened Rsa
  import opened LiteralLaws
  import opened SpeakerLaws
  import opened PragmaticLaws

  datatype World = World(chair: bool, footstool: bool)

  /** "c", "f", "c&f", "c_not_f" and "f_not_c". */
  datatype Utterance = C | F | CAndF | CNotF | FNotC

  /** The worlds in the order of the world draw: both, only the chair, only the footstool. */
  const Worlds: seq<World> := [World(true, true), World(true, false), World(false, true)]

  const Utterances: seq<Utterance> := [C, F, CAndF, CNotF, FNotC]

  /** The bare nouns are free, the conjunction costs `c1` and the two contrasts cost `c2`. */
  function Cost(u: Utterance, c1: real, c2: real): (r: real)
    ensures u == C || u == F ==> r == 0.0
    ensures 0.0 <= c1 && 0.0 <= c2 ==> 0.0 <= r
    ensures r == 0.0 || r == c1 || r == c2
  {
    match u
    case C | F => 0.0
    case CAndF => c1
    case CNotF | FNotC => c2
  }

  function Meaning(u: Utterance, w: World): (b: bool)
  {
    match u
    case C => w.chair
    case F => w.footstool
    case CAndF => w.chair && w.footstool
    case CNotF => w.chair && !w.footstool
    case FNotC => w.footstool && !w.chair
  }

  /** "c" is false only where the chair is missing, "f" only where the footstool is. */
  lemma MeaningOfNouns()
    ensures forall i | 0 <= i < |Worlds| :: Meaning(C, Worlds[i]) <==> i != 2
    ensures forall i | 0 <= i < |Worlds| :: Meaning(F, Worlds[i]) <==> i != 1
  {
  }

  predicate IsCompound(u: Utterance)
  {
    u == CAndF || u == CNotF || u == FNotC
  }

  /** The one world a compound utterance is true of. */
  function Referent(u: Utterance): (k: nat)
    requires IsCompound(u)
    ensures k < |Worlds|
    ensures forall i | 0 <= i < |Worlds| :: Meaning(u, Worlds[i]) <==> i == k
  {
    match u
    case CAndF => 0
    case CNotF => 1
    case FNotC => 2
  }

  function Scenario(): (sc: Scenario<World, Utterance>)
  {
    Rsa.Scenario(Worlds, Utterances, Meaning, Cost)
  }

  /**
   * Hearing a compound utterance, the literal listener is certain of the one world it is true of,
   * whenever the world draw gives that world positive weight.
   */
  lemma LiteralCompoundCertain(u: Utterance, prior: seq<real>)
    requires IsCompound(u) && |prior| == |Worlds| && NonNegative(prior) && 0.0 < prior[Referent(u)]
    ensures LiteralListener(Scenario(), u, prior).Ok?
    ensures forall i | 0 <= i < |Worlds| :: LiteralListener(Scenario(), u, prior).value[i] == if i == Referent(u) then 1.0 else 0.0
  {
    LiteralListenerCertain(Scenario(), u, prior, Referent(u));
  }

  /**
   * Hearing "f", the pragmatic listener rules out the world with only a chair and keeps every footstool
   * world the world draw allows.
   */
  lemma ObservingFootstool(cal: Calculus, a: real, c1: real, c2: real, prior: seq<real>)
    requires cal.Valid() && 0.0 < a
    requires PragmaticListener(Scenario(), cal, F, a, c1, c2, prior).Ok?
    ensures var r := PragmaticListener(Scenario(), cal, F, a, c1, c2, prior).value;
      && r[1] == 0.0
      && (0.0 < prior[0] ==> 0.0 < r[0])
      && (0.0 < prior[2] ==> 0.0 < r[2])
  {
    MeaningOfNouns();
    PragmaticListenerNeeds(Scenario(), cal, F, a, c1, c2, prior);
    PragmaticZeroWhereFalse(Scenario(), cal, F, a, c1, c2, prior, 1);
    assert F in Utterances;
    if 0.0 < prior[0] {
      PragmaticPositive(Scenario(), cal, F, a, c1, c2, prior, 0);
    }
    if 0.0 < prior[2] {
      PragmaticPositive(Scenario(), cal, F, a, c1, c2, prior, 2);
    }
  }

  /**
   * Hearing "c", the pragmatic listener rules out the world with only a footstool and keeps every chair
   * world the world draw allows.
   */
  lemma ObservingChair(cal: Calculus, a: real, c1: real, c2: real, prior: seq<real>)
    requires cal.Valid() && 0.0 < a
    requires PragmaticListener(Scenario(), cal, C, a, c1, c2, prior).Ok?
    ensures var r := PragmaticListener(Scenario(), cal, C, a, c1, c2, prior).value;
      && r[2] == 0.0
      && (0.0 < prior[0] ==> 0.0 < r[0])
      && (0.0 < prior[1] ==> 0.0 < r[1])
  {
    MeaningOfNouns();
    PragmaticListenerNeeds(Scenario(), cal, C, a, c1, c2, prior);
    PragmaticZeroWhereFalse(Scenario(), cal, C, a, c1, c2, prior, 2);
    assert C in Utterances;
    if 0.0 < prior[0] {
      PragmaticPositive(Scenario(), cal, C, a, c1, c2, prior, 0);
    }
    if 0.0 < prior[1] {
      PragmaticPositive(Scenario(), cal, C, a, c1, c2, prior, 1);
    }
  }

  /**
   * A world draw that gives every world positive weight is valid, and every utterance is true of some
   * world it allows, so every literal listener has an answer.
   */
  lemma PositivePriorSupportsAll(prior: seq<real>)
    requires |prior| == |Worlds| && 0.0 < prior[0] && 0.0 < prior[1] && 0.0 < prior[2]
    ensures ValidPrior(Scenario(), prior)
    ensures forall j | 0 <= j < |Utterances| :: Supported(Scenario(), Utterances[j], prior)
    ensures LiteralListeners(Scenario(), prior, |Utterances|).Ok?
  {
    forall j | 0 <= j < |Utterances| ensures Supported(Scenario(), Utterances[j], prior) {
      PositivePriorSupports(Utterances[j], prior);
    }
    PositivePriorSupports(C, prior);
    ListenersDefined(Scenario(), prior);
  }

  /** Some utterance of the vocabulary is true of `w`. */
  predicate Expressible(w: World)
  {
    exists j | 0 <= j < |Utterances| :: Meaning(Utterances[j], w)
  }

  /** Every world has a compound utterance true of it. */
  lemma EveryWorldExpressible()
    ensures forall i | 0 <= i < |Worlds| :: Expressible(Worlds[i])
  {
    assert Meaning(Utterances[2], Worlds[0]);
    assert Meaning(Utterances[3], Worlds[1]);
    assert Meaning(Utterances[4], Worlds[2]);
  }

  /** A world draw that gives every world positive weight leaves the pragmatic listener an answer for every utterance. */
  lemma PragmaticDefinedForPositivePrior(cal: Calculus, u: Utterance, a: real, c1: real, c2: real, prior: seq<real>)
    requires cal.Valid() && 0.0 < a
    requires |prior| == |Worlds| && 0.0 < prior[0] && 0.0 < prior[1] && 0.0 < prior[2]
    ensures PragmaticListener(Scenario(), cal, u, a, c1, c2, prior).Ok?
  {
    SpeakersDefinedForPositivePrior(cal, a, c1, c2, prior);
    PositivePriorSupports(u, prior);
    PragmaticReachable(Scenario(), cal, u, a, c1, c2, prior);
  }

  /** A world draw positive on every world is valid and makes `u` true of some world it allows. */
  lemma PositivePriorSupports(u: Utterance, prior: seq<real>)
    requires |prior| == |Worlds| && 0.0 < prior[0] && 0.0 < prior[1] && 0.0 < prior[2]
    ensures ValidPrior(Scenario(), prior) && u in Utterances && Supported(Scenario(), u, prior)
  {
    assert ValidPrior(Scenario(), prior) by {
      assert 0.0 < prior[0];
    }
    assert Meaning(u, Worlds[if u == FNotC then 2 else if u == CNotF then 1 else 0]);
  }

  /** A world draw that gives every world positive weight leaves every speaker an answer. */
  lemma SpeakersDefinedForPositivePrior(cal: Calculus, a: real, c1: real, c2: real, prior: seq<real>)
    requires cal.Valid() && 0.0 < a
    requires |prior| == |Worlds| && 0.0 < prior[0] && 0.0 < prior[1] && 0.0 < prior[2]
    ensures forall i | 0 <= i < |prior| && 0.0 < prior[i] :: Speaker(Scenario(), cal, Worlds[i], a, c1, c2, prior).Ok?
  {
    var sc := Scenario();
    PositivePriorSupportsAll(prior);
    EveryWorldExpressible();
    SpeakersDefined(sc, cal, a, c1, c2, prior);
  }

  /**
   * Every world needs positive prior weight: the compound utterance naming a world the prior excludes is
   * true of no allowed world, its literal listener fails, and so does every speaker; a prior that is not
   * a valid weight vector fails in the world draw.
   */
  lemma SpeakerNeedsPositivePrior(cal: Calculus, t: World, a: real, c1: real, c2: real, prior: seq<real>)
    requires cal.Valid() && 0.0 < a
    requires !(|prior| == |Worlds| && 0.0 < prior[0] && 0.0 < prior[1] && 0.0 < prior[2])
    ensures Speaker(Scenario(), cal, t, a, c1, c2, prior).Err?
    ensures ValidPrior(Scenario(), prior) ==> Speaker(Scenario(), cal, t, a, c1, c2, prior) == Err(InconsistentUtterance)
  {
    var sc := Scenario();
    if ValidPrior(sc, prior) {
      var k := ExcludedCompound(prior);
      SpeakerFailsOnVacuousUtterance(sc, cal, t, a, c1, c2, prior, k);
    } else {
      LiteralListenerNeedsPrior(sc, C, prior);
      assert Utterances[0] == C;
    }
  }

  /**
   * Every world needs positive prior weight for the pragmatic listener too: whatever it hears, the
   * speakers it consults fail on the compound utterance naming the excluded world.
   */
  lemma PragmaticNeedsPositivePrior(cal: Calculus, u: Utterance, a: real, c1: real, c2: real, prior: seq<real>)
    requires cal.Valid() && 0.0 < a
    requires !(|prior| == |Worlds| && 0.0 < prior[0] && 0.0 < prior[1] && 0.0 < prior[2])
    ensures PragmaticListener(Scenario(), cal, u, a, c1, c2, prior).Err?
    ensures ValidPrior(Scenario(), prior) ==> PragmaticListener(Scenario(), cal, u, a, c1, c2, prior) == Err(InconsistentUtterance)
  {
    var sc := Scenario();
    if ValidPrior(sc, prior) {
      var k := ExcludedCompound(prior);
      PragmaticFailsOnVacuousUtterance(sc, cal, u, a, c1, c2, prior, k);
    }
  }

  /** The position of a compound utterance whose one world a valid prior with a zero weight excludes. */
  lemma ExcludedCompound(prior: seq<real>) returns (k: int)
    requires ValidPrior(Scenario(), prior)
    requires !(0.0 < prior[0] && 0.0 < prior[1] && 0.0 < prior[2])
    ensures 0 <= k < |Utterances| && !Supported(Scenario(), Utterances[k], prior)
  {
    var w := if prior[0] <= 0.0 then 0 else if prior[1] <= 0.0 then 1 else 2;
    assert prior[w] == 0.0;
    k := w + 2;
    var u := Utterances[k];
    assert Referent(u) == w;
  }
}
