/**
 * The restaurant scenario: two worlds (a sandwich, with or without soup), three utterances, and a world
 * draw parameterised by the probability `p` of the soup.
 */
module Restaurant {
  import opened Outcomes
  import opened Enumeration
  import opened Rsa
  import opened LiteralLaws
  import opened SpeakerLaws
  import opened PragmaticLaws

  datatype World = World(sandwich: bool, soup: bool)

  datatype Utterance = Sandwich | SandwichAndSoup | SandwichNotSoup

  /** The worlds in the order of the world draw: with soup, then without. */
  const Worlds: seq<World> := [World(true, true), World(true, false)]

  const Utterances: seq<Utterance> := [Sandwich, SandwichAndSoup, SandwichNotSoup]

  /** The bare noun is free, the conjunction costs `c1` and the contrast costs `c2`. */
  function Cost(u: Utterance, c1: real, c2: real): (r: real)
    ensures u == Sandwich ==> r == 0.0
    ensures 0.0 <= c1 && 0.0 <= c2 ==> 0.0 <= r
    ensures r == 0.0 || r == c1 || r == c2
  {
    match u
    case Sandwich => 0.0
    case SandwichAndSoup => c1
    case SandwichNotSoup => c2
  }

  function Meaning(u: Utterance, w: World): (b: bool)
  {
    match u
    case Sandwich => w.sandwich
    case SandwichAndSoup => w.sandwich && w.soup
    case SandwichNotSoup => w.sandwich && !w.soup
  }

  /** "sandwich" is true of both worlds; each other utterance is true of exactly one. */
  lemma MeaningOfUtterances()
    ensures forall i | 0 <= i < |Worlds| :: Meaning(Sandwich, Worlds[i])
    ensures forall i | 0 <= i < |Worlds| :: Meaning(SandwichAndSoup, Worlds[i]) <==> i == 0
    ensures forall i | 0 <= i < |Worlds| :: Meaning(SandwichNotSoup, Worlds[i]) <==> i == 1
  {
  }

  function Scenario(): (sc: Scenario<World, Utterance>)
  {
    Rsa.Scenario(Worlds, Utterances, Meaning, Cost)
  }

  /** The world draw's weights: the soup with probability `p`, no soup with `1 - p`. */
  function WorldPrior(p: real): (ws: seq<real>)
    ensures |ws| == |Worlds|
  {
    [p, 1.0 - p]
  }

  /** The world draw is [p, 1 - p] for a probability `p` and fails for any other `p`. */
  lemma WorldPriorWellFormed(p: real)
    ensures PriorDistribution(Scenario(), WorldPrior(p)) == if 0.0 <= p <= 1.0 then Ok([p, 1.0 - p]) else Err(InvalidPrior)
  {
    var ws := WorldPrior(p);
    if 0.0 <= p <= 1.0 {
      assert Sum(ws) == 1.0 by {
        assert SumTo(ws, 1) == p;
      }
      assert ValidPrior(Scenario(), ws) by {
        if 0.0 < p {
          assert 0.0 < ws[0];
        } else {
          assert 0.0 < ws[1];
        }
      }
      PriorIsScaled(Scenario(), ws);
      assert Scale(ws, 1.0 / Sum(ws)) == ws;
    }
  }

  /** Hearing "sandwich", true of both worlds, the literal listener keeps the world draw [p, 1 - p]. */
  lemma LiteralSandwichIsPrior(p: real)
    ensures LiteralListener(Scenario(), Sandwich, WorldPrior(p)) == PriorDistribution(Scenario(), WorldPrior(p))
    ensures 0.0 <= p <= 1.0 ==> LiteralListener(Scenario(), Sandwich, WorldPrior(p)) == Ok([p, 1.0 - p])
  {
    MeaningOfUtterances();
    LiteralListenerOfTautology(Scenario(), Sandwich, WorldPrior(p));
    WorldPriorWellFormed(p);
  }

  /** Hearing "sandwich and soup", the literal listener is certain of the soup whenever its probability is positive. */
  lemma LiteralSoupCertain(p: real)
    requires 0.0 < p <= 1.0
    ensures LiteralListener(Scenario(), SandwichAndSoup, WorldPrior(p)) == Ok([1.0, 0.0])
  {
    var ws := WorldPrior(p);
    MeaningOfUtterances();
    assert ValidPrior(Scenario(), ws) by {
      assert 0.0 < ws[0];
    }
    LiteralListenerCertain(Scenario(), SandwichAndSoup, ws, 0);
    var r := LiteralListener(Scenario(), SandwichAndSoup, ws).value;
    assert r[0] == 1.0 && r[1] == 0.0;
    assert r == [1.0, 0.0];
  }

  /** Hearing "sandwich not soup", the literal listener is certain there is no soup whenever that is possible. */
  lemma LiteralNoSoupCertain(p: real)
    requires 0.0 <= p < 1.0
    ensures LiteralListener(Scenario(), SandwichNotSoup, WorldPrior(p)) == Ok([0.0, 1.0])
  {
    var ws := WorldPrior(p);
    MeaningOfUtterances();
    assert ValidPrior(Scenario(), ws) by {
      assert 0.0 < ws[1];
    }
    LiteralListenerCertain(Scenario(), SandwichNotSoup, ws, 1);
    var r := LiteralListener(Scenario(), SandwichNotSoup, ws).value;
    assert r[0] == 0.0 && r[1] == 1.0;
    assert r == [0.0, 1.0];
  }

  /**
   * Both speakers have an answer exactly when the soup is uncertain: for p = 0 or p = 1 one of the
   * contrasting utterances has no world left and its literal listener fails, and any other `p` outside
   * (0, 1) is not a probability.
   */
  lemma SpeakerNeedsUncertainPrior(cal: Calculus, t: World, a: real, c1: real, c2: real, p: real)
    requires cal.Valid() && 0.0 < a
    requires !(0.0 < p < 1.0)
    ensures Speaker(Scenario(), cal, t, a, c1, c2, WorldPrior(p)).Err?
    ensures p == 0.0 || p == 1.0 ==> Speaker(Scenario(), cal, t, a, c1, c2, WorldPrior(p)) == Err(InconsistentUtterance)
  {
    var ws := WorldPrior(p);
    MeaningOfUtterances();
    if p == 0.0 {
      assert ValidPrior(Scenario(), ws) by {
        assert 0.0 < ws[1];
      }
      SpeakerFailsOnVacuousUtterance(Scenario(), cal, t, a, c1, c2, ws, 1);
    } else if p == 1.0 {
      assert ValidPrior(Scenario(), ws) by {
        assert 0.0 < ws[0];
      }
      SpeakerFailsOnVacuousUtterance(Scenario(), cal, t, a, c1, c2, ws, 2);
    } else {
      assert !ValidPrior(Scenario(), ws);
      LiteralListenerNeedsPrior(Scenario(), Sandwich, ws);
      assert Utterances[0] == Sandwich;
    }
  }

  /**
   * For an uncertain soup the world draw is valid and every utterance is true of some world it allows, so
   * every literal listener has an answer.
   */
  lemma UncertainPriorSupportsAll(p: real)
    requires 0.0 < p < 1.0
    ensures ValidPrior(Scenario(), WorldPrior(p))
    ensures forall j | 0 <= j < |Utterances| :: Supported(Scenario(), Utterances[j], WorldPrior(p))
    ensures LiteralListeners(Scenario(), WorldPrior(p), |Utterances|).Ok?
  {
    var ws := WorldPrior(p);
    var sc := Scenario();
    assert ValidPrior(sc, ws) by {
      assert 0.0 < ws[0];
    }
    forall j | 0 <= j < |sc.utterances| ensures Supported(sc, sc.utterances[j], ws) {
      var k := if j == 2 then 1 else 0;
      assert sc.meaning(sc.utterances[j], sc.worlds[k]) && 0.0 < ws[k];
    }
    ListenersDefined(sc, ws);
  }

  /** For an uncertain soup, the speakers of both worlds have an answer. */
  lemma SpeakersDefinedWhenUncertain(cal: Calculus, a: real, c1: real, c2: real, p: real)
    requires cal.Valid() && 0.0 < a && 0.0 < p < 1.0
    ensures Speaker(Scenario(), cal, World(true, true), a, c1, c2, WorldPrior(p)).Ok?
    ensures Speaker(Scenario(), cal, World(true, false), a, c1, c2, WorldPrior(p)).Ok?
  {
    var ws := WorldPrior(p);
    var sc := Scenario();
    UncertainPriorSupportsAll(p);
    assert sc.utterances[0] == Sandwich;
    assert PriorAllows(sc, ws, World(true, true)) by {
      assert sc.worlds[0] == World(true, true) && 0.0 < ws[0];
    }
    assert PriorAllows(sc, ws, World(true, false)) by {
      assert sc.worlds[1] == World(true, false) && 0.0 < ws[1];
    }
    SpeakerDefined(sc, cal, World(true, true), a, c1, c2, ws);
    SpeakerDefined(sc, cal, World(true, false), a, c1, c2, ws);
  }

  /**
   * For an uncertain soup, each speaker is a distribution over the three utterances: the soup speaker
   * never says "sandwich not soup" and the no-soup speaker never says "sandwich and soup".
   */
  lemma SpeakersNeverContradict(cal: Calculus, a: real, c1: real, c2: real, p: real)
    requires cal.Valid() && 0.0 < a && 0.0 < p < 1.0
    ensures var both := Speaker(Scenario(), cal, World(true, true), a, c1, c2, WorldPrior(p));
      && both.Ok? && IsDistribution(both.value) && both.value[2] == 0.0
    ensures var single := Speaker(Scenario(), cal, World(true, false), a, c1, c2, WorldPrior(p));
      && single.Ok? && IsDistribution(single.value) && single.value[1] == 0.0
  {
    var ws := WorldPrior(p);
    SpeakersDefinedWhenUncertain(cal, a, c1, c2, p);
    SpeakerIsDistribution(Scenario(), cal, World(true, true), a, c1, c2, ws);
    SpeakerIsDistribution(Scenario(), cal, World(true, false), a, c1, c2, ws);
    SpeakerAvoidsFalsehood(Scenario(), cal, World(true, true), a, c1, c2, ws, 2);
    SpeakerAvoidsFalsehood(Scenario(), cal, World(true, false), a, c1, c2, ws, 1);
  }

  /**
   * For an uncertain soup, the pragmatic listener hearing "sandwich" has an answer, a distribution giving
   * both worlds positive probability, since both speakers can say "sandwich".
   */
  lemma PragmaticSandwichUncertain(cal: Calculus, a: real, c1: real, c2: real, p: real)
    requires cal.Valid() && 0.0 < a && 0.0 < p < 1.0
    ensures var r := PragmaticListener(Scenario(), cal, Sandwich, a, c1, c2, WorldPrior(p));
      && r.Ok? && IsDistribution(r.value) && 0.0 < r.value[0] && 0.0 < r.value[1]
  {
    var ws := WorldPrior(p);
    MeaningOfUtterances();
    SpeakersDefinedWhenUncertain(cal, a, c1, c2, p);
    assert ValidPrior(Scenario(), ws) by {
      assert 0.0 < ws[0];
    }
    assert Supported(Scenario(), Sandwich, ws) by {
      assert 0.0 < ws[0];
    }
    assert Sandwich in Utterances;
    PragmaticReachable(Scenario(), cal, Sandwich, a, c1, c2, ws);
    PragmaticListenerIsDistribution(Scenario(), cal, Sandwich, a, c1, c2, ws);
    PragmaticPositive(Scenario(), cal, Sandwich, a, c1, c2, ws, 0);
    PragmaticPositive(Scenario(), cal, Sandwich, a, c1, c2, ws, 1);
  }

  /**
   * The pragmatic listener also needs an uncertain soup: for p = 0 or p = 1 the speakers it consults fail
   * on the contrast that has no world left, whatever it hears.
   */
  lemma PragmaticNeedsUncertainPrior(cal: Calculus, u: Utterance, a: real, c1: real, c2: real, p: real)
    requires cal.Valid() && 0.0 < a
    requires !(0.0 < p < 1.0)
    ensures PragmaticListener(Scenario(), cal, u, a, c1, c2, WorldPrior(p)).Err?
    ensures p == 0.0 || p == 1.0 ==> PragmaticListener(Scenario(), cal, u, a, c1, c2, WorldPrior(p)) == Err(InconsistentUtterance)
  {
    var ws := WorldPrior(p);
    MeaningOfUtterances();
    if p == 0.0 {
      assert ValidPrior(Scenario(), ws) by {
        assert 0.0 < ws[1];
      }
      PragmaticFailsOnVacuousUtterance(Scenario(), cal, u, a, c1, c2, ws, 1);
    } else if p == 1.0 {
      assert ValidPrior(Scenario(), ws) by {
        assert 0.0 < ws[0];
      }
      PragmaticFailsOnVacuousUtterance(Scenario(), cal, u, a, c1, c2, ws, 2);
    } else {
      assert !ValidPrior(Scenario(), ws);
    }
  }
}
