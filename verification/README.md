# Rational Speech Act models of contrastive exhaustification

This project models the two Rational Speech Act (RSA) programs in the repository. The boxes
experiment asks about a chair and a footstool; the restaurant experiment asks about a sandwich
and soup. Both programs use the same three-level reasoning:

- a **literal listener** draws a world from the prior and conditions on the utterance being
  literally true;
- a **speaker** for a target world draws an utterance uniformly and weights it by
  `exp(a * (log L0(target) - cost))`;
- a **pragmatic listener** draws a world from the prior and observes that world's speaker
  producing the heard utterance.

The two programs differ only in their worlds, utterances, meaning, cost and prior. The model
therefore has one generic engine (`Rsa`) over a `Scenario` record: ordered worlds, ordered
utterances, a truth-functional meaning and a cost function. The two experiments are
instantiations of it (`Boxes`, `Restaurant`).

Each `Infer` is modelled as exact enumeration. The result is a `seq<real>` of probabilities, one per
world or per utterance, in the order of the program's own `vs` list or utterance list. A probabilistic
program that throws is modelled as `Err` with the reason:

- `InvalidPrior`: the world draw gets a weight vector that is not a valid categorical parameter;
- `InconsistentUtterance`: the literal listener conditions on an utterance that is true of no world
  the prior allows;
- `InexpressibleWorld`: no utterance has positive speaker weight for the target world;
- `UnreachableUtterance`: no world's speaker can produce the heard utterance. This arises only
  for an utterance outside the vocabulary (`PragmaticLaws.UnreachableOnlyOutsideVocabulary`).

`exp` and `log` are parameters (`Calculus`). The proofs use only three facts about them: `exp` is
positive, `exp` is strictly increasing, and `log` is strictly increasing on the positive reals.
A score (log-probability) of minus infinity is represented by probability 0, and its softmax factor
is exactly 0.

Files:

| file | module | contents |
|---|---|---|
| `outcomes.dfy` | `Outcomes` | the failures and the `Result` type |
| `enumeration.dfy` | `Enumeration` | sums, normalisation, exact enumeration of a weight vector, probability of a value |
| `rsa.dfy` | `Rsa` | the scenario record and the three reasoning levels |
| `literal.dfy` | `LiteralLaws` | the world draw and the literal listener |
| `speaker.dfy` | `SpeakerLaws` | the softmax speaker |
| `pragmatic.dfy` | `PragmaticLaws` | the pragmatic listener as a Bayesian update |
| `boxes.dfy` | `Boxes` | the chair/footstool scenario |
| `restaurant.dfy` | `Restaurant` | the sandwich/soup scenario |

Two consequences of the program's structure shape the model:

- **Vacuous utterance.** A vacuous utterance makes the speaker fail. The program runs the literal
  listener of every utterance, and conditioning on an impossible event throws. So the speaker fails
  whenever one utterance is false of every world the prior allows
  (`SpeakerLaws.SpeakerFailsOnVacuousUtterance`, `Restaurant.SpeakerNeedsUncertainPrior`,
  `Boxes.SpeakerNeedsPositivePrior`).
- **Zero-weight worlds.** The model assumes that the pragmatic listener never runs the speaker of a
  world the prior gives weight 0; see "## Left out". In both programs a zero-weight world makes some
  compound utterance vacuous. Every speaker and the pragmatic listener then fail either way
  (`Boxes.PragmaticNeedsPositivePrior`, `Restaurant.PragmaticNeedsUncertainPrior`), so the
  assumption never changes either program's outcome.

## Model

| member | source | states |
|---|---|---|
| Rsa.PriorDistribution | experiments/boxes/modeling/rsa_code.js:8-14 | the world draw succeeds exactly when the weights are one non-negative number per world, not all zero; otherwise it fails with `InvalidPrior` |
| LiteralLaws.PriorIsScaled | experiments/boxes/modeling/rsa_code.js:8-14 | a valid weight vector has positive total, and the world draw is that vector divided by its total |
| LiteralLaws.PriorIsDistribution | experiments/boxes/modeling/rsa_code.js:8-14 | the world draw sums to 1, and each world's probability times the total weight is that world's weight |
| Rsa.Condition | experiments/boxes/modeling/rsa_code.js:49 | conditioning keeps one weight per world and keeps weights non-negative |
| LiteralLaws.ConditionScale | experiments/boxes/modeling/rsa_code.js:49 | conditioning commutes with scaling the weights |
| Rsa.LiteralListener | experiments/boxes/modeling/rsa_code.js:46-52 | an answer is a non-negative vector with one entry per world |
| LiteralLaws.LiteralListenerEnumeratesCondition | experiments/boxes/modeling/rsa_code.js:46-52 | under a valid prior, the literal listener is the enumeration of the raw prior weights with the worlds where the utterance is false zeroed |
| LiteralLaws.LiteralListenerIsConditioning | experiments/boxes/modeling/rsa_code.js:46-52 | the literal listener has an answer iff the utterance is true of some world of positive prior weight; otherwise it fails with `InconsistentUtterance`; a world has positive posterior iff the utterance is true of it and its prior weight is positive |
| LiteralLaws.LiteralListenerNeedsPrior | experiments/boxes/modeling/rsa_code.js:48 | an invalid prior makes the literal listener fail with `InvalidPrior` |
| LiteralLaws.LiteralListenerAt | experiments/boxes/modeling/rsa_code.js:46-52 | each world's posterior times the mass of the utterance's true worlds is its prior weight where the utterance is true, and 0 where it is false |
| LiteralLaws.LiteralListenerIsDistribution | experiments/boxes/modeling/rsa_code.js:46-52 | every literal-listener answer sums to 1 |
| LiteralLaws.LiteralListenerOfTautology | experiments/boxes/modeling/rsa_code.js:46-52 | an utterance true of every world leaves the world draw unchanged, failures included |
| LiteralLaws.LiteralListenerCertain | experiments/boxes/modeling/rsa_code.js:46-52 | an utterance true of exactly one world that has positive prior weight makes the listener certain of that world |
| Rsa.ListenerProb | experiments/boxes/modeling/rsa_code.js:61 | the literal listener's probability of the target is non-negative |
| LiteralLaws.ListenerProbPositive | experiments/boxes/modeling/rsa_code.js:61 | the literal listener gives positive probability to a target the utterance is true of and the prior allows |
| LiteralLaws.ListenerProbOfFalsehood | experiments/boxes/modeling/rsa_code.js:61 | the literal listener gives probability 0 to a target the utterance is false of, so its score is minus infinity |
| Rsa.LiteralListeners | experiments/boxes/modeling/rsa_code.js:60-61 | the literal listeners of all utterances succeed iff each one does, and they agree entry by entry with `LiteralListener`; otherwise the failure is that of some utterance's listener |
| Rsa.SpeakerFactor | experiments/boxes/modeling/rsa_code.js:61 | the softmax factor is non-negative; it is positive iff the target's literal probability is non-zero; it is 0 when that probability is 0 |
| SpeakerLaws.SpeakerFactorMonotone | experiments/boxes/modeling/rsa_code.js:61 | for `a > 0`, a higher literal probability and a lower cost never lower the factor |
| Rsa.SpeakerScores | experiments/boxes/modeling/rsa_code.js:60-61 | one non-negative score per utterance |
| Rsa.Speaker | experiments/boxes/modeling/rsa_code.js:58-64 | an answer is a non-negative vector with one entry per utterance |
| SpeakerLaws.SpeakerIsSoftmax | experiments/boxes/modeling/rsa_code.js:58-64 | when every literal listener succeeds, the speaker is the enumeration of the softmax scores (the uniform draw's weight cancels) |
| SpeakerLaws.SpeakerScoreAt | experiments/boxes/modeling/rsa_code.js:61 | utterance `j`'s score is the factor of its literal listener's probability of the target and its cost |
| SpeakerLaws.SpeakerNeedsListeners | experiments/boxes/modeling/rsa_code.js:61 | a speaker answer implies that every utterance's literal listener succeeded |
| SpeakerLaws.SpeakerIsDistribution | experiments/boxes/modeling/rsa_code.js:58-64 | every speaker answer sums to 1 |
| SpeakerLaws.SpeakerAvoidsFalsehood | experiments/boxes/modeling/rsa_code.js:58-64 | the speaker never produces an utterance that is false of the target |
| SpeakerLaws.SpeakerPositive | experiments/boxes/modeling/rsa_code.js:58-64 | the speaker gives positive probability to every utterance true of a target the prior allows |
| SpeakerLaws.SpeakerPrefers | experiments/boxes/modeling/rsa_code.js:61 | an utterance that is at least as informative about the target and no more costly gets at least as much speaker probability |
| SpeakerLaws.ListenersDefined | experiments/boxes/modeling/rsa_code.js:60-61 | a valid prior under which every utterance is true of some allowed world makes every literal listener succeed |
| SpeakerLaws.SpeakerDefined | experiments/boxes/modeling/rsa_code.js:58-64 | with every literal listener defined, the speaker of an allowed target that some utterance is true of has an answer |
| SpeakerLaws.SpeakerFailsOnVacuousUtterance | experiments/boxes/modeling/rsa_code.js:60-61 | a single utterance that is true of no allowed world makes the speaker fail with `InconsistentUtterance`, whatever the target |
| SpeakerLaws.SpeakerInexpressible | experiments/boxes/modeling/rsa_code.js:58-64 | with every literal listener defined, a target no utterance is true of makes the speaker fail with `InexpressibleWorld` |
| SpeakerLaws.SpeakerFailureCause | experiments/boxes/modeling/rsa_code.js:58-64 | a failing speaker fails with `InvalidPrior`, `InconsistentUtterance` or `InexpressibleWorld`, never with `UnreachableUtterance` |
| Rsa.Likelihood | experiments/boxes/modeling/rsa_code.js:70 | the speaker's probability of producing the heard utterance is non-negative |
| PragmaticLaws.LikelihoodIsProbability | experiments/boxes/modeling/rsa_code.js:70 | that likelihood lies between 0 and 1 |
| PragmaticLaws.LikelihoodOfFalsehood | experiments/boxes/modeling/rsa_code.js:70 | a world the utterance is false of gives it likelihood 0 |
| PragmaticLaws.LikelihoodOfTruth | experiments/boxes/modeling/rsa_code.js:70 | when that world's speaker answers, an allowed world a vocabulary utterance is true of gives it positive likelihood |
| Rsa.Likelihoods | experiments/boxes/modeling/rsa_code.js:69-70 | the likelihoods succeed iff the speaker of every world with non-zero prior succeeds; entry `i` is that speaker's likelihood, or 0 for a world the prior excludes; otherwise the failure is some speaker's |
| Rsa.Joint | experiments/boxes/modeling/rsa_code.js:69-70 | prior times likelihood is non-negative, and positive exactly where both factors are |
| PragmaticLaws.JointOfScaledPrior | experiments/boxes/modeling/rsa_code.js:69-70 | scaling the prior scales the prior-times-likelihood vector by the same factor |
| Rsa.PragmaticListener | experiments/boxes/modeling/rsa_code.js:67-73 | an answer is a non-negative vector with one entry per world |
| PragmaticLaws.PragmaticListenerNeeds | experiments/boxes/modeling/rsa_code.js:67-73 | a pragmatic answer implies a valid prior and an answer from the speaker of every allowed world |
| Rsa.BayesWeights | experiments/boxes/modeling/rsa_code.js:67-73 | the unnormalised posterior has one non-negative weight per world |
| PragmaticLaws.PragmaticIsBayesUpdate | experiments/boxes/modeling/rsa_code.js:67-73 | when every allowed world's speaker succeeds, the pragmatic listener is Bayes' rule: the enumeration of raw prior weight times likelihood |
| PragmaticLaws.PragmaticListenerIsDistribution | experiments/boxes/modeling/rsa_code.js:67-73 | every pragmatic answer sums to 1 |
| PragmaticLaws.PragmaticZeroWhereFalse | experiments/boxes/modeling/rsa_code.js:67-73 | the pragmatic listener gives probability 0 to every world the utterance is false of |
| PragmaticLaws.PragmaticPositive | experiments/boxes/modeling/rsa_code.js:67-73 | the pragmatic listener gives positive probability to every allowed world the utterance is true of |
| PragmaticLaws.SpeakersDefined | experiments/boxes/modeling/rsa_code.js:67-73 | when every literal listener is defined and every allowed world has a true utterance, every allowed world's speaker succeeds |
| PragmaticLaws.PragmaticReachable | experiments/boxes/modeling/rsa_code.js:67-73 | with all allowed speakers defined, the pragmatic listener answers every vocabulary utterance that is true of some allowed world |
| PragmaticLaws.PragmaticFailsOnVacuousUtterance | experiments/boxes/modeling/rsa_code.js:61-70 | one vocabulary utterance true of no allowed world makes every speaker fail, so the pragmatic listener fails with `InconsistentUtterance` whatever it hears; this includes hearing that utterance itself |
| PragmaticLaws.PragmaticUnreachable | experiments/boxes/modeling/rsa_code.js:67-73 | when every allowed world's speaker answers, a heard utterance true of no allowed world makes the pragmatic listener fail with `UnreachableUtterance`; by `UnreachableOnlyOutsideVocabulary` that utterance is outside the vocabulary, so neither scenario, whose utterances form a closed type, reaches this failure |
| PragmaticLaws.PragmaticSpeakerFailure | experiments/boxes/modeling/rsa_code.js:67-73 | when a speaker of an allowed world fails, the pragmatic listener fails for one of the speaker's reasons |
| PragmaticLaws.AllowedSpeakersAnswer | experiments/boxes/modeling/rsa_code.js:67-73 | when the likelihoods have an answer, the prior is valid and every allowed world's speaker answers |
| PragmaticLaws.UnreachableOnlyOutsideVocabulary | experiments/boxes/modeling/rsa_code.js:67-73 | the pragmatic listener never fails with `UnreachableUtterance` on a vocabulary utterance |
| Boxes.Cost | experiments/boxes/modeling/rsa_code.js:20-28 | the bare nouns are free, non-negative cost parameters give non-negative costs, and every cost is 0, `c1` or `c2` |
| Boxes.MeaningOfNouns | experiments/boxes/modeling/rsa_code.js:31-35 | "c" is true of every world except the footstool-only one, and "f" of every world except the chair-only one |
| Boxes.Referent | experiments/boxes/modeling/rsa_code.js:36-42 | each compound utterance is true of exactly one world |
| Boxes.LiteralCompoundCertain | experiments/boxes/modeling/rsa_code.js:46-52 | hearing a compound, the literal listener is certain of its one world whenever the prior allows that world |
| Boxes.ObservingFootstool | experiments/boxes/modeling/rsa_code.js:67-73 | hearing "f", the pragmatic listener rules out the chair-only world and keeps every footstool world the prior allows |
| Boxes.ObservingChair | experiments/boxes/modeling/rsa_code.js:67-73 | hearing "c", the pragmatic listener rules out the footstool-only world and keeps every chair world the prior allows |
| Boxes.PositivePriorSupportsAll | experiments/boxes/modeling/rsa_code.js:8-17 | a prior positive on all three worlds is valid, makes every utterance supported, and lets every literal listener answer |
| Boxes.EveryWorldExpressible | experiments/boxes/modeling/rsa_code.js:17 | every world has an utterance true of it |
| Boxes.SpeakersDefinedForPositivePrior | experiments/boxes/modeling/rsa_code.js:58-64 | under a prior positive on all worlds, every world's speaker has an answer |
| Boxes.PragmaticDefinedForPositivePrior | experiments/boxes/modeling/rsa_code.js:67-73 | under a prior positive on all worlds, the pragmatic listener answers every utterance |
| Boxes.SpeakerNeedsPositivePrior | experiments/boxes/modeling/rsa_code.js:58-64 | unless the prior gives all three worlds positive weight, every speaker fails; under a valid prior the cause is the compound utterance naming an excluded world, which is vacuous |
| Boxes.PragmaticNeedsPositivePrior | experiments/boxes/modeling/rsa_code.js:67-73 | unless the prior gives all three worlds positive weight, the pragmatic listener fails whatever it hears; under a valid prior it fails with `InconsistentUtterance` |
| Restaurant.Cost | experiments/restaurant/modeling/rsa_code.js:17-25 | "sandwich" is free, non-negative cost parameters give non-negative costs, and every cost is 0, `c1` or `c2` |
| Restaurant.MeaningOfUtterances | experiments/restaurant/modeling/rsa_code.js:28-36 | "sandwich" is true of both worlds, "sandwich and soup" only of the soup world, "sandwich not soup" only of the other |
| Restaurant.WorldPrior | experiments/restaurant/modeling/rsa_code.js:7-11 | one weight per world |
| Restaurant.WorldPriorWellFormed | experiments/restaurant/modeling/rsa_code.js:7-11 | the world draw is `[p, 1-p]` for `0 <= p <= 1` and fails with `InvalidPrior` otherwise |
| Restaurant.LiteralSandwichIsPrior | experiments/restaurant/modeling/rsa_code.js:39-45 | hearing "sandwich", the literal listener is the world draw itself |
| Restaurant.LiteralSoupCertain | experiments/restaurant/modeling/rsa_code.js:39-45 | hearing "sandwich and soup", the literal listener is certain of soup whenever `p > 0` |
| Restaurant.LiteralNoSoupCertain | experiments/restaurant/modeling/rsa_code.js:39-45 | hearing "sandwich not soup", the literal listener is certain there is no soup whenever `p < 1` |
| Restaurant.SpeakerNeedsUncertainPrior | experiments/restaurant/modeling/rsa_code.js:51-57 | unless `0 < p < 1`, both speakers fail; at `p = 0` or `p = 1` the cause is a vacuous utterance |
| Restaurant.UncertainPriorSupportsAll | experiments/restaurant/modeling/rsa_code.js:7-14 | for `0 < p < 1` the prior is valid, every utterance is supported, and every literal listener answers |
| Restaurant.SpeakersDefinedWhenUncertain | experiments/restaurant/modeling/rsa_code.js:51-57 | for `0 < p < 1` both worlds' speakers answer |
| Restaurant.SpeakersNeverContradict | experiments/restaurant/modeling/rsa_code.js:51-57 | for `0 < p < 1` both speakers are distributions; the soup speaker never says "sandwich not soup", and the other never says "sandwich and soup" |
| Restaurant.PragmaticSandwichUncertain | experiments/restaurant/modeling/rsa_code.js:60-66 | for `0 < p < 1`, hearing "sandwich" leaves a distribution that gives both worlds positive probability |
| Restaurant.PragmaticNeedsUncertainPrior | experiments/restaurant/modeling/rsa_code.js:60-66 | unless `0 < p < 1`, the pragmatic listener fails whatever it hears; at `p = 0` or `p = 1` it fails with `InconsistentUtterance` |

The boxes rows for the engine also describe the restaurant program. Its literal listener, speaker
and pragmatic listener (experiments/restaurant/modeling/rsa_code.js:39-66) have the same text
line for line.

## Left out

- The parameter sweeps (experiments/boxes/modeling/rsa_code.js:78-112 and
  experiments/restaurant/modeling/rsa_code.js:71-102) are not modelled. They map the pragmatic
  listener over grids of `alpha`, `c1`, `c2` and priors and print the results.
- Printing, `viz.table` and string formatting of the results are not modelled.
- The unused globals `worlds` and `alpha` are not modelled. The world lists are duplicated inside
  `worldPrior`, and `alpha` is shadowed by the parameter `a`.
- WebPPL's `Infer` internals are reduced to exact enumeration with real arithmetic: no floating
  point, no rounding, and no sampling-based inference.
- Concrete `exp` and `log` are not modelled; they are the `Calculus` parameter and its three
  monotonicity facts.
- Scores are carried as probabilities, not log-probabilities. A score of minus infinity is
  probability 0.
- Rsa.Speaker requires `a > 0`. With `a = 0`, the program computes `0 * -Infinity`, which is NaN,
  for a false utterance. With `a < 0`, the speaker prefers false utterances. Neither is a case the
  program's sweeps use.
- The fall-through of `cost` and `meaning` on an unknown string (returning `undefined`) is not
  modelled: utterances are a closed datatype. JavaScript's `|` and `&` on booleans return numbers;
  they are modelled as the boolean connectives they are used as.
- Rsa.PragmaticListener assumes that exact enumeration does not run the speaker of a world whose
  prior weight is 0. The program relies on WebPPL for that; it is not visible in the source.
- The numerical outcomes of the sweeps (which parameter settings favour which world) are not
  modelled; only sign, support, ordering and normalisation facts are proved.
