# Galactic trader round engine and STV syntax check

This project is a Dafny model of two pieces of the agent-psi repository.

**The trader's round loop** (`py-galactic_trader/main.py`, module `Trader` in
`trader.dfy`). A trader starts on planet A with 1000 money. It runs at most 5000
rounds. In each round it:

1. Admits the last rule of the queue of reasoned rules, if there is one, to the end of its rule pool.
2. Pairs every rule of the pool that applies in the current state with a sampled score, in pool order.
3. Stops if no rule applies.
4. Chooses the first rule with the highest score, which is what the stable descending sort picks.
5. Executes that rule on a copy of the state.
6. Rewards the rule: 0 for a `travel` action, otherwise the evaluation of the new state against the old one.
7. Updates the chosen rule with that reward and moves on to the new state.
8. Stops once money is at or below zero.

The loop is the method `Simulate`. Its body is `PlayRound`, and the inner
candidate loop is `CollectApplicable`. Each method is proved equal to a
recursive specification (`Run`, `Round`, `Applicable`). The lemmas state the
properties of that specification.

The functions the loop calls but whose code lies elsewhere (`is_valid_rule`,
`execute_rule` and `evaluate_state` from `world`, and `get_sample_value`,
`update` and `action` of a rule) are fields of a `World` value and are left
uninterpreted.
- Rules are values of any type. A rule is identified by its position in the pool.
- `get_sample_value` is modelled as a function of the rule and of how many scores the run has drawn before it. This is how the shared random stream enters.

**The truth-value syntax check** `is_valid_stv` (`rule/validate_rule.py`,
module `StvSyntax` in `stv.dfy`). It decides whether a string matches
`^\(STV\s+[0-9]*\.?[0-9]+\s+[0-9]*\.?[0-9]+\)$` under Python's `re.match`.
The model has three parts:
- `StvLanguage`: the pattern's language, written declaratively.
- `IsValidStv`: a recursive left-to-right recogniser, proved to decide exactly that language.
- `ScanStv`: a scanning method with loops, proved to agree with the recogniser.

The model follows Python's semantics in these places:
- `\s` is the set of characters for which Python's `str.isspace()` holds, not only ASCII whitespace.
- `[0-9]` is ASCII digits only.
- `$` also matches just before one final newline, so a single trailing `"\n"` is accepted.

`IsValidStv` has no precondition. It therefore gives a verdict for every string, as the source does.

`update(reward)` is called with whatever reward the round produced. The model
leaves `update` uninterpreted and assumes no posterior formula.

## Model

| member | source | states |
|---|---|---|
| `Trader.Admit` | py-galactic_trader/main.py:19-20 | The pool keeps its rules and grows by one rule exactly when the queue is non-empty. The pool followed by the queue read from its end is unchanged, so the rule that enters is the queue's last one. |
| `Trader.Applicable` | py-galactic_trader/main.py:22-28 | Among the first `n` rules there are at most `n` candidates, and each names one of those rules. |
| `Trader.ApplicableSound` | py-galactic_trader/main.py:22-28 | Every candidate's rule applies in the state. The `j`-th candidate carries the `j`-th score drawn in the round. Candidates are in strictly increasing pool order, so each rule appears at most once. |
| `Trader.ApplicableComplete` | py-galactic_trader/main.py:22-28 | Every rule of the pool that applies in the state is a candidate. |
| `Trader.CollectApplicable` | py-galactic_trader/main.py:22-28 | The inner `for rule in rules` loop builds exactly the candidate list `Applicable`. |
| `Trader.FirstMax` | py-galactic_trader/main.py:34-35 | The selected candidate's score is at least every candidate's score. Every earlier candidate scores strictly less, so ties go to the earliest, as with a stable `sorted(..., reverse=True)[0]`. |
| `Trader.TieGoesToEarliest` | py-galactic_trader/main.py:34-35 | Of the scores 0.3, 0.9 and 0.9, the second candidate is chosen. |
| `Trader.ChosenIsFirstBest` | py-galactic_trader/main.py:34-35 | The executed rule is in the pool and applies in the state. It is the first candidate with the highest score. |
| `Trader.NoRuleExactly` | py-galactic_trader/main.py:30-32 | A round finds no applicable rule exactly when no rule of the pool applies. In that case the pool, queue and state are unchanged. |
| `Trader.OnlyChosenChanges` | py-galactic_trader/main.py:38-45 | The chosen rule is updated once, with the round's reward. Every other rule is untouched. The new state is the chosen rule executed on the old state. The reward is 0 for `travel` and otherwise the evaluation of the new state against the old one. |
| `Trader.RoundIsCoherent` | py-galactic_trader/main.py:19-49 | A completed round reports its number, the money after it, and a change equal to that money minus the money before it. A round without an applicable rule keeps the state. Every round has consumed the queue's last rule. |
| `Trader.PlayAdmitted` | py-galactic_trader/main.py:22-49 | The loop body after admission computes the round `Choose`: candidates, selection, execution, reward, update and money change. |
| `Trader.PlayRound` | py-galactic_trader/main.py:19-49 | One iteration of the loop body computes the round `Round`: admission, then `Choose`. |
| `Trader.Reward` | py-galactic_trader/main.py:41-43 | No contract of its own. A round's reward is 0 for `travel`, otherwise `evaluate_state(new, old)`. `OnlyChosenChanges` states this. |
| `Trader.Choose` | py-galactic_trader/main.py:22-49 | No contract of its own. A round after admission is specified here. `NoRuleExactly`, `ChosenIsFirstBest`, `OnlyChosenChanges` and `PlayAdmitted` state its properties. |
| `Trader.Round` | py-galactic_trader/main.py:19-49 | No contract of its own. A whole round is admission followed by `Choose`. `RoundIsCoherent`, `RoundKeepsGoing` and `PlayRound` state its properties. |
| `Trader.Loop` | py-galactic_trader/main.py:17-58 | No contract of its own. It is the loop's control: rounds up to 5000, with a stop after a round without a rule or after one that leaves money at or below zero. `LoopLength`, `LoopStopsWhenBroke`, `LoopMoneyChain`, `LoopAdmission` and `LoopExhausts` state its properties. |
| `Trader.Run` | py-galactic_trader/main.py:14-58 | No contract of its own. It is `Loop` over the trader's rounds. `Simulate` is proved equal to it, and the `Run*` lemmas and `FullRun` state its properties. |
| `Trader.Simulate` | py-galactic_trader/main.py:14-58 | The `for i in range(5000)` loop with its two `break`s produces exactly the run `Run` from the initial state. |
| `Trader.LoopLength` | py-galactic_trader/main.py:17 | A run from round `i` logs at most `5000 - i` rounds, numbered consecutively from `i`. It has used them all when it stops for lack of rounds. It stops for lack of a rule only with rounds to spare. |
| `Trader.RunLength` | py-galactic_trader/main.py:17 | A whole run logs at most 5000 rounds, numbered from 0. A run that stops for lack of rounds has used all 5000. One that stops for lack of a rule has rounds to spare. A run can also use all 5000 and stop for lack of money, if round 4999 leaves money at or below zero. |
| `Trader.LoopStopsWhenBroke` | py-galactic_trader/main.py:56-58 | A logged round leaves money at or below zero exactly when it is the last round and the run stopped for running out of money. |
| `Trader.RunStopsWhenBroke` | py-galactic_trader/main.py:56-58 | A whole run stops right after the first round that leaves money at or below zero, and at no other such point. |
| `Trader.LoopMoneyChain` | py-galactic_trader/main.py:47-49 | Each logged change is that round's money minus the previous money. The run ends with the money of its last logged round. |
| `Trader.RunMoneyChain` | py-galactic_trader/main.py:15-49 | The logged changes chain from the initial 1000 to the final money. |
| `Trader.LoopAdmission` | py-galactic_trader/main.py:19-20 | The pool and the queue together hold as many rules as at the start. The queue is consumed from its end, one rule per round begun, until it is empty. |
| `Trader.RunAdmission` | py-galactic_trader/main.py:19-20 | Over a whole run, the reasoned rules still waiting are a prefix of the initial queue. Its length is the initial length less the rounds begun, or zero once more rounds have begun than the queue held. |
| `Trader.RoundKeepsGoing` | py-galactic_trader/main.py:19-49 | Suppose every rule always applies and no execution from positive money leaves money at or below zero. Then a round with a rule to use completes and keeps money positive. |
| `Trader.LoopExhausts` | py-galactic_trader/main.py:17 | A run whose rounds always complete with positive money uses every remaining round. |
| `Trader.FullRun` | py-galactic_trader/main.py:17-58 | Suppose some rule is available, every rule always applies, and money never falls to zero. Then exactly 5000 rounds run. |
| `Trader.BrokeAfterTwoRounds` | py-galactic_trader/main.py:56-58 | With one rule costing 600 per trade, money goes 1000, 400, -200, and the run stops after round 1 for lack of money. |
| `Trader.EmptyPoolStopsAtOnce` | py-galactic_trader/main.py:30-32 | With no rules at all, round 0 finds none. The run logs nothing and ends in the initial state. |
| `StvSyntax.IsSpace` | rule/validate_rule.py:6 | No contract of its own. `\s` in a Python str pattern is exactly the characters for which `str.isspace()` holds, Unicode separators included. |
| `StvSyntax.IsDigit` | rule/validate_rule.py:6 | No contract of its own. `[0-9]` is the ten ASCII digits only. |
| `StvSyntax.StvLanguage` | rule/validate_rule.py:6-7 | No contract of its own. It is the declarative language of the anchored pattern: `(STV`, whitespace, a number, whitespace, a number and `)`, optionally followed by one `\n`, which `$` allows. `IsValidStvIsLanguage` relates it to the recogniser. |
| `StvSyntax.IsValidStv` | rule/validate_rule.py:5-7 | It has no precondition, so it is total. An accepted string is at least 9 characters long and starts with `(STV` and whitespace. `IsValidStvIsLanguage` proves that it decides exactly `StvLanguage`. |
| `StvSyntax.NumberEnd` | rule/validate_rule.py:6 | A number that starts at `i` ends strictly after `i`, within the string. `NumberIsRecognised`, `NumberEndSound` and `NumberEndComplete` prove that it finds exactly the `[0-9]*\.?[0-9]+` that the pattern can use. |
| `StvSyntax.ScanNumber` | rule/validate_rule.py:6 | The scanning loop finds a number exactly when `NumberEnd` does, and ends where it does. |
| `StvSyntax.IsValidStvSound` | rule/validate_rule.py:5-7 | Every string the recogniser accepts is in the pattern's language. |
| `StvSyntax.IsValidStvComplete` | rule/validate_rule.py:5-7 | Every string in the pattern's language is accepted. |
| `StvSyntax.IsValidStvIsLanguage` | rule/validate_rule.py:5-7 | `is_valid_stv` holds of exactly the strings the anchored pattern matches. |
| `StvSyntax.ScanStv` | rule/validate_rule.py:5-7 | The scanning method returns the recogniser's verdict for every string. |
| `StvSyntax.NumberIsRecognised` | rule/validate_rule.py:6 | A string is a number `[0-9]*\.?[0-9]+` exactly when the number scan consumes all of it. |
| `StvSyntax.AcceptedShape` | rule/validate_rule.py:6 | An accepted string starts with `(STV` at position 0 followed by whitespace. It ends with `)` or with `)` and one newline. |
| `StvSyntax.NumbersAccepted` | rule/validate_rule.py:6 | `5`, `0.5` and `.5` are numbers. |
| `StvSyntax.NumbersRejected` | rule/validate_rule.py:6 | `5.`, `-1`, `1e3` and `1.2.3` are not numbers. |
| `StvSyntax.AcceptsBothNumberForms` | rule/validate_rule.py:6 | `(STV 0.5 .5)` is accepted. |
| `StvSyntax.AcceptsWhitespaceRunsAndNewline` | rule/validate_rule.py:6 | A tab, a run of spaces and one trailing newline are accepted. |
| `StvSyntax.OneNumberRejected` | rule/validate_rule.py:6 | `(STV 0.5)` is rejected. |
| `StvSyntax.ThreeNumbersRejected` | rule/validate_rule.py:6 | `(STV 1 1 1)` is rejected. |
| `StvSyntax.SeparatorRequired` | rule/validate_rule.py:6 | `(STV0.5 0.5)` is rejected. |
| `StvSyntax.AnchoredAtStart` | rule/validate_rule.py:6-7 | A leading space, and the empty string, are rejected. |
| `StvSyntax.SpaceAfterCloseRejected` | rule/validate_rule.py:6 | A space after `)` is rejected. |
| `StvSyntax.TwoNewlinesRejected` | rule/validate_rule.py:6 | Two newlines after `)` are rejected. |

## Left out

- The Beta sampler (`thompson-sampling/beta-sampling.py`) is not part of this model. It is floating-point rejection sampling over a random stream. A rule's score is the uninterpreted `sampleValue(rule, d)`.
- The rest of `validate_rule()` (`rule/validate_rule.py:11-113`) is not modelled. It reads a rule file, calls the MeTTa interpreter (a foreign library) and prints its findings.
- The `world` functions and a rule's `get_sample_value`, `update` and `action` are uninterpreted parameters, because their code is not part of this model. No update formula for the posterior is assumed.
- Printing and number formatting (`main.py:31, 52-54, 57`) and `State.__str__` are not modelled. The report a round would print is kept as a `Report` value in the run's log.
- Object identity is not modelled. In the source, `update` mutates the rule object in place. If the same object appears twice in the pool, or is shared with `starting_rules`, Python changes every reference to it. The model updates only the chosen position of the pool.
- `State` copying is not modelled as a separate step. States are values, so executing a rule never changes the state it was given, which is the guarantee `copy.deepcopy` provides.
- Money is a mathematical `real`. Python float rounding is not modelled, and the context is a `map<string, string>`.
