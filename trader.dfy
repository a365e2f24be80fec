/**
 * The round engine of the galactic trader simulation.  Each round the trader
 * admits at most one newly reasoned rule into its pool, samples a score for every
 * rule that applies in the current state, executes the first rule with the highest
 * score, rewards it (nothing for a `travel` action), and moves on to the state the
 * rule produced.  The run ends when no rule applies, when money runs out, or after
 * 5000 rounds.
 *
 * The collaborators the loop calls into (applicability, execution, evaluation,
 * sampling and the rule's own update) are parameters, bundled in `World`.  Rules
 * are values of any type `R`; a rule is identified by its position in the pool.
 */
module Trader {

  /** The trader's situation: named attributes such as the current planet, and money. */
  datatype State = State(context: map<string, string>, money: real)

  /** The state a run starts in: on planet A with 1000 money. */
  const InitialState := State(map["planet" := "A"], 1000.0)

  /** The largest number of rounds a run has. */
  const MaxRounds := 5000

  /** The action whose rounds earn no evaluated reward. */
  const Travel := "travel"

  /**
   * The functions the loop calls but does not define.  `sampleValue(rule, d)` is the
   * score the rule draws when it is the `d`-th score sampled in the run, which is how
   * the shared random stream enters; `update(rule, reward)` is the rule after it has
   * learned from the reward.
   */
  datatype World<!R> = World(
    isValidRule: (R, State) -> bool,
    executeRule: (R, State) -> State,
    evaluateState: (State, State) -> real,
    sampleValue: (R, nat) -> real,
    update: (R, real) -> R,
    action: R -> string)

  /** An applicable rule, by its position in the pool, with the score sampled for it. */
  datatype Candidate = Candidate(index: nat, score: real)

  /** What a completed round records: the chosen rule, the money after it, the change, the reward. */
  datatype Report = Report(round: nat, chosen: nat, money: real, moneyChange: real, reward: real)

  /** Why a run ended. */
  datatype Stop = NoApplicableRule | OutOfMoney | RoundsExhausted

  /**
   * The loop's variables between rounds: the rule pool, the queue of reasoned rules
   * still to admit, the state, and how many scores have been sampled so far.
   */
  datatype Sim<R> = Sim(rules: seq<R>, reasoned: seq<R>, state: State, draws: nat)

  /** How a run ended: its variables at the end, the reason, and one report per completed round. */
  datatype Outcome<R> = Outcome(last: Sim<R>, stop: Stop, log: seq<Report>)

  /** The outcome of one round: either no rule applied, or a rule was executed. */
  datatype RoundResult<R> = NoRule(after: Sim<R>) | Done(after: Sim<R>, report: Report)

  // ---------------------------------------------------------------------------
  // The parts of a round
  // ---------------------------------------------------------------------------

  /** `s` read from its end. */
  function Reversed<T>(s: seq<T>): (r: seq<T>)
    ensures |r| == |s|
  {
    if s == [] then [] else [s[|s| - 1]] + Reversed(s[..|s| - 1])
  }

  /**
   * Admission: the last reasoned rule, if there is one, moves to the end of the pool.
   * The pool only grows, by at most one rule, and the pool followed by the queue read
   * backwards (the order in which rules enter the pool) does not change.
   */
  function Admit<R>(rules: seq<R>, reasoned: seq<R>): (r: (seq<R>, seq<R>))
    ensures rules <= r.0 && |r.0| == |rules| + (if reasoned == [] then 0 else 1)
    ensures r.0 + Reversed(r.1) == rules + Reversed(reasoned)
  {
    if reasoned == [] then (rules, reasoned)
    else
      var last := reasoned[|reasoned| - 1];
      assert Reversed(reasoned) == [last] + Reversed(reasoned[..|reasoned| - 1]);
      (rules + [last], reasoned[..|reasoned| - 1])
  }

  /**
   * The rules among the first `n` of the pool that apply in `state`, in pool order,
   * each with its sampled score: the `j`-th applicable rule draws score number
   * `draws + j` (ApplicableSound, ApplicableComplete).
   */
  function Applicable<R>(w: World<R>, rules: seq<R>, state: State, draws: nat, n: nat): (c: seq<Candidate>)
    requires n <= |rules|
    ensures |c| <= n && forall j :: 0 <= j < |c| ==> c[j].index < n
    decreases n
  {
    if n == 0 then []
    else
      var prev := Applicable(w, rules, state, draws, n - 1);
      if w.isValidRule(rules[n - 1], state) then
        prev + [Candidate(n - 1, w.sampleValue(rules[n - 1], draws + |prev|))]
      else prev
  }

  /**
   * Every candidate among the first `n` rules applies, the `j`-th of them carries the
   * `(draws + j)`-th sampled score, and they are in pool order, each rule at most once.
   */
  lemma {:induction false} ApplicableSound<R>(w: World<R>, rules: seq<R>, state: State, draws: nat, n: nat)
    requires n <= |rules|
    ensures forall j :: 0 <= j < |Applicable(w, rules, state, draws, n)| ==>
      var c := Applicable(w, rules, state, draws, n);
      w.isValidRule(rules[c[j].index], state) && c[j].score == w.sampleValue(rules[c[j].index], draws + j)
    ensures forall j, k :: 0 <= j < k < |Applicable(w, rules, state, draws, n)| ==>
      Applicable(w, rules, state, draws, n)[j].index < Applicable(w, rules, state, draws, n)[k].index
  {
    if n > 0 {
      ApplicableSound(w, rules, state, draws, n - 1);
      var prev := Applicable(w, rules, state, draws, n - 1);
      var c := Applicable(w, rules, state, draws, n);
      assert prev <= c;
      forall j, k | 0 <= j < k < |c| ensures c[j].index < c[k].index {
        assert c[j] == prev[j];
        if k < |prev| {
          assert c[k] == prev[k];
        }
      }
    }
  }

  /** Rule number `x` of the pool is among the candidates `c`. */
  ghost predicate Listed(c: seq<Candidate>, x: nat) {
    exists j :: 0 <= j < |c| && c[j].index == x
  }

  /** Every rule among the first `n` that applies is a candidate. */
  lemma {:induction false} ApplicableComplete<R>(w: World<R>, rules: seq<R>, state: State, draws: nat, n: nat)
    requires n <= |rules|
    ensures forall x :: 0 <= x < n && w.isValidRule(rules[x], state) ==> Listed(Applicable(w, rules, state, draws, n), x)
  {
    if n > 0 {
      ApplicableComplete(w, rules, state, draws, n - 1);
      var prev := Applicable(w, rules, state, draws, n - 1);
      var c := Applicable(w, rules, state, draws, n);
      if w.isValidRule(rules[n - 1], state) {
        assert c == prev + [Candidate(n - 1, w.sampleValue(rules[n - 1], draws + |prev|))];
        forall x | 0 <= x < n && w.isValidRule(rules[x], state)
          ensures Listed(c, x)
        {
          if x == n - 1 {
            assert c[|prev|].index == x;
          } else {
            var j :| 0 <= j < |prev| && prev[j].index == x;
            assert c[j].index == x;
          }
        }
      }
    }
  }

  /**
   * The candidate a stable sort by descending score puts first: its score is at least
   * every other score, and every candidate before it scores strictly less.
   */
  function FirstMax(c: seq<Candidate>): (k: nat)
    requires |c| > 0
    ensures k < |c|
    ensures forall j :: 0 <= j < |c| ==> c[j].score <= c[k].score
    ensures forall j :: 0 <= j < k ==> c[j].score < c[k].score
  {
    if |c| == 1 then 0
    else
      var k := FirstMax(c[..|c| - 1]);
      if c[|c| - 1].score > c[k].score then |c| - 1 else k
  }

  /** The reward of executing `rule` from `before` to `after`: nothing for travel, else the evaluation. */
  function Reward<R>(w: World<R>, rule: R, after: State, before: State): real {
    if w.action(rule) == Travel then 0.0 else w.evaluateState(after, before)
  }

  /** Round `i` from the loop's variables `s`: admission, then the rest of the round. */
  function Round<R>(w: World<R>, s: Sim<R>, i: nat): RoundResult<R> {
    var admitted := Admit(s.rules, s.reasoned);
    Choose(w, admitted.0, admitted.1, s.state, s.draws, i)
  }

  /**
   * Round `i` once admission has produced the pool `rules` and the queue `reasoned`:
   * collect the applicable rules, execute the first best one, reward and update it.
   */
  function Choose<R>(w: World<R>, rules: seq<R>, reasoned: seq<R>, state: State, draws: nat, i: nat): RoundResult<R> {
    var applicable := Applicable(w, rules, state, draws, |rules|);
    var draws' := draws + |applicable|;
    if |applicable| == 0 then NoRule(Sim(rules, reasoned, state, draws'))
    else
      var chosen := applicable[FirstMax(applicable)].index;
      var rule := rules[chosen];
      var newState := w.executeRule(rule, state);
      var reward := Reward(w, rule, newState, state);
      Done(Sim(rules[chosen := w.update(rule, reward)], reasoned, newState, draws'),
           Report(i, chosen, newState.money, newState.money - state.money, reward))
  }

  // ---------------------------------------------------------------------------
  // The run
  // ---------------------------------------------------------------------------

  /** A run resumed after the rounds `done` have been logged. */
  function Resumed<R>(done: seq<Report>, rest: Outcome<R>): Outcome<R> {
    Outcome(rest.last, rest.stop, done + rest.log)
  }

  /**
   * The loop's control, for any way `round` of computing a round: rounds `i`,
   * `i + 1`, ... up to `MaxRounds`, stopping after a round without an applicable rule
   * or after one that leaves money at or below zero.
   */
  function Loop<R>(round: (Sim<R>, nat) -> RoundResult<R>, s: Sim<R>, i: nat): Outcome<R>
    decreases MaxRounds - i
  {
    if i >= MaxRounds then Outcome(s, RoundsExhausted, [])
    else match round(s, i)
      case NoRule(after) => Outcome(after, NoApplicableRule, [])
      case Done(after, report) =>
        if after.state.money <= 0.0 then Outcome(after, OutOfMoney, [report])
        else Resumed([report], Loop(round, after, i + 1))
  }

  /** The trader's rounds as a function for the loop. */
  function RoundOf<R>(w: World<R>): (Sim<R>, nat) -> RoundResult<R> {
    (s: Sim<R>, i: nat) => Round(w, s, i)
  }

  /** The run from round `i` on. */
  function Run<R>(w: World<R>, s: Sim<R>, i: nat): Outcome<R> {
    Loop(RoundOf(w), s, i)
  }

  /** The variables a run starts with. */
  function Start<R>(startingRules: seq<R>, reasonedRules: seq<R>): Sim<R> {
    Sim(startingRules, reasonedRules, InitialState, 0)
  }

  // ---------------------------------------------------------------------------
  // The loop
  // ---------------------------------------------------------------------------

  /** The inner loop of a round: pairs each applicable rule, in pool order, with a sampled score. */
  method CollectApplicable<R>(w: World<R>, rules: seq<R>, state: State, draws: nat)
    returns (applicable: seq<Candidate>)
    ensures applicable == Applicable(w, rules, state, draws, |rules|)
  {
    applicable := [];
    for j := 0 to |rules|
      invariant applicable == Applicable(w, rules, state, draws, j)
    {
      if w.isValidRule(rules[j], state) {
        var sampled := w.sampleValue(rules[j], draws + |applicable|);
        applicable := applicable + [Candidate(j, sampled)];
      }
    }
  }

  /** One round of the loop's body, from its variables to theirs after the round. */
  method PlayRound<R>(w: World<R>, rules: seq<R>, reasoned: seq<R>, state: State, draws: nat, i: nat)
    returns (result: RoundResult<R>)
    ensures result == Round(w, Sim(rules, reasoned, state, draws), i)
  {
    var rules, reasoned := rules, reasoned;
    ghost var admitted := Admit(rules, reasoned);
    // admission: the newest reasoned rule joins the end of the pool
    if reasoned != [] {
      rules := rules + [reasoned[|reasoned| - 1]];
      reasoned := reasoned[..|reasoned| - 1];
    }
    assert rules == admitted.0 && reasoned == admitted.1;
    result := PlayAdmitted(w, rules, reasoned, state, draws, i);
  }

  /** The rest of the loop's body, after admission. */
  method PlayAdmitted<R>(w: World<R>, rules: seq<R>, reasoned: seq<R>, state: State, draws: nat, i: nat)
    returns (result: RoundResult<R>)
    ensures result == Choose(w, rules, reasoned, state, draws, i)
  {
    var rules, state, draws := rules, state, draws;
    var applicable := CollectApplicable(w, rules, state, draws);
    draws := draws + |applicable|;
    if applicable == [] {
      return NoRule(Sim(rules, reasoned, state, draws));
    }
    var chosen := applicable[FirstMax(applicable)].index;
    var newState := w.executeRule(rules[chosen], state);
    // a travel action earns no evaluated reward
    var reward := 0.0;
    if w.action(rules[chosen]) != Travel {
      reward := w.evaluateState(newState, state);
    }
    rules := rules[chosen := w.update(rules[chosen], reward)];
    var oldMoney := state.money;
    state := newState;
    var moneyChange := state.money - oldMoney;
    result := Done(Sim(rules, reasoned, state, draws), Report(i, chosen, state.money, moneyChange, reward));
  }

  /**
   * The simulation: at most 5000 rounds from the initial state, each logged, ending
   * when no rule applies, when money is at or below zero, or when the rounds run out.
   */
  method Simulate<R>(w: World<R>, startingRules: seq<R>, reasonedRules: seq<R>) returns (out: Outcome<R>)
    ensures out == Run(w, Start(startingRules, reasonedRules), 0)
  {
    ghost var start := Start(startingRules, reasonedRules);
    var rules, reasoned, state, draws := startingRules, reasonedRules, InitialState, 0;
    var log: seq<Report> := [];
    var stop := RoundsExhausted;
    for i := 0 to MaxRounds
      invariant Resumed(log, Loop(RoundOf(w), Sim(rules, reasoned, state, draws), i)) == Run(w, start, 0)
    {
      var result := PlayRound(w, rules, reasoned, state, draws, i);
      LoopAdvance(RoundOf(w), Sim(rules, reasoned, state, draws), i, log, Run(w, start, 0));
      rules, reasoned, state, draws := result.after.rules, result.after.reasoned, result.after.state, result.after.draws;
      if result.NoRule? {
        stop := NoApplicableRule;
        break;
      }
      log := log + [result.report];
      if state.money <= 0.0 {
        stop := OutOfMoney;
        break;
      }
    }
    out := Outcome(Sim(rules, reasoned, state, draws), stop, log);
  }

  // ---------------------------------------------------------------------------
  // Properties of a round
  // ---------------------------------------------------------------------------

  // Round(w, s, i) is Choose applied to the pool and queue Admit(s.rules, s.reasoned)
  // gives, so the properties below, stated for Choose, hold of every round's pool.

  /**
   * A round stops the run exactly when no rule of the (admitted) pool applies; then
   * the state and the pool are unchanged and nothing is sampled.
   */
  lemma NoRuleExactly<R>(w: World<R>, rules: seq<R>, reasoned: seq<R>, state: State, draws: nat, i: nat)
    ensures Choose(w, rules, reasoned, state, draws, i).NoRule? <==>
      forall x :: 0 <= x < |rules| ==> !w.isValidRule(rules[x], state)
    ensures Choose(w, rules, reasoned, state, draws, i).NoRule? ==>
      Choose(w, rules, reasoned, state, draws, i).after == Sim(rules, reasoned, state, draws)
  {
    ApplicableSound(w, rules, state, draws, |rules|);
    ApplicableComplete(w, rules, state, draws, |rules|);
    var applicable := Applicable(w, rules, state, draws, |rules|);
    if applicable != [] {
      assert w.isValidRule(rules[applicable[0].index], state);
    }
  }

  /**
   * Rule `x` of the pool is the candidate a stable sort by descending score puts
   * first: it scored the most, and every candidate before it scored strictly less.
   */
  ghost predicate FirstBest(c: seq<Candidate>, x: nat) {
    exists k :: 0 <= k < |c| && c[k].index == x
      && (forall j :: 0 <= j < |c| ==> c[j].score <= c[k].score)
      && (forall j :: 0 <= j < |c| && c[j].index < x ==> c[j].score < c[k].score)
  }

  /**
   * The rule a round executes applies in the state, and it is the first best of the
   * candidates sampled that round.
   */
  lemma ChosenIsFirstBest<R>(w: World<R>, rules: seq<R>, reasoned: seq<R>, state: State, draws: nat, i: nat)
    requires Choose(w, rules, reasoned, state, draws, i).Done?
    ensures Choose(w, rules, reasoned, state, draws, i).report.chosen < |rules|
    ensures w.isValidRule(rules[Choose(w, rules, reasoned, state, draws, i).report.chosen], state)
    ensures FirstBest(Applicable(w, rules, state, draws, |rules|), Choose(w, rules, reasoned, state, draws, i).report.chosen)
  {
    ApplicableSound(w, rules, state, draws, |rules|);
    var applicable := Applicable(w, rules, state, draws, |rules|);
    var k := FirstMax(applicable);
    var c := Choose(w, rules, reasoned, state, draws, i).report.chosen;
    assert applicable[k].index == c;
    forall j | 0 <= j < |applicable| && applicable[j].index < c
      ensures applicable[j].score < applicable[k].score
    {
      assert j < k;
    }
  }

  /**
   * A completed round updates the chosen rule once, with the round's reward, and
   * leaves every other rule of the pool as it was.  The new state is the chosen rule
   * executed on the old one, and the reward is zero for travel and the evaluation of
   * the new state against the old one otherwise.
   */
  lemma OnlyChosenChanges<R>(w: World<R>, rules: seq<R>, reasoned: seq<R>, state: State, draws: nat, i: nat)
    requires Choose(w, rules, reasoned, state, draws, i).Done?
    ensures var r := Choose(w, rules, reasoned, state, draws, i);
      var c := r.report.chosen;
      && c < |rules| && |r.after.rules| == |rules|
      && r.after.rules[c] == w.update(rules[c], r.report.reward)
      && (forall x :: 0 <= x < |rules| && x != c ==> r.after.rules[x] == rules[x])
      && r.after.state == w.executeRule(rules[c], state)
      && r.report.reward == (if w.action(rules[c]) == Travel then 0.0 else w.evaluateState(r.after.state, state))
  {
  }

  /**
   * What every round promises the loop: a completed round reports its number, the
   * money after it and the change since before it; a round without an applicable rule
   * keeps the state; and the queue's last rule, if any, has moved into the pool.
   */
  ghost predicate Coherent<R>(r: RoundResult<R>, s: Sim<R>, i: nat) {
    && (r.Done? ==>
          && r.report.round == i && r.report.money == r.after.state.money
          && r.report.moneyChange == r.after.state.money - s.state.money)
    && (r.NoRule? ==> r.after.state == s.state)
    && |r.after.rules| == |s.rules| + (if s.reasoned == [] then 0 else 1)
    && r.after.reasoned == (if s.reasoned == [] then s.reasoned else s.reasoned[..|s.reasoned| - 1])
  }

  lemma RoundIsCoherent<R>(w: World<R>, s: Sim<R>, i: nat)
    ensures Coherent(Round(w, s, i), s, i)
  {
  }

  lemma AllRoundsCoherent<R>(w: World<R>)
    ensures forall s, i :: Coherent(RoundOf(w)(s, i), s, i)
  {
    forall s, i ensures Coherent(RoundOf(w)(s, i), s, i) {
      RoundIsCoherent(w, s, i);
    }
  }

  // ---------------------------------------------------------------------------
  // Properties of the loop
  // ---------------------------------------------------------------------------

  /** One turn of the loop. */
  lemma LoopStep<R>(round: (Sim<R>, nat) -> RoundResult<R>, s: Sim<R>, i: nat)
    requires i < MaxRounds
    ensures round(s, i).NoRule? ==> Loop(round, s, i) == Outcome(round(s, i).after, NoApplicableRule, [])
    ensures round(s, i).Done? && round(s, i).after.state.money <= 0.0 ==>
      Loop(round, s, i) == Outcome(round(s, i).after, OutOfMoney, [round(s, i).report])
    ensures round(s, i).Done? && round(s, i).after.state.money > 0.0 ==>
      Loop(round, s, i) == Resumed([round(s, i).report], Loop(round, round(s, i).after, i + 1))
  {
  }

  /** The loop's variables and log after one more round, for a run whose outcome is `target`. */
  lemma LoopAdvance<R>(round: (Sim<R>, nat) -> RoundResult<R>, s: Sim<R>, i: nat, log: seq<Report>, target: Outcome<R>)
    requires i < MaxRounds
    requires Resumed(log, Loop(round, s, i)) == target
    ensures round(s, i).NoRule? ==> Outcome(round(s, i).after, NoApplicableRule, log) == target
    ensures round(s, i).Done? && round(s, i).after.state.money <= 0.0 ==>
      Outcome(round(s, i).after, OutOfMoney, log + [round(s, i).report]) == target
    ensures round(s, i).Done? && round(s, i).after.state.money > 0.0 ==>
      Resumed(log + [round(s, i).report], Loop(round, round(s, i).after, i + 1)) == target
  {
    LoopStep(round, s, i);
    if round(s, i).Done? {
      assert log + [round(s, i).report] + Loop(round, round(s, i).after, i + 1).log
          == log + ([round(s, i).report] + Loop(round, round(s, i).after, i + 1).log);
    }
  }

  /**
   * A run from round `i` logs at most `MaxRounds - i` rounds, numbered from `i` on;
   * it has used them all when it stops for lack of rounds, and it stops for lack of
   * an applicable rule only with rounds to spare.
   */
  lemma {:induction false} LoopLength<R>(round: (Sim<R>, nat) -> RoundResult<R>, s: Sim<R>, i: nat)
    requires i <= MaxRounds
    requires forall t, j :: Coherent(round(t, j), t, j)
    ensures var o := Loop(round, s, i);
      && |o.log| <= MaxRounds - i
      && (forall k :: 0 <= k < |o.log| ==> o.log[k].round == i + k)
      && (o.stop == RoundsExhausted ==> |o.log| == MaxRounds - i)
      && (o.stop == NoApplicableRule ==> |o.log| < MaxRounds - i)
    decreases MaxRounds - i
  {
    if i < MaxRounds && round(s, i).Done? && round(s, i).after.state.money > 0.0 {
      LoopLength(round, round(s, i).after, i + 1);
      assert Coherent(round(s, i), s, i);
    }
  }

  /**
   * A run goes on only while money is positive: the round that leaves money at or
   * below zero is the last, and the run then stops for running out of money.
   */
  lemma {:induction false} LoopStopsWhenBroke<R>(round: (Sim<R>, nat) -> RoundResult<R>, s: Sim<R>, i: nat)
    requires forall t, j :: Coherent(round(t, j), t, j)
    ensures var o := Loop(round, s, i);
      && (o.stop == OutOfMoney ==> |o.log| > 0)
      && forall k :: 0 <= k < |o.log| ==>
           (o.log[k].money <= 0.0 <==> (k == |o.log| - 1 && o.stop == OutOfMoney))
    decreases MaxRounds - i
  {
    if i < MaxRounds && round(s, i).Done? {
      assert Coherent(round(s, i), s, i);
      if round(s, i).after.state.money > 0.0 {
        LoopStopsWhenBroke(round, round(s, i).after, i + 1);
      }
    }
  }

  /**
   * Each logged money change is that round's money minus the money before it, and the
   * run ends with the money of its last logged round (the starting money if none).
   */
  lemma {:induction false} LoopMoneyChain<R>(round: (Sim<R>, nat) -> RoundResult<R>, s: Sim<R>, i: nat)
    requires forall t, j :: Coherent(round(t, j), t, j)
    ensures var o := Loop(round, s, i);
      && (|o.log| > 0 ==> o.log[0].moneyChange == o.log[0].money - s.state.money)
      && (forall k :: 0 < k < |o.log| ==> o.log[k].moneyChange == o.log[k].money - o.log[k - 1].money)
      && o.last.state.money == (if o.log == [] then s.state.money else o.log[|o.log| - 1].money)
    decreases MaxRounds - i
  {
    if i < MaxRounds {
      assert Coherent(round(s, i), s, i);
      if round(s, i).Done? && round(s, i).after.state.money > 0.0 {
        LoopMoneyChain(round, round(s, i).after, i + 1);
      }
    }
  }

  /**
   * Over a run the queue is consumed from its end, one rule for each round begun,
   * until it is empty: what is left of it is a prefix of the queue the run started
   * with, and the pool and the queue together keep their total size.
   */
  lemma {:induction false} LoopAdmission<R>(round: (Sim<R>, nat) -> RoundResult<R>, s: Sim<R>, i: nat)
    requires forall t, j :: Coherent(round(t, j), t, j)
    ensures var o := Loop(round, s, i);
      var begun := |o.log| + (if o.stop == NoApplicableRule then 1 else 0);
      && |o.last.reasoned| == (if begun <= |s.reasoned| then |s.reasoned| - begun else 0)
      && o.last.reasoned == s.reasoned[..|o.last.reasoned|]
      && |o.last.rules| + |o.last.reasoned| == |s.rules| + |s.reasoned|
    decreases MaxRounds - i
  {
    if i < MaxRounds {
      var r := round(s, i);
      assert Coherent(r, s, i);
      if r.Done? && r.after.state.money > 0.0 {
        LoopAdmission(round, r.after, i + 1);
        var rest := Loop(round, r.after, i + 1);
        if s.reasoned != [] {
          assert r.after.reasoned[..|rest.last.reasoned|] == s.reasoned[..|rest.last.reasoned|];
        }
      }
    }
  }

  // ---------------------------------------------------------------------------
  // Properties of a run
  // ---------------------------------------------------------------------------

  /**
   * A run has at most 5000 rounds, logged and numbered from 0; it has used them all
   * when it stops for lack of rounds, and it stops for lack of an applicable rule only
   * with rounds to spare.
   */
  lemma RunLength<R>(w: World<R>, startingRules: seq<R>, reasonedRules: seq<R>)
    ensures var out := Run(w, Start(startingRules, reasonedRules), 0);
      && |out.log| <= MaxRounds && (forall k :: 0 <= k < |out.log| ==> out.log[k].round == k)
      && (out.stop == RoundsExhausted ==> |out.log| == MaxRounds)
      && (out.stop == NoApplicableRule ==> |out.log| < MaxRounds)
  {
    AllRoundsCoherent(w);
    LoopLength(RoundOf(w), Start(startingRules, reasonedRules), 0);
  }

  /** A run stops after the round that leaves money at or below zero, and only then. */
  lemma RunStopsWhenBroke<R>(w: World<R>, startingRules: seq<R>, reasonedRules: seq<R>)
    ensures var out := Run(w, Start(startingRules, reasonedRules), 0);
      && (out.stop == OutOfMoney ==> |out.log| > 0)
      && (forall k :: 0 <= k < |out.log| ==>
            (out.log[k].money <= 0.0 <==> (k == |out.log| - 1 && out.stop == OutOfMoney)))
  {
    AllRoundsCoherent(w);
    LoopStopsWhenBroke(RoundOf(w), Start(startingRules, reasonedRules), 0);
  }

  /** The logged money changes chain from the initial 1000 to the money the run ends with. */
  lemma RunMoneyChain<R>(w: World<R>, startingRules: seq<R>, reasonedRules: seq<R>)
    ensures var out := Run(w, Start(startingRules, reasonedRules), 0);
      && (|out.log| > 0 ==> out.log[0].moneyChange == out.log[0].money - InitialState.money)
      && (forall k :: 0 < k < |out.log| ==> out.log[k].moneyChange == out.log[k].money - out.log[k - 1].money)
      && out.last.state.money == (if out.log == [] then InitialState.money else out.log[|out.log| - 1].money)
  {
    AllRoundsCoherent(w);
    LoopMoneyChain(RoundOf(w), Start(startingRules, reasonedRules), 0);
  }

  /** The reasoned rules enter the pool from the end of the queue, one for each round begun. */
  lemma RunAdmission<R>(w: World<R>, startingRules: seq<R>, reasonedRules: seq<R>)
    ensures var out := Run(w, Start(startingRules, reasonedRules), 0);
      var begun := |out.log| + (if out.stop == NoApplicableRule then 1 else 0);
      && |out.last.reasoned| == (if begun <= |reasonedRules| then |reasonedRules| - begun else 0)
      && out.last.reasoned == reasonedRules[..|out.last.reasoned|]
      && |out.last.rules| + |out.last.reasoned| == |startingRules| + |reasonedRules|
  {
    AllRoundsCoherent(w);
    LoopAdmission(RoundOf(w), Start(startingRules, reasonedRules), 0);
  }

  /**
   * When every rule applies in every state and no execution from positive money
   * leaves money at or below zero, a round from a non-empty pool with positive money
   * completes and leaves a non-empty pool and positive money.
   */
  lemma RoundKeepsGoing<R>(w: World<R>, s: Sim<R>, i: nat)
    requires s.rules != [] || s.reasoned != []
    requires s.state.money > 0.0
    requires forall r: R, st: State :: w.isValidRule(r, st)
    requires forall r: R, st: State :: st.money > 0.0 ==> w.executeRule(r, st).money > 0.0
    ensures Round(w, s, i).Done?
    ensures Round(w, s, i).after.rules != [] && Round(w, s, i).after.state.money > 0.0
  {
    var admitted := Admit(s.rules, s.reasoned);
    NoRuleExactly(w, admitted.0, admitted.1, s.state, s.draws, i);
    assert w.isValidRule(admitted.0[0], s.state);
  }

  /**
   * A loop whose rounds, from variables satisfying `keepsGoing`, always complete with
   * positive money and variables satisfying it again, uses every remaining round.
   */
  lemma {:induction false} LoopExhausts<R>(round: (Sim<R>, nat) -> RoundResult<R>, keepsGoing: Sim<R> -> bool, s: Sim<R>, i: nat)
    requires i <= MaxRounds
    requires keepsGoing(s)
    requires forall t, j :: keepsGoing(t) ==>
      round(t, j).Done? && round(t, j).after.state.money > 0.0 && keepsGoing(round(t, j).after)
    ensures Loop(round, s, i).stop == RoundsExhausted && |Loop(round, s, i).log| == MaxRounds - i
    decreases MaxRounds - i
  {
    if i < MaxRounds {
      LoopExhausts(round, keepsGoing, round(s, i).after, i + 1);
    }
  }

  /**
   * If every rule applies in every state, the pool is not empty, and no execution
   * from positive money leaves money at or below zero, the simulation runs exactly
   * 5000 rounds.
   */
  lemma FullRun<R>(w: World<R>, startingRules: seq<R>, reasonedRules: seq<R>)
    requires startingRules != [] || reasonedRules != []
    requires forall r: R, st: State :: w.isValidRule(r, st)
    requires forall r: R, st: State :: st.money > 0.0 ==> w.executeRule(r, st).money > 0.0
    ensures var o := Run(w, Start(startingRules, reasonedRules), 0);
      o.stop == RoundsExhausted && |o.log| == MaxRounds
  {
    var keepsGoing := (t: Sim<R>) => (t.rules != [] || t.reasoned != []) && t.state.money > 0.0;
    forall t, j | keepsGoing(t)
      ensures RoundOf(w)(t, j).Done? && RoundOf(w)(t, j).after.state.money > 0.0 && keepsGoing(RoundOf(w)(t, j).after)
    {
      RoundKeepsGoing(w, t, j);
    }
    LoopExhausts(RoundOf(w), keepsGoing, Start(startingRules, reasonedRules), 0);
  }

  /**
   * A one-rule world whose every trade costs 600: the run starts with 1000, is left
   * with 400 after round 0 and with -200 after round 1, and stops there.
   */
  lemma BrokeAfterTwoRounds()
    ensures var w := World(
        (r: int, st: State) => true,
        (r: int, st: State) => State(st.context, st.money - 600.0),
        (after: State, before: State) => after.money - before.money,
        (r: int, d: nat) => 0.5,
        (r: int, reward: real) => r,
        (r: int) => "trade");
      var o := Run(w, Start([7], []), 0);
      o.stop == OutOfMoney && |o.log| == 2 && o.log[0].money == 400.0 && o.log[1].money == -200.0
  {
  }

  /**
   * With nothing in the pool and nothing to admit, round 0 finds no applicable rule:
   * the run logs nothing and ends in the initial state.
   */
  lemma EmptyPoolStopsAtOnce<R>(w: World<R>)
    ensures var o := Run(w, Start([], []), 0);
      o.stop == NoApplicableRule && o.log == [] && o.last.state == InitialState
  {
  }

  /** Ties go to the earliest candidate: of scores 0.3, 0.9, 0.9 the second is chosen. */
  lemma TieGoesToEarliest()
    ensures FirstMax([Candidate(0, 0.3), Candidate(1, 0.9), Candidate(2, 0.9)]) == 1
  {
  }
}
