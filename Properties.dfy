/**
  What the engine promises, stated about the step functions of module Semantics
  (and so, through the methods' postconditions, about class Engine).
*/
module Properties {
  import opened Wrappers
  import opened Collaborators
  import opened Results
  import opened Semantics

  // ---------------------------------------------------------------------------
  // execute(inputs:)
  // ---------------------------------------------------------------------------

  /** An empty string gives no results and changes nothing; one character gives
      exactly what `execute(input:)` gives for it. */
  lemma StepInputsBase<N>(env: Env<N>, st: EngineState<N>, c: char, fuel: nat)
    ensures StepInputs(env, st, [], fuel) == Done(st, [])
    ensures StepInputs(env, st, [c], fuel) == StepInput(env, st, c, fuel)
  {
    assert [c][..0] == [];
  }

  /** The fold read from the front: the first character's results come first,
      followed by those of the rest of the string, run from the state it left. */
  lemma StepInputsCons<N>(env: Env<N>, st: EngineState<N>, c: char, s: string, fuel: nat)
    ensures StepInputs(env, st, [c] + s, fuel) == Continue(env, StepInput(env, st, c, fuel), s, fuel)
  {
    StepInputsAppend(env, st, [c], s, fuel);
    StepInputsBase(env, st, c, fuel);
  }

  /** A run that did not finish on a prefix does not finish on the whole string,
      and stops in the state the prefix left (nothing after it is fed). */
  lemma StepInputsCutOff<N>(env: Env<N>, st: EngineState<N>, s: string, t: string, fuel: nat)
    requires StepInputs(env, st, s, fuel).OutOfFuel?
    ensures StepInputs(env, st, s + t, fuel) == StepInputs(env, st, s, fuel)
  {
    StepInputsAppend(env, st, s, t, fuel);
  }

  // ---------------------------------------------------------------------------
  // execute(input:), case by case
  // ---------------------------------------------------------------------------

  /** The state after the walker has been fed `c` and nothing else has changed. */
  function Walked<N>(st: EngineState<N>, c: char): EngineState<N>
  {
    st.(fed := st.fed + [c])
  }

  /** The walker has no outcome: no results; cursor and fragments unchanged. */
  lemma NoOutcome<N>(env: Env<N>, st: EngineState<N>, c: char, fuel: nat)
    requires env.walk(st.fed, c) == []
    ensures StepInput(env, st, c, fuel) == Done(Walked(st, c), [])
  {
  }

  /** A reset outcome (root boundary, no candidates) clears the fragments, puts the
      cursor at the root and still emits one passthrough result marking everything
      before it final. */
  lemma ResetOutcome<N>(env: Env<N>, st: EngineState<N>, c: char, fuel: nat)
    requires env.walk(st.fed, c) != []
    requires env.walk(st.fed, c)[0].isRootOutput && env.walk(st.fed, c)[0].output.None?
    ensures var o := StepInput(env, st, c, fuel);
            o.Done? && o.state.partOutput == [] && o.state.rulesState == env.rules.root &&
            o.state.fed == st.fed + [c] &&
            o.results == [Passthrough(env.walk(st.fed, c)[0].inputs, true)]
  {
  }

  /** Unmapped input away from a root boundary is echoed, and nothing is reset. */
  lemma PassthroughOutcome<N>(env: Env<N>, st: EngineState<N>, c: char, fuel: nat)
    requires env.walk(st.fed, c) != []
    requires !env.walk(st.fed, c)[0].isRootOutput && env.walk(st.fed, c)[0].output.None?
    ensures StepInput(env, st, c, fuel) == Done(Walked(st, c), [Passthrough(env.walk(st.fed, c)[0].inputs, false)])
  {
  }

  /** A candidate the trie accepts: the first accepted one (in list order) is
      chosen, its script is appended to the fragments, the cursor does not move,
      and one result is emitted, rendered when the node has a renderer and
      echoed otherwise. */
  lemma AcceptedOutcome<N>(env: Env<N>, st: EngineState<N>, c: char, fuel: nat, i: nat)
    requires env.walk(st.fed, c) != [] && env.walk(st.fed, c)[0].output.Some?
    requires var cands := env.walk(st.fed, c)[0].output.value;
             i < |cands| && Accepts(env.rules, st.rulesState, cands[i]) &&
             forall j :: 0 <= j < i ==> !Accepts(env.rules, st.rulesState, cands[j])
    ensures var fr := env.walk(st.fed, c)[0];
            var chosen := fr.output.value[i];
            var node := env.rules.lookup(st.rulesState, RuleInput(chosen.kind, chosen.key)).value;
            var pending := st.partOutput + [chosen.script];
            StepInput(env, st, c, fuel) ==
              Done(EngineState(st.rulesState, pending, st.fed + [c]),
                   [match env.rules.value(node)
                    case Some(render) => Result(fr.inputs, render(pending), fr.isRootOutput, env.rules.nextIsEmpty(node))
                    case None => Passthrough(fr.inputs, fr.isRootOutput)])
  {
  }

  /** No candidate is accepted (an empty candidate list included): the state is
      reset and the step's matched text is executed again from it; its results
      are the step's results. */
  lemma FailedOutcome<N>(env: Env<N>, st: EngineState<N>, c: char, fuel: nat)
    requires env.walk(st.fed, c) != [] && env.walk(st.fed, c)[0].output.Some?
    requires forall j :: 0 <= j < |env.walk(st.fed, c)[0].output.value| ==>
               !Accepts(env.rules, st.rulesState, env.walk(st.fed, c)[0].output.value[j])
    ensures var cleared := EngineState(env.rules.root, [], st.fed + [c]);
            StepInput(env, st, c, fuel) ==
              if fuel == 0 then OutOfFuel(cleared)
              else StepInputs(env, cleared, env.walk(st.fed, c)[0].inputs, fuel - 1)
  {
  }

  /** Outside the re-execution branch, a character gives exactly one result. */
  lemma OneResultUnlessRetried<N>(env: Env<N>, st: EngineState<N>, c: char, fuel: nat)
    requires env.walk(st.fed, c) != []
    requires var fr := env.walk(st.fed, c)[0];
             fr.output.Some? ==> FirstAccepted(env.rules, st.rulesState, fr.output.value).Some?
    ensures StepInput(env, st, c, fuel).Done? && |StepInput(env, st, c, fuel).results| == 1
  {
  }

  /** A reset outcome forgets the context: the step's outcome does not depend on
      the cursor or on the pending fragments before it. */
  lemma ResetForgetsContext<N>(env: Env<N>, st1: EngineState<N>, st2: EngineState<N>, c: char, fuel: nat)
    requires st1.fed == st2.fed
    requires env.walk(st1.fed, c) != []
    requires env.walk(st1.fed, c)[0].isRootOutput && env.walk(st1.fed, c)[0].output.None?
    ensures StepInput(env, st1, c, fuel) == StepInput(env, st2, c, fuel)
  {
  }

  // ---------------------------------------------------------------------------
  // The cursor
  // ---------------------------------------------------------------------------

  /** The cursor is only ever reset, never advanced: an engine whose cursor is at
      the root keeps it there, whatever it is fed. */
  lemma CursorStaysAtRoot<N>(env: Env<N>, st: EngineState<N>, s: string, fuel: nat)
    requires st.rulesState == env.rules.root
    ensures StepInputs(env, st, s, fuel).state.rulesState == env.rules.root
  {
  }

  // ---------------------------------------------------------------------------
  // The fuel bound
  // ---------------------------------------------------------------------------

  /** A step that finishes within some fuel gives the same outcome with more. */
  lemma {:induction false} StepInputFuelMonotone<N>(env: Env<N>, st: EngineState<N>, c: char, fuel: nat, more: nat)
    requires fuel <= more
    requires StepInput(env, st, c, fuel).Done?
    ensures StepInput(env, st, c, more) == StepInput(env, st, c, fuel)
    decreases fuel, 0, 0
  {
    var frs := env.walk(st.fed, c);
    if frs != [] && frs[0].output.Some? && FirstAccepted(env.rules, st.rulesState, frs[0].output.value).None? {
      var cleared := Reset(env.rules, Walked(st, c));
      StepInputsFuelMonotone(env, cleared, frs[0].inputs, fuel - 1, more - 1);
    }
  }

  /** A run that finishes within some fuel gives the same outcome with more: the
      bound only cuts off runs, it never changes what a finished run returns. */
  lemma {:induction false} StepInputsFuelMonotone<N>(env: Env<N>, st: EngineState<N>, s: string, fuel: nat, more: nat)
    requires fuel <= more
    requires StepInputs(env, st, s, fuel).Done?
    ensures StepInputs(env, st, s, more) == StepInputs(env, st, s, fuel)
    decreases fuel, 1, |s|
  {
    if s != [] {
      var init := s[..|s| - 1];
      StepInputsFuelMonotone(env, st, init, fuel, more);
      StepInputFuelMonotone(env, StepInputs(env, st, init, fuel).state, s[|s| - 1], fuel, more);
    }
  }

  /** A walker that answers every character with one candidate `m`, away from
      a root boundary. */
  function Stubborn(m: MapOutput): WalkFn
  {
    (h: seq<char>, x: char) => [ForwardResult([x], false, Some([m]))]
  }

  /** The re-execution need not end. Since the cursor is never advanced, the reset
      before re-execution cannot change which candidates are accepted: with the
      walker above and a candidate the trie does not accept at the root, every
      re-execution of a character fails again, so no fuel bound is enough. */
  lemma {:induction false} RetryNeverEnds<N>(m: MapOutput, rules: RulesTrie<N>, st: EngineState<N>, c: char, fuel: nat)
    requires st.rulesState == rules.root
    requires !Accepts(rules, rules.root, m)
    ensures StepInput(Env(Stubborn(m), rules), st, c, fuel).OutOfFuel?
    decreases fuel
  {
    if fuel > 0 {
      var cleared := Reset(rules, Walked(st, c));
      StepInputsBase(Env(Stubborn(m), rules), cleared, c, fuel - 1);
      RetryNeverEnds(m, rules, cleared, c, fuel - 1);
    }
  }

  // ---------------------------------------------------------------------------
  // Only the first walker outcome matters
  // ---------------------------------------------------------------------------

  /** Two walkers that answer alike for every history of at least `n` characters. */
  ghost predicate AgreeFrom(w1: WalkFn, w2: WalkFn, n: nat)
  {
    forall h: seq<char>, c: char :: n <= |h| ==> w1(h, c) == w2(h, c)
  }

  /** One step: walkers whose answers for this character have the same first
      outcome, and that agree on every later history, give the same outcome. */
  lemma {:induction false} FirstOutcomeDecides<N>(w1: WalkFn, w2: WalkFn, rules: RulesTrie<N>, st: EngineState<N>, c: char, fuel: nat)
    requires w1(st.fed, c) == [] <==> w2(st.fed, c) == []
    requires w1(st.fed, c) != [] ==> w1(st.fed, c)[0] == w2(st.fed, c)[0]
    requires AgreeFrom(w1, w2, |st.fed| + 1)
    ensures StepInput(Env(w1, rules), st, c, fuel) == StepInput(Env(w2, rules), st, c, fuel)
    decreases fuel, 0, 0
  {
    var frs := w1(st.fed, c);
    if frs != [] && frs[0].output.Some? && FirstAccepted(rules, st.rulesState, frs[0].output.value).None? && fuel > 0 {
      var cleared := Reset(rules, Walked(st, c));
      AgreeingWalkers(w1, w2, rules, cleared, frs[0].inputs, fuel - 1);
    }
  }

  /** Walkers that agree on every history from the current one on give the same run. */
  lemma {:induction false} AgreeingWalkers<N>(w1: WalkFn, w2: WalkFn, rules: RulesTrie<N>, st: EngineState<N>, s: string, fuel: nat)
    requires AgreeFrom(w1, w2, |st.fed|)
    ensures StepInputs(Env(w1, rules), st, s, fuel) == StepInputs(Env(w2, rules), st, s, fuel)
    decreases fuel, 1, |s|
  {
    if s != [] {
      var init := s[..|s| - 1];
      AgreeingWalkers(w1, w2, rules, st, init, fuel);
      var o := StepInputs(Env(w1, rules), st, init, fuel);
      if o.Done? {
        assert w1(o.state.fed, s[|s| - 1]) == w2(o.state.fed, s[|s| - 1]);
        FirstOutcomeDecides(w1, w2, rules, o.state, s[|s| - 1], fuel);
      }
    }
  }

  /** Only the walker's first outcome for a character is acted on: replacing the
      outcomes after it (here: dropping them) changes nothing. */
  lemma LaterOutcomesIgnored<N>(w: WalkFn, rules: RulesTrie<N>, st: EngineState<N>, c: char, fuel: nat)
    ensures var firstOnly := (h: seq<char>, x: char) =>
              if h == st.fed && x == c && w(h, x) != [] then [w(h, x)[0]] else w(h, x);
            StepInput(Env(w, rules), st, c, fuel) == StepInput(Env(firstOnly, rules), st, c, fuel)
  {
    var firstOnly := (h: seq<char>, x: char) =>
      if h == st.fed && x == c && w(h, x) != [] then [w(h, x)[0]] else w(h, x);
    FirstOutcomeDecides(w, firstOnly, rules, st, c, fuel);
  }

  // ---------------------------------------------------------------------------
  // Scenarios
  // ---------------------------------------------------------------------------

  /** Two characters the walker leaves unmapped give two echoing, non-final
      results, whether or not they sit at a root boundary. */
  lemma TwoPassthroughs<N>(env: Env<N>, st: EngineState<N>, a: char, b: char, ra: bool, rb: bool, fuel: nat)
    requires env.walk(st.fed, a) != [] && env.walk(st.fed, a)[0] == ForwardResult([a], ra, None)
    requires env.walk(st.fed + [a], b) != [] && env.walk(st.fed + [a], b)[0] == ForwardResult([b], rb, None)
    ensures var o := StepInputs(env, st, [a, b], fuel);
            o.Done? && o.results == [Passthrough([a], ra), Passthrough([b], rb)] &&
            o.results[0].input == o.results[0].output == [a] && !o.results[0].isFinal &&
            o.results[1].input == o.results[1].output == [b] && !o.results[1].isFinal
  {
    StepInputsCons(env, st, a, [b], fuel);
    var s1 := StepInput(env, st, a, fuel).state;
    assert s1.fed == st.fed + [a];
    StepInputsBase(env, s1, b, fuel);
  }

  /** A final result does not clear the pending fragments: after a leaf rule
      emits a result with `isFinal` set, the next accepted candidate is rendered
      over a fragment list that still holds the finalized fragment, and its result
      does not mark the earlier one final. Whether the final output is then
      revised on screen depends on the renderer and on when the walker emits a
      reset marker. */
  lemma FinalNotCleared<N>(env: Env<N>, st: EngineState<N>, a: char, b: char, m1: MapOutput, m2: MapOutput, n1: N, n2: N, fuel: nat)
    requires env.walk(st.fed, a) == [ForwardResult([a], true, Some([m1]))]
    requires env.walk(st.fed + [a], b) == [ForwardResult([b], false, Some([m2]))]
    requires env.rules.lookup(st.rulesState, RuleInput(m1.kind, m1.key)) == Some(n1)
    requires env.rules.lookup(st.rulesState, RuleInput(m2.kind, m2.key)) == Some(n2)
    requires env.rules.value(n1).Some? && env.rules.nextIsEmpty(n1)
    requires env.rules.value(n2).Some?
    ensures var o := StepInputs(env, st, [a, b], fuel);
            o.Done? && |o.results| == 2 &&
            o.results[0].isFinal &&
            o.state.partOutput == st.partOutput + [m1.script, m2.script] &&
            o.results[1].output == env.rules.value(n2).value(st.partOutput + [m1.script, m2.script]) &&
            !o.results[1].isPreviousFinal
  {
    StepInputsCons(env, st, a, [b], fuel);
    AcceptedOutcome(env, st, a, fuel, 0);
    var s1 := StepInput(env, st, a, fuel).state;
    assert s1.fed == st.fed + [a] && s1.rulesState == st.rulesState;
    AcceptedOutcome(env, s1, b, fuel, 0);
    StepInputsBase(env, s1, b, fuel);
    assert st.partOutput + [m1.script] + [m2.script] == st.partOutput + [m1.script, m2.script];
  }

  /** Typing `k`, mapped to the consonant KA at the root by a rule whose renderer
      returns the single fragment, gives one result `k` -> KA. */
  lemma ConsonantKa<N>(env: Env<N>, st: EngineState<N>, fuel: nat, node: N, isRoot: bool)
    requires st.partOutput == []
    requires env.walk(st.fed, 'k') == [ForwardResult("k", isRoot, Some([MapOutput("consonant", "k", "क")]))]
    requires env.rules.lookup(st.rulesState, RuleInput("consonant", "k")) == Some(node)
    requires env.rules.value(node).Some? && env.rules.value(node).value(["क"]) == "क"
    ensures StepInputs(env, st, "k", fuel) ==
            Done(st.(partOutput := ["क"], fed := st.fed + ['k']),
                 [Result("k", "क", isRoot, env.rules.nextIsEmpty(node))])
  {
    StepInputsBase(env, st, 'k', fuel);
    assert st.partOutput + ["क"] == ["क"];
  }
}
