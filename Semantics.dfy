/**
  The engine's behaviour as functions on values: one character step
  (`execute(input:)`) and the fold over a string (`execute(inputs:)`), over an
  explicit state made of the rules cursor, the pending fragments and the
  walker's history.

  The re-execution of a failed disambiguation is recursive, and whether it
  ends depends on what the external walker answers when the same text is fed
  again. Both functions therefore take a `fuel` bound on the depth of that
  re-execution; running out of it gives `OutOfFuel`, which stands for a run
  that did not finish. `StepInputsFuelMonotone` (module Properties) shows that
  a run that finishes gives the same answer with any larger bound.
*/
module Semantics {
  import opened Wrappers
  import opened Collaborators
  import opened Results

  /** The collaborators: the walker's answers and the rules trie. */
  datatype Env<!N> = Env(walk: WalkFn, rules: RulesTrie<N>)

  /** The engine's two fields, plus the forward walker's history. */
  datatype EngineState<N> = EngineState(rulesState: N, partOutput: seq<string>, fed: seq<char>)

  /** A finished run (its new state and the results), or one cut off by the fuel bound. */
  datatype Outcome<N> = Done(state: EngineState<N>, results: seq<Result>) | OutOfFuel(state: EngineState<N>)

  /** `resetRules()`: no pending fragments, cursor back at the root. */
  function Reset<N>(rules: RulesTrie<N>, st: EngineState<N>): (r: EngineState<N>)
    ensures r.partOutput == [] && r.rulesState == rules.root
    ensures r.fed == st.fed
  {
    st.(partOutput := [], rulesState := rules.root)
  }

  /** The trie has a transition from `node` for the candidate's (type, key). */
  predicate Accepts<N>(rules: RulesTrie<N>, node: N, m: MapOutput)
  {
    rules.lookup(node, RuleInput(m.kind, m.key)).Some?
  }

  /** `mapOutputs.first(where:)`: the index of the first candidate the trie accepts. */
  function FirstAccepted<N>(rules: RulesTrie<N>, node: N, cands: seq<MapOutput>): (r: Option<nat>)
    ensures r.Some? ==> r.value < |cands| && Accepts(rules, node, cands[r.value])
    ensures r.Some? ==> forall j :: 0 <= j < r.value ==> !Accepts(rules, node, cands[j])
    ensures r.None? <==> forall j :: 0 <= j < |cands| ==> !Accepts(rules, node, cands[j])
  {
    if cands == [] then None
    else if Accepts(rules, node, cands[0]) then Some(0)
    else match FirstAccepted(rules, node, cands[1..])
      case None => None
      case Some(i) => Some(i + 1)
  }

  /** `execute(input:)`: feeds one character to the walker and acts on its first outcome. */
  function StepInput<N>(env: Env<N>, st: EngineState<N>, input: char, fuel: nat): (r: Outcome<N>)
    ensures st.fed + [input] <= r.state.fed
    ensures r.state.rulesState == st.rulesState || r.state.rulesState == env.rules.root
    decreases fuel, 0, 0
  {
    var forwardResults := env.walk(st.fed, input);
    var walked := st.(fed := st.fed + [input]);
    if forwardResults == [] then Done(walked, [])
    else
      var forwardResult := forwardResults[0];
      var s1 := if forwardResult.isRootOutput && forwardResult.output.None? then Reset(env.rules, walked) else walked;
      match forwardResult.output
      case None => Done(s1, [Passthrough(forwardResult.inputs, forwardResult.isRootOutput)])
      case Some(mapOutputs) =>
        match FirstAccepted(env.rules, s1.rulesState, mapOutputs)
        case Some(i) =>
          var mapOutput := mapOutputs[i];
          var s2 := s1.(partOutput := s1.partOutput + [mapOutput.script]);
          var ruleOutput := env.rules.lookup(s1.rulesState, RuleInput(mapOutput.kind, mapOutput.key)).value;
          (match env.rules.value(ruleOutput)
           case Some(ruleValue) =>
             Done(s2, [Result(forwardResult.inputs, ruleValue(s2.partOutput), forwardResult.isRootOutput, env.rules.nextIsEmpty(ruleOutput))])
           case None => Done(s2, [Passthrough(forwardResult.inputs, forwardResult.isRootOutput)]))
        case None =>
          var s2 := Reset(env.rules, s1);
          if fuel == 0 then OutOfFuel(s2) else StepInputs(env, s2, forwardResult.inputs, fuel - 1)
  }

  /** `execute(inputs:)`: steps through the characters in order and concatenates
      their results; a step that does not finish ends the whole run. */
  function StepInputs<N>(env: Env<N>, st: EngineState<N>, inputs: string, fuel: nat): (r: Outcome<N>)
    ensures st.fed <= r.state.fed
    ensures r.Done? ==> |st.fed| + |inputs| <= |r.state.fed|
    ensures r.state.rulesState == st.rulesState || r.state.rulesState == env.rules.root
    decreases fuel, 1, |inputs|
  {
    if inputs == [] then Done(st, [])
    else
      match StepInputs(env, st, inputs[..|inputs| - 1], fuel)
      case OutOfFuel(s) => OutOfFuel(s)
      case Done(s, previous) =>
        (match StepInput(env, s, inputs[|inputs| - 1], fuel)
         case OutOfFuel(s') => OutOfFuel(s')
         case Done(s', result) => Done(s', previous + result))
  }

  /** Runs `inputs` after `o`, if `o` finished, appending the new results. */
  function Continue<N>(env: Env<N>, o: Outcome<N>, inputs: string, fuel: nat): Outcome<N>
  {
    match o
    case OutOfFuel(_) => o
    case Done(s, previous) =>
      (match StepInputs(env, s, inputs, fuel)
       case OutOfFuel(s') => OutOfFuel(s')
       case Done(s', more) => Done(s', previous + more))
  }

  /** What a caller of the engine sees of an outcome: the results, or nothing. */
  function Report<N>(o: Outcome<N>): Option<seq<Result>>
  {
    if o.Done? then Some(o.results) else None
  }

  /** `execute(inputs:)` is a fold: running `s + t` is running `s` and then `t`. */
  lemma {:induction false} StepInputsAppend<N>(env: Env<N>, st: EngineState<N>, s: string, t: string, fuel: nat)
    ensures StepInputs(env, st, s + t, fuel) == Continue(env, StepInputs(env, st, s, fuel), t, fuel)
    decreases |t|
  {
    if t == [] {
      assert s + t == s;
    } else {
      var t' := t[..|t| - 1];
      assert (s + t)[..|s + t| - 1] == s + t';
      assert (s + t)[|s + t| - 1] == t[|t| - 1];
      StepInputsAppend(env, st, s, t', fuel);
      match StepInputs(env, st, s, fuel)
      case OutOfFuel(_) =>
      case Done(s0, rs0) =>
        match StepInputs(env, s0, t', fuel)
        case OutOfFuel(_) =>
        case Done(s1, rs1) =>
          match StepInput(env, s1, t[|t| - 1], fuel)
          case OutOfFuel(_) =>
          case Done(s2, rs2) =>
            assert rs0 + rs1 + rs2 == rs0 + (rs1 + rs2);
    }
  }
}
