/**
  The transliteration engine as an object: the cursor into the rules trie and
  the pending script fragments are fields updated in place, and the forward
  walker is an object the engine owns. Each method is proved to do exactly
  what its counterpart in module Semantics computes.
*/
module Transliteration {
  import opened Wrappers
  import opened Collaborators
  import opened Results
  import opened Semantics

  class Engine<N> {
    const forwardWalker: TrieWalker
    const rules: RulesTrie<N>

    /** The cursor into the rules trie. */
    var rulesState: N
    /** The script fragments accumulated since the last reset. */
    var partOutput: seq<string>

    /** The collaborators as values. */
    function Environment(): Env<N>
    {
      Env(forwardWalker.respond, rules)
    }

    /** The engine's state together with the walker's. */
    function State(): EngineState<N>
      reads this, forwardWalker
    {
      EngineState(rulesState, partOutput, forwardWalker.fed)
    }

    /** `init(rules:)`: the cursor starts at the root of the rules trie, no
        fragments are pending, and a new walker is created over `walk`. */
    constructor (rules: RulesTrie<N>, walk: WalkFn)
      ensures this.rules == rules && forwardWalker.respond == walk && fresh(forwardWalker)
      ensures State() == EngineState(rules.root, [], [])
    {
      this.rules := rules;
      rulesState := rules.root;
      partOutput := [];
      forwardWalker := new TrieWalker(walk);
    }

    /** `resetRules()`. */
    method ResetRules()
      modifies this
      ensures State() == Reset(rules, old(State()))
      ensures partOutput == [] && rulesState == rules.root
    {
      partOutput := [];
      rulesState := rules.root;
    }

    /** `execute(inputs:)`: `None` when a re-execution inside it ran out of fuel. */
    method ExecuteInputs(inputs: string, fuel: nat) returns (r: Option<seq<Result>>)
      modifies this, forwardWalker
      ensures var o := StepInputs(Environment(), old(State()), inputs, fuel);
              State() == o.state && r == Report(o)
      ensures rulesState == old(rulesState) || rulesState == rules.root
      decreases fuel, 1
    {
      var results: seq<Result> := [];
      for i := 0 to |inputs|
        invariant StepInputs(Environment(), old(State()), inputs[..i], fuel) == Done(State(), results)
      {
        var step := ExecuteInput(inputs[i], fuel);
        assert inputs[..i + 1][..i] == inputs[..i];
        if step.None? {
          StepInputsAppend(Environment(), old(State()), inputs[..i + 1], inputs[i + 1..], fuel);
          assert inputs[..i + 1] + inputs[i + 1..] == inputs;
          return None;
        }
        results := results + step.value;
      }
      assert inputs[..|inputs|] == inputs;
      return Some(results);
    }

    /** `execute(input:)`. The Swift source loops over the walker's outcomes, but
        every path through the loop body returns, so only the first is acted on. */
    method ExecuteInput(input: char, fuel: nat) returns (r: Option<seq<Result>>)
      modifies this, forwardWalker
      ensures var o := StepInput(Environment(), old(State()), input, fuel);
              State() == o.state && r == Report(o)
      ensures rulesState == old(rulesState) || rulesState == rules.root
      decreases fuel, 0
    {
      var forwardResults := forwardWalker.Walk(input);
      if forwardResults == [] {
        return Some([]);
      }
      var forwardResult := forwardResults[0];
      if forwardResult.isRootOutput && forwardResult.output.None? {
        ResetRules();
      }
      if forwardResult.output.Some? {
        var mapOutputs := forwardResult.output.value;
        var chosen := FirstAccepted(rules, rulesState, mapOutputs);
        if chosen.Some? {
          var mapOutput := mapOutputs[chosen.value];
          partOutput := partOutput + [mapOutput.script];
          var ruleOutput := rules.lookup(rulesState, RuleInput(mapOutput.kind, mapOutput.key)).value;
          var ruleValue := rules.value(ruleOutput);
          if ruleValue.Some? {
            return Some([Result(forwardResult.inputs, ruleValue.value(partOutput), forwardResult.isRootOutput, rules.nextIsEmpty(ruleOutput))]);
          }
        } else {
          ResetRules();
          if fuel == 0 {
            return None;
          }
          r := ExecuteInputs(forwardResult.inputs, fuel - 1);
          return;
        }
      }
      return Some([Passthrough(forwardResult.inputs, forwardResult.isRootOutput)]);
    }
  }
}
