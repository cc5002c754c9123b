/**
  The engine's external collaborators, reduced to the interface the engine uses.

  - The forward walker (`TrieWalker`) is a stateful oracle. Its internal state is
    represented by the history of characters fed to it so far; what it answers for
    the next character is an arbitrary function of that history and the character.
    This covers every deterministic walker.
  - The rules trie (`RulesTrie`) is an opaque node type `N` with a root, a lookup
    of one (type, key) transition, the optional renderer stored at a node, and
    whether a node has no further transitions.
  - A renderer is an uninterpreted function from the accumulated fragments to text.
*/
module Collaborators {
  import opened Wrappers

  /** One candidate interpretation offered by the forward walker. The Swift field
      `type` is called `kind` here, since `type` is a Dafny keyword. */
  datatype MapOutput = MapOutput(kind: string, key: string, script: string)

  /** One step-outcome of the forward walker: the text it matched, whether the
      match sits at a root boundary, and the candidates (absent for unmapped input). */
  datatype ForwardResult = ForwardResult(inputs: string, isRootOutput: bool, output: Option<seq<MapOutput>>)

  /** The key of one transition in the rules trie. */
  datatype RuleInput = RuleInput(kind: string, key: string)

  /** The renderer a rule node carries (`ruleValue.generate(intermediates:)`). */
  type Renderer = seq<string> -> string

  /** The rules trie, seen through its node type `N`. */
  datatype RulesTrie<!N> = RulesTrie(
    root: N,
    lookup: (N, RuleInput) -> Option<N>,
    value: N -> Option<Renderer>,
    nextIsEmpty: N -> bool)

  /** How the forward walker answers: from the characters already fed and the new one. */
  type WalkFn = (seq<char>, char) -> seq<ForwardResult>

  class TrieWalker {
    const respond: WalkFn
    /** Every character fed to `Walk` so far, oldest first. */
    var fed: seq<char>

    constructor (respond: WalkFn)
      ensures this.respond == respond && fed == []
    {
      this.respond := respond;
      fed := [];
    }

    /** Feeds one character; the answer depends on everything fed before it. */
    method Walk(input: char) returns (results: seq<ForwardResult>)
      modifies this
      ensures fed == old(fed) + [input]
      ensures results == respond(old(fed), input)
    {
      results := respond(fed, input);
      fed := fed + [input];
    }
  }
}
