/** The record the engine emits for the host. */
module Results {

  /**
    One emitted unit of output. The constructor's parameter order is that of the
    four-argument initialiser `init(input:output:isPreviousFinal:isFinal:)`.
    `isFinal`: this output will not be replaced any more.
    `isPreviousFinal`: every output emitted before this one is final.
  */
  datatype Result = Result(input: string, output: string, isPreviousFinal: bool, isFinal: bool)

  /** The initialiser `init(inoutput:isPreviousFinal:)`: echoes its text, and
      `isFinal` keeps its default `false`. */
  function Passthrough(inoutput: string, isPreviousFinal: bool): (r: Result)
    ensures r.input == inoutput && r.output == inoutput
    ensures !r.isFinal && r.isPreviousFinal == isPreviousFinal
  {
    Result(inoutput, inoutput, isPreviousFinal, false)
  }
}
