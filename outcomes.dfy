/** Results and the exceptions the modelled Python code can raise. */
module Outcomes {

  /** Each constructor names the condition that makes the Python code raise. */
  datatype Failure =
    | UnboundTime       // `time` read in from_graph before any element has set it
    | NoTimedChild      // `min` over a composite none of whose children has a time
    | ByteOutOfRange    // bytearray.append of an argument outside 0..255
    | NotAVector        // slicing or indexing a yielded value that is not a 1-d array
    | EmptyVector       // `v[0]` on an empty array
    | StackUnderflow    // generated code pops more operands than it pushed
    | BadOperand        // an operator applied to operands it does not accept
    | ShapeMismatch     // element-wise operation on arrays of different lengths
    | UnknownName       // LOAD_FAST of a name that is not a local of the generated code
    | SendToUnstarted   // generator.send of a value other than None before the first yield
    | ZeroSteps         // `years_to_expiration / steps` with steps == 0
    | DegenerateLattice // `u - d == 0` in the risk-neutral probability
    | EmptyBuffer       // `max` over the stack sizes of a buffer with no instructions

  datatype Result<+T> = Ok(value: T) | Err(failure: Failure)

  datatype Option<+T> = None | Some(value: T)
}
