/** Outcomes of operations that the sources end with an exception. */
module Results {

  /** The exceptions of the compiler, and those of the tools that load its output. */
  datatype Error =
    | LabelDeclared(name: string)     // declareLabel met a name twice
    | LabelMissing(name: string)      // resolveRefs met an undeclared name
    | VariableDeclared(name: string)  // alloc met a name twice in one block
    | VariableMissing(name: string)   // a use of a name with no declaration
    | ConstantRange                   // a constant does not fit in 31 bits
    | ImmediateRange                  // an immediate does not fit in 22 signed bits
    | NoBlock                         // endBlock on the outermost block
    | DepthExceeded                   // a program larger than the memory it is saved for
    | InvalidByte(token: string)      // a number in a hex file that is no byte
    | InvalidWidth                    // a dump with no bytes to a line
    | InvalidLength                   // a memory access of no bytes or more than 255
    | AddressRange                    // an address that does not fit in 32 bits
    | PacketTooLong                   // a packet with more than 255 bytes of data

  datatype Result<+T> = Ok(value: T) | Err(error: Error) {
    predicate IsFailure() {
      Err?
    }

    function PropagateFailure<U>(): Result<U>
      requires Err?
    {
      Err(error)
    }

    function Extract(): T
      requires Ok?
    {
      value
    }
  }

  datatype Option<+T> = None | Some(value: T)
}
