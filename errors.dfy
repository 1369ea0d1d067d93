/** Failure values shared by the evaluator and the matrix assembler.
    parser.py raises a ParserError subclass carrying a numeric code for every
    failure it anticipates; everything else escapes as a plain Python exception. */
module Errors {

  datatype Option<T> = None | Some(value: T)

  datatype Error =
    | Code(code: nat)            // a ParserError with one of parser.py's numeric codes
    | Raised(exception: string)  // a Python exception the code does not translate (KeyError, TypeError, ...)
    | Unmodelled(what: string)   // numpy or pyqubo behaviour that this model does not describe

  datatype Result<T> = Ok(value: T) | Err(error: Error) {
    predicate IsFailure() { Err? }

    function PropagateFailure<U>(): Result<U>
      requires Err?
    {
      Err(error)
    }

    function Extract(): T
      requires Ok?
    {
      value
    }
  }

  // Construction (ParserInitArgumentsError)
  const VariableRequired: nat := 1001
  const SymbolNotOneCharacter: nat := 1002
  const NegativeDimension: nat := 1003
  const OneDimensionNeedsIntSize: nat := 1004
  const ManyDimensionsNeedListSize: nat := 1005
  // Node shape (MathJsonFormatError)
  const NoSymNumFn: nat := 2001
  // Variable access (VariableAccessError)
  const VariableNotFound: nat := 3001
  const IndexOutOfRange: nat := 3002
  // Sum (SumFunctionError)
  const SumNeedsSubAndSup: nat := 4001
  const SumSubNotEqual: nat := 4002
  const SumIndexNotSymbol: nat := 4003
  const SumEqualNotTwoArgs: nat := 4004
  const SumStartNotInteger: nat := 4005
  const SumEndNotInteger: nat := 4006
  // Arithmetic (CalculationError)
  const ZeroDivision: nat := 5001
  // Subscripts and superscripts
  const SubscriptNotInteger: nat := 6001
  const BaseIsList: nat := 7001
  const ExponentNotNumber: nat := 7002
  const CubicTerm: nat := 7003
}
