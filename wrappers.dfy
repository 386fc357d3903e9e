/** Failure-compatible wrappers shared by every module: `Option` stands for PHP's `null`,
    `Result` for a value or the exception that aborts the computation. */
module Wrappers {

  datatype Option<+T> = None | Some(value: T) {
    predicate IsFailure() { None? }

    function PropagateFailure<U>(): Option<U>
      requires None?
    {
      None
    }

    function Extract(): T
      requires Some?
    {
      value
    }
  }

  /** The exceptions of the core, plus `NullValue` for the PHP `TypeError`/`Error` raised when a
      missing argument or child is dereferenced. */
  datatype Error =
    | ParserException           // end of stream reached where a node was expected
    | UnexpectedNode            // `\begin`/`\end` expected, another node found
    | InvalidNodeParent         // a child's validateParent refused its parent
    | SectionEndMismatch        // `\end{x}` does not close `\begin{y}`
    | InvalidState              // a scope's command already has arguments; a label without a Toc section
    | NotImplemented            // `\reseni` without exactly one argument; a label outside theorem and math
    | NullValue                 // PHP TypeError/Error on a null where a node or string is required
    | BracesDoNotMatch          // the macro expander found a brace closed by the wrong bracket
    | TokenizerError            // no rule of the scanner matches at the current offset

  datatype Result<+T> = Ok(value: T) | Err(error: Error) {
    predicate IsFailure() { Err? }

    function PropagateFailure<U>(): Result<U>
      requires Err?
    {
      Err(error)
    }

    function Extract(): T
      requires Ok?
    {
      value
    }
  }
}
