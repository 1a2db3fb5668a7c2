/**
 The observable result of one run of the TinyTest program, as a value.

 Console output, process termination and the calls to the instrumentation
 collaborator are not performed: they are recorded in an `Outcome`.
 */
module Outcomes {

  /** An optional value; `None` stands for a C# `null` reference. */
  datatype Option<+T> = None | Some(value: T)

  /** How the run ended. */
  datatype Termination =
    | Return                                   // fell off the end of Main
    | Exit(code: int)                          // Environment.Exit(code)
    | Throw(exception: string, message: string) // an uncaught exception

  /** What the program itself writes, how it ends, and the ids it traces. */
  datatype Outcome = Outcome(
    stdout: seq<string>,      // lines written with Console.WriteLine
    stderr: seq<string>,      // lines written with Console.Error.WriteLine
    termination: Termination,
    trace: seq<int>           // ids passed to Instrument.Trace, in call order
  )

  /** A run that has produced nothing (yet) and returns normally. */
  const Quiet: Outcome := Outcome([], [], Return, [])

  /** The outcome of a step that records `id` and then behaves like `o`. */
  function Traced(id: int, o: Outcome): Outcome
  {
    o.(trace := [id] + o.trace)
  }
}
