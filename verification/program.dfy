/**
 The TinyTest fuzzing target: a fixed two-level decision tree over the
 leading characters of the first command-line argument.

 Each C# method becomes a pure function returning the `Outcome` of running
 it to the end of the process: the trace id it records comes first, then
 whatever the method it calls produces. `Environment.Exit` and `throw` end the
 run, so a terminal's outcome is final.
 */
module TinyTest {
  import opened Outcomes

  // Trace ids passed to Instrument.Trace by each method.
  const TraceMain: int := 50460
  const TraceA: int := 7880
  const TraceB: int := 44666
  const TraceC: int := 61360
  const TraceD: int := 516
  const TraceE: int := 37587
  const TraceF: int := 29875

  /** `string.IsNullOrEmpty`. */
  predicate IsNullOrEmpty(s: Option<string>)
  {
    s.None? || |s.value| == 0
  }

  /** The argument Main looks at: `args.First()` when `args` is neither null nor empty. */
  function FirstArg(args: Option<seq<Option<string>>>): Option<string>
  {
    if args.Some? && |args.value| > 0 then args.value[0] else None
  }

  /** Main: record the root id, then make the first decision on the first argument. */
  function Run(args: Option<seq<Option<string>>>): (o: Outcome)
    ensures 1 <= |o.trace| <= 3 && o.trace[0] == TraceMain
    ensures o.termination == Return <==> |o.trace| < 3
    ensures o.termination == Return <==> o.stdout == []
    ensures o.stderr != [] ==> o.termination == Exit(1)
    ensures IsNullOrEmpty(FirstArg(args)) ==> o == Outcome([], [], Return, [TraceMain])
  {
    Traced(TraceMain,
      var arg := FirstArg(args);
      if !IsNullOrEmpty(arg) then
        if arg.value[0] < 'a' then A(arg.value[1..]) else B(arg.value[1..])
      else Quiet)
  }

  /** Second decision on the low side: both terminals below it exit with status 0. */
  function A(s: string): (o: Outcome)
    ensures 1 <= |o.trace| <= 2 && o.trace[0] == TraceA
    ensures |s| == 0 ==> o == Outcome([], [], Return, [TraceA])
    ensures |s| > 0 ==> o.termination == Exit(0) && o.stderr == [] && |o.trace| == 2
    ensures |s| > 0 && s[0] < 'a' ==> o.trace[1] == TraceC && o.stdout == ["C"]
    ensures |s| > 0 && 'a' <= s[0] ==> o.trace[1] == TraceD && o.stdout == ["D", "Exiting!"]
  {
    Traced(TraceA,
      if |s| > 0 then
        if s[0] < 'a' then C(s[1..]) else D(s[1..])
      else Quiet)
  }

  /** Second decision on the high side: both terminals below it fail. */
  function B(s: string): (o: Outcome)
    ensures 1 <= |o.trace| <= 2 && o.trace[0] == TraceB
    ensures |s| == 0 ==> o == Outcome([], [], Return, [TraceB])
    ensures |s| > 0 ==> o.termination != Return && o.termination != Exit(0) && |o.trace| == 2
    ensures |s| > 0 && s[0] < 'a' ==>
      o.trace[1] == TraceE && o.stdout == ["E"] && o.stderr == []
      && o.termination == Throw("InvalidOperationException", "E just failed!")
    ensures |s| > 0 && 'a' <= s[0] ==>
      o.trace[1] == TraceF && o.stdout == ["F"] && o.stderr == ["Error!"] && o.termination == Exit(1)
  {
    Traced(TraceB,
      if |s| > 0 then
        if s[0] < 'a' then E(s[1..]) else F(s[1..])
      else Quiet)
  }

  // The terminals receive the rest of the argument and never read it.

  function C(rest: string): Outcome
  {
    Outcome(["C"], [], Exit(0), [TraceC])
  }

  function D(rest: string): Outcome
  {
    Outcome(["D", "Exiting!"], [], Exit(0), [TraceD])
  }

  function E(rest: string): Outcome
  {
    Outcome(["E"], [], Throw("InvalidOperationException", "E just failed!"), [TraceE])
  }

  function F(rest: string): Outcome
  {
    Outcome(["F"], ["Error!"], Exit(1), [TraceF])
  }
}
