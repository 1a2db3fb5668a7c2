/**
 Properties of the TinyTest dispatcher: it is the decision tree `ProgramTree`
 run on the first argument, so only the first argument and only its first two
 characters matter, and the trace alone tells which path was taken.
 */
module TinyTestProperties {
  import opened Outcomes
  import opened DecisionTree
  import opened TinyTest

  /** The decision tree Main, A and B spell out, with C, D, E and F as leaves. */
  function ProgramTree(): (t: Tree)
    ensures t.id == TraceMain && Height(t) == 2
    ensures Complete(t) && DistinctChildren(t)
  {
    Node(TraceMain,
      Node(TraceA,
        Leaf(TraceC, ["C"], [], Exit(0)),
        Leaf(TraceD, ["D", "Exiting!"], [], Exit(0))),
      Node(TraceB,
        Leaf(TraceE, ["E"], [], Throw("InvalidOperationException", "E just failed!")),
        Leaf(TraceF, ["F"], ["Error!"], Exit(1))))
  }

  /** The string the tree reads: a null or missing argument reads as empty. */
  function ArgText(args: Option<seq<Option<string>>>): string
  {
    match FirstArg(args)
    case None => ""
    case Some(s) => s
  }

  /** Run agrees with the generic decision-tree walk on every input. */
  lemma RunIsTreeWalk(args: Option<seq<Option<string>>>)
    ensures Run(args) == Walk(ProgramTree(), ArgText(args))
  {
    var s := ArgText(args);
    if |s| > 0 {
      var t := ProgramTree();
      var child := if Decide(s[0]) == Low then t.low else t.high;
      assert Walk(t, s) == Traced(TraceMain, Walk(child, s[1..]));
      if |s| > 1 {
        var leaf := if Decide(s[1]) == Low then child.low else child.high;
        assert Walk(child, s[1..]) == Traced(child.id, Walk(leaf, s[2..]));
      }
    }
  }

  /** With no usable argument, only the root id is recorded and Main returns. */
  lemma NoArgumentTakesNoBranch(args: Option<seq<Option<string>>>)
    requires args.None? || |args.value| == 0 || args.value[0].None? || args.value[0].value == ""
    ensures Run(args) == Outcome([], [], Return, [TraceMain])
  {
  }

  /** Arguments after the first never affect the outcome. */
  lemma OnlyFirstArgumentMatters(args: Option<seq<Option<string>>>, args': Option<seq<Option<string>>>)
    requires FirstArg(args) == FirstArg(args')
    ensures Run(args) == Run(args')
  {
  }

  /** The first decision: below 'a' goes to A, 'a' and above to B, with the first character dropped. */
  lemma FirstDecision(arg: string, rest: seq<Option<string>>)
    requires |arg| > 0
    ensures arg[0] < 'a' ==> Run(Some([Some(arg)] + rest)) == Traced(TraceMain, A(arg[1..]))
    ensures 'a' <= arg[0] ==> Run(Some([Some(arg)] + rest)) == Traced(TraceMain, B(arg[1..]))
    ensures Run(Some([Some(arg)] + rest)).trace[1] == (if arg[0] < 'a' then TraceA else TraceB)
  {
  }

  /** A one-character argument records one more id and returns with no output. */
  lemma SingleCharacterReturns(c: char, rest: seq<Option<string>>)
    ensures Run(Some([Some([c])] + rest))
         == Outcome([], [], Return, [TraceMain, if c < 'a' then TraceA else TraceB])
  {
  }

  /** With two or more characters the first two select the terminal and its effect. */
  lemma LeadingPairSelectsTerminal(arg: string, rest: seq<Option<string>>)
    requires |arg| >= 2
    ensures arg[0] < 'a' && arg[1] < 'a' ==>
      Run(Some([Some(arg)] + rest)) == Outcome(["C"], [], Exit(0), [50460, 7880, 61360])
    ensures arg[0] < 'a' && 'a' <= arg[1] ==>
      Run(Some([Some(arg)] + rest)) == Outcome(["D", "Exiting!"], [], Exit(0), [50460, 7880, 516])
    ensures 'a' <= arg[0] && arg[1] < 'a' ==>
      Run(Some([Some(arg)] + rest))
      == Outcome(["E"], [], Throw("InvalidOperationException", "E just failed!"), [50460, 44666, 37587])
    ensures 'a' <= arg[0] && 'a' <= arg[1] ==>
      Run(Some([Some(arg)] + rest)) == Outcome(["F"], ["Error!"], Exit(1), [50460, 44666, 29875])
  {
  }

  /** Characters from index 2 on are never read. */
  lemma LaterCharactersIgnored(args: Option<seq<Option<string>>>, args': Option<seq<Option<string>>>)
    requires Take(ArgText(args), 2) == Take(ArgText(args'), 2)
    ensures Run(args) == Run(args')
  {
    RunIsTreeWalk(args);
    RunIsTreeWalk(args');
    WalkDependsOnPrefix(ProgramTree(), ArgText(args), ArgText(args'), 2);
  }

  /** The trace has one id per character read, up to two, after the root id. */
  lemma TraceShape(args: Option<seq<Option<string>>>)
    ensures |Run(args).trace| == 1 + Min(|ArgText(args)|, 2)
    ensures Run(args).trace[0] == TraceMain
    ensures |ArgText(args)| >= 1 ==>
      Run(args).trace[1] == (if ArgText(args)[0] < 'a' then TraceA else TraceB)
    ensures |ArgText(args)| >= 2 ==>
      Run(args).trace[2] == (if ArgText(args)[0] < 'a'
                             then (if ArgText(args)[1] < 'a' then TraceC else TraceD)
                             else (if ArgText(args)[1] < 'a' then TraceE else TraceF))
  {
    RunIsTreeWalk(args);
    CompleteWalkTraceLength(ProgramTree(), ArgText(args));
  }

  /** The trace spells out the decisions taken, one per character read. */
  lemma TraceEncodesDecisions(args: Option<seq<Option<string>>>)
    ensures DecodeTrace(ProgramTree(), Run(args).trace) == Some(PathOf(ProgramTree(), ArgText(args)))
    ensures |PathOf(ProgramTree(), ArgText(args))| == Min(|ArgText(args)|, 2)
  {
    RunIsTreeWalk(args);
    DecodeWalkTrace(ProgramTree(), ArgText(args));
    CompleteWalkTraceLength(ProgramTree(), ArgText(args));
    WalkFollowsPath(ProgramTree(), ArgText(args));
    PathLengthMatchesTrace(ProgramTree(), ArgText(args));
  }

  /** Two runs with the same trace are indistinguishable. */
  lemma TraceIdentifiesRun(args: Option<seq<Option<string>>>, args': Option<seq<Option<string>>>)
    requires Run(args).trace == Run(args').trace
    ensures Run(args) == Run(args')
  {
    RunIsTreeWalk(args);
    RunIsTreeWalk(args');
    TraceDeterminesWalk(ProgramTree(), ArgText(args), ArgText(args'));
  }

  /** The seven trace ids are pairwise distinct. */
  lemma TraceIdsDistinct()
    ensures |{TraceMain, TraceA, TraceB, TraceC, TraceD, TraceE, TraceF}| == 7
  {
  }

  /** Sample runs of the program. */
  lemma Scenarios()
    ensures Run(Some([Some("aaa")])) == Outcome(["F"], ["Error!"], Exit(1), [TraceMain, TraceB, TraceF])
    ensures Run(Some([Some("__.")])) == Outcome(["C"], [], Exit(0), [TraceMain, TraceA, TraceC])
    ensures Run(Some([Some("_z_")])) == Outcome(["D", "Exiting!"], [], Exit(0), [TraceMain, TraceA, TraceD])
    ensures Run(Some([Some("z__")]))
         == Outcome(["E"], [], Throw("InvalidOperationException", "E just failed!"), [TraceMain, TraceB, TraceE])
    ensures Run(Some([Some("")])) == Outcome([], [], Return, [TraceMain])
    ensures Run(Some([])) == Outcome([], [], Return, [TraceMain])
    ensures Run(None) == Outcome([], [], Return, [TraceMain])
  {
  }
}
