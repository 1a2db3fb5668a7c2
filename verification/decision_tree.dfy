/**
 A generic binary decision tree over the leading characters of a string.

 Every decision point records its trace id, stops quietly when the string is
 empty, and otherwise compares the leading character with 'a', drops it and
 continues in the low subtree (strictly below 'a') or the high subtree.
 A leaf records its id and produces a fixed effect; it never reads the rest
 of the string. This is the shape shared by Main, A and B of the TinyTest
 program: a generic decision-tree interpreter, which `RunIsTreeWalk` proves
 equal to `Run` on `ProgramTree`.
 */
module DecisionTree {
  import opened Outcomes

  datatype Branch = Low | High

  datatype Tree =
    | Leaf(id: int, stdout: seq<string>, stderr: seq<string>, termination: Termination)
    | Node(id: int, low: Tree, high: Tree)

  /** The branch a decision point takes on character `c`. */
  function Decide(c: char): Branch
  {
    if c < 'a' then Low else High
  }

  function Min(a: int, b: int): int
  {
    if a <= b then a else b
  }

  /** The at most `n` leading characters of `s`. */
  function Take(s: string, n: nat): string
  {
    s[..Min(|s|, n)]
  }

  /** The number of decisions on the longest path. */
  function Height(t: Tree): nat
  {
    match t
    case Leaf(_, _, _, _) => 0
    case Node(_, low, high) => 1 + (if Height(low) <= Height(high) then Height(high) else Height(low))
  }

  /** All leaves sit at the same depth. */
  predicate Complete(t: Tree)
  {
    match t
    case Leaf(_, _, _, _) => true
    case Node(_, low, high) => Height(low) == Height(high) && Complete(low) && Complete(high)
  }

  /** At every decision point the two subtrees start with different ids. */
  predicate DistinctChildren(t: Tree)
  {
    match t
    case Leaf(_, _, _, _) => true
    case Node(_, low, high) => low.id != high.id && DistinctChildren(low) && DistinctChildren(high)
  }

  /** Runs the decision tree on `s`. */
  function Walk(t: Tree, s: string): (o: Outcome)
    ensures 1 <= |o.trace| <= 1 + Height(t)
    ensures o.trace[0] == t.id
  {
    match t
    case Leaf(id, out, err, term) => Outcome(out, err, term, [id])
    case Node(id, low, high) =>
      if |s| == 0 then Traced(id, Quiet)
      else if Decide(s[0]) == Low then Traced(id, Walk(low, s[1..]))
      else Traced(id, Walk(high, s[1..]))
  }

  /** The decisions `Walk(t, s)` takes, in order. */
  function PathOf(t: Tree, s: string): (p: seq<Branch>)
    ensures |p| <= |s| && |p| <= Height(t)
    ensures forall i :: 0 <= i < |p| ==> p[i] == Decide(s[i])
  {
    match t
    case Leaf(_, _, _, _) => []
    case Node(_, low, high) =>
      if |s| == 0 then []
      else if Decide(s[0]) == Low then [Low] + PathOf(low, s[1..])
      else [High] + PathOf(high, s[1..])
  }

  /** Follows an explicit list of decisions instead of reading characters. */
  function Follow(t: Tree, p: seq<Branch>): Outcome
  {
    match t
    case Leaf(id, out, err, term) => Outcome(out, err, term, [id])
    case Node(id, low, high) =>
      if |p| == 0 then Traced(id, Quiet)
      else if p[0] == Low then Traced(id, Follow(low, p[1..]))
      else Traced(id, Follow(high, p[1..]))
  }

  /** Recovers the decisions from a trace, or `None` if no walk of `t` records it. */
  function DecodeTrace(t: Tree, trace: seq<int>): Option<seq<Branch>>
    decreases t
  {
    if |trace| == 0 || trace[0] != t.id then None
    else if |trace| == 1 then Some([])
    else match t
      case Leaf(_, _, _, _) => None
      case Node(_, low, high) =>
        if trace[1] == low.id then
          match DecodeTrace(low, trace[1..])
          case None => None
          case Some(p) => Some([Low] + p)
        else if trace[1] == high.id then
          match DecodeTrace(high, trace[1..])
          case None => None
          case Some(p) => Some([High] + p)
        else None
  }

  /** A walk is determined by the decisions it takes. */
  lemma {:induction false} WalkFollowsPath(t: Tree, s: string)
    ensures Walk(t, s) == Follow(t, PathOf(t, s))
  {
    match t
    case Leaf(_, _, _, _) =>
    case Node(_, low, high) =>
      if |s| > 0 {
        var p := PathOf(t, s);
        if Decide(s[0]) == Low {
          WalkFollowsPath(low, s[1..]);
          assert p[1..] == PathOf(low, s[1..]);
        } else {
          WalkFollowsPath(high, s[1..]);
          assert p[1..] == PathOf(high, s[1..]);
        }
      }
  }

  /** The trace of a walk encodes the decisions taken, when sibling ids differ. */
  lemma {:induction false} DecodeWalkTrace(t: Tree, s: string)
    requires DistinctChildren(t)
    ensures DecodeTrace(t, Walk(t, s).trace) == Some(PathOf(t, s))
  {
    match t
    case Leaf(_, _, _, _) =>
    case Node(id, low, high) =>
      if |s| > 0 {
        var tr := Walk(t, s).trace;
        if Decide(s[0]) == Low {
          DecodeWalkTrace(low, s[1..]);
          assert tr[1..] == Walk(low, s[1..]).trace;
        } else {
          DecodeWalkTrace(high, s[1..]);
          assert tr[1..] == Walk(high, s[1..]).trace;
        }
      }
  }

  /** Two walks with the same trace have the same outcome. */
  lemma TraceDeterminesWalk(t: Tree, s: string, s': string)
    requires DistinctChildren(t)
    requires Walk(t, s).trace == Walk(t, s').trace
    ensures Walk(t, s) == Walk(t, s')
  {
    DecodeWalkTrace(t, s);
    DecodeWalkTrace(t, s');
    WalkFollowsPath(t, s);
    WalkFollowsPath(t, s');
  }

  /** Only the first `Height(t)` characters of the input can matter. */
  lemma {:induction false} WalkDependsOnPrefix(t: Tree, s: string, s': string, n: nat)
    requires Height(t) <= n
    requires Take(s, n) == Take(s', n)
    ensures Walk(t, s) == Walk(t, s')
  {
    match t
    case Leaf(_, _, _, _) =>
    case Node(_, low, high) =>
      assert |s| == 0 <==> |s'| == 0 by {
        assert |Take(s, n)| == Min(|s|, n);
      }
      if |s| > 0 {
        assert s[0] == Take(s, n)[0] == Take(s', n)[0] == s'[0];
        assert Take(s[1..], n - 1) == Take(s, n)[1..];
        assert Take(s'[1..], n - 1) == Take(s', n)[1..];
        WalkDependsOnPrefix(low, s[1..], s'[1..], n - 1);
        WalkDependsOnPrefix(high, s[1..], s'[1..], n - 1);
      }
  }

  /** In a complete tree every walk records one id per character read, plus one. */
  lemma {:induction false} CompleteWalkTraceLength(t: Tree, s: string)
    requires Complete(t)
    ensures |Walk(t, s).trace| == 1 + Min(|s|, Height(t))
  {
    match t
    case Leaf(_, _, _, _) =>
    case Node(_, low, high) =>
      if |s| > 0 {
        CompleteWalkTraceLength(low, s[1..]);
        CompleteWalkTraceLength(high, s[1..]);
      }
  }

  /** In any tree the trace is one id longer than the path taken. */
  lemma {:induction false} PathLengthMatchesTrace(t: Tree, s: string)
    ensures |Walk(t, s).trace| == 1 + |PathOf(t, s)|
  {
    match t
    case Leaf(_, _, _, _) =>
    case Node(_, low, high) =>
      if |s| > 0 {
        PathLengthMatchesTrace(low, s[1..]);
        PathLengthMatchesTrace(high, s[1..]);
      }
  }
}
