/** The span-hierarchy discipline both tracer revisions share: the stack of
    composed span names open in one logical context, how a root and an action
    span enter it, and what the backend is asked to do. */
module SpanStack {
  import opened Exceptions
  import opened NameValidation
  import opened Span

  const ROOT_PARTS: int := 3
  const ACTION_PARTS: int := 1
  const NESTED_ROOT_MESSAGE := "start_root_span must be used as a root span. Use start_span_action for nested spans."
  const NO_ACTIVE_SPAN_MESSAGE := "No active span found to create an action span."

  /** A remote caller's span that a root span continues; flags go to the backend as given. */
  datatype RemoteParent = RemoteParent(traceId: nat, spanId: nat, traceFlags: CarrierValue)

  /** Calls into the span backend: start a span (optionally under a remote parent), end it. */
  datatype BackendEvent = Started(name: string, remoteParent: Option<RemoteParent>) | Ended(name: string)

  /** What entering a scope hands out: the stack value to restore on exit, and the yielded span. */
  datatype Scope = Scope(saved: seq<string>, span: OtelSpan)

  /** f"{parent_name}.{name}" */
  function Compose(parent: string, name: string): (full: string)
    ensures |full| == |parent| + 1 + |name|
    ensures full[..|parent|] == parent && full[|parent|] == '.' && full[|parent| + 1..] == name
  {
    parent + "." + name
  }

  predicate IsValidRootName(name: string) {
    ValidateName(name, ROOT_PARTS).Ok?
  }

  predicate IsValidActionName(name: string) {
    ValidateName(name, ACTION_PARTS).Ok?
  }

  /** child is parent, a dot, and a valid action name. */
  predicate IsChildName(parent: string, child: string) {
    && |child| > |parent| + 1
    && child[..|parent|] == parent
    && child[|parent|] == '.'
    && IsValidActionName(child[|parent| + 1..])
  }

  /** The stack invariant: entry 0 is a valid root name and every later entry
      extends the one below it by one action name. */
  predicate WellFormed(stack: seq<string>) {
    && (|stack| > 0 ==> IsValidRootName(stack[0]))
    && (forall i :: 0 < i < |stack| ==> IsChildName(stack[i - 1], stack[i]))
  }

  /** start_root_span up to the span start: validate as three parts, then
      refuse if a span is open; on success the stack becomes [name]. */
  function EnterRoot(stack: seq<string>, name: string): (r: Result<seq<string>>)
    ensures r.Ok? <==> IsValidRootName(name) && stack == []
    ensures r.Ok? ==> r.value == [name] && WellFormed(r.value)
    ensures !IsValidRootName(name) ==> r == Raise(ValidateName(name, ROOT_PARTS).exc)
    ensures IsValidRootName(name) && stack != [] ==> r == Raise(RuntimeError(NESTED_ROOT_MESSAGE))
  {
    match ValidateName(name, ROOT_PARTS)
    case Raise(e) => Raise(e)
    case Ok(_) => if stack != [] then Raise(RuntimeError(NESTED_ROOT_MESSAGE)) else Ok([name])
  }

  /** start_span_action up to the span start: validate as one part, then
      refuse if no span is open; on success the composed name under the top. */
  function EnterAction(stack: seq<string>, name: string): (r: Result<string>)
    ensures r.Ok? <==> IsValidActionName(name) && stack != []
    ensures r.Ok? ==> r.value == Compose(stack[|stack| - 1], name) && IsChildName(stack[|stack| - 1], r.value)
    ensures !IsValidActionName(name) ==> r == Raise(ValidateName(name, ACTION_PARTS).exc)
    ensures IsValidActionName(name) && stack == [] ==> r == Raise(RuntimeError(NO_ACTIVE_SPAN_MESSAGE))
  {
    match ValidateName(name, ACTION_PARTS)
    case Raise(e) => Raise(e)
    case Ok(_) =>
      if stack == [] then Raise(RuntimeError(NO_ACTIVE_SPAN_MESSAGE))
      else
        Ok(Compose(stack[|stack| - 1], name))
  }

  /** Pushing an action's composed name keeps the stack well formed. */
  lemma ActionKeepsWellFormed(stack: seq<string>, name: string)
    requires WellFormed(stack) && EnterAction(stack, name).Ok?
    ensures WellFormed(stack + [EnterAction(stack, name).value])
  {
    var s' := stack + [EnterAction(stack, name).value];
    assert forall i :: 0 <= i < |stack| ==> s'[i] == stack[i];
  }

  /** Entry i of a well-formed stack has i + 3 dot-separated parts. */
  lemma {:induction false} EntryDepth(stack: seq<string>)
    requires WellFormed(stack)
    ensures forall i :: 0 <= i < |stack| ==> CountChar(stack[i], '.') == i + 2
  {
    if |stack| == 1 {
      ValidateNameOrder(stack[0], ROOT_PARTS);
    } else if |stack| > 1 {
      var n := |stack| - 1;
      var below := stack[..n];
      assert WellFormed(below) by {
        assert forall i :: 0 <= i < n ==> below[i] == stack[i];
      }
      EntryDepth(below);
      assert forall i :: 0 <= i < n ==> below[i] == stack[i];
      var parent, child := stack[n - 1], stack[n];
      var leaf := child[|parent| + 1..];
      assert child == parent + "." + leaf;
      ActionNameHasNoDot(leaf);
      CountZero(leaf, '.');
      CountCharConcat(parent + ".", leaf, '.');
      CountCharConcat(parent, ".", '.');
    }
  }

  /** Every entry of a well-formed stack is a prefix of every entry above it. */
  lemma {:induction false} Lineage(stack: seq<string>, i: nat, j: nat)
    requires WellFormed(stack) && i <= j < |stack|
    ensures |stack[i]| <= |stack[j]| && stack[j][..|stack[i]|] == stack[i]
  {
    if i < j {
      Lineage(stack, i, j - 1);
      assert IsChildName(stack[j - 1], stack[j]);
      assert stack[j][..|stack[i]|] == stack[j][..|stack[j - 1]|][..|stack[i]|];
    }
  }

  /** A root "a.b.c" opens a one-entry stack; actions "x" then "y" under it
      compose to "a.b.c.x" and "a.b.c.x.y"; a second root under it is refused. */
  lemma ComposedNameExample()
    ensures EnterRoot([], "a.b.c") == Ok(["a.b.c"])
    ensures EnterAction(["a.b.c"], "x") == Ok("a.b.c.x")
    ensures EnterAction(["a.b.c", "a.b.c.x"], "y") == Ok("a.b.c.x.y")
    ensures EnterRoot(["a.b.c"], "a.b.c") == Raise(RuntimeError(NESTED_ROOT_MESSAGE))
    ensures EnterAction([], "x") == Raise(RuntimeError(NO_ACTIVE_SPAN_MESSAGE))
  {
    ExampleRootValid();
    ExampleLeafValid("x");
    ExampleLeafValid("y");
    assert Compose("a.b.c", "x") == "a.b.c.x";
    assert Compose("a.b.c.x", "y") == "a.b.c.x.y";
  }

  lemma ExampleRootValid()
    ensures IsValidRootName("a.b.c")
  {
    var root := "a.b.c";
    assert !IsBlank(root) by { assert !IsSpace(root[0]); }
    ExampleRootDots();
    ExampleRootChars();
    ValidateNameOrder(root, ROOT_PARTS);
  }

  lemma ExampleRootDots()
    ensures CountChar("a.b.c", '.') == 2
  {
    var root := "a.b.c";
    assert root[1..] == ".b.c" && root[1..][1..] == "b.c" && root[1..][1..][1..] == ".c";
    assert CountChar(".c", '.') == 1;
  }

  lemma ExampleRootChars()
    ensures !HasForbiddenChar("a.b.c")
  {
    var root := "a.b.c";
    assert forall i :: 0 <= i < |root| ==> root[i] == 'a' || root[i] == 'b' || root[i] == 'c' || root[i] == '.';
  }

  lemma ExampleLeafValid(leaf: string)
    requires leaf == "x" || leaf == "y"
    ensures IsValidActionName(leaf)
  {
    assert !IsBlank(leaf) by { assert !IsSpace(leaf[0]); }
    assert !HasForbiddenChar(leaf);
    ValidActionName(leaf);
  }

  /** What running caller code did: how it ended, and the backend calls it made in order. */
  datatype Outcome = Outcome(result: Result<()>, log: seq<BackendEvent>)

  /** Replays a backend log over the names of the spans open before it: a start opens
      a span, an end must close the innermost open span of that name. */
  function Replay(open: seq<string>, log: seq<BackendEvent>): Option<seq<string>>
    decreases |log|
  {
    if log == [] then Some(open)
    else match log[0]
      case Started(name, _) => Replay(open + [name], log[1..])
      case Ended(name) =>
        if open != [] && open[|open| - 1] == name then Replay(open[..|open| - 1], log[1..]) else None
  }

  /** Every span the log starts is ended by it, innermost first. */
  predicate Bracketed(log: seq<BackendEvent>) {
    Replay([], log) == Some([])
  }

  lemma {:induction false} ReplayConcat(open: seq<string>, a: seq<BackendEvent>, b: seq<BackendEvent>)
    ensures Replay(open, a + b) == match Replay(open, a) case None => None case Some(o) => Replay(o, b)
    decreases |a|
  {
    if a == [] {
      assert a + b == b;
    } else {
      assert (a + b)[0] == a[0] && (a + b)[1..] == a[1..] + b;
      match a[0]
      case Started(name, _) =>
        ReplayConcat(open + [name], a[1..], b);
      case Ended(name) =>
        if open != [] && open[|open| - 1] == name {
          ReplayConcat(open[..|open| - 1], a[1..], b);
        }
    }
  }

  /** A span started, a log that leaves the open spans as it found them, the span ended:
      the open spans are again as before. */
  lemma ScopeReplay(open: seq<string>, name: string, parent: Option<RemoteParent>, inner: seq<BackendEvent>)
    requires Replay(open + [name], inner) == Some(open + [name])
    ensures Replay(open, [Started(name, parent)] + inner + [Ended(name)]) == Some(open)
  {
    var log := [Started(name, parent)] + inner + [Ended(name)];
    assert log[0] == Started(name, parent) && log[1..] == inner + [Ended(name)];
    ReplayConcat(open + [name], inner, [Ended(name)]);
    assert (open + [name])[..|open + [name]| - 1] == open;
  }

  /** Two logs that each leave the open spans as found do so one after the other. */
  lemma SeqReplay(open: seq<string>, a: seq<BackendEvent>, b: seq<BackendEvent>)
    requires Replay(open, a) == Some(open) && Replay(open, b) == Some(open)
    ensures Replay(open, a + b) == Some(open)
  {
    ReplayConcat(open, a, b);
  }

  /** Logs appended one after another. */
  lemma AppendLogs(before: seq<BackendEvent>, first: seq<BackendEvent>, rest: seq<BackendEvent>)
    ensures before + (first + rest) == (before + first) + rest
  {
  }

  /** A scope's log appended to what came before, event by event. */
  lemma AppendScopeLog(before: seq<BackendEvent>, start: BackendEvent, inner: seq<BackendEvent>, end: BackendEvent)
    ensures ((before + [start]) + inner) + [end] == before + ([start] + inner + [end])
  {
  }
}
