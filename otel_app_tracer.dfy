/** The older tracer revision: the same span stack, with no remote context. */
module OtelAppTracing {
  import opened Exceptions
  import opened NameValidation
  import opened Span
  import opened SpanStack
  import OtelTracing

  /** A `with` block written against the app tracer. */
  datatype Stmt =
    | WithRootSpan(name: string, backend: SpanContext, body: seq<Stmt>)
    | WithSpanAction(name: string, backend: SpanContext, body: seq<Stmt>)
    | RaiseError(exc: Exception)

  /** What a statement does when run on a stack: scope entry errors surface before
      any span starts; a body runs on the scope's stack between the start and the end
      of its span, and its exception leaves the scope. */
  function Run(stack: seq<string>, s: Stmt): Outcome
    decreases s
  {
    match s
    case RaiseError(e) => Outcome(Raise(e), [])
    case WithRootSpan(name, _, body) =>
      (match EnterRoot(stack, name)
       case Raise(e) => Outcome(Raise(e), [])
       case Ok(_) =>
         var inner := RunSeq([name], body);
         Outcome(inner.result, [Started(name, None)] + inner.log + [Ended(name)]))
    case WithSpanAction(name, _, body) =>
      (match EnterAction(stack, name)
       case Raise(e) => Outcome(Raise(e), [])
       case Ok(fullName) =>
         var inner := RunSeq(stack + [fullName], body);
         Outcome(inner.result, [Started(fullName, None)] + inner.log + [Ended(fullName)]))
  }

  /** A block runs its statements in order; the first that raises ends it. */
  function RunSeq(stack: seq<string>, body: seq<Stmt>): Outcome
    decreases body
  {
    if body == [] then Outcome(Ok(()), [])
    else
      var first := Run(stack, body[0]);
      if first.result.Raise? then first
      else
        var rest := RunSeq(stack, body[1..]);
        Outcome(rest.result, first.log + rest.log)
  }

  lemma RunRootScope(stack: seq<string>, name: string, backend: SpanContext, body: seq<Stmt>)
    requires EnterRoot(stack, name).Ok?
    ensures Run(stack, WithRootSpan(name, backend, body))
      == Outcome(RunSeq([name], body).result, [Started(name, None)] + RunSeq([name], body).log + [Ended(name)])
  {
  }

  lemma RunActionScope(stack: seq<string>, name: string, backend: SpanContext, body: seq<Stmt>)
    requires EnterAction(stack, name).Ok?
    ensures Run(stack, WithSpanAction(name, backend, body))
      == Outcome(RunSeq(stack + [EnterAction(stack, name).value], body).result,
                 [Started(EnterAction(stack, name).value, None)]
                 + RunSeq(stack + [EnterAction(stack, name).value], body).log
                 + [Ended(EnterAction(stack, name).value)])
  {
  }

  /** One step of a block: the rest runs only when the first statement returns. */
  lemma RunSeqStep(stack: seq<string>, body: seq<Stmt>)
    requires body != []
    ensures Run(stack, body[0]).result.Raise? ==> RunSeq(stack, body) == Run(stack, body[0])
    ensures Run(stack, body[0]).result.Ok? ==>
      RunSeq(stack, body) == Outcome(RunSeq(stack, body[1..]).result, Run(stack, body[0]).log + RunSeq(stack, body[1..]).log)
  {
  }

  /** The same code written against the newer tracer, with no remote context. */
  function ToTracerStmt(s: Stmt): OtelTracing.Stmt
    decreases s
  {
    match s
    case RaiseError(e) => OtelTracing.RaiseError(e)
    case WithRootSpan(name, backend, body) => OtelTracing.WithRootSpan(name, None, backend, ToTracerBody(body))
    case WithSpanAction(name, backend, body) => OtelTracing.WithSpanAction(name, backend, ToTracerBody(body))
  }

  function ToTracerBody(body: seq<Stmt>): seq<OtelTracing.Stmt>
    decreases body
  {
    if body == [] then [] else [ToTracerStmt(body[0])] + ToTracerBody(body[1..])
  }

  /** The app tracer behaves as the newer tracer does when no context is passed:
      same result, same backend calls. */
  lemma {:induction false} RunAsTracer(stack: seq<string>, s: Stmt)
    ensures Run(stack, s) == OtelTracing.Run(stack, ToTracerStmt(s))
    decreases s
  {
    match s
    case RaiseError(_) =>
    case WithRootSpan(name, _, body) =>
      assert OtelTracing.ResolveRemote(None) == Ok(None);
      RunSeqAsTracer([name], body);
    case WithSpanAction(name, _, body) =>
      if EnterAction(stack, name).Ok? {
        RunSeqAsTracer(stack + [EnterAction(stack, name).value], body);
      }
  }

  lemma {:induction false} RunSeqAsTracer(stack: seq<string>, body: seq<Stmt>)
    ensures RunSeq(stack, body) == OtelTracing.RunSeq(stack, ToTracerBody(body))
    decreases body
  {
    if body != [] {
      var t := ToTracerBody(body);
      assert t[0] == ToTracerStmt(body[0]) && t[1..] == ToTracerBody(body[1..]);
      RunAsTracer(stack, body[0]);
      RunSeqAsTracer(stack, body[1..]);
    }
  }

  /** Every span a statement starts it also ends, innermost first, whatever was open. */
  lemma RunBracketed(stack: seq<string>, s: Stmt, open: seq<string>)
    ensures Replay(open, Run(stack, s).log) == Some(open)
  {
    RunAsTracer(stack, s);
    OtelTracing.RunBracketed(stack, ToTracerStmt(s), open);
  }

  lemma RunSeqBracketed(stack: seq<string>, body: seq<Stmt>, open: seq<string>)
    ensures Replay(open, RunSeq(stack, body).log) == Some(open)
  {
    RunSeqAsTracer(stack, body);
    OtelTracing.RunSeqBracketed(stack, ToTracerBody(body), open);
  }

  /** When statement i is the first to raise, its exception is the block's. */
  lemma {:induction false} RunSeqStops(stack: seq<string>, body: seq<Stmt>, i: nat)
    requires i < |body| && Run(stack, body[i]).result.Raise?
    requires forall j :: 0 <= j < i ==> Run(stack, body[j]).result.Ok?
    ensures RunSeq(stack, body).result == Run(stack, body[i]).result
  {
    if i > 0 {
      assert forall j :: 0 <= j < i - 1 ==> body[1..][j] == body[j + 1];
      RunSeqStops(stack, body[1..], i - 1);
    }
  }

  /** A root scope opened under another one is refused before any span starts, and the
      enclosing scope still ends its own span. */
  lemma NestedRootExample(backend: SpanContext)
    ensures Run([], WithRootSpan("a.b.c", backend, [WithRootSpan("a.b.c", backend, [])]))
      == Outcome(Raise(RuntimeError(NESTED_ROOT_MESSAGE)), [Started("a.b.c", None), Ended("a.b.c")])
  {
    ExampleRootValid();
    var body := [WithRootSpan("a.b.c", backend, [])];
    assert Run(["a.b.c"], body[0]) == Outcome(Raise(RuntimeError(NESTED_ROOT_MESSAGE)), []);
    assert RunSeq(["a.b.c"], body) == Outcome(Raise(RuntimeError(NESTED_ROOT_MESSAGE)), []);
  }

  /** OtelAppTracer with its _span_stack cell for one logical context, and the log
      of calls it made into the span backend. */
  class OtelAppTracer {
    var stack: seq<string>
    var events: seq<BackendEvent>

    ghost predicate Valid()
      reads this
    {
      WellFormed(stack)
    }

    constructor ()
      ensures stack == [] && events == [] && Valid()
    {
      stack := [];
      events := [];
    }

    /** Entry of start_root_span; `backend` is the identity the backend gives the new span. */
    method StartRootSpan(name: string, backend: SpanContext) returns (r: Result<Scope>)
      requires Valid()
      modifies this
      ensures Valid()
      ensures r.Raise? <==> EnterRoot(old(stack), name).Raise?
      ensures r.Raise? ==> r.exc == EnterRoot(old(stack), name).exc && stack == old(stack) && events == old(events)
      ensures r.Ok? ==>
        && stack == [name]
        && r.value == Scope(old(stack), OtelSpan(name, backend))
        && r.value.span.name == stack[|stack| - 1]
        && events == old(events) + [Started(name, None)]
    {
      var validator := new SpanNameValidator(ROOT_PARTS);
      var checked := validator.Validate(name);
      if checked.Raise? {
        return Raise(checked.exc);
      }
      var current := stack;
      if current != [] {
        return Raise(RuntimeError(NESTED_ROOT_MESSAGE));
      }
      events := events + [Started(name, None)];
      stack := [name];
      r := Ok(Scope(current, OtelSpan(name, backend)));
    }

    /** Entry of start_span_action; the new span has the composed name. */
    method StartSpanAction(name: string, backend: SpanContext) returns (r: Result<Scope>)
      requires Valid()
      modifies this
      ensures Valid()
      ensures r.Raise? <==> EnterAction(old(stack), name).Raise?
      ensures r.Raise? ==> r.exc == EnterAction(old(stack), name).exc && stack == old(stack) && events == old(events)
      ensures r.Ok? ==>
        && stack == old(stack) + [EnterAction(old(stack), name).value]
        && r.value == Scope(old(stack), OtelSpan(EnterAction(old(stack), name).value, backend))
        && r.value.span.name == stack[|stack| - 1]
        && events == old(events) + [Started(EnterAction(old(stack), name).value, None)]
    {
      var validator := new SpanNameValidator(ACTION_PARTS);
      var checked := validator.Validate(name);
      if checked.Raise? {
        return Raise(checked.exc);
      }
      var current := stack;
      if current == [] {
        return Raise(RuntimeError(NO_ACTIVE_SPAN_MESSAGE));
      }
      var fullName := Compose(current[|current| - 1], name);
      ActionKeepsWellFormed(current, name);
      events := events + [Started(fullName, None)];
      stack := current + [fullName];
      r := Ok(Scope(current, OtelSpan(fullName, backend)));
    }

    /** The `finally` of either scope and the end of the backend span: the saved stack comes back. */
    method Exit(scope: Scope)
      requires WellFormed(scope.saved)
      modifies this
      ensures Valid()
      ensures stack == scope.saved
      ensures events == old(events) + [Ended(scope.span.name)]
    {
      stack := scope.saved;
      events := events + [Ended(scope.span.name)];
    }

    /** Runs one statement as Run describes: the stack comes back as it was, and the
        backend calls and the result are those of Run. */
    method RunStmt(s: Stmt) returns (r: Result<()>)
      requires Valid()
      modifies this
      ensures Valid() && stack == old(stack)
      ensures r == Run(old(stack), s).result
      ensures events == old(events) + Run(old(stack), s).log
      decreases s, 0
    {
      match s
      case RaiseError(e) =>
        r := Raise(e);
      case WithRootSpan(name, backend, body) =>
        r := RootScope(name, backend, body);
      case WithSpanAction(name, backend, body) =>
        r := ActionScope(name, backend, body);
    }

    /** `with start_root_span(...)`: enter, run the body, and restore the stack in the
        `finally` whether or not the body raised. */
    method RootScope(name: string, backend: SpanContext, body: seq<Stmt>) returns (r: Result<()>)
      requires Valid()
      modifies this
      ensures Valid() && stack == old(stack)
      ensures r == Run(old(stack), WithRootSpan(name, backend, body)).result
      ensures events == old(events) + Run(old(stack), WithRootSpan(name, backend, body)).log
      decreases body, 1
    {
      var entered := StartRootSpan(name, backend);
      if entered.Raise? {
        return Raise(entered.exc);
      }
      r := RunBody(body);
      Exit(entered.value);
      RunRootScope(old(stack), name, backend, body);
      AppendScopeLog(old(events), Started(name, None), RunSeq([name], body).log, Ended(name));
    }

    /** `with start_span_action(...)`: the same bracket around a span named under the current one. */
    method ActionScope(name: string, backend: SpanContext, body: seq<Stmt>) returns (r: Result<()>)
      requires Valid()
      modifies this
      ensures Valid() && stack == old(stack)
      ensures r == Run(old(stack), WithSpanAction(name, backend, body)).result
      ensures events == old(events) + Run(old(stack), WithSpanAction(name, backend, body)).log
      decreases body, 1
    {
      var entered := StartSpanAction(name, backend);
      if entered.Raise? {
        return Raise(entered.exc);
      }
      ghost var fullName := EnterAction(old(stack), name).value;
      r := RunBody(body);
      Exit(entered.value);
      RunActionScope(old(stack), name, backend, body);
      AppendScopeLog(old(events), Started(fullName, None), RunSeq(old(stack) + [fullName], body).log, Ended(fullName));
    }

    /** Runs a block's statements in order, stopping at the first that raises, as RunSeq describes. */
    method RunBody(body: seq<Stmt>) returns (r: Result<()>)
      requires Valid()
      modifies this
      ensures Valid() && stack == old(stack)
      ensures r == RunSeq(old(stack), body).result
      ensures events == old(events) + RunSeq(old(stack), body).log
      decreases body, 0
    {
      var i := 0;
      while i < |body|
        invariant 0 <= i <= |body|
        invariant Valid() && stack == old(stack)
        invariant RunSeq(stack, body).result == RunSeq(stack, body[i..]).result
        invariant old(events) + RunSeq(stack, body).log == events + RunSeq(stack, body[i..]).log
      {
        assert body[i..][0] == body[i] && body[i..][1..] == body[i + 1..];
        RunSeqStep(stack, body[i..]);
        ghost var before := events;
        var outcome := RunStmt(body[i]);
        if outcome.Raise? {
          return outcome;
        }
        AppendLogs(before, Run(stack, body[i]).log, RunSeq(stack, body[i + 1..]).log);
        i := i + 1;
      }
      assert body[i..] == [];
      assert RunSeq(stack, body[i..]) == Outcome(Ok(()), []);
      assert events + RunSeq(stack, body[i..]).log == events;
      r := Ok(());
    }
  }

  /** Starting from an empty stack, a block of scopes drains the stack back to empty,
      and every span it starts it ends, innermost first. */
  method RunFromEmpty(body: seq<Stmt>) returns (tracer: OtelAppTracer, r: Result<()>)
    ensures tracer.stack == [] && r == RunSeq([], body).result
    ensures tracer.events == RunSeq([], body).log && Bracketed(tracer.events)
  {
    tracer := new OtelAppTracer();
    r := tracer.RunBody(body);
    RunSeqBracketed([], body, []);
  }
}
