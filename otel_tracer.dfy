/** The current tracer revision: id casts, carrier projection, remote-parent
    resolution, and the span stack driven by start_root_span / start_span_action. */
module OtelTracing {
  import opened Exceptions
  import opened Hex
  import opened NameValidation
  import opened Span
  import opened SpanStack

  const DEFAULT_TRACE_FLAGS: int := 0x01

  /** CPython's message for a failed int(s, 16), without repr's escaping. */
  function HexParseMessage(s: string): string {
    "invalid literal for int() with base 16: '" + s + "'"
  }

  function LengthMessage(field: string, length: nat, received: nat): string {
    field + " must have exactly " + NatToString(length) + " hexadecimal characters, received: " + NatToString(received)
  }

  /** _cast_trace_id / _cast_span_id for a field name and digit count. */
  function CastHexId(field: string, length: nat, id: string): (r: Result<nat>)
    ensures r.Raise? ==> r.exc.ValueError?
    ensures r.Ok? ==> |id| == length && AllHex(id) && r.value == HexValue(id) && 0 < r.value < Pow16(length)
  {
    if |id| != length then
      Raise(ValueError(LengthMessage(field, length, |id|)))
    else
      match ParseHex(id)
      case None => Raise(ValueError(field + " must be a valid hexadecimal string: " + HexParseMessage(id)))
      case Some(v) => if v == 0 then Raise(ValueError(field + " cannot be zero")) else Ok(v)
  }

  /** _cast_trace_id: a trace id is 32 hex digits, nonzero, so below 2^128. */
  function CastTraceId(traceId: string): (r: Result<nat>)
    ensures r.Raise? ==> r.exc.ValueError?
    ensures r.Ok? ==> |traceId| == 32 && 0 < r.value < 0x1_0000_0000_0000_0000_0000_0000_0000_0000
    ensures r.Ok? ==> AllHex(traceId) && r.value == HexValue(traceId)
  {
    IdRanges();
    CastHexId("trace_id", TRACE_ID_HEX_DIGITS, traceId)
  }

  /** _cast_span_id: a span id is 16 hex digits, nonzero, so below 2^64. */
  function CastSpanId(spanId: string): (r: Result<nat>)
    ensures r.Raise? ==> r.exc.ValueError?
    ensures r.Ok? ==> |spanId| == 16 && 0 < r.value < 0x1_0000_0000_0000_0000
    ensures r.Ok? ==> AllHex(spanId) && r.value == HexValue(spanId)
  {
    IdRanges();
    CastHexId("span_id", SPAN_ID_HEX_DIGITS, spanId)
  }

  /** The checks run length, then hex digits, then nonzero; the first that fails decides the message. */
  lemma CastHexIdOrder(field: string, length: nat, id: string)
    ensures |id| != length ==> CastHexId(field, length, id) == Raise(ValueError(LengthMessage(field, length, |id|)))
    ensures |id| == length && ParseHex(id).None? ==>
      CastHexId(field, length, id) == Raise(ValueError(field + " must be a valid hexadecimal string: " + HexParseMessage(id)))
    ensures |id| == length && ParseHex(id) == Some(0) ==>
      CastHexId(field, length, id) == Raise(ValueError(field + " cannot be zero"))
    ensures CastHexId(field, length, id).Ok? <==> |id| == length && ParseHex(id).Some? && ParseHex(id).value != 0
  {
  }

  /** Casting the fixed-width rendering of v gives v back exactly when v is nonzero and fits the width. */
  lemma CastHexIdRoundTrip(field: string, length: nat, v: nat)
    requires length >= 1
    ensures CastHexId(field, length, FormatHex(v, length)).Ok? <==> 0 < v < Pow16(length)
    ensures 0 < v < Pow16(length) ==> CastHexId(field, length, FormatHex(v, length)) == Ok(v)
  {
    FormatHexWidth(v, length);
    if v < Pow16(length) {
      FormatParse(v, length);
    }
  }

  /** A cast that succeeds reads a nonzero in-range value whose rendering is the input in lower case. */
  lemma CastHexIdCanonical(field: string, length: nat, id: string)
    requires length >= 1 && CastHexId(field, length, id).Ok?
    ensures var v := CastHexId(field, length, id).value;
      0 < v < Pow16(length) && FormatHex(v, length) == ToLower(id)
  {
    HexValueBound(id);
    FormatHexWidth(HexValue(id), length);
    FixedHexOfValue(id);
  }

  /** 16^32 is 2^128 and 16^16 is 2^64. */
  lemma IdRanges()
    ensures Pow16(TRACE_ID_HEX_DIGITS) == 0x1_0000_0000_0000_0000_0000_0000_0000_0000
    ensures Pow16(SPAN_ID_HEX_DIGITS) == 0x1_0000_0000_0000_0000
  {
    assert Pow16(4) == 0x1_0000;
    Pow16Add(4, 4);
    Pow16Add(8, 8);
    Pow16Add(16, 16);
  }

  /** For 0 < t < 2^128 and 0 < s < 2^64, the casts undo the 32- and 16-digit renderings. */
  lemma IdRoundTrip(t: nat, s: nat)
    ensures 0 < t < 0x1_0000_0000_0000_0000_0000_0000_0000_0000 ==> CastTraceId(FormatHex(t, TRACE_ID_HEX_DIGITS)) == Ok(t)
    ensures CastTraceId(FormatHex(t, TRACE_ID_HEX_DIGITS)).Ok? <==> 0 < t < 0x1_0000_0000_0000_0000_0000_0000_0000_0000
    ensures 0 < s < 0x1_0000_0000_0000_0000 ==> CastSpanId(FormatHex(s, SPAN_ID_HEX_DIGITS)) == Ok(s)
    ensures CastSpanId(FormatHex(s, SPAN_ID_HEX_DIGITS)).Ok? <==> 0 < s < 0x1_0000_0000_0000_0000
  {
    IdRanges();
    CastHexIdRoundTrip("trace_id", TRACE_ID_HEX_DIGITS, t);
    CastHexIdRoundTrip("span_id", SPAN_ID_HEX_DIGITS, s);
  }

  /** All-zero ids of the right length are rejected as zero. */
  lemma ZeroIdsRejected()
    ensures CastTraceId(Zeros(32)) == Raise(ValueError("trace_id cannot be zero"))
    ensures CastSpanId(Zeros(16)) == Raise(ValueError("span_id cannot be zero"))
  {
    ZerosValue(32);
    ZerosValue(16);
    assert "trace_id" + " cannot be zero" == "trace_id cannot be zero";
    assert "span_id" + " cannot be zero" == "span_id cannot be zero";
  }

  /** Thirty-one zero digits fail on length, before the digit and zero checks. */
  lemma ShortIdRejected()
    ensures CastTraceId(Zeros(31)) == Raise(ValueError(LengthMessage("trace_id", 32, 31)))
    ensures CastSpanId(Zeros(15)) == Raise(ValueError(LengthMessage("span_id", 16, 15)))
  {
  }

  /** carrier.get("trace_flags", 0x01) */
  function FlagsOf(carrier: Carrier): (flags: CarrierValue)
    ensures "trace_flags" in carrier ==> flags == carrier["trace_flags"]
    ensures "trace_flags" !in carrier ==> flags == Number(DEFAULT_TRACE_FLAGS)
  {
    if "trace_flags" in carrier then carrier["trace_flags"] else Number(DEFAULT_TRACE_FLAGS)
  }

  /** extract_context_from: None when either id key is missing, otherwise the two
      ids unchanged and the flags (default 1), every other key dropped. */
  function ExtractContextFrom(carrier: Carrier): (r: Option<Carrier>)
    ensures r.None? <==> "trace_id" !in carrier || "span_id" !in carrier
    ensures r.Some? ==>
      && r.value.Keys == {"trace_id", "span_id", "trace_flags"}
      && r.value["trace_id"] == carrier["trace_id"]
      && r.value["span_id"] == carrier["span_id"]
      && r.value["trace_flags"] == (if "trace_flags" in carrier then carrier["trace_flags"] else Number(DEFAULT_TRACE_FLAGS))
  {
    if "trace_id" in carrier && "span_id" in carrier then
      Some(map["trace_id" := carrier["trace_id"], "span_id" := carrier["span_id"], "trace_flags" := FlagsOf(carrier)])
    else
      None
  }

  /** Extracting from an extracted context changes nothing. */
  lemma ExtractIdempotent(carrier: Carrier)
    requires ExtractContextFrom(carrier).Some?
    ensures ExtractContextFrom(ExtractContextFrom(carrier).value) == ExtractContextFrom(carrier)
  {
    var c := ExtractContextFrom(carrier).value;
    assert ExtractContextFrom(c).value == c;
  }

  /** A span's own context is a fixed point of extraction. */
  lemma ExtractOfGetContext(span: OtelSpan)
    ensures ExtractContextFrom(GetContext(span)) == Some(GetContext(span))
  {
    var c := GetContext(span);
    assert ExtractContextFrom(c).value == c;
  }

  /** context["trace_id"] / context["span_id"] read and cast: a missing key raises
      KeyError, an integer raises len()'s TypeError, a string is cast. */
  function CastCarrierId(carrier: Carrier, key: string, length: nat): (r: Result<nat>)
    ensures key !in carrier ==> r == Raise(KeyError(key))
    ensures key in carrier && carrier[key].Number? ==> r == Raise(TypeError("object of type 'int' has no len()"))
    ensures key in carrier && carrier[key].Text? ==> r == CastHexId(key, length, carrier[key].text)
    ensures r.Ok? ==> key in carrier && carrier[key].Text? && |carrier[key].text| == length && 0 < r.value < Pow16(length)
  {
    if key !in carrier then Raise(KeyError(key))
    else match carrier[key]
      case Number(_) => Raise(TypeError("object of type 'int' has no len()"))
      case Text(id) => CastHexId(key, length, id)
  }

  /** start_root_span's context handling: an absent or empty context means no remote
      parent; otherwise trace_id is cast, then span_id, and the flags default to 1. */
  function ResolveRemote(context: Option<Carrier>): (r: Result<Option<RemoteParent>>)
    ensures r == Ok(None) <==> context.None? || context.value == map[]
    ensures context.Some? && context.value != map[] && "trace_id" !in context.value ==> r == Raise(KeyError("trace_id"))
    ensures r.Ok? && r.value.Some? ==>
      && 0 < r.value.value.traceId < 0x1_0000_0000_0000_0000_0000_0000_0000_0000
      && 0 < r.value.value.spanId < 0x1_0000_0000_0000_0000
      && r.value.value.traceFlags == FlagsOf(context.value)
    ensures r.Ok? && r.value.Some? ==>
      && "trace_id" in context.value && context.value["trace_id"].Text?
      && "span_id" in context.value && context.value["span_id"].Text?
      && AllHex(context.value["trace_id"].text) && AllHex(context.value["span_id"].text)
      && r.value.value.traceId == HexValue(context.value["trace_id"].text)
      && r.value.value.spanId == HexValue(context.value["span_id"].text)
    ensures context.Some? && context.value != map[] && CastCarrierId(context.value, "trace_id", TRACE_ID_HEX_DIGITS).Raise? ==>
      r == Raise(CastCarrierId(context.value, "trace_id", TRACE_ID_HEX_DIGITS).exc)
    ensures context.Some? && context.value != map[] && CastCarrierId(context.value, "trace_id", TRACE_ID_HEX_DIGITS).Ok? ==>
      && (r.Raise? <==> CastCarrierId(context.value, "span_id", SPAN_ID_HEX_DIGITS).Raise?)
      && (r.Raise? ==> r.exc == CastCarrierId(context.value, "span_id", SPAN_ID_HEX_DIGITS).exc)
  {
    IdRanges();
    if context.None? || context.value == map[] then Ok(None)
    else
      var c := context.value;
      match CastCarrierId(c, "trace_id", TRACE_ID_HEX_DIGITS)
      case Raise(e) => Raise(e)
      case Ok(traceId) =>
        match CastCarrierId(c, "span_id", SPAN_ID_HEX_DIGITS)
        case Raise(e) => Raise(e)
        case Ok(spanId) => Ok(Some(RemoteParent(traceId, spanId, FlagsOf(c))))
  }

  /** A trace_id fault is reported whatever span_id holds; a parent is produced
      only when both casts succeed, and it carries their values. */
  lemma ResolveRemoteOrder(c: Carrier)
    requires c != map[]
    ensures CastCarrierId(c, "trace_id", TRACE_ID_HEX_DIGITS).Raise? ==>
      ResolveRemote(Some(c)) == Raise(CastCarrierId(c, "trace_id", TRACE_ID_HEX_DIGITS).exc)
    ensures ResolveRemote(Some(c)).Ok? <==>
      CastCarrierId(c, "trace_id", TRACE_ID_HEX_DIGITS).Ok? && CastCarrierId(c, "span_id", SPAN_ID_HEX_DIGITS).Ok?
    ensures ResolveRemote(Some(c)).Ok? ==>
      && ResolveRemote(Some(c)).value.Some?
      && ResolveRemote(Some(c)).value.value.traceId == CastCarrierId(c, "trace_id", TRACE_ID_HEX_DIGITS).value
      && ResolveRemote(Some(c)).value.value.spanId == CastCarrierId(c, "span_id", SPAN_ID_HEX_DIGITS).value
  {
  }

  /** An empty carrier continues nothing, but one holding only flags is not empty
      and fails on the missing trace_id (extract_context_from would give None). */
  lemma FlagsOnlyContext()
    ensures ResolveRemote(Some(map[])) == Ok(None)
    ensures ResolveRemote(Some(map["trace_flags" := Number(1)])) == Raise(KeyError("trace_id"))
    ensures ExtractContextFrom(map["trace_flags" := Number(1)]) == None
  {
    var c: Carrier := map["trace_flags" := Number(1)];
    assert "trace_flags" in c;
  }

  /** A span's context, extracted and resolved, names that span as the remote parent. */
  lemma PropagationRoundTrip(span: OtelSpan)
    requires 0 < span.context.traceId < 0x1_0000_0000_0000_0000_0000_0000_0000_0000
    requires 0 < span.context.spanId < 0x1_0000_0000_0000_0000
    ensures ResolveRemote(ExtractContextFrom(GetContext(span))) ==
      Ok(Some(RemoteParent(span.context.traceId, span.context.spanId, Number(span.context.traceFlags))))
  {
    ExtractOfGetContext(span);
    IdRoundTrip(span.context.traceId, span.context.spanId);
    var c := GetContext(span);
    assert "trace_id" in c;
  }

  /** start_root_span before the span is started: a bad name is reported whatever the
      stack and context, a nesting error whatever the context, and only then is the
      context resolved. */
  function RootStart(stack: seq<string>, name: string, context: Option<Carrier>): (r: Result<Option<RemoteParent>>)
    ensures !IsValidRootName(name) ==> r == Raise(ValidateName(name, ROOT_PARTS).exc)
    ensures IsValidRootName(name) && stack != [] ==> r == Raise(RuntimeError(NESTED_ROOT_MESSAGE))
    ensures r.Ok? <==> IsValidRootName(name) && stack == [] && ResolveRemote(context).Ok?
    ensures IsValidRootName(name) && stack == [] ==> r == ResolveRemote(context)
  {
    match EnterRoot(stack, name)
    case Raise(e) => Raise(e)
    case Ok(_) => ResolveRemote(context)
  }

  /** A `with` block written against the tracer: root and action scopes around
      their bodies, and statements that raise. */
  datatype Stmt =
    | WithRootSpan(name: string, context: Option<Carrier>, backend: SpanContext, body: seq<Stmt>)
    | WithSpanAction(name: string, backend: SpanContext, body: seq<Stmt>)
    | RaiseError(exc: Exception)

  /** What a statement does when run on a stack: scope entry errors surface before
      any span starts; a body runs on the scope's stack between the start and the end
      of its span, and its exception leaves the scope. */
  function Run(stack: seq<string>, s: Stmt): Outcome
    decreases s
  {
    match s
    case RaiseError(e) => Outcome(Raise(e), [])
    case WithRootSpan(name, context, _, body) =>
      (match RootStart(stack, name, context)
       case Raise(e) => Outcome(Raise(e), [])
       case Ok(parent) =>
         var inner := RunSeq([name], body);
         Outcome(inner.result, [Started(name, parent)] + inner.log + [Ended(name)]))
    case WithSpanAction(name, _, body) =>
      (match EnterAction(stack, name)
       case Raise(e) => Outcome(Raise(e), [])
       case Ok(fullName) =>
         var inner := RunSeq(stack + [fullName], body);
         Outcome(inner.result, [Started(fullName, None)] + inner.log + [Ended(fullName)]))
  }

  /** A block runs its statements in order; the first that raises ends it. */
  function RunSeq(stack: seq<string>, body: seq<Stmt>): Outcome
    decreases body
  {
    if body == [] then Outcome(Ok(()), [])
    else
      var first := Run(stack, body[0]);
      if first.result.Raise? then first
      else
        var rest := RunSeq(stack, body[1..]);
        Outcome(rest.result, first.log + rest.log)
  }

  lemma RunRootScope(stack: seq<string>, name: string, context: Option<Carrier>, backend: SpanContext, body: seq<Stmt>)
    requires RootStart(stack, name, context).Ok?
    ensures Run(stack, WithRootSpan(name, context, backend, body))
      == Outcome(RunSeq([name], body).result,
                 [Started(name, RootStart(stack, name, context).value)] + RunSeq([name], body).log + [Ended(name)])
  {
  }

  lemma RunActionScope(stack: seq<string>, name: string, backend: SpanContext, body: seq<Stmt>)
    requires EnterAction(stack, name).Ok?
    ensures Run(stack, WithSpanAction(name, backend, body))
      == Outcome(RunSeq(stack + [EnterAction(stack, name).value], body).result,
                 [Started(EnterAction(stack, name).value, None)]
                 + RunSeq(stack + [EnterAction(stack, name).value], body).log
                 + [Ended(EnterAction(stack, name).value)])
  {
  }

  /** One step of a block: the rest runs only when the first statement returns. */
  lemma RunSeqStep(stack: seq<string>, body: seq<Stmt>)
    requires body != []
    ensures Run(stack, body[0]).result.Raise? ==> RunSeq(stack, body) == Run(stack, body[0])
    ensures Run(stack, body[0]).result.Ok? ==>
      RunSeq(stack, body) == Outcome(RunSeq(stack, body[1..]).result, Run(stack, body[0]).log + RunSeq(stack, body[1..]).log)
  {
  }

  /** Every span a statement starts it also ends, innermost first, whatever was open. */
  lemma {:induction false} RunBracketed(stack: seq<string>, s: Stmt, open: seq<string>)
    ensures Replay(open, Run(stack, s).log) == Some(open)
    decreases s
  {
    match s
    case RaiseError(_) =>
    case WithRootSpan(name, context, _, body) =>
      if RootStart(stack, name, context).Ok? {
        RunSeqBracketed([name], body, open + [name]);
        ScopeReplay(open, name, RootStart(stack, name, context).value, RunSeq([name], body).log);
      }
    case WithSpanAction(name, _, body) =>
      if EnterAction(stack, name).Ok? {
        var fullName := EnterAction(stack, name).value;
        RunSeqBracketed(stack + [fullName], body, open + [fullName]);
        ScopeReplay(open, fullName, None, RunSeq(stack + [fullName], body).log);
      }
  }

  lemma {:induction false} RunSeqBracketed(stack: seq<string>, body: seq<Stmt>, open: seq<string>)
    ensures Replay(open, RunSeq(stack, body).log) == Some(open)
    decreases body
  {
    if body != [] {
      RunBracketed(stack, body[0], open);
      if Run(stack, body[0]).result.Ok? {
        RunSeqBracketed(stack, body[1..], open);
        SeqReplay(open, Run(stack, body[0]).log, RunSeq(stack, body[1..]).log);
      }
    }
  }

  /** When statement i is the first to raise, its exception is the block's. */
  lemma {:induction false} RunSeqStops(stack: seq<string>, body: seq<Stmt>, i: nat)
    requires i < |body| && Run(stack, body[i]).result.Raise?
    requires forall j :: 0 <= j < i ==> Run(stack, body[j]).result.Ok?
    ensures RunSeq(stack, body).result == Run(stack, body[i]).result
  {
    if i > 0 {
      assert forall j :: 0 <= j < i - 1 ==> body[1..][j] == body[j + 1];
      RunSeqStops(stack, body[1..], i - 1);
    }
  }

  /** A root scope with an action scope and then an exception in its body: both spans
      start and end, innermost first, and the exception is the scope's result. */
  lemma ScopeExample(backend: SpanContext, e: Exception)
    ensures Run([], WithRootSpan("a.b.c", None, backend, [WithSpanAction("x", backend, []), RaiseError(e)]))
      == Outcome(Raise(e), [Started("a.b.c", None), Started("a.b.c.x", None), Ended("a.b.c.x"), Ended("a.b.c")])
  {
    ExampleRootValid();
    var body := [WithSpanAction("x", backend, []), RaiseError(e)];
    ScopeExampleBody(backend, e);
    assert RunSeq(["a.b.c"], body) == Outcome(Raise(e), [Started("a.b.c.x", None), Ended("a.b.c.x")]);
    assert RootStart([], "a.b.c", None) == Ok(None);
  }

  lemma ScopeExampleBody(backend: SpanContext, e: Exception)
    ensures RunSeq(["a.b.c"], [WithSpanAction("x", backend, []), RaiseError(e)])
      == Outcome(Raise(e), [Started("a.b.c.x", None), Ended("a.b.c.x")])
  {
    var body := [WithSpanAction("x", backend, []), RaiseError(e)];
    ScopeExampleAction(backend);
    assert body[1..] == [RaiseError(e)] && body[1..][1..] == [];
    assert RunSeq(["a.b.c"], body[1..]) == Outcome(Raise(e), []);
  }

  lemma ScopeExampleAction(backend: SpanContext)
    ensures Run(["a.b.c"], WithSpanAction("x", backend, [])) == Outcome(Ok(()), [Started("a.b.c.x", None), Ended("a.b.c.x")])
  {
    ExampleLeafValid("x");
    assert Compose("a.b.c", "x") == "a.b.c.x";
    assert RunSeq(["a.b.c", "a.b.c.x"], []) == Outcome(Ok(()), []);
  }

  /** OtelTracer with its _span_stack cell for one logical context, and the log of
      calls it made into the span backend. */
  class OtelTracer {
    var stack: seq<string>
    var events: seq<BackendEvent>

    ghost predicate Valid()
      reads this
    {
      WellFormed(stack)
    }

    constructor ()
      ensures stack == [] && events == [] && Valid()
    {
      stack := [];
      events := [];
    }

    /** Entry of start_root_span; `backend` is the identity the backend gives the new span. */
    method StartRootSpan(name: string, context: Option<Carrier>, backend: SpanContext) returns (r: Result<Scope>)
      requires Valid()
      modifies this
      ensures Valid()
      ensures r.Raise? <==> RootStart(old(stack), name, context).Raise?
      ensures r.Raise? ==> r.exc == RootStart(old(stack), name, context).exc && stack == old(stack) && events == old(events)
      ensures r.Ok? ==>
        && stack == [name]
        && r.value == Scope(old(stack), OtelSpan(name, backend))
        && r.value.span.name == stack[|stack| - 1]
        && events == old(events) + [Started(name, RootStart(old(stack), name, context).value)]
    {
      var validator := new SpanNameValidator(ROOT_PARTS);
      var checked := validator.Validate(name);
      if checked.Raise? {
        return Raise(checked.exc);
      }
      var current := stack;
      if current != [] {
        return Raise(RuntimeError(NESTED_ROOT_MESSAGE));
      }
      var parent := ResolveRemote(context);
      if parent.Raise? {
        return Raise(parent.exc);
      }
      events := events + [Started(name, parent.value)];
      stack := [name];
      r := Ok(Scope(current, OtelSpan(name, backend)));
    }

    /** Entry of start_span_action; the new span has the composed name. */
    method StartSpanAction(name: string, backend: SpanContext) returns (r: Result<Scope>)
      requires Valid()
      modifies this
      ensures Valid()
      ensures r.Raise? <==> EnterAction(old(stack), name).Raise?
      ensures r.Raise? ==> r.exc == EnterAction(old(stack), name).exc && stack == old(stack) && events == old(events)
      ensures r.Ok? ==>
        && stack == old(stack) + [EnterAction(old(stack), name).value]
        && r.value == Scope(old(stack), OtelSpan(EnterAction(old(stack), name).value, backend))
        && r.value.span.name == stack[|stack| - 1]
        && events == old(events) + [Started(EnterAction(old(stack), name).value, None)]
    {
      var validator := new SpanNameValidator(ACTION_PARTS);
      var checked := validator.Validate(name);
      if checked.Raise? {
        return Raise(checked.exc);
      }
      var current := stack;
      if current == [] {
        return Raise(RuntimeError(NO_ACTIVE_SPAN_MESSAGE));
      }
      var fullName := Compose(current[|current| - 1], name);
      ActionKeepsWellFormed(current, name);
      events := events + [Started(fullName, None)];
      stack := current + [fullName];
      r := Ok(Scope(current, OtelSpan(fullName, backend)));
    }

    /** The `finally` of either scope and the end of the backend span: the saved stack comes back. */
    method Exit(scope: Scope)
      requires WellFormed(scope.saved)
      modifies this
      ensures Valid()
      ensures stack == scope.saved
      ensures events == old(events) + [Ended(scope.span.name)]
    {
      stack := scope.saved;
      events := events + [Ended(scope.span.name)];
    }

    /** Runs one statement as Run describes: the stack comes back as it was, and the
        backend calls and the result are those of Run. */
    method RunStmt(s: Stmt) returns (r: Result<()>)
      requires Valid()
      modifies this
      ensures Valid() && stack == old(stack)
      ensures r == Run(old(stack), s).result
      ensures events == old(events) + Run(old(stack), s).log
      decreases s, 0
    {
      match s
      case RaiseError(e) =>
        r := Raise(e);
      case WithRootSpan(name, context, backend, body) =>
        r := RootScope(name, context, backend, body);
      case WithSpanAction(name, backend, body) =>
        r := ActionScope(name, backend, body);
    }

    /** `with start_root_span(...)`: enter, run the body, and restore the stack in the
        `finally` whether or not the body raised. */
    method RootScope(name: string, context: Option<Carrier>, backend: SpanContext, body: seq<Stmt>) returns (r: Result<()>)
      requires Valid()
      modifies this
      ensures Valid() && stack == old(stack)
      ensures r == Run(old(stack), WithRootSpan(name, context, backend, body)).result
      ensures events == old(events) + Run(old(stack), WithRootSpan(name, context, backend, body)).log
      decreases body, 1
    {
      var entered := StartRootSpan(name, context, backend);
      if entered.Raise? {
        return Raise(entered.exc);
      }
      r := RunBody(body);
      Exit(entered.value);
      RunRootScope(old(stack), name, context, backend, body);
      AppendScopeLog(old(events), Started(name, RootStart(old(stack), name, context).value), RunSeq([name], body).log, Ended(name));
    }

    /** `with start_span_action(...)`: the same bracket around a span named under the current one. */
    method ActionScope(name: string, backend: SpanContext, body: seq<Stmt>) returns (r: Result<()>)
      requires Valid()
      modifies this
      ensures Valid() && stack == old(stack)
      ensures r == Run(old(stack), WithSpanAction(name, backend, body)).result
      ensures events == old(events) + Run(old(stack), WithSpanAction(name, backend, body)).log
      decreases body, 1
    {
      var entered := StartSpanAction(name, backend);
      if entered.Raise? {
        return Raise(entered.exc);
      }
      ghost var fullName := EnterAction(old(stack), name).value;
      r := RunBody(body);
      Exit(entered.value);
      RunActionScope(old(stack), name, backend, body);
      AppendScopeLog(old(events), Started(fullName, None), RunSeq(old(stack) + [fullName], body).log, Ended(fullName));
    }

    /** Runs a block's statements in order, stopping at the first that raises, as RunSeq describes. */
    method RunBody(body: seq<Stmt>) returns (r: Result<()>)
      requires Valid()
      modifies this
      ensures Valid() && stack == old(stack)
      ensures r == RunSeq(old(stack), body).result
      ensures events == old(events) + RunSeq(old(stack), body).log
      decreases body, 0
    {
      var i := 0;
      while i < |body|
        invariant 0 <= i <= |body|
        invariant Valid() && stack == old(stack)
        invariant RunSeq(stack, body).result == RunSeq(stack, body[i..]).result
        invariant old(events) + RunSeq(stack, body).log == events + RunSeq(stack, body[i..]).log
      {
        assert body[i..][0] == body[i] && body[i..][1..] == body[i + 1..];
        RunSeqStep(stack, body[i..]);
        ghost var before := events;
        var outcome := RunStmt(body[i]);
        if outcome.Raise? {
          return outcome;
        }
        AppendLogs(before, Run(stack, body[i]).log, RunSeq(stack, body[i + 1..]).log);
        i := i + 1;
      }
      assert body[i..] == [];
      assert RunSeq(stack, body[i..]) == Outcome(Ok(()), []);
      assert events + RunSeq(stack, body[i..]).log == events;
      r := Ok(());
    }
  }

  /** Starting from an empty stack, a block of scopes drains the stack back to empty,
      and every span it starts it ends, innermost first. */
  method RunFromEmpty(body: seq<Stmt>) returns (tracer: OtelTracer, r: Result<()>)
    ensures tracer.stack == [] && r == RunSeq([], body).result
    ensures tracer.events == RunSeq([], body).log && Bracketed(tracer.events)
  {
    tracer := new OtelTracer();
    r := tracer.RunBody(body);
    RunSeqBracketed([], body, []);
  }
}
