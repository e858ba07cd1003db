# Span naming, span hierarchy and trace-context codec of microsservice_telemetry_toolkit

This project models in Dafny the parts of the telemetry toolkit that carry logic of their own:

- **Span-name validation.** `SpanNameValidator.validate` builds a chain of three handlers on the
  `ChainHandler` successor link: non-blank string, then part count, then forbidden characters.
  The first handler that fails decides the `ValueError` message. Root names need 3 parts and
  action names 1.
  - `Chain` models the handler class: a mutable `next` link, `SetNext`, and the base delegation.
    A subclass's `handle` override is a `check` function stored on the handler.
  - `NameValidation` models the three checks as pure functions, and the validator as a class
    whose `Validate` wires the chain with `SetNext` and runs it.
  - Python's `str.strip()`, `str.split(".")` and the forbidden-character set are written out.
- **Span hierarchy.** Both tracer revisions keep a per-context stack of composed span names.
  - `SpanStack` holds what they share:
    - the entry rules: a root needs an empty stack; an action needs an open span and pushes
      `top + "." + name`;
    - the invariant that every entry extends the one below it by one valid action name;
    - lemmas on depth and lineage.
  - `OtelTracing.OtelTracer` and `OtelAppTracing.OtelAppTracer` are classes whose `stack` field
    is the `_span_stack` cell, and whose `events` field logs what was asked of the span backend.
  - Each `with` scope is an entry method that returns the saved stack, plus an `Exit` method
    that restores it, as the `finally` block does.
  - A small statement language (`Stmt`) stands for the code a caller writes inside `with` blocks.
    `Run` and `RunSeq` say what such code does, built from the entry rules:
    - an entry error surfaces before any span starts;
    - a body runs between the start and the end of its scope's span;
    - the first statement that raises ends its block, and the exception leaves every scope
      around it.
  - The interpreter methods (`RunStmt`, `RootScope`, `ActionScope`, `RunBody`) drive the
    tracer object. They are proved to return what `Run` returns, to make exactly the backend
    calls it lists, and to leave the stack as they found it.
  - Every log `Run` produces is bracketed: replayed as a stack, each end closes the innermost
    open span of that name, and nothing stays open (`RunBracketed`).
- **Trace-context codec.**
  - `Hex` models `int(s, 16)` and `format(v, "0<width>x")`.
  - `OtelTracing` models:
    - `_cast_trace_id` and `_cast_span_id`, which check length, then hex digits, then nonzero;
    - `extract_context_from`;
    - the remote-parent handling of `start_root_span`.
  - `Span.GetContext` models `OtelSpan.get_context`.
  - Round trips are proved both ways: for 0 < t < 2^128 the 32-digit rendering casts back to t,
    and any id that casts successfully renders back as its lower-case self.
- **Basic authentication header.** `HttpAuth.MapFromCredentials` builds the header of
  section 2 of RFC 7617 over an uninterpreted encoder.

Python exceptions are values: `Exceptions.Result` is `Ok(value)` or `Raise(exc)`, and `exc` is
`ValueError`, `RuntimeError`, `KeyError` or `TypeError` with its message.

Three behaviours of the code are easy to miss:

- `HasValidParts` counts the pieces of `split(".")` and does not look at them, so a root name
  such as `"a..b"` with an empty piece passes (`NameValidation.EmptyPiecesExample`).
- Failures are the exceptions the code raises, with its messages: `ValueError` from the
  validator and the id casts, `RuntimeError` from the nesting checks, `KeyError` for a missing
  carrier id and `TypeError` for an integer id.
- `get_context` writes ids in lower case, but the casts accept hex digits in either case, as
  `int(s, 16)` does.

## Model

| member | source | states |
|---|---|---|
| Chain.FirstFailurePass | microsservice_telemetry_toolkit/domain/port/chain_handler.py:13-17 | a chain run succeeds (None) exactly when every handler's check passes |
| Chain.FirstFailureIsFirst | microsservice_telemetry_toolkit/domain/port/chain_handler.py:13-17 | when check i is the first to fail, its message is the chain's result, whatever later checks say |
| Chain.ChainHandler.constructor | microsservice_telemetry_toolkit/domain/port/chain_handler.py:6-7 | a new handler has exactly the given successor, null by default |
| Chain.ChainHandler.SetNext | microsservice_telemetry_toolkit/domain/port/chain_handler.py:9-11 | the successor becomes the given handler, replacing any earlier one, and that same handler is returned |
| Chain.ChainHandler.Handle | microsservice_telemetry_toolkit/application/services/span_name_validator.py:6-9 | a handler's result on a well-formed chain is the first failure of all checks from it to the end |
| Chain.ChainHandler.Delegate | microsservice_telemetry_toolkit/domain/port/chain_handler.py:13-17 | the base handle returns None without a successor and otherwise exactly what the rest of the chain returns for the same request |
| NameValidation.StripEmptyIffBlank | microsservice_telemetry_toolkit/application/services/span_name_validator.py:7 | `request.strip()` is empty exactly when every character is whitespace |
| NameValidation.IsValidString | microsservice_telemetry_toolkit/application/services/span_name_validator.py:5-9 | reports "invalid string" exactly for a blank request and passes every other one on |
| NameValidation.Split | microsservice_telemetry_toolkit/application/services/span_name_validator.py:17 | split(".") gives at least one piece and no piece contains the separator |
| NameValidation.SplitCount | microsservice_telemetry_toolkit/application/services/span_name_validator.py:17-18 | split(".") yields one piece more than the string has dots |
| NameValidation.SplitJoin | microsservice_telemetry_toolkit/application/services/span_name_validator.py:17 | joining the pieces with the separator gives back the original string |
| NameValidation.HasValidParts | microsservice_telemetry_toolkit/application/services/span_name_validator.py:12-22 | reports the part-count message exactly when the dot count plus one differs from parts_count, and passes the request on otherwise |
| NameValidation.AnyForbidden | microsservice_telemetry_toolkit/application/services/span_name_validator.py:27-28 | the any(...) scan is true exactly when some character of the request is in the forbidden set |
| NameValidation.HasInvalidCharacters | microsservice_telemetry_toolkit/application/services/span_name_validator.py:25-30 | reports "String contains invalid characters" exactly when some character is forbidden |
| NameValidation.ValidateName | microsservice_telemetry_toolkit/application/services/span_name_validator.py:37-44 | only ValueError is raised, and a name is accepted exactly when all three checks pass |
| NameValidation.ValidateNameUnfold | microsservice_telemetry_toolkit/application/services/span_name_validator.py:37-44 | running the three-handler chain is: blank ⇒ "invalid string", else wrong piece count ⇒ part-count message, else forbidden char ⇒ invalid-characters message, else success |
| NameValidation.ValidateNameOrder | microsservice_telemetry_toolkit/application/services/span_name_validator.py:37-44 | the checks run in the order string, parts, characters with only the first failure reported; a name passes iff it is non-blank, has parts_count - 1 dots and no forbidden character |
| NameValidation.ActionNameHasNoDot | microsservice_telemetry_toolkit/application/services/span_name_validator.py:17-21 | a name accepted with parts_count 1 contains no dot |
| NameValidation.ValidActionName | microsservice_telemetry_toolkit/application/services/span_name_validator.py:7-29 | a one-part name is accepted iff it is non-blank, dot-free and has no forbidden character |
| NameValidation.EmptyNameExample | microsservice_telemetry_toolkit/application/services/span_name_validator.py:7-8 | "" and an all-whitespace name report "invalid string" for every part count, never a part-count error |
| NameValidation.EmptyPiecesExample | microsservice_telemetry_toolkit/application/services/span_name_validator.py:17-21 | "a..b" passes the three-part check: empty pieces are not rejected |
| NameValidation.PartCountExamples | microsservice_telemetry_toolkit/application/services/span_name_validator.py:17-21 | "a.b" is refused as a root name and "a.b.c" as an action name, with the part-count message |
| NameValidation.ForbiddenCharExamples | microsservice_telemetry_toolkit/application/services/span_name_validator.py:27-29 | "a;b.c.d" reports invalid characters; "a;b.c" reports the part count first |
| NameValidation.PartsMessageText | microsservice_telemetry_toolkit/application/services/span_name_validator.py:20 | the part-count messages for 3 and 1 parts, as the f-string renders them |
| NameValidation.NameChainOutcomes | microsservice_telemetry_toolkit/application/services/span_name_validator.py:38-40 | the three wired handlers produce the string, parts and characters outcomes in that order |
| NameValidation.SpanNameValidator.constructor | microsservice_telemetry_toolkit/application/services/span_name_validator.py:34-35 | the validator keeps the given part count, 3 by default |
| NameValidation.SpanNameValidator.Validate | microsservice_telemetry_toolkit/application/services/span_name_validator.py:37-44 | wiring the chain with set_next and running it returns normally or raises ValueError exactly as the ordered checks decide |
| Hex.ParseHex | microsservice_telemetry_toolkit/infrastructure/otel_tracer.py:185 | the strict parse behind int(s, 16) succeeds exactly on a non-empty run of hex digits; the value is below 16^len and renders back at that width as the string in lower case |
| Hex.HexValueBound | microsservice_telemetry_toolkit/infrastructure/otel_tracer.py:185 | n hex digits read as a value below 16^n |
| Hex.FormatHex | microsservice_telemetry_toolkit/infrastructure/otel_span.py:31-32 | format(v, "0Nx") has at least N characters, all lower-case hex digits, and reads back as v |
| Hex.FixedHexValue | microsservice_telemetry_toolkit/infrastructure/otel_span.py:31-32 | the zero-padded rendering consists of hex digits that read back as the value modulo 16^width |
| Hex.FixedHexOfValue | microsservice_telemetry_toolkit/infrastructure/otel_tracer.py:185 | rendering the value of a hex string at its own width yields the string in lower case |
| Hex.FormatHexWidth | microsservice_telemetry_toolkit/infrastructure/otel_span.py:31-32 | format(v, "0Nx") has exactly N characters iff v < 16^N, and then it is the padded rendering (it never truncates) |
| Hex.FixedHexLower | microsservice_telemetry_toolkit/infrastructure/otel_span.py:31-32 | the rendering uses only lower-case hex digits |
| Hex.FormatParse | microsservice_telemetry_toolkit/infrastructure/otel_span.py:31-32 | for v < 16^N, int(format(v, "0Nx"), 16) is v |
| Span.GetContext | microsservice_telemetry_toolkit/infrastructure/otel_span.py:28-35 | the carrier has exactly the keys trace_id, span_id, trace_flags, and trace_flags is the plain integer |
| Span.RenderedId | microsservice_telemetry_toolkit/infrastructure/otel_span.py:31-32 | an id below 16^N renders as exactly N lower-case hex digits that read back as the id |
| Span.GetContextIds | microsservice_telemetry_toolkit/infrastructure/otel_span.py:31-32 | for in-range ids the rendered trace_id and span_id are exactly 32 and 16 lower-case hex digits that read back as the ids |
| SpanStack.Compose | microsservice_telemetry_toolkit/infrastructure/otel_tracer.py:124-125 | the full name is the parent name, a dot, then the action name |
| SpanStack.EnterRoot | microsservice_telemetry_toolkit/infrastructure/otel_tracer.py:89-95 | a root entry succeeds iff the name is a valid 3-part name and the stack is empty; validation errors take precedence over the nesting RuntimeError; the new stack is [name] and is well formed |
| SpanStack.EnterAction | microsservice_telemetry_toolkit/infrastructure/otel_tracer.py:119-125 | an action entry succeeds iff the name is a valid 1-part name and a span is open; validation errors take precedence over the no-active-span RuntimeError; the composed name is top + "." + name and is a child of the top |
| SpanStack.ActionKeepsWellFormed | microsservice_telemetry_toolkit/infrastructure/otel_tracer.py:124-127 | pushing an action's composed name keeps every entry equal to the one below plus "." plus a valid leaf |
| SpanStack.EntryDepth | microsservice_telemetry_toolkit/infrastructure/otel_app_tracer.py:65-68 | entry i of a well-formed stack has i + 3 dot-separated parts |
| SpanStack.Lineage | microsservice_telemetry_toolkit/infrastructure/otel_app_tracer.py:65-68 | each entry of a well-formed stack is a prefix of every entry above it |
| SpanStack.ComposedNameExample | microsservice_telemetry_toolkit/infrastructure/otel_tracer.py:89-127 | root "a.b.c" then actions "x", "y" compose to "a.b.c.x" and "a.b.c.x.y"; a root under a root and an action on an empty stack raise RuntimeError |
| SpanStack.ReplayConcat | microsservice_telemetry_toolkit/infrastructure/otel_tracer.py:109-115 | replaying two backend logs one after the other is replaying the first, then the second over the spans the first left open |
| SpanStack.ScopeReplay | microsservice_telemetry_toolkit/infrastructure/otel_tracer.py:109-115 | a span started, then a log that leaves the open spans as it found them, then that span ended, leaves the open spans as they were |
| OtelTracing.CastHexId | microsservice_telemetry_toolkit/infrastructure/otel_tracer.py:179-190 | only ValueError is raised; a success means the id has exactly the required length, is all hex digits, and its nonzero value is below 16^length |
| OtelTracing.CastTraceId | microsservice_telemetry_toolkit/infrastructure/otel_tracer.py:179-190 | only ValueError is raised; a success means 32 hex digits and the value int(trace_id, 16), in 1 .. 2^128 - 1 |
| OtelTracing.CastSpanId | microsservice_telemetry_toolkit/infrastructure/otel_tracer.py:192-203 | only ValueError is raised; a success means 16 hex digits and the value int(span_id, 16), in 1 .. 2^64 - 1 |
| OtelTracing.CastHexIdOrder | microsservice_telemetry_toolkit/infrastructure/otel_tracer.py:179-190 | the cast checks exact length, then hex digits, then nonzero, reporting the first failure's ValueError; it succeeds iff all three hold |
| OtelTracing.CastHexIdRoundTrip | microsservice_telemetry_toolkit/infrastructure/otel_tracer.py:179-203 | casting the zero-padded rendering of v succeeds iff 0 < v < 16^width, and then gives v |
| OtelTracing.CastHexIdCanonical | microsservice_telemetry_toolkit/infrastructure/otel_tracer.py:179-190 | a successfully cast id is nonzero, below 16^width, and renders back as the input in lower case |
| OtelTracing.IdRoundTrip | microsservice_telemetry_toolkit/infrastructure/otel_tracer.py:179-203 | for 0 < t < 2^128 and 0 < s < 2^64 the casts undo the 32- and 16-digit renderings |
| OtelTracing.ZeroIdsRejected | microsservice_telemetry_toolkit/infrastructure/otel_tracer.py:188-202 | all-zero ids of the right length are rejected with "cannot be zero" |
| OtelTracing.ShortIdRejected | microsservice_telemetry_toolkit/infrastructure/otel_tracer.py:180-196 | an all-zero id one digit short is rejected on its length, before the other checks |
| OtelTracing.FlagsOf | microsservice_telemetry_toolkit/infrastructure/otel_tracer.py:140 | trace_flags is the carrier's value when present and 1 otherwise |
| OtelTracing.ExtractContextFrom | microsservice_telemetry_toolkit/infrastructure/otel_tracer.py:134-147 | None iff trace_id or span_id is missing; otherwise exactly the keys trace_id, span_id, trace_flags, the ids unchanged and the flags defaulting to 1 |
| OtelTracing.ExtractIdempotent | microsservice_telemetry_toolkit/infrastructure/otel_tracer.py:134-147 | extracting from an extracted context changes nothing |
| OtelTracing.ExtractOfGetContext | microsservice_telemetry_toolkit/infrastructure/otel_span.py:28-35 | a span's get_context carrier is a fixed point of extract_context_from |
| OtelTracing.CastCarrierId | microsservice_telemetry_toolkit/infrastructure/otel_tracer.py:98-99 | a missing key raises KeyError with that key, an integer value raises len()'s TypeError, and a string value gives exactly the cast of that string |
| OtelTracing.ResolveRemote | microsservice_telemetry_toolkit/infrastructure/otel_tracer.py:96-106 | no remote parent exactly for an absent or empty context; otherwise the trace_id fault (KeyError, TypeError or ValueError) comes first, then the span_id fault; a parent carries the hex values of both carrier ids and the flags as the carrier gives them or 1 |
| OtelTracing.ResolveRemoteOrder | microsservice_telemetry_toolkit/infrastructure/otel_tracer.py:97-106 | for a non-empty context a trace_id fault is raised whatever span_id holds; a parent results iff both casts succeed and carries their values |
| OtelTracing.FlagsOnlyContext | microsservice_telemetry_toolkit/infrastructure/otel_tracer.py:96-100 | an empty context means no remote parent, but a context holding only trace_flags raises KeyError('trace_id'), although extract_context_from gives None for it |
| OtelTracing.PropagationRoundTrip | microsservice_telemetry_toolkit/infrastructure/otel_tracer.py:96-108 | a span's get_context carrier, extracted and resolved, names that span's ids and flags as the remote parent |
| OtelTracing.RootStart | microsservice_telemetry_toolkit/infrastructure/otel_tracer.py:89-108 | name validation precedes the nesting check, which precedes the context handling; with a valid name and an empty stack the result is exactly the context's resolution, its exception included |
| OtelTracing.RunBracketed | microsservice_telemetry_toolkit/infrastructure/otel_tracer.py:109-132 | every backend log of a scope, completed or raising, closes each span it opens, innermost first, and leaves open exactly what was open before |
| OtelTracing.RunSeqBracketed | microsservice_telemetry_toolkit/infrastructure/otel_tracer.py:109-132 | the same for a block of statements, whichever statement raises |
| OtelTracing.RunSeqStops | microsservice_telemetry_toolkit/infrastructure/otel_tracer.py:112-115 | when statement i is the first to raise, its exception is the block's result |
| OtelTracing.ScopeExample | microsservice_telemetry_toolkit/infrastructure/otel_tracer.py:87-132 | a root scope holding an action scope and then a raise starts and ends "a.b.c" and "a.b.c.x", innermost first, and the raise leaves the root scope |
| OtelTracing.OtelTracer.constructor | microsservice_telemetry_toolkit/infrastructure/otel_tracer.py:38 | a fresh context starts with an empty stack and no backend calls |
| OtelTracing.OtelTracer.StartRootSpan | microsservice_telemetry_toolkit/infrastructure/otel_tracer.py:87-113 | a raise leaves the stack and the backend untouched; success starts one backend span with the resolved parent, sets the stack to [name], saves the old stack and yields a span named like the stack top |
| OtelTracing.OtelTracer.StartSpanAction | microsservice_telemetry_toolkit/infrastructure/otel_tracer.py:117-130 | a raise leaves the stack and the backend untouched; success starts one span with the composed name, makes the stack the old one plus that name, saves the old stack and yields a span named like the new top |
| OtelTracing.OtelTracer.Exit | microsservice_telemetry_toolkit/infrastructure/otel_tracer.py:112-115 | leaving a scope restores the saved well-formed stack and ends that scope's span |
| OtelTracing.OtelTracer.RunStmt | microsservice_telemetry_toolkit/infrastructure/otel_tracer.py:87-132 | one statement returns what Run gives, makes exactly the backend calls Run lists, and leaves the stack as found |
| OtelTracing.OtelTracer.RootScope | microsservice_telemetry_toolkit/infrastructure/otel_tracer.py:87-115 | a `with start_root_span(...)` block: the result and the backend calls are those of Run, and the finally restores the stack whether the body completed or raised |
| OtelTracing.OtelTracer.ActionScope | microsservice_telemetry_toolkit/infrastructure/otel_tracer.py:117-132 | a `with start_span_action(...)` block: the result and the backend calls are those of Run, and the finally restores the stack whether the body completed or raised |
| OtelTracing.OtelTracer.RunBody | microsservice_telemetry_toolkit/infrastructure/otel_tracer.py:112-115 | a block returns what RunSeq gives and makes exactly the backend calls it lists, stopping at the first raise, and leaves the stack as found |
| OtelTracing.RunFromEmpty | microsservice_telemetry_toolkit/infrastructure/otel_tracer.py:87-132 | a block run in a fresh context returns what RunSeq gives, leaves the stack empty, and its backend log is bracketed |
| OtelAppTracing.RunAsTracer | microsservice_telemetry_toolkit/infrastructure/otel_app_tracer.py:41-73 | the app tracer's scopes behave exactly as the newer tracer's with no context: same result and same backend calls (otel_tracer.py:87-132) |
| OtelAppTracing.RunSeqAsTracer | microsservice_telemetry_toolkit/infrastructure/otel_app_tracer.py:41-73 | the same for blocks of statements |
| OtelAppTracing.RunBracketed | microsservice_telemetry_toolkit/infrastructure/otel_app_tracer.py:50-73 | every backend log of a scope, completed or raising, closes each span it opens, innermost first, and leaves open exactly what was open before |
| OtelAppTracing.RunSeqBracketed | microsservice_telemetry_toolkit/infrastructure/otel_app_tracer.py:50-73 | the same for a block of statements, whichever statement raises |
| OtelAppTracing.RunSeqStops | microsservice_telemetry_toolkit/infrastructure/otel_app_tracer.py:53-56 | when statement i is the first to raise, its exception is the block's result |
| OtelAppTracing.NestedRootExample | microsservice_telemetry_toolkit/infrastructure/otel_app_tracer.py:41-56 | a root scope opened inside another raises the nesting RuntimeError before starting a span; the outer span is still started and ended |
| OtelAppTracing.OtelAppTracer.constructor | microsservice_telemetry_toolkit/infrastructure/otel_app_tracer.py:20 | a fresh context starts with an empty stack and no backend calls |
| OtelAppTracing.OtelAppTracer.StartRootSpan | microsservice_telemetry_toolkit/infrastructure/otel_app_tracer.py:41-54 | validation then nesting errors, each leaving stack and backend untouched; success starts one span, sets the stack to [name] and yields a span named like the top |
| OtelAppTracing.OtelAppTracer.StartSpanAction | microsservice_telemetry_toolkit/infrastructure/otel_app_tracer.py:58-71 | validation then no-active-span errors, each leaving stack and backend untouched; success pushes and starts top + "." + name and yields a span named like the new top |
| OtelAppTracing.OtelAppTracer.Exit | microsservice_telemetry_toolkit/infrastructure/otel_app_tracer.py:70-73 | leaving a scope restores the saved well-formed stack and ends that scope's span |
| OtelAppTracing.OtelAppTracer.RunStmt | microsservice_telemetry_toolkit/infrastructure/otel_app_tracer.py:41-73 | one statement returns what Run gives, makes exactly the backend calls Run lists, and leaves the stack as found |
| OtelAppTracing.OtelAppTracer.RootScope | microsservice_telemetry_toolkit/infrastructure/otel_app_tracer.py:41-56 | a `with start_root_span(...)` block: the result and the backend calls are those of Run, and the finally restores the stack whether the body completed or raised |
| OtelAppTracing.OtelAppTracer.ActionScope | microsservice_telemetry_toolkit/infrastructure/otel_app_tracer.py:58-73 | a `with start_span_action(...)` block: the result and the backend calls are those of Run, and the finally restores the stack whether the body completed or raised |
| OtelAppTracing.OtelAppTracer.RunBody | microsservice_telemetry_toolkit/infrastructure/otel_app_tracer.py:53-56 | a block returns what RunSeq gives and makes exactly the backend calls it lists, stopping at the first raise, and leaves the stack as found |
| OtelAppTracing.RunFromEmpty | microsservice_telemetry_toolkit/infrastructure/otel_app_tracer.py:41-73 | a block run in a fresh context returns what RunSeq gives, leaves the stack empty, and its backend log is bracketed |
| HttpAuth.MapFromCredentials | microsservice_telemetry_toolkit/application/services/http_auth_header_mapper.py:8-11 | the result has the single key Authorization whose value is "Basic " followed by the encoding of username + ":" + password |
| HttpAuth.HeaderDeterminedByEncoding | microsservice_telemetry_toolkit/application/services/http_auth_header_mapper.py:10-11 | two headers are equal iff the encoder gives the same text for the two credential strings |
| HttpAuth.HeaderValueSplits | microsservice_telemetry_toolkit/application/services/http_auth_header_mapper.py:11 | the header value splits back into "Basic " and the encoded credentials |
| HttpAuth.ColonCollision | microsservice_telemetry_toolkit/application/services/http_auth_header_mapper.py:9 | with no escaping, ("a:b", "c") and ("a", "b:c") give the same header |
| HttpAuth.CredentialsSplit | microsservice_telemetry_toolkit/application/services/http_auth_header_mapper.py:9 | for a username without ':', the first ':' of the credentials separates username from password |

## Left out

- SDK, exporter and meter setup (`__init__`, `_define_tracer`, `_define_meter` of both tracers), the metric instruments, the logger and `app_log.py`: configuration of foreign OpenTelemetry providers, network exporters and the wall clock, with no logic of the toolkit's own.
- The span backend (`start_as_current_span`, `SpanContext`, `NonRecordingSpan`, `set_span_in_context`): a foreign library. It is a log of `Started(name, remoteParent)` and `Ended(name)` calls, and the identity it gives a new span is a method parameter.
- `TraceFlags(trace_flags)`: the flags reach the backend as the carrier value they were, with no conversion or range check. In the source, `TraceFlags` raises ValueError for a text flag that is not a number, before the span starts (otel_tracer.py:105). The model lets such a flag through.
- `OtelSpan` forwarding methods (`set_status_ok`, `set_status_error`, `set_attribute`, `record_exception`, `record_and_raise_exception`): they only call the foreign span.
- ContextVar isolation between threads and tasks: each tracer object is the stack of one logical context. `_span_stack` is a class attribute (otel_tracer.py:38, otel_app_tracer.py:20), so all instances of a tracer class share it within a context. One model object stands for all of them.
- Hex.ParseHex / CastHexId: models `int(s, 16)` as a strict parse of hex digits in either case. CPython also accepts a sign, a `0x` prefix, underscores and surrounding whitespace, and non-ASCII decimal digits such as the fullwidth '０', so, for instance, "-" followed by 31 `f`s passes the length and nonzero checks there but is refused here. The parse-failure message does not reproduce `repr`'s escaping of the string.
- Carrier values other than strings and integers (`dict[str, Any]` in the source): a carrier value is `Text` or `Number`, and an integer id raises `len()`'s TypeError.
- `isinstance(request, str)` in IsValidString: every request is a string here, because the validator is only called with span names.
- `HasValidParts.__init__` does not call the base constructor, so `_next` is unset until `set_next`. The validator always calls `set_next` on that handler, so this cannot show there.
- Handler cycles (a recursion error in Python): `Handle` requires a finite, acyclic chain, which is the only kind the validator builds.
- `GenericSpanContext`: otel_tracer.py:24 imports it from the generic tracer port, which defines only `GenericTracer`, so the package as shipped fails with ImportError before any tracer code runs. The model takes a context to be the string-keyed carrier dict the annotation intends.
- `base64_text_encoder.py`: the encoder is an uninterpreted function, and the wrapper's own import does not resolve inside the package.
- Code a caller runs inside a `with` block is modelled only as nested scopes and statements that raise. Catching an exception inside a block, as `main.py` does, is not modelled.
- The package `__init__` files, the abstract ports, `example_usage.py` and `main.py`: re-exports, interfaces and demos.
