/** The span handed to callers: its name and the backend span's identity,
    which get_context renders as a carrier map. */
module Span {
  import opened Exceptions
  import opened Hex

  const TRACE_ID_HEX_DIGITS: nat := 32
  const SPAN_ID_HEX_DIGITS: nat := 16

  /** A carrier value: the toolkit puts strings (ids) and integers (flags) in carriers. */
  datatype CarrierValue = Text(text: string) | Number(number: int)

  /** A string-keyed carrier map, such as message headers. */
  type Carrier = map<string, CarrierValue>

  /** The identity the backend assigned to a span. */
  datatype SpanContext = SpanContext(traceId: nat, spanId: nat, traceFlags: int)

  /** OtelSpan(name, span): the name it was built with and the context of the wrapped backend span. */
  datatype OtelSpan = OtelSpan(name: string, context: SpanContext)

  /** get_context: trace_id as format(.., "032x"), span_id as format(.., "016x"), trace_flags as int. */
  function GetContext(span: OtelSpan): (c: Carrier)
    ensures c.Keys == {"trace_id", "span_id", "trace_flags"}
    ensures c["trace_flags"] == Number(span.context.traceFlags)
  {
    map[
      "trace_id" := Text(FormatHex(span.context.traceId, TRACE_ID_HEX_DIGITS)),
      "span_id" := Text(FormatHex(span.context.spanId, SPAN_ID_HEX_DIGITS)),
      "trace_flags" := Number(span.context.traceFlags)
    ]
  }

  /** For ids that fit their width, the rendered ids are exactly 32 and 16
      lower-case hex digits that read back as the ids. */
  lemma GetContextIds(span: OtelSpan)
    requires span.context.traceId < Pow16(TRACE_ID_HEX_DIGITS)
    requires span.context.spanId < Pow16(SPAN_ID_HEX_DIGITS)
    ensures var c := GetContext(span);
      && c["trace_id"].Text? && |c["trace_id"].text| == TRACE_ID_HEX_DIGITS
      && c["span_id"].Text? && |c["span_id"].text| == SPAN_ID_HEX_DIGITS
      && (forall i :: 0 <= i < TRACE_ID_HEX_DIGITS ==> c["trace_id"].text[i] in "0123456789abcdef")
      && (forall i :: 0 <= i < SPAN_ID_HEX_DIGITS ==> c["span_id"].text[i] in "0123456789abcdef")
      && ParseHex(c["trace_id"].text) == Some(span.context.traceId)
      && ParseHex(c["span_id"].text) == Some(span.context.spanId)
  {
    var c := GetContext(span);
    var t, s := FormatHex(span.context.traceId, TRACE_ID_HEX_DIGITS), FormatHex(span.context.spanId, SPAN_ID_HEX_DIGITS);
    assert c["trace_id"] == Text(t) && c["span_id"] == Text(s);
    RenderedId(span.context.traceId, TRACE_ID_HEX_DIGITS);
    RenderedId(span.context.spanId, SPAN_ID_HEX_DIGITS);
  }

  /** One id rendered at a width it fits: that many lower-case digits, reading back as the id. */
  lemma RenderedId(v: nat, width: nat)
    requires width >= 1 && v < Pow16(width)
    ensures |FormatHex(v, width)| == width && ParseHex(FormatHex(v, width)) == Some(v)
    ensures forall i :: 0 <= i < width ==> FormatHex(v, width)[i] in "0123456789abcdef"
  {
    FormatHexWidth(v, width);
    FormatParse(v, width);
  }
}
