/** The fields and trace identity a context carries into the log core: log/context.go. */
module LogContext {
  import opened Wrappers
  import opened Utf8
  import opened LogCore

  datatype Key = FieldsKey | TraceIdKey | SpanIdKey | ParentSpanIdKey | SampledKey

  datatype Entry = Fields(fields: seq<Field>) | Id(id: seq<byte>) | Flag(flag: bool)

  /** Contexts only ever grow at the end; a lookup finds the newest entry for its key. */
  datatype Context = Background | WithValue(parent: Context, key: Key, entry: Entry)

  function Lookup(ctx: Context, key: Key): Option<Entry> {
    match ctx
    case Background => None
    case WithValue(parent, k, entry) => if k == key then Some(entry) else Lookup(parent, key)
  }

  function CurrentFields(ctx: Context): seq<Field> {
    match Lookup(ctx, FieldsKey)
    case Some(Fields(fields)) => fields
    case _ => []
  }

  function IdOf(ctx: Context, key: Key): seq<byte> {
    match Lookup(ctx, key)
    case Some(Id(id)) => id
    case _ => []
  }

  function WithFields(ctx: Context, fields: seq<Field>): Context {
    if fields == [] then ctx else WithValue(ctx, FieldsKey, Fields(CurrentFields(ctx) + fields))
  }

  /** None is the nil context. */
  function FieldsFromContext(ctx: Option<Context>): seq<Field> {
    if ctx.None? then [] else CurrentFields(ctx.value)
  }

  function WithId(ctx: Context, key: Key, name: string, id: seq<byte>): Context {
    if id == [] then ctx else WithFields(WithValue(ctx, key, Id(id)), [Field(name, Text(id))])
  }

  function WithTrace(ctx: Context, traceId: seq<byte>, spanId: seq<byte>, parentSpanId: seq<byte>, sampled: bool)
    : Context
  {
    var traced := WithId(ctx, TraceIdKey, "_trace_id", traceId);
    var spanned := WithId(traced, SpanIdKey, "_span_id", spanId);
    var parented := WithId(spanned, ParentSpanIdKey, "_parent_span_id", parentSpanId);
    WithValue(parented, SampledKey, Flag(sampled))
  }

  function TraceFromContext(ctx: Option<Context>): (seq<byte>, seq<byte>, bool) {
    if ctx.None? then ([], [], false)
    else
      var traceId, spanId := IdOf(ctx.value, TraceIdKey), IdOf(ctx.value, SpanIdKey);
      if traceId == [] && spanId == [] then ([], [], false) else (traceId, spanId, true)
  }

  function IsSampled(ctx: Option<Context>): bool {
    if ctx.None? then true
    else
      match Lookup(ctx.value, SampledKey)
      case Some(Flag(sampled)) => sampled
      case _ => true
  }

  // ---- Accumulation ----

  /** Fields accumulate in order, the context extended stays as it was, and nothing else in it is disturbed. */
  lemma FieldsAccumulate(ctx: Context, a: seq<Field>, b: seq<Field>, key: Key)
    ensures FieldsFromContext(Some(WithFields(ctx, a))) == FieldsFromContext(Some(ctx)) + a
    ensures FieldsFromContext(Some(WithFields(WithFields(ctx, a), b))) ==
            FieldsFromContext(Some(WithFields(ctx, a + b)))
    ensures key != FieldsKey ==> Lookup(WithFields(ctx, a), key) == Lookup(ctx, key)
  {
    assert CurrentFields(ctx) + a + b == CurrentFields(ctx) + (a + b);
    assert a == [] ==> a + b == b;
  }

  function IdField(name: string, id: seq<byte>): seq<Field> { if id == [] then [] else [Field(name, Text(id))] }

  lemma WithIdEffect(ctx: Context, key: Key, name: string, id: seq<byte>, other: Key)
    requires key != FieldsKey
    ensures CurrentFields(WithId(ctx, key, name, id)) == CurrentFields(ctx) + IdField(name, id)
    ensures IdOf(WithId(ctx, key, name, id), key) == if id == [] then IdOf(ctx, key) else id
    ensures other != key && other != FieldsKey ==> IdOf(WithId(ctx, key, name, id), other) == IdOf(ctx, other)
  {
    FieldsAccumulate(WithValue(ctx, key, Id(id)), [Field(name, Text(id))], [], key);
    FieldsAccumulate(WithValue(ctx, key, Id(id)), [Field(name, Text(id))], [], other);
  }

  /** A log field for each identifier given, after the fields already there. */
  lemma TraceFields(ctx: Context, traceId: seq<byte>, spanId: seq<byte>, parentSpanId: seq<byte>, sampled: bool)
    ensures FieldsFromContext(Some(WithTrace(ctx, traceId, spanId, parentSpanId, sampled))) ==
            FieldsFromContext(Some(ctx)) + IdField("_trace_id", traceId) + IdField("_span_id", spanId)
            + IdField("_parent_span_id", parentSpanId)
  {
    var traced := WithId(ctx, TraceIdKey, "_trace_id", traceId);
    var spanned := WithId(traced, SpanIdKey, "_span_id", spanId);
    WithIdEffect(ctx, TraceIdKey, "_trace_id", traceId, SpanIdKey);
    WithIdEffect(traced, SpanIdKey, "_span_id", spanId, TraceIdKey);
    WithIdEffect(spanned, ParentSpanIdKey, "_parent_span_id", parentSpanId, TraceIdKey);
  }

  lemma WithIdLookup(ctx: Context, key: Key, name: string, id: seq<byte>, other: Key)
    requires key != FieldsKey && other != FieldsKey
    ensures IdOf(WithId(ctx, key, name, id), other) == if other == key && id != [] then id else IdOf(ctx, other)
  {
    WithIdEffect(ctx, key, name, id, other);
  }

  lemma IdsAfterTrace(
    ctx: Context, traceId: seq<byte>, spanId: seq<byte>, parentSpanId: seq<byte>, sampled: bool, key: Key)
    requires key.TraceIdKey? || key.SpanIdKey?
    ensures var given := if key.TraceIdKey? then traceId else spanId;
            IdOf(WithTrace(ctx, traceId, spanId, parentSpanId, sampled), key) ==
            if given == [] then IdOf(ctx, key) else given
  {
    var traced := WithId(ctx, TraceIdKey, "_trace_id", traceId);
    var spanned := WithId(traced, SpanIdKey, "_span_id", spanId);
    calc {
      IdOf(WithTrace(ctx, traceId, spanId, parentSpanId, sampled), key);
      IdOf(WithId(spanned, ParentSpanIdKey, "_parent_span_id", parentSpanId), key);
      { WithIdLookup(spanned, ParentSpanIdKey, "_parent_span_id", parentSpanId, key); }
      IdOf(spanned, key);
      { WithIdLookup(traced, SpanIdKey, "_span_id", spanId, key); }
      if key.SpanIdKey? && spanId != [] then spanId else IdOf(traced, key);
      { WithIdLookup(ctx, TraceIdKey, "_trace_id", traceId, key); }
      if (if key.TraceIdKey? then traceId else spanId) == [] then IdOf(ctx, key)
      else if key.TraceIdKey? then traceId else spanId;
    }
  }

  /**
   What WithTrace puts in is what the readers take out: the sampling flag always, and each identifier when it is not
   empty, the one already there otherwise.
   */
  lemma TraceRoundTrip(ctx: Context, traceId: seq<byte>, spanId: seq<byte>, parentSpanId: seq<byte>, sampled: bool)
    ensures var next := WithTrace(ctx, traceId, spanId, parentSpanId, sampled);
            var t := if traceId == [] then IdOf(ctx, TraceIdKey) else traceId;
            var s := if spanId == [] then IdOf(ctx, SpanIdKey) else spanId;
            && IsSampled(Some(next)) == sampled
            && TraceFromContext(Some(next)) == (t, s, t != [] || s != [])
  {
    IdsAfterTrace(ctx, traceId, spanId, parentSpanId, sampled, TraceIdKey);
    IdsAfterTrace(ctx, traceId, spanId, parentSpanId, sampled, SpanIdKey);
  }

  /** A context nobody has put anything into, and no context at all, carry no field and no trace, and are sampled. */
  lemma NothingGiven(ctx: Option<Context>)
    requires ctx.None? || ctx.value.Background?
    ensures FieldsFromContext(ctx) == [] && TraceFromContext(ctx) == ([], [], false) && IsSampled(ctx)
  {
  }

  /** Log fields alone make no trace: what the readers find is what they found before. */
  lemma FieldsAreNoTrace(ctx: Context, fields: seq<Field>)
    ensures TraceFromContext(Some(WithFields(ctx, fields))) == TraceFromContext(Some(ctx))
    ensures IsSampled(Some(WithFields(ctx, fields))) == IsSampled(Some(ctx))
  {
    FieldsAccumulate(ctx, fields, [], TraceIdKey);
    FieldsAccumulate(ctx, fields, [], SpanIdKey);
    FieldsAccumulate(ctx, fields, [], SampledKey);
  }

  // ---- Into the log core ----

  /** The logger for a context: the global core with the context's fields bound. */
  function LoggerView(global: View, ctx: Option<Context>): View { Derive(global, FieldsFromContext(ctx)) }

  /** A record logged through a context has the global fields, those of the context, and those of the call, in order. */
  lemma ContextReachesTheRecord(global: View, ctx: Option<Context>, message: seq<byte>, fields: seq<Field>)
    ensures var r := Emitted(LoggerView(global, ctx), message, fields).fields;
            var carried := FieldsFromContext(ctx) + fields;
            && |global.context| + |carried| <= |r| && r[..|global.context|] == global.context
            && forall i :: 0 <= i < |carried| ==> ComesOut(carried[i], r[|global.context| + i])
  {
    NormalizedAppend(FieldsFromContext(ctx), fields);
    AllComeOut(FieldsFromContext(ctx) + fields);
  }

  /**
   A record logged through a context that was given a trace identifier carries it, and no empty default is injected
   for it beside it, however many more fields the context is given afterwards.
   */
  lemma TraceReachesTheRecord(
    ctx: Context, traceId: seq<byte>, spanId: seq<byte>, parentSpanId: seq<byte>, sampled: bool,
    more: seq<Field>, defaults: seq<Field>, message: seq<byte>, fields: seq<Field>)
    requires traceId != []
    ensures var next := WithFields(WithTrace(ctx, traceId, spanId, parentSpanId, sampled), more);
            var v := LoggerView(View([], defaults), Some(next));
            && Field("_trace_id", Text(traceId)) in Emitted(v, message, fields).fields
            && forall d :: d in Injected(v, fields) ==> d.key != "_trace_id"
  {
    var traced := WithTrace(ctx, traceId, spanId, parentSpanId, sampled);
    var f := Field("_trace_id", Text(traceId));
    TraceFields(ctx, traceId, spanId, parentSpanId, sampled);
    FieldsAccumulate(traced, more, [], FieldsKey);
    var bound := FieldsFromContext(Some(WithFields(traced, more)));
    assert f in IdField("_trace_id", traceId);
    assert f in FieldsFromContext(Some(traced));
    assert f in bound;
    var i :| 0 <= i < |bound| && bound[i] == f;
    NormalizedAt(bound, i);
    TraceFieldStays(f);
    var v := LoggerView(View([], defaults), Some(WithFields(traced, more)));
    assert v.context == Normalized(bound);
    assert v.context[i] == f && f in v.context;
    forall d | d in Injected(v, fields) ensures d.key != "_trace_id" {
      MissingMembers(defaults, Keys(v.context) + Keys(Normalized(fields)), d);
    }
  }

  lemma TraceFieldStays(f: Field)
    requires f.key == "_trace_id"
    ensures NormalizedField(f) == f
  {
    assert "_sql"[1] == 's' && "_trace_id"[1] == 't';
  }
}
