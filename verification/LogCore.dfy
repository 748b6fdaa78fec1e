/**
 The required-fields log core of log/required_fields_core.go. Cores are immutable: With makes a new one, and only the
 shared sink changes, when a record is written.
 */
module LogCore {
  import opened Utf8
  import opened LogText

  const MAX_LOG_TEXT_LEN := 1024

  /** Field values as far as the core looks at them; the bytes are those of a Go string. */
  datatype Value = Text(bytes: seq<byte>) | Number(n: int) | Other(id: int)

  datatype Field = Field(key: string, value: Value)

  datatype Record = Record(message: seq<byte>, fields: seq<Field>)

  // ---- Normalisation ----

  const FIELD_KEY_ALIASES := map[
    "trace_id" := "_trace_id", "span_id" := "_span_id", "parent_span_id" := "_parent_span_id",
    "server_ip" := "_app_ip", "server_port" := "_app_port", "duration_ms" := "_dur_ms", "sql" := "_sql"]

  function Canonical(key: string): string {
    if key in FIELD_KEY_ALIASES then FIELD_KEY_ALIASES[key] else key
  }

  function NormalizedField(f: Field): Field {
    var key := Canonical(f.key);
    Field(key, if key == "_sql" && f.value.Text? then Text(Truncated(f.value.bytes, MAX_LOG_TEXT_LEN)) else f.value)
  }

  function Normalized(fields: seq<Field>): seq<Field> {
    if fields == [] then [] else Normalized(fields[..|fields| - 1]) + [NormalizedField(fields[|fields| - 1])]
  }

  const ALIASES := ["trace_id", "span_id", "parent_span_id", "server_ip", "server_port", "duration_ms", "sql"]

  /** The key a supplied field comes out under: the target of its alias, or its own. */
  ghost predicate ComesOutAs(key: string, out: string) {
    && (key == "trace_id" ==> out == "_trace_id")
    && (key == "span_id" ==> out == "_span_id")
    && (key == "parent_span_id" ==> out == "_parent_span_id")
    && (key == "server_ip" ==> out == "_app_ip")
    && (key == "server_port" ==> out == "_app_port")
    && (key == "duration_ms" ==> out == "_dur_ms")
    && (key == "sql" ==> out == "_sql")
    && (out == key || key in ALIASES)
  }

  /** What becomes of a supplied field: its key is replaced, statement text is cut, any other value is kept. */
  ghost predicate ComesOut(f: Field, g: Field) {
    && ComesOutAs(f.key, g.key)
    && (if (f.key == "_sql" || f.key == "sql") && f.value.Text? then
          g.value.Text? && IsCut(f.value.bytes, g.value.bytes, 1024)
        else g.value == f.value)
  }

  lemma NormalizedComesOut(f: Field)
    ensures ComesOut(f, NormalizedField(f))
  {
    if f.value.Text? { TruncatedIsCut(f.value.bytes, 1024); }
    CanonicalIsTarget(f.key);
  }

  lemma CanonicalIsTarget(key: string)
    ensures ComesOutAs(key, Canonical(key)) && (Canonical(key) == "_sql" <==> key == "_sql" || key == "sql")
  {
    assert |"trace_id"| == 8 && |"span_id"| == 7 && |"parent_span_id"| == 14 && |"server_ip"| == 9;
    assert |"server_port"| == 11 && |"duration_ms"| == 11 && |"sql"| == 3 && "server_port"[0] != "duration_ms"[0];
    assert |"_sql"| == 4;
  }

  method NormalizeFields(fields: seq<Field>) returns (normalized: seq<Field>)
    ensures normalized == Normalized(fields)
    ensures |normalized| == |fields| && forall i :: 0 <= i < |fields| ==> ComesOut(fields[i], normalized[i])
  {
    normalized := [];
    for i := 0 to |fields|
      invariant normalized == Normalized(fields[..i])
    {
      var field := fields[i];
      if field.key in FIELD_KEY_ALIASES {
        field := field.(key := FIELD_KEY_ALIASES[field.key]);
      }
      if field.key == "_sql" && field.value.Text? {
        var cut := TruncateUTF8(field.value.bytes, MAX_LOG_TEXT_LEN);
        field := field.(value := Text(cut));
      }
      normalized := normalized + [field];
      assert fields[..i + 1][..i] == fields[..i];
    }
    assert fields[..|fields|] == fields;
    AllComeOut(fields);
  }

  /** No alias is itself an alias's target, so canonical keys stay. */
  lemma CanonicalIdempotent(key: string)
    ensures Canonical(Canonical(key)) == Canonical(key)
  {
  }

  lemma {:induction false} NormalizedAt(fields: seq<Field>, i: nat)
    requires i < |fields|
    ensures |Normalized(fields)| == |fields| && Normalized(fields)[i] == NormalizedField(fields[i])
  {
    var n := |fields| - 1;
    if i < n {
      NormalizedAt(fields[..n], i);
    } else if n > 0 {
      NormalizedAt(fields[..n], 0);
    }
  }

  lemma AllComeOut(fields: seq<Field>)
    ensures var n := Normalized(fields); |n| == |fields| && forall i :: 0 <= i < |fields| ==> ComesOut(fields[i], n[i])
  {
    if fields != [] { NormalizedAt(fields, 0); }
    forall i | 0 <= i < |fields| ensures ComesOut(fields[i], Normalized(fields)[i]) {
      NormalizedAt(fields, i);
      NormalizedComesOut(fields[i]);
    }
  }

  /** Normalising again changes nothing: neither the keys nor a statement text already cut. */
  lemma {:induction false} NormalizedIdempotent(fields: seq<Field>)
    ensures Normalized(Normalized(fields)) == Normalized(fields)
  {
    if fields != [] {
      var f := fields[|fields| - 1];
      var front := Normalized(fields[..|fields| - 1]);
      NormalizedIdempotent(fields[..|fields| - 1]);
      CanonicalIdempotent(f.key);
      if f.value.Text? { TruncatedIdempotent(f.value.bytes, MAX_LOG_TEXT_LEN); }
      assert (front + [NormalizedField(f)])[..|front|] == front;
    }
  }

  lemma {:induction false} NormalizedAppend(a: seq<Field>, b: seq<Field>)
    ensures Normalized(a + b) == Normalized(a) + Normalized(b)
  {
    if b == [] {
      assert a + b == a;
    } else {
      var n := |b| - 1;
      assert (a + b)[..|a| + n] == a + b[..n];
      NormalizedAppend(a, b[..n]);
    }
  }

  // ---- What a core stands for ----

  /** What was bound so far, in order, and the defaults. */
  datatype View = View(context: seq<Field>, defaults: seq<Field>)

  ghost function Keys(fields: seq<Field>): set<string> { set f | f in fields :: f.key }

  function Derive(v: View, fields: seq<Field>): View { v.(context := v.context + Normalized(fields)) }

  function DeriveAll(v: View, chain: seq<seq<Field>>): View {
    if chain == [] then v else Derive(DeriveAll(v, chain[..|chain| - 1]), chain[|chain| - 1])
  }

  function Flatten(chain: seq<seq<Field>>): seq<Field> {
    if chain == [] then [] else Flatten(chain[..|chain| - 1]) + chain[|chain| - 1]
  }

  /** The defaults whose key is not among those present, in order. */
  function Missing(defaults: seq<Field>, present: set<string>): seq<Field> {
    if defaults == [] then []
    else
      var d := defaults[|defaults| - 1];
      Missing(defaults[..|defaults| - 1], present) + if d.key in present then [] else [d]
  }

  ghost function Injected(v: View, fields: seq<Field>): seq<Field> {
    Missing(v.defaults, Keys(v.context) + Keys(Normalized(fields)))
  }

  ghost function Emitted(v: View, message: seq<byte>, fields: seq<Field>): Record {
    Record(Truncated(message, MAX_LOG_TEXT_LEN), v.context + Normalized(fields) + Injected(v, fields))
  }

  // ---- The core ----

  /** Where records go: the core at the bottom writes its bound context followed by the fields it is given. */
  class Sink {
    var records: seq<Record>

    constructor ()
      ensures records == []
    {
      records := [];
    }
  }

  /** A set of keys that is filled in place. */
  class KeySet {
    var keys: set<string>

    constructor ()
      ensures keys == {}
    {
      keys := {};
    }

    method Add(key: string)
      modifies this
      ensures keys == old(keys) + {key}
    {
      keys := keys + {key};
    }

    method AddAll(other: KeySet)
      requires other != this
      modifies this
      ensures keys == old(keys) + other.keys
    {
      var left := other.keys;
      while left != {}
        invariant left <= other.keys && keys == old(keys) + (other.keys - left)
        decreases |left|
      {
        var key :| key in left;
        Add(key);
        left := left - {key};
      }
    }

    method AddFields(fields: seq<Field>)
      modifies this
      ensures keys == old(keys) + Keys(fields)
    {
      for i := 0 to |fields|
        invariant keys == old(keys) + Keys(fields[..i])
      {
        Add(fields[i].key);
        assert fields[..i + 1] == fields[..i] + [fields[i]];
        KeysAppend(fields[..i], [fields[i]]);
        assert Keys([fields[i]]) == {fields[i].key};
      }
      assert fields[..|fields|] == fields;
    }
  }

  class RequiredFieldsCore {
    const sink: Sink
    const context: seq<Field>
    const defaults: seq<Field>
    const boundFields: KeySet

    ghost predicate Valid()
      reads boundFields
    {
      boundFields.keys == Keys(context)
    }

    ghost function ViewOf(): View { View(context, defaults) }

    constructor (sink: Sink, defaults: seq<Field>)
      ensures Valid() && fresh(boundFields) && this.sink == sink && ViewOf() == View([], defaults)
    {
      var none := new KeySet();
      this.sink, this.context, this.defaults, this.boundFields := sink, [], defaults, none;
    }

    constructor Derived(sink: Sink, context: seq<Field>, defaults: seq<Field>, bound: KeySet)
      requires bound.keys == Keys(context)
      ensures Valid() && this.sink == sink && ViewOf() == View(context, defaults) && boundFields == bound
    {
      this.sink, this.context, this.defaults, this.boundFields := sink, context, defaults, bound;
    }

    /**
     A new core with the fields bound as well, over a key set of its own: no existing object changes, so neither the
     receiver nor anything else derived from it does.
     */
    method With(fields: seq<Field>) returns (core: RequiredFieldsCore)
      requires Valid()
      ensures fresh(core) && fresh(core.boundFields) && core.Valid() && core.sink == sink
      ensures core.ViewOf() == Derive(ViewOf(), fields)
    {
      var normalized := NormalizeFields(fields);
      var bound := new KeySet();
      bound.AddAll(boundFields);
      bound.AddFields(normalized);
      KeysAppend(context, normalized);
      core := new RequiredFieldsCore.Derived(sink, context + normalized, defaults, bound);
    }

    /** One record, with each default whose key neither the context nor the call supplied. */
    method Write(message: seq<byte>, fields: seq<Field>)
      requires Valid()
      modifies sink
      ensures sink.records == old(sink.records) + [Emitted(ViewOf(), message, fields)]
      ensures Carries(sink.records[|sink.records| - 1], context, message, fields)
    {
      var text := TruncateUTF8(message, MAX_LOG_TEXT_LEN);
      var normalized := NormalizeFields(fields);
      var present := new KeySet();
      present.AddAll(boundFields);
      present.AddFields(normalized);
      assert present.keys == Keys(context) + Keys(normalized);
      var merged := AddMissing(normalized, present);
      assert context + merged == Emitted(ViewOf(), message, fields).fields;
      sink.records := sink.records + [Record(text, context + merged)];
    }

    method AddMissing(fields: seq<Field>, present: KeySet) returns (merged: seq<Field>)
      ensures merged == fields + Missing(defaults, present.keys)
    {
      merged := fields;
      for i := 0 to |defaults|
        invariant merged == fields + Missing(defaults[..i], present.keys)
      {
        assert defaults[..i + 1][..i] == defaults[..i];
        if defaults[i].key in present.keys {
          continue;
        }
        merged := merged + [defaults[i]];
      }
      assert defaults[..|defaults|] == defaults;
    }
  }

  /** The record has the cut message, the context, and behind it the fields given, each as it comes out. */
  ghost predicate Carries(r: Record, context: seq<Field>, message: seq<byte>, fields: seq<Field>) {
    && IsCut(message, r.message, 1024) && |context| + |fields| <= |r.fields| && r.fields[..|context|] == context
    && forall i :: 0 <= i < |fields| ==> ComesOut(fields[i], r.fields[|context| + i])
  }

  // ---- Trees of cores ----

  /** Deriving once more, from the core with that number; the root has number zero. */
  datatype Derivation = Derivation(parent: nat, fields: seq<Field>)

  predicate IsTree(ops: seq<Derivation>) { forall i :: 0 <= i < |ops| ==> ops[i].parent <= i }

  /** What each core of a tree stands for, by its path from the root alone. */
  function TreeViews(root: View, ops: seq<Derivation>): (views: seq<View>)
    requires IsTree(ops)
    ensures |views| == |ops| + 1
  {
    if ops == [] then [root]
    else
      var front, last := TreeViews(root, ops[..|ops| - 1]), ops[|ops| - 1];
      front + [Derive(front[last.parent], last.fields)]
  }

  /** Every core stands for what its path says, over key storage of its own. */
  ghost predicate Independent(cores: seq<RequiredFieldsCore>, views: seq<View>, sink: Sink)
    reads set c | c in cores :: c.boundFields
  {
    && |cores| == |views|
    && (forall i :: 0 <= i < |cores| ==> cores[i].Valid() && cores[i].ViewOf() == views[i] && cores[i].sink == sink)
    && (forall i, j :: 0 <= i < j < |cores| ==> cores[i].boundFields != cores[j].boundFields)
  }

  /** After any tree of With calls every core, early or late, is as when it was made. */
  method DeriveTree(root: RequiredFieldsCore, ops: seq<Derivation>) returns (cores: seq<RequiredFieldsCore>)
    requires root.Valid() && IsTree(ops)
    ensures Independent(cores, TreeViews(root.ViewOf(), ops), root.sink) && cores[0] == root
  {
    cores := [root];
    for n := 0 to |ops|
      invariant Independent(cores, TreeViews(root.ViewOf(), ops[..n]), root.sink) && cores[0] == root
    {
      var core := cores[ops[n].parent].With(ops[n].fields);
      assert ops[..n + 1][..n] == ops[..n];
      cores := cores + [core];
    }
    assert ops[..|ops|] == ops;
  }

  /** Writing through one core of a tree adds its record and leaves all cores as they are. */
  method WriteInTree(cores: seq<RequiredFieldsCore>, ghost views: seq<View>, sink: Sink, k: nat, message: seq<byte>,
                     fields: seq<Field>)
    requires k < |cores| && Independent(cores, views, sink)
    modifies sink
    ensures Independent(cores, views, sink)
    ensures sink.records == old(sink.records) + [Emitted(views[k], message, fields)]
  {
    cores[k].Write(message, fields);
  }

  lemma KeysAppend(a: seq<Field>, b: seq<Field>)
    ensures Keys(a + b) == Keys(a) + Keys(b)
  {
  }

  // ---- Chains ----

  /** Binding twice is binding once, with the fields one after the other. */
  lemma DeriveTwice(v: View, a: seq<Field>, b: seq<Field>)
    ensures Derive(Derive(v, a), b) == Derive(v, a + b)
  {
    NormalizedAppend(a, b);
  }

  lemma {:induction false} ChainIsOneWith(v: View, chain: seq<seq<Field>>)
    ensures DeriveAll(v, chain) == Derive(v, Flatten(chain))
  {
    if chain != [] {
      ChainIsOneWith(v, chain[..|chain| - 1]);
      DeriveTwice(v, Flatten(chain[..|chain| - 1]), chain[|chain| - 1]);
    }
  }

  // ---- Defaults ----

  /** A raw field supplies a key when its own key is that key or an alias of it. */
  predicate Supplies(fields: seq<Field>, key: string) { exists f :: f in fields && Canonical(f.key) == key }

  lemma SuppliedKeys(fields: seq<Field>, key: string)
    ensures key in Keys(Normalized(fields)) <==> Supplies(fields, key)
  {
    if f :| f in Normalized(fields) && f.key == key {
      if fields != [] { NormalizedAt(fields, 0); }
      var i :| 0 <= i < |fields| && Normalized(fields)[i] == f;
      NormalizedAt(fields, i);
      assert fields[i] in fields;
    }
    if f :| f in fields && Canonical(f.key) == key {
      var i :| 0 <= i < |fields| && fields[i] == f;
      NormalizedAt(fields, i);
      assert Normalized(fields)[i] in Normalized(fields);
    }
  }

  lemma {:induction false} MissingMembers(defaults: seq<Field>, present: set<string>, d: Field)
    ensures d in Missing(defaults, present) <==> d in defaults && d.key !in present
  {
    if defaults != [] {
      MissingMembers(defaults[..|defaults| - 1], present, d);
    }
  }

  /** How many fields of a record carry a key. */
  function Count(fields: seq<Field>, key: string): nat {
    if fields == [] then 0 else Count(fields[..|fields| - 1], key) + if fields[|fields| - 1].key == key then 1 else 0
  }

  lemma {:induction false} CountAppend(a: seq<Field>, b: seq<Field>, key: string)
    ensures Count(a + b, key) == Count(a, key) + Count(b, key)
  {
    if b == [] {
      assert a + b == a;
    } else {
      assert (a + b)[..|a + b| - 1] == a + b[..|b| - 1];
      CountAppend(a, b[..|b| - 1], key);
    }
  }

  lemma {:induction false} CountPositive(fields: seq<Field>, key: string)
    ensures Count(fields, key) > 0 <==> key in Keys(fields)
  {
    if fields != [] {
      var n := |fields| - 1;
      CountPositive(fields[..n], key);
      assert fields == fields[..n] + [fields[n]];
      KeysAppend(fields[..n], [fields[n]]);
    }
  }

  lemma CountSnoc(fields: seq<Field>, f: Field, key: string)
    ensures Count(fields + [f], key) == Count(fields, key) + if f.key == key then 1 else 0
  {
    assert (fields + [f])[..|fields|] == fields;
  }

  lemma {:induction false} CountMissing(defaults: seq<Field>, present: set<string>, key: string)
    ensures Count(Missing(defaults, present), key) == if key in present then 0 else Count(defaults, key)
  {
    if defaults != [] {
      var n := |defaults| - 1;
      var front, d := Missing(defaults[..n], present), defaults[n];
      CountMissing(defaults[..n], present, key);
      if d.key in present {
        assert Missing(defaults, present) == front;
      } else {
        CountSnoc(front, d, key);
      }
    }
  }

  /** A core made by a chain of With calls on a fresh one. */
  ghost function Built(defaults: seq<Field>, chain: seq<seq<Field>>): View { DeriveAll(View([], defaults), chain) }

  lemma BuiltContext(defaults: seq<Field>, chain: seq<seq<Field>>)
    ensures Built(defaults, chain) == View(Normalized(Flatten(chain)), defaults)
  {
    ChainIsOneWith(View([], defaults), chain);
  }

  /**
   For every chain of With calls ending in a Write, the record is what was supplied, normalised, followed by exactly the
   defaults whose key nobody supplied, directly or through an alias, in order.
   */
  lemma DefaultInjectedIffNotSupplied(defaults: seq<Field>, chain: seq<seq<Field>>, message: seq<byte>,
                                      fields: seq<Field>, d: Field)
    ensures var v, supplied := Built(defaults, chain), Flatten(chain) + fields;
            && Emitted(v, message, fields).fields == Normalized(supplied) + Injected(v, fields)
            && (d in Injected(v, fields) <==> d in defaults && !Supplies(supplied, d.key))
  {
    var v, supplied := Built(defaults, chain), Flatten(chain) + fields;
    BuiltContext(defaults, chain);
    NormalizedAppend(Flatten(chain), fields);
    KeysAppend(Normalized(Flatten(chain)), Normalized(fields));
    MissingMembers(defaults, Keys(Normalized(supplied)), d);
    SuppliedKeys(supplied, d.key);
  }

  /**
   The record itself: the message cut to 1024 characters, then every supplied field in order, under the target of its
   alias, with statement text cut to 1024 characters and any other value as it was.
   */
  lemma SuppliedFieldsComeOut(
    defaults: seq<Field>, chain: seq<seq<Field>>, message: seq<byte>, fields: seq<Field>)
    ensures var r, supplied := Emitted(Built(defaults, chain), message, fields), Flatten(chain) + fields;
            && IsCut(message, r.message, 1024) && |supplied| <= |r.fields|
            && forall i :: 0 <= i < |supplied| ==> ComesOut(supplied[i], r.fields[i])
  {
    var supplied := Flatten(chain) + fields;
    TruncatedIsCut(message, 1024);
    AllComeOut(supplied);
    if supplied != [] { DefaultInjectedIffNotSupplied(defaults, chain, message, fields, supplied[0]); }
  }

  /** The missing defaults are found one by one, so they keep their order and number. */
  lemma {:induction false} MissingOneByOne(a: seq<Field>, d: Field, b: seq<Field>, present: set<string>)
    ensures Missing(a + [d] + b, present) ==
            Missing(a, present) + (if d.key in present then [] else [d]) + Missing(b, present)
  {
    if b == [] {
      assert (a + [d])[..|a|] == a && a + [d] + b == a + [d];
    } else {
      var n := |b| - 1;
      assert (a + [d] + b)[..|a| + 1 + n] == a + [d] + b[..n];
      MissingOneByOne(a, d, b[..n], present);
    }
  }

  /**
   A default key is in every record: as often as it was supplied if it was, and as often as there are defaults for it
   otherwise.
   */
  lemma DefaultKeyCount(
    defaults: seq<Field>, chain: seq<seq<Field>>, message: seq<byte>, fields: seq<Field>, key: string)
    ensures var supplied := Flatten(chain) + fields;
            Count(Emitted(Built(defaults, chain), message, fields).fields, key) ==
            if Supplies(supplied, key) then Count(Normalized(supplied), key) else Count(defaults, key)
    ensures key in Keys(defaults) ==> key in Keys(Emitted(Built(defaults, chain), message, fields).fields)
  {
    var v, supplied := Built(defaults, chain), Flatten(chain) + fields;
    BuiltContext(defaults, chain);
    NormalizedAppend(Flatten(chain), fields);
    KeysAppend(Normalized(Flatten(chain)), Normalized(fields));
    CountAppend(Normalized(supplied), Injected(v, fields), key);
    CountMissing(defaults, Keys(Normalized(supplied)), key);
    SuppliedKeys(supplied, key);
    CountPositive(Normalized(supplied), key);
    CountPositive(defaults, key);
    CountPositive(Emitted(v, message, fields).fields, key);
  }

  /** The defaults the service injects, in order. */
  function DefaultFields(env: seq<byte>, app: seq<byte>, ip: seq<byte>, port: int): seq<Field> {
    [Field("_env", Text(env)), Field("_app", Text(app)), Field("_app_ip", Text(ip)), Field("_app_port", Number(port)),
     Field("_trace_id", Text([])), Field("_span_id", Text([]))]
  }

  ghost predicate IsServiceDefault(env: seq<byte>, app: seq<byte>, ip: seq<byte>, port: int, f: Field) {
    || (f.key == "_env" && f.value == Text(env)) || (f.key == "_app" && f.value == Text(app))
    || (f.key == "_app_ip" && f.value == Text(ip)) || (f.key == "_app_port" && f.value == Number(port))
    || (f.key == "_trace_id" && f.value == Text([])) || (f.key == "_span_id" && f.value == Text([]))
  }

  lemma DefaultFieldsAre(env: seq<byte>, app: seq<byte>, ip: seq<byte>, port: int, f: Field)
    requires f in DefaultFields(env, app, ip, port)
    ensures IsServiceDefault(env, app, ip, port, f)
  {
  }

  /** Whatever a record carries under a key that nobody supplied is the service's value for it. */
  lemma ServiceDefaults(env: seq<byte>, app: seq<byte>, ip: seq<byte>, port: int, chain: seq<seq<Field>>,
                        message: seq<byte>, fields: seq<Field>, f: Field)
    requires f in Emitted(Built(DefaultFields(env, app, ip, port), chain), message, fields).fields
    requires !Supplies(Flatten(chain) + fields, f.key)
    ensures IsServiceDefault(env, app, ip, port, f)
  {
    var defaults := DefaultFields(env, app, ip, port);
    DefaultInjectedIffNotSupplied(defaults, chain, message, fields, f);
    SuppliedKeys(Flatten(chain) + fields, f.key);
    DefaultFieldsAre(env, app, ip, port, f);
  }

  lemma {:induction false} CountDistinct(s: seq<Field>, key: string)
    requires forall i, j :: 0 <= i < j < |s| ==> s[i].key != s[j].key
    ensures Count(s, key) == if exists i :: 0 <= i < |s| && s[i].key == key then 1 else 0
  {
    if s != [] {
      var n := |s| - 1;
      CountDistinct(s[..n], key);
      if i :| 0 <= i < n && s[i].key == key { assert s[..n][i].key == key; }
    }
  }

  lemma SixKeysDiffer(env: seq<byte>, app: seq<byte>, ip: seq<byte>, port: int)
    ensures var s := DefaultFields(env, app, ip, port); forall i, j :: 0 <= i < j < 6 ==> s[i].key != s[j].key
  {
    assert "_env"[1] != "_app"[1];
    assert "_trace_id"[1] != "_span_id"[1];
  }

  /** Each of the six default keys is in every record exactly once, unless it was supplied more than once. */
  lemma SixKeysOnce(env: seq<byte>, app: seq<byte>, ip: seq<byte>, port: int, chain: seq<seq<Field>>,
                    message: seq<byte>, fields: seq<Field>, i: nat)
    requires i < 6 && Count(Normalized(Flatten(chain) + fields), DefaultFields(env, app, ip, port)[i].key) <= 1
    ensures var defaults := DefaultFields(env, app, ip, port);
            Count(Emitted(Built(defaults, chain), message, fields).fields, defaults[i].key) == 1
  {
    var defaults := DefaultFields(env, app, ip, port);
    var key := defaults[i].key;
    DefaultKeyCount(defaults, chain, message, fields, key);
    SixKeysDiffer(env, app, ip, port);
    CountDistinct(defaults, key);
    SuppliedKeys(Flatten(chain) + fields, key);
    CountPositive(Normalized(Flatten(chain) + fields), key);
  }
}
