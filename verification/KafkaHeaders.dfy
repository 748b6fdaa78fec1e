/** The two header carriers of kafka/instrumentation.go and the copying of headers in kafka/producer.go. */
module KafkaHeaders {
  import opened HeaderMap
  import opened Text

  // ---- Producing: a list of header values behind a pointer ----

  class HeaderList {
    var headers: seq<Header>

    constructor (headers: seq<Header>)
      ensures this.headers == headers
    {
      this.headers := headers;
    }
  }

  class ProducerHeaderCarrier {
    const fold: Folding
    const list: HeaderList

    constructor (fold: Folding, list: HeaderList)
      ensures this.fold == fold && this.list == list
    {
      this.fold, this.list := fold, list;
    }

    method Get(key: string) returns (value: string)
      ensures value == ValueFor(fold, list.headers, key) && Reads(fold, list.headers, key, value)
    {
      ValueForReads(fold, list.headers, key);
      var headers := list.headers;
      for i := 0 to |headers|
        invariant forall j :: 0 <= j < i ==> !SameKey(fold, headers[j].key, key)
      {
        if SameKey(fold, headers[i].key, key) {
          FirstMatchUnique(fold, headers, key, i);
          return headers[i].value;
        }
      }
      FirstMatchUnique(fold, headers, key, |headers|);
      return "";
    }

    method Set(key: string, value: string)
      modifies list
      ensures list.headers == SetFor(fold, old(list.headers), key, value)
      ensures HeaderMap.IsSet(fold, old(list.headers), key, value, list.headers)
    {
      SetForIsSet(fold, list.headers, key, value);
      for i := 0 to |list.headers|
        invariant list.headers == old(list.headers)
        invariant forall j :: 0 <= j < i ==> !SameKey(fold, list.headers[j].key, key)
      {
        if SameKey(fold, list.headers[i].key, key) {
          FirstMatchUnique(fold, list.headers, key, i);
          list.headers := list.headers[i := list.headers[i].(value := value)];
          return;
        }
      }
      FirstMatchUnique(fold, list.headers, key, |list.headers|);
      list.headers := list.headers + [Header(key, value)];
    }

    method Keys() returns (keys: seq<string>)
      ensures |keys| == |list.headers| && forall i :: 0 <= i < |keys| ==> keys[i] == list.headers[i].key
    {
      keys := [];
      for i := 0 to |list.headers|
        invariant |keys| == i && forall j :: 0 <= j < i ==> keys[j] == list.headers[j].key
      {
        keys := keys + [list.headers[i].key];
      }
    }

    /** What a propagator does with a carrier: it sets its keys one after the other. */
    method Inject(pairs: seq<Header>)
      modifies list
      ensures list.headers == SetAll(fold, old(list.headers), pairs)
    {
      for i := 0 to |pairs|
        invariant list.headers == SetAll(fold, old(list.headers), pairs[..i])
      {
        Set(pairs[i].key, pairs[i].value);
        assert pairs[..i + 1][..i] == pairs[..i];
      }
      assert pairs[..|pairs|] == pairs;
    }
  }

  // ---- Consuming: a list of pointers to headers, which may share headers ----

  class RecordHeader {
    const key: string
    var value: string

    constructor (key: string, value: string)
      ensures this.key == key && this.value == value
    {
      this.key, this.value := key, value;
    }
  }

  /** The list as values. */
  ghost function Contents(hs: seq<RecordHeader>): (c: seq<Header>)
    reads set h | h in hs
    ensures |c| == |hs| && forall i :: 0 <= i < |c| ==> c[i] == Header(hs[i].key, hs[i].value)
  {
    seq(|hs|, i requires 0 <= i < |hs| reads set h | h in hs => Header(hs[i].key, hs[i].value))
  }

  class HeaderCarrier {
    const fold: Folding
    const headers: seq<RecordHeader>

    constructor (fold: Folding, headers: seq<RecordHeader>)
      ensures this.fold == fold && this.headers == headers
    {
      this.fold, this.headers := fold, headers;
    }

    method Get(key: string) returns (value: string)
      ensures value == ValueFor(fold, Contents(headers), key) && Reads(fold, Contents(headers), key, value)
    {
      ValueForReads(fold, Contents(headers), key);
      for i := 0 to |headers|
        invariant forall j :: 0 <= j < i ==> !SameKey(fold, headers[j].key, key)
      {
        if SameKey(fold, headers[i].key, key) {
          FirstMatchUnique(fold, Contents(headers), key, i);
          return headers[i].value;
        }
      }
      FirstMatchUnique(fold, Contents(headers), key, |headers|);
      return "";
    }

    /**
     Only the first matching header changes, and only its value; the list never grows, so a key that is not there stays
     unset.
     */
    method Set(key: string, value: string)
      modifies set h | h in headers
      ensures var i := FirstMatch(fold, old(Contents(headers)), key);
              && (i < |headers| ==> headers[i].value == value)
              && (forall h :: h in headers && (i < |headers| ==> h != headers[i]) ==> h.value == old(h.value))
      ensures SetEffect(fold, old(Contents(headers)), Contents(headers), key, value)
    {
      for i := 0 to |headers|
        invariant forall h :: h in headers ==> h.value == old(h.value)
        invariant forall j :: 0 <= j < i ==> !SameKey(fold, headers[j].key, key)
      {
        if SameKey(fold, headers[i].key, key) {
          FirstMatchUnique(fold, old(Contents(headers)), key, i);
          headers[i].value := value;
          return;
        }
      }
      FirstMatchUnique(fold, old(Contents(headers)), key, |headers|);
      assert Contents(headers) == old(Contents(headers));
    }

    method Keys() returns (keys: seq<string>)
      ensures |keys| == |headers| && forall i :: 0 <= i < |keys| ==> keys[i] == headers[i].key
    {
      keys := [];
      for i := 0 to |headers|
        invariant |keys| == i && forall j :: 0 <= j < i ==> keys[j] == headers[j].key
      {
        keys := keys + [headers[i].key];
      }
    }
  }

  /** The same keys, the value at the first match, and no change at headers whose key is not the one set. */
  ghost predicate SetEffect(fold: Folding, before: seq<Header>, now: seq<Header>, key: string, value: string) {
    && |now| == |before|
    && (forall i :: 0 <= i < |now| ==> now[i].key == before[i].key)
    && (forall i :: 0 <= i < |now| && !SameKey(fold, now[i].key, key) ==> now[i] == before[i])
    && (Has(fold, before, key) ==> now[FirstMatch(fold, before, key)].value == value)
    && (!Has(fold, before, key) ==> now == before)
  }

  /** Reading after a consumer-side Set: the value if the key was there, and nothing new otherwise. */
  lemma ReadAfterConsumerSet(
    fold: Folding, before: seq<Header>, now: seq<Header>, key: string, value: string, other: string)
    requires SetEffect(fold, before, now, key, value)
    ensures ValueFor(fold, now, other) ==
            if SameKey(fold, key, other) && Has(fold, before, key) then value else ValueFor(fold, before, other)
    ensures Has(fold, now, other) <==> Has(fold, before, other)
  {
    var i := FirstMatch(fold, before, other);
    FirstMatchUnique(fold, now, other, i);
    if SameKey(fold, key, other) {
      FirstMatchUnique(fold, before, key, i);
    } else if i < |now| {
      assert SameKey(fold, now[i].key, other);
    }
  }

  /** The list a consumer receives when a producer sends hs. */
  method Deliver(hs: seq<Header>) returns (received: seq<RecordHeader>)
    ensures fresh(set h | h in received) && Contents(received) == hs
  {
    received := [];
    for i := 0 to |hs|
      invariant |received| == i && fresh(set h | h in received)
      invariant forall j :: 0 <= j < i ==> received[j].key == hs[j].key && received[j].value == hs[j].value
    {
      var h := new RecordHeader(hs[i].key, hs[i].value);
      received := received + [h];
    }
  }

  /**
   Whatever a producer injects, under keys that differ up to case, the consumer reads back under any spelling; a key
   that was neither injected nor there before reads as nothing.
   */
  method InjectThenExtract(fold: Folding, list: HeaderList, pairs: seq<Header>, key: string) returns (value: string)
    requires FoldDistinct(fold, pairs)
    modifies list
    ensures forall i :: 0 <= i < |pairs| && SameKey(fold, pairs[i].key, key) ==> value == pairs[i].value
    ensures Absent(fold, pairs, key) ==> Reads(fold, old(list.headers), key, value)
  {
    var producer := new ProducerHeaderCarrier(fold, list);
    producer.Inject(pairs);
    InjectedIsReadBack(fold, old(list.headers), pairs, key);
    ValueForReads(fold, old(list.headers), key);
    var received := Deliver(list.headers);
    var consumer := new HeaderCarrier(fold, received);
    value := consumer.Get(key);
  }

  // ---- Copying the headers of a message ----

  /** The headers a visiting order of the keys gives: trimmed, without the blank ones. */
  function Copied(headers: map<string, string>, order: seq<string>): seq<Header>
    requires forall k :: k in order ==> k in headers
  {
    if order == [] then []
    else
      var k := order[|order| - 1];
      Copied(headers, order[..|order| - 1]) + if Trim(k) == "" then [] else [Header(Trim(k), headers[k])]
  }

  ghost predicate EachOnce(order: seq<string>, keys: set<string>) {
    && (forall k :: k in order <==> k in keys)
    && (forall i, j :: 0 <= i < j < |order| ==> order[i] != order[j])
  }

  /** copy is what some walk over the map gives. */
  ghost predicate CopiesOf(headers: map<string, string>, order: seq<string>, copy: seq<Header>) {
    EachOnce(order, headers.Keys) && copy == Copied(headers, order)
  }

  /** The map is walked in an order of its own; whichever it is, every key is visited once. */
  method CopyHeaders(headers: map<string, string>) returns (copy: seq<Header>)
    ensures exists order :: CopiesOf(headers, order, copy)
  {
    copy := [];
    ghost var order := [];
    var left := headers.Keys;
    while left != {}
      invariant left <= headers.Keys && EachOnce(order, headers.Keys - left) && copy == Copied(headers, order)
      decreases |left|
    {
      var k :| k in left;
      left := left - {k};
      assert (order + [k])[..|order|] == order;
      order := order + [k];
      var trimmed := Trim(k);
      if trimmed != "" {
        copy := copy + [Header(trimmed, headers[k])];
      }
    }
    assert CopiesOf(headers, order, copy);
  }

  /** What is copied is what was given under a key that is not blank, with the key trimmed. */
  lemma {:induction false} CopiedMembers(headers: map<string, string>, order: seq<string>, h: Header)
    requires forall k :: k in order ==> k in headers
    ensures h in Copied(headers, order) <==>
              exists k :: k in order && h.key != "" && Trim(k) == h.key && headers[k] == h.value
  {
    if order != [] {
      var front, k := order[..|order| - 1], order[|order| - 1];
      assert order == front + [k];
      CopiedMembers(headers, front, h);
    }
  }

  ghost function NotBlank(keys: set<string>): set<string> { set k | k in keys && Trim(k) != "" }

  lemma NotBlankWithout(keys: set<string>, k: string)
    requires k in keys
    ensures |NotBlank(keys)| == |NotBlank(keys - {k})| + if Trim(k) == "" then 0 else 1
  {
    assert NotBlank(keys) == NotBlank(keys - {k}) + if Trim(k) == "" then {} else {k};
  }

  lemma WithoutLast(order: seq<string>, keys: set<string>)
    requires EachOnce(order, keys) && order != []
    ensures EachOnce(order[..|order| - 1], keys - {order[|order| - 1]}) && order[|order| - 1] in keys
  {
    assert order == order[..|order| - 1] + [order[|order| - 1]];
  }

  /** One header for each key that is not blank, even if trimming makes two of them equal. */
  lemma {:induction false} CopiedCount(headers: map<string, string>, order: seq<string>, keys: set<string>)
    requires (forall k :: k in order ==> k in headers) && EachOnce(order, keys)
    ensures |Copied(headers, order)| == |NotBlank(keys)|
  {
    if order != [] {
      var front, k := order[..|order| - 1], order[|order| - 1];
      WithoutLast(order, keys);
      CopiedCount(headers, front, keys - {k});
      NotBlankWithout(keys, k);
    }
  }
}
