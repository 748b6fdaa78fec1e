/** Comma-separated broker lists: kafka/producer.go, kafka/consumer.go and kafka/instrumentation.go. */
module Brokers {
  import opened Text
  import opened Wrappers

  // ---- Splitting ----

  /** The parts with t added to the last one. */
  function Grow(parts: seq<string>, t: string): (r: seq<string>)
    requires parts != []
    ensures r != []
  {
    parts[..|parts| - 1] + [parts[|parts| - 1] + t]
  }

  function Prepend(t: string, parts: seq<string>): seq<string>
    requires parts != []
  {
    [t + parts[0]] + parts[1..]
  }

  /** strings.Split on one character. */
  function Split(s: string, sep: char): (parts: seq<string>)
    ensures parts != []
  {
    if s == "" then [""]
    else
      var front, c := Split(s[..|s| - 1], sep), s[|s| - 1];
      if c == sep then front + [""] else Grow(front, [c])
  }

  function Join(parts: seq<string>, sep: char): string {
    if parts == [] then ""
    else if |parts| == 1 then parts[0]
    else Join(parts[..|parts| - 1], sep) + [sep] + parts[|parts| - 1]
  }

  lemma JoinSnoc(parts: seq<string>, last: string, sep: char)
    requires parts != []
    ensures Join(parts + [last], sep) == Join(parts, sep) + [sep] + last
  {
    assert (parts + [last])[..|parts|] == parts;
  }

  lemma JoinGrow(parts: seq<string>, t: string, sep: char)
    requires parts != []
    ensures Join(Grow(parts, t), sep) == Join(parts, sep) + t
  {
    var front, last := parts[..|parts| - 1], parts[|parts| - 1];
    if front == [] {
      assert Grow(parts, t) == [last + t];
    } else {
      JoinSnoc(front, last + t, sep);
      assert Join(front, sep) + [sep] + (last + t) == Join(front, sep) + [sep] + last + t;
    }
  }

  lemma GrowTwice(parts: seq<string>, t: string, u: string)
    requires parts != []
    ensures Grow(Grow(parts, t), u) == Grow(parts, t + u)
    ensures Grow(parts, "") == parts
  {
    var last := parts[|parts| - 1];
    assert last + t + u == last + (t + u) && last + "" == last;
    assert parts == parts[..|parts| - 1] + [last];
  }

  /** Splitting loses nothing. */
  lemma {:induction false} SplitJoin(s: string, sep: char)
    ensures Join(Split(s, sep), sep) == s
  {
    if s != "" {
      var front, c := s[..|s| - 1], s[|s| - 1];
      SplitJoin(front, sep);
      JoinSnoc(Split(front, sep), "", sep);
      JoinGrow(Split(front, sep), [c], sep);
      assert front + [c] == s && front + [c] + "" == s;
    }
  }

  predicate Free(parts: seq<string>, sep: char) { forall p :: p in parts ==> sep !in p }

  lemma GrowFree(parts: seq<string>, t: string, sep: char)
    requires parts != [] && Free(parts, sep) && sep !in t
    ensures Free(Grow(parts, t), sep)
  {
    var last := parts[|parts| - 1];
    assert last in parts;
    forall p | p in Grow(parts, t) ensures sep !in p {
      assert p in parts[..|parts| - 1] || p == last + t;
    }
  }

  /** No separator is left inside a part. */
  lemma {:induction false} SplitFree(s: string, sep: char)
    ensures Free(Split(s, sep), sep)
  {
    if s != "" {
      SplitFree(s[..|s| - 1], sep);
      if s[|s| - 1] != sep { GrowFree(Split(s[..|s| - 1], sep), [s[|s| - 1]], sep); }
    }
  }

  /** Splitting undoes joining of parts without a separator. */
  lemma {:induction false} JoinSplit(parts: seq<string>, sep: char)
    requires parts != [] && Free(parts, sep)
    ensures Split(Join(parts, sep), sep) == parts
  {
    var front, last := parts[..|parts| - 1], parts[|parts| - 1];
    assert parts == front + [last] && last in parts;
    if front == [] {
      SplitAppend("", last, sep);
      assert "" + last == last && Split("", sep) == [""];
    } else {
      var s := Join(front, sep);
      JoinSplit(front, sep);
      assert (s + [sep])[..|s|] == s;
      SplitAppend(s + [sep], last, sep);
      assert "" + last == last;
    }
  }

  /** Text without a separator ends up at the end of the last part. */
  lemma {:induction false} SplitAppend(s: string, t: string, sep: char)
    requires sep !in t
    ensures Split(s + t, sep) == Grow(Split(s, sep), t)
    decreases |t|
  {
    if t == "" {
      assert s + t == s;
      GrowTwice(Split(s, sep), "", "");
    } else {
      var front, c := t[..|t| - 1], t[|t| - 1];
      SplitAppend(s, front, sep);
      assert (s + t)[..|s + t| - 1] == s + front && front + [c] == t;
      GrowTwice(Split(s, sep), front, [c]);
    }
  }

  lemma PrependMoves(t: string, parts: seq<string>, c: char)
    requires parts != []
    ensures Prepend(t, parts + [""]) == Prepend(t, parts) + [""]
    ensures Prepend(t, Grow(parts, [c])) == Grow(Prepend(t, parts), [c])
  {
    if |parts| == 1 {
      assert t + (parts[0] + [c]) == t + parts[0] + [c];
    }
  }

  /** Text without a separator ends up at the start of the first part. */
  lemma {:induction false} SplitPrepend(t: string, s: string, sep: char)
    requires sep !in t
    ensures Split(t + s, sep) == Prepend(t, Split(s, sep))
    decreases |s|
  {
    if s == "" {
      SplitAppend("", t, sep);
      assert t + s == "" + t == t;
    } else {
      var front := s[..|s| - 1];
      SplitPrepend(t, front, sep);
      assert (t + s)[..|t + s| - 1] == t + front;
      PrependMoves(t, Split(front, sep), s[|s| - 1]);
    }
  }

  // ---- The broker list ----

  function Trimmed(parts: seq<string>): seq<string> {
    if parts == [] then []
    else
      var b := Trim(parts[|parts| - 1]);
      Trimmed(parts[..|parts| - 1]) + if b == "" then [] else [b]
  }

  /** The endpoints a broker string names, in order. */
  function BrokerList(brokers: string): seq<string> { Trimmed(Split(brokers, ',')) }

  method ParseBrokerList(brokers: string) returns (list: seq<string>)
    ensures list == BrokerList(brokers)
  {
    var raw := Split(brokers, ',');
    list := [];
    for i := 0 to |raw|
      invariant list == Trimmed(raw[..i])
    {
      var broker := Trim(raw[i]);
      assert raw[..i + 1][..i] == raw[..i];
      if broker == "" {
        continue;
      }
      list := list + [broker];
    }
    assert raw[..|raw|] == raw;
  }

  function Head(list: seq<string>): string { if list == [] then "" else list[0] }

  /** The first endpoint named, found without building the list. */
  method PrimaryBrokerEndpoint(brokers: string) returns (endpoint: string)
    ensures endpoint == Head(BrokerList(brokers))
    ensures if BrokerList(brokers) == [] then endpoint == "" else endpoint == BrokerList(brokers)[0]
  {
    var raw := Split(brokers, ',');
    for i := 0 to |raw|
      invariant Trimmed(raw[..i]) == []
    {
      var broker := Trim(raw[i]);
      assert raw[..i + 1][..i] == raw[..i];
      if broker != "" {
        TrimmedPrefix(raw, i + 1);
        return broker;
      }
    }
    assert raw[..|raw|] == raw;
    return "";
  }

  lemma {:induction false} TrimmedPrefix(parts: seq<string>, i: nat)
    requires i <= |parts|
    ensures Trimmed(parts[..i]) <= Trimmed(parts)
    decreases |parts|
  {
    if i == |parts| {
      assert parts[..i] == parts;
    } else {
      assert parts[..|parts| - 1][..i] == parts[..i];
      TrimmedPrefix(parts[..|parts| - 1], i);
    }
  }

  /** An endpoint is trimmed, not empty, and free of commas. */
  predicate Endpoint(b: string) { b != "" && Trim(b) == b && ',' !in b }

  lemma {:induction false} TrimmedAreEndpoints(parts: seq<string>)
    requires Free(parts, ',')
    ensures forall b :: b in Trimmed(parts) ==> Endpoint(b)
  {
    if parts != [] {
      var p := parts[|parts| - 1];
      assert p in parts;
      TrimmedAreEndpoints(parts[..|parts| - 1]);
      TrimIdempotent(p);
      var left, right := TrimSplits(p);
      assert forall c :: c in Trim(p) ==> c in p;
    }
  }

  lemma TrimmedSnoc(parts: seq<string>, b: string)
    requires Endpoint(b)
    ensures Trimmed(parts + [b]) == Trimmed(parts) + [b]
  {
    assert (parts + [b])[..|parts|] == parts;
  }

  /** Endpoints are kept as they are. */
  lemma {:induction false} TrimmedUpTo(list: seq<string>, n: nat)
    requires n <= |list| && forall i :: 0 <= i < |list| ==> Endpoint(list[i])
    ensures Trimmed(list[..n]) == list[..n]
  {
    if n > 0 {
      TrimmedUpTo(list, n - 1);
      TrimmedSnoc(list[..n - 1], list[n - 1]);
      assert list[..n] == list[..n - 1] + [list[n - 1]];
    }
  }

  lemma TrimmedOfEndpoints(list: seq<string>)
    requires forall i :: 0 <= i < |list| ==> Endpoint(list[i])
    ensures Trimmed(list) == list
  {
    TrimmedUpTo(list, |list|);
    assert list[..|list|] == list;
  }

  /** Every parsed broker is an endpoint. */
  lemma BrokersAreEndpoints(brokers: string)
    ensures forall b :: b in BrokerList(brokers) ==> Endpoint(b)
  {
    SplitFree(brokers, ',');
    TrimmedAreEndpoints(Split(brokers, ','));
  }

  /** Writing any list of endpoints with commas and parsing it gives the list back. */
  lemma EndpointsRoundTrip(list: seq<string>)
    requires forall b :: b in list ==> Endpoint(b)
    ensures BrokerList(Join(list, ',')) == list
  {
    if list == [] {
      assert Split("", ',') == [""];
      assert Trimmed([""]) == Trimmed([""][..0]);
    } else {
      JoinSplit(list, ',');
      TrimmedOfEndpoints(list);
    }
  }

  /**
   Resolving the primary endpoint again, as building message metadata does after the consumer was bound, changes
   nothing; nor does writing the whole parsed list back and parsing it again.
   */
  lemma PrimaryIsIdempotent(brokers: string)
    ensures Head(BrokerList(Head(BrokerList(brokers)))) == Head(BrokerList(brokers))
    ensures BrokerList(Join(BrokerList(brokers), ',')) == BrokerList(brokers)
  {
    var list := BrokerList(brokers);
    BrokersAreEndpoints(brokers);
    EndpointsRoundTrip(list);
    EndpointsRoundTrip(if list == [] then [] else [list[0]]);
  }

  lemma SpaceInFront(left: string, s: string)
    requires AllSpace(left)
    ensures BrokerList(left + s) == BrokerList(s)
  {
    SplitPrepend(left, s, ',');
    TrimmedSame(Split(s, ','), Split(left + s, ','), left, "");
  }

  lemma SpaceBehind(s: string, right: string)
    requires AllSpace(right)
    ensures BrokerList(s + right) == BrokerList(s)
  {
    SplitAppend(s, right, ',');
    TrimmedSame(Split(s, ','), Split(s + right, ','), "", right);
  }

  /** White space around the whole string does not matter, so trimming it first, as the producer does, is harmless. */
  lemma TrimmedFirst(brokers: string)
    ensures BrokerList(Trim(brokers)) == BrokerList(brokers)
  {
    var left, right := TrimSplits(brokers);
    SpaceInFront(left, Trim(brokers));
    SpaceBehind(left + Trim(brokers), right);
  }

  /** Lists whose parts trim to the same give the same endpoints. */
  lemma {:induction false} TrimmedSame(a: seq<string>, b: seq<string>, left: string, right: string)
    requires |a| == |b| && AllSpace(left) && AllSpace(right)
    requires forall i :: 0 <= i < |a| ==> b[i] == a[i] || b[i] == left + a[i] + right
    ensures Trimmed(a) == Trimmed(b)
  {
    if a != [] {
      TrimmedSame(a[..|a| - 1], b[..|b| - 1], left, right);
      TrimAround(left, a[|a| - 1], right);
    }
  }

  // ---- Part by part ----

  lemma SplitSnoc(s: string, c: char, sep: char)
    ensures Split(s + [c], sep) == if c == sep then Split(s, sep) + [""] else Grow(Split(s, sep), [c])
  {
    assert (s + [c])[..|s|] == s;
  }

  lemma {:induction false} SplitJoined(s: string, t: string, sep: char)
    ensures Split(s + [sep] + t, sep) == Split(s, sep) + Split(t, sep)
    decreases |t|
  {
    if t == "" {
      assert s + [sep] + t == s + [sep];
      SplitSnoc(s, sep, sep);
    } else {
      var front, c := t[..|t| - 1], t[|t| - 1];
      assert s + [sep] + t == s + [sep] + front + [c] && t == front + [c];
      SplitJoined(s, front, sep);
      SplitSnoc(s + [sep] + front, c, sep);
      SplitSnoc(front, c, sep);
      GrowBehind(Split(s, sep), Split(front, sep), [c]);
    }
  }

  lemma GrowBehind(a: seq<string>, b: seq<string>, t: string)
    requires b != []
    ensures Grow(a + b, t) == a + Grow(b, t)
  {
  }

  lemma {:induction false} TrimmedJoined(a: seq<string>, b: seq<string>)
    ensures Trimmed(a + b) == Trimmed(a) + Trimmed(b)
  {
    if b == [] {
      assert a + b == a;
    } else {
      assert (a + b)[..|a + b| - 1] == a + b[..|b| - 1];
      TrimmedJoined(a, b[..|b| - 1]);
    }
  }

  /** The list is read part by part: what is on either side of a comma does not depend on the other side. */
  lemma BrokersOfJoined(s: string, t: string)
    ensures BrokerList(s + "," + t) == BrokerList(s) + BrokerList(t)
  {
    SplitJoined(s, t, ',');
    TrimmedJoined(Split(s, ','), Split(t, ','));
  }

  /** And a part, whatever white space is around it, gives its text, or nothing if there is none. */
  lemma BrokerOfPart(left: string, e: string, right: string)
    requires AllSpace(left) && AllSpace(right) && IsTrimmed(e) && ',' !in e
    ensures BrokerList(left + e + right) == if e == "" then [] else [e]
  {
    TrimAround(left, e, right);
    var l, r := TrimSplits(e);
    TrimmedFirst(left + e + right);
    TrimmedFirst(e);
    EndpointsRoundTrip(if e == "" then [] else [e]);
  }

  // ---- Opening a producer ----

  datatype ProducerError = NoBrokers | EmptyTopic

  /** The checks before a producer connects: what it will connect to, and the topic, or which of the two is missing. */
  method CheckProducer(brokers: string, topic: string) returns (r: Result<(seq<string>, string), ProducerError>)
    ensures r.Success? <==> BrokerList(brokers) != [] && Trim(topic) != ""
    ensures r.Success? ==> r.value == (BrokerList(brokers), Trim(topic))
    ensures r.Failure? ==> (r.error.EmptyTopic? <==> Trim(brokers) != "" && Trim(topic) == "")
  {
    TrimmedFirst(brokers);
    var trimmed := Trim(brokers);
    if trimmed == "" {
      assert Split("", ',') == [""];
      assert Trimmed([""]) == Trimmed([""][..0]);
      return Failure(NoBrokers);
    }
    if Trim(topic) == "" {
      return Failure(EmptyTopic);
    }
    var list := ParseBrokerList(trimmed);
    if |list| == 0 {
      return Failure(NoBrokers);
    }
    return Success((list, Trim(topic)));
  }
}
