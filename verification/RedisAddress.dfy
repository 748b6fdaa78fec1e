/** The address the bootstrap formats (service/setup.go) and the endpoint the redis hook reads back (redis/hook.go). */
module RedisAddress {
  import opened Text
  import opened Wrappers
  import opened HostPort

  function ParseRedisPort(raw: string): (port: nat) {
    match Atoi(Trim(raw))
    case None => 0
    case Some(n) => if n < 0 then 0 else n
  }

  /** host:port as Go's net package splits it, or else whatever is before and after the last colon. */
  function ReadEndpoint(raw: string): (string, nat) {
    match SplitHostPort(raw)
    case Success((host, port)) => (Trim(host), ParseRedisPort(port))
    case Failure(_) =>
      var lastColon := Last(raw, ':');
      if 0 < lastColon < |raw| - 1 then (Trim(raw[..lastColon]), ParseRedisPort(raw[lastColon + 1..])) else (raw, 0)
  }

  function ParseRedisAddr(addr: string): (string, nat) {
    var raw := Trim(addr);
    if raw == "" then ("", 0) else ReadEndpoint(raw)
  }

  predicate Usable(endpoint: (string, nat)) { endpoint.0 != "" || endpoint.1 > 0 }

  predicate Gives(addr: string) { Usable(ParseRedisAddr(addr)) }

  function FirstUsable(addrs: seq<string>): (string, nat) {
    if addrs == [] then ("", 0)
    else if Gives(addrs[0]) then ParseRedisAddr(addrs[0])
    else FirstUsable(addrs[1..])
  }

  method ParseRedisAddrs(addrs: seq<string>) returns (endpoint: (string, nat))
    ensures endpoint == FirstUsable(addrs)
  {
    for i := 0 to |addrs|
      invariant FirstUsable(addrs) == FirstUsable(addrs[i..])
    {
      var parsed := ParseRedisAddr(addrs[i]);
      assert addrs[i..][0] == addrs[i] && addrs[i..][1..] == addrs[i + 1..];
      if parsed.0 != "" || parsed.1 > 0 {
        return parsed;
      }
    }
    return ("", 0);
  }

  /** The endpoint comes from the first address that gives a host or a port, and is empty only if none does. */
  lemma {:induction false} FirstUsableIsFirst(addrs: seq<string>, i: nat)
    requires i <= |addrs| && (forall j :: 0 <= j < i ==> ParseRedisAddr(addrs[j]) == ("", 0))
    requires i < |addrs| ==> ParseRedisAddr(addrs[i]) != ("", 0)
    ensures FirstUsable(addrs) == if i < |addrs| then ParseRedisAddr(addrs[i]) else ("", 0)
  {
    if i > 0 {
      FirstUsableIsFirst(addrs[1..], i - 1);
    }
  }

  /** A port is a decimal numeral with any white space around it; anything else, and a negative number, is zero. */
  lemma PortIs(raw: string)
    ensures forall n :: Spells(Trim(raw), n) && 0 <= n <= 9223372036854775807 ==> ParseRedisPort(raw) == n
    ensures (forall n :: Spells(Trim(raw), n) ==> n < 0 || n > 9223372036854775807) ==> ParseRedisPort(raw) == 0
  {
    forall n ensures Atoi(Trim(raw)) == Some(n) <==>
                       Spells(Trim(raw), n) && -9223372036854775808 <= n <= 9223372036854775807
    {
      AtoiIff(Trim(raw), n);
    }
  }

  /** What the bootstrap makes of a configured host and port. */
  function Format(host: string, port: int): string { host + ":" + Decimal(port) }

  // ---- The round trip ----

  /** One pair of brackets around text without brackets. */
  predicate Bracketed(h: string) {
    |h| >= 2 && h[0] == '[' && h[|h| - 1] == ']' && '[' !in h[1..] && ']' !in h[..|h| - 1]
  }

  /** Text that can stand behind the last colon of an address. */
  predicate PortText(d: string) {
    d != "" && ':' !in d && '[' !in d && ']' !in d && !IsSpace(d[0]) && !IsSpace(d[|d| - 1])
  }

  lemma DecimalIsPortText(p: int)
    ensures PortText(Decimal(p)) && Trim(Decimal(p)) == Decimal(p)
  {
    var d := Decimal(p);
    forall c | c in d ensures c == '-' || IsDigit(c) { DecimalCharacters(p, c); }
    assert d[0] in d && d[|d| - 1] in d;
    var left, right := TrimSplits(d);
  }

  lemma PortRoundTrip(p: int)
    requires IsInt64(p)
    ensures ParseRedisPort(Decimal(p)) == if p < 0 then 0 else p
  {
    AtoiOfDecimal(p);
    DecimalIsPortText(p);
  }

  /** Slices of h, a colon and d. */
  lemma Around(h: string, d: string, k: nat)
    requires k <= |h|
    ensures var s := h + ":" + d; s[..|h|] == h && s[|h| + 1..] == d && s[..k] == h[..k] && s[k..] == h[k..] + ":" + d
  {
  }

  lemma LastColon(h: string, d: string)
    requires ':' !in d
    ensures Last(h + ":" + d, ':') == |h|
  {
    Around(h, d, 0);
    LastUnique(h + ":" + d, ':', |h|);
  }

  predicate NoBracket(s: string) { '[' !in s && ']' !in s }

  /** What net.SplitHostPort takes for a host: one pair of brackets, or text without colons and brackets. */
  predicate HostText(h: string) { Bracketed(h) || (NoBracket(h) && ':' !in h) }

  /** Splitting at the last colon works exactly for a host of that kind and a port without brackets. */
  lemma SplitJoined(h: string, d: string)
    requires ':' !in d
    ensures var r := SplitHostPort(h + ":" + d);
            if HostText(h) && NoBracket(d) then r == Success((if Bracketed(h) then h[1..|h| - 1] else h, d))
            else r.Failure?
  {
    LastColon(h, d);
    Around(h, d, 0);
    if Bracketed(h) {
      BracketedSplit(h, d);
    } else if h != "" && h[0] == '[' {
      UnbracketedSplit(h, d);
    }
  }

  lemma BracketedSplit(h: string, d: string)
    requires Bracketed(h)
    ensures var r := SplitBracketed(h + ":" + d, |h|);
            if NoBracket(d) then r == Success((h[1..|h| - 1], d)) else r.Failure?
  {
    var s, n := h + ":" + d, |h| - 1;
    assert First(s, ']') == n && s[1..n] == h[1..n] by {
      Around(h, d, n);
      FirstUnique(s, ']', n);
    }
    assert '[' in s[1..] <==> '[' in d by { Around(h, d, 1); }
    assert (']' in s[n + 1..] <==> ']' in d) && s[|h| + 1..] == d by {
      Around(h, d, |h|);
      assert h[|h|..] == "";
    }
  }

  lemma UnbracketedSplit(h: string, d: string)
    requires h != "" && h[0] == '[' && !Bracketed(h)
    ensures SplitBracketed(h + ":" + d, |h|).Failure?
  {
    var end := First(h + ":" + d, ']');
    if end + 1 == |h| {
      Around(h, d, end);
      Around(h, d, 1);
      assert '[' in h[1..];
    }
  }

  /**
   Every address there is, by its last colon: without one it is all host. Otherwise the host is the text before it,
   without its brackets if it is one pair around bracket-free text and no bracket follows, and the port what follows;
   but an address that would have an empty host or port, and does not split, is all host again.
   */
  lemma EndpointIs(addr: string, h: string, d: string)
    requires ':' !in d && Trim(addr) == h + ":" + d
    ensures ParseRedisAddr(addr) ==
            if Bracketed(h) && NoBracket(d) then (Trim(h[1..|h| - 1]), ParseRedisPort(d))
            else if (h == "" && !NoBracket(d)) || (d == "" && !HostText(h)) then (Trim(addr), 0)
            else (Trim(h), ParseRedisPort(d))
  {
    SplitJoined(h, d);
    LastColon(h, d);
    Around(h, d, 0);
  }

  lemma EndpointWithoutColon(addr: string)
    requires ':' !in Trim(addr)
    ensures ParseRedisAddr(addr) == (Trim(addr), 0)
  {
  }

  /** The formatted address has the configured host, as it is, before its last colon, and the port in decimal behind. */
  lemma FormatIs(host: string, p: int)
    requires IsInt64(p)
    ensures var s := Format(host, p);
            Last(s, ':') == |host| && s[..|host|] == host && Spells(s[|host| + 1..], p)
  {
    DecimalIsPortText(p);
    LastColon(host, Decimal(p));
    Around(host, Decimal(p), 0);
    AtoiOfDecimal(p);
    AtoiIff(Decimal(p), p);
  }

  lemma JoinedIsTrimmed(h: string, d: string)
    requires PortText(d) && (h == "" || !IsSpace(h[0]))
    ensures Trim(h + ":" + d) == h + ":" + d
  {
    var s := h + ":" + d;
    assert s[|s| - 1] == d[|d| - 1];
    assert s[0] == if h == "" then ':' else h[0];
    TrimmedIsFixed(s);
  }

  /** Trimming the formatted address takes white space off the front of the host, and no more. */
  lemma TrimJoined(host: string, d: string)
    requires PortText(d)
    ensures Trim(host + ":" + d) == TrimLeft(host) + ":" + d
  {
    var left := TrimLeftSplits(host);
    var s := TrimLeft(host) + ":" + d;
    assert host + ":" + d == left + s + [];
    TrimAround(left, s, []);
    JoinedIsTrimmed(TrimLeft(host), d);
  }

  lemma TrimmedIsFixed(s: string)
    requires IsTrimmed(s)
    ensures Trim(s) == s
  {
    var left, right := TrimSplits(s);
  }

  lemma TrimOfTrimLeft(s: string)
    ensures Trim(TrimLeft(s)) == Trim(s)
  {
    var left := TrimLeftSplits(s);
    assert s == left + TrimLeft(s) + [];
    TrimAround(left, TrimLeft(s), []);
  }

  /** What the hook reads back from h:d, by what h is. */
  lemma ParseJoined(host: string, d: string)
    requires PortText(d)
    ensures var h := TrimLeft(host);
            ParseRedisAddr(host + ":" + d) ==
            (if Bracketed(h) then Trim(h[1..|h| - 1]) else Trim(host), ParseRedisPort(d))
  {
    TrimJoined(host, d);
    EndpointIs(host + ":" + d, TrimLeft(host), d);
    TrimOfTrimLeft(host);
  }

  lemma TrimShrinks(s: string)
    ensures |Trim(s)| <= |TrimLeft(s)| <= |s|
    ensures Trim(s) == s ==> TrimLeft(s) == s
  {
    var left := TrimLeftSplits(s);
    var right := TrimRightSplits(TrimLeft(s));
    if Trim(s) == s { assert left == []; }
  }

  /**
   The endpoint read back is the one configured exactly when the host is trimmed and not one pair of brackets around
   bracket-free text, and the port is not negative. Unbracketed IPv6 hosts are among those that come back.
   */
  lemma RoundTripIff(host: string, p: int)
    requires IsInt64(p)
    ensures ParseRedisAddr(Format(host, p)) == (host, p) <==> Trim(host) == host && !Bracketed(host) && p >= 0
    ensures FirstUsable([Format(host, p)]) == ParseRedisAddr(Format(host, p))
  {
    DecimalIsPortText(p);
    PortRoundTrip(p);
    ParseJoined(host, Decimal(p));
    HostComesBackIff(host);
  }

  lemma HostComesBackIff(host: string)
    ensures var h := TrimLeft(host);
            (if Bracketed(h) then Trim(h[1..|h| - 1]) else Trim(host)) == host <==>
              Trim(host) == host && !Bracketed(host)
  {
    var h := TrimLeft(host);
    TrimShrinks(host);
    if Bracketed(h) {
      TrimShrinks(h[1..|h| - 1]);
    }
  }

  /** A bracketed IPv6 host, as configuration files often spell it, comes back without its brackets. */
  lemma BracketedHostLosesBrackets(inner: string, p: nat)
    requires IsInt64(p) && '[' !in inner && ']' !in inner
    ensures ParseRedisAddr(Format("[" + inner + "]", p)) == (Trim(inner), p)
  {
    var h := "[" + inner + "]";
    DecimalIsPortText(p);
    PortRoundTrip(p);
    ParseJoined(h, Decimal(p));
    assert TrimLeft(h) == h && h[1..|h| - 1] == inner;
    assert h[1..] == inner + "]" && h[..|h| - 1] == "[" + inner;
  }
}
