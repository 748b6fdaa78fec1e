/** Cutting log text to a number of characters: truncateUTF8 of log/required_fields_core.go. */
module LogText {
  import opened Utf8

  /** The bytes of the first n runes. */
  function Truncated(s: seq<byte>, n: int): (t: seq<byte>)
    ensures |t| <= |s|
    decreases |s|
  {
    if n <= 0 || s == [] then [] else s[..Width(s)] + Truncated(s[Width(s)..], n - 1)
  }

  /** The position n runes after position i, or the end. */
  function EndOf(s: seq<byte>, i: nat, n: nat): (e: nat)
    requires i <= |s|
    ensures i <= e <= |s|
    decreases n
  {
    if n == 0 || i == |s| then i else EndOf(s, i + Width(s[i..]), n - 1)
  }

  /** cut is the text of the first n runes of whole, no more and no less, ending where a rune ends. */
  ghost predicate IsCut(whole: seq<byte>, cut: seq<byte>, n: int) {
    && cut <= whole && Boundary(whole, |cut|) && Runes(cut) <= Runes(whole)
    && (if n <= 0 then cut == [] else if |Runes(whole)| <= n then cut == whole else |Runes(cut)| == n)
  }

  method TruncateUTF8(s: seq<byte>, maxChars: int) returns (r: seq<byte>)
    ensures r == Truncated(s, maxChars) && IsCut(s, r, maxChars)
  {
    TruncatedIsCut(s, maxChars);
    if maxChars <= 0 || s == [] {
      return [];
    }
    if |Runes(s)| <= maxChars {
      ShortTextKept(s, maxChars);
      return s;
    }
    var count, idx := 0, 0;
    while idx < |s|
      invariant 0 <= count <= maxChars && idx <= |s|
      invariant idx == EndOf(s, 0, count)
      decreases |s| - idx
    {
      if count == maxChars {
        CutAtEnd(s, count);
        return s[..idx];
      }
      OneMoreRune(s, 0, count);
      count, idx := count + 1, idx + Width(s[idx..]);
    }
    CutAtEnd(s, count);
    assert s[..idx] == s;
    WholeStaysWhole(s, count, maxChars);
    return s;
  }

  lemma {:induction false} ShortTextKept(s: seq<byte>, n: int)
    requires |Runes(s)| <= n
    ensures Truncated(s, n) == s
    decreases |s|
  {
    if s != [] {
      ShortTextKept(s[Width(s)..], n - 1);
    }
  }

  /** Cutting after position i, seen from position w before it. */
  lemma CutBehind(s: seq<byte>, w: nat, i: nat)
    requires w <= i <= |s|
    ensures s[..i] == s[..w] + s[w..][..i - w]
    ensures s[..i][w..] == s[w..][..i - w] && s[w..][i - w..] == s[i..]
  {
  }

  lemma {:induction false} OneMoreRune(s: seq<byte>, i: nat, count: nat)
    requires i <= |s| && EndOf(s, i, count) < |s|
    ensures EndOf(s, i, count + 1) == EndOf(s, i, count) + Width(s[EndOf(s, i, count)..])
    decreases count
  {
    if count > 0 {
      OneMoreRune(s, i + Width(s[i..]), count - 1);
    }
  }

  lemma Slices(s: seq<byte>, i: nat, j: nat, k: nat)
    requires i <= j <= k <= |s|
    ensures s[i..][..j - i] == s[i..j] && s[i..][j - i..] == s[j..] && s[i..j] + s[j..k] == s[i..k]
  {
  }

  /** The bytes of the first n runes end n runes on. */
  lemma {:induction false} TruncatedEnds(s: seq<byte>, i: nat, n: nat)
    requires i <= |s|
    ensures Truncated(s[i..], n) == s[i..EndOf(s, i, n)]
    decreases n
  {
    if n > 0 && i < |s| {
      var j := i + Width(s[i..]);
      TruncatedEnds(s, j, n - 1);
      Slices(s, i, j, EndOf(s, j, n - 1));
    }
  }

  lemma CutAtEnd(s: seq<byte>, n: nat)
    ensures Truncated(s, n) == s[..EndOf(s, 0, n)]
  {
    TruncatedEnds(s, 0, n);
    assert s[0..] == s;
  }

  lemma {:induction false} WholeStaysWhole(s: seq<byte>, count: int, n: int)
    requires Truncated(s, count) == s && count <= n
    ensures Truncated(s, n) == s
    decreases |s|
  {
    if s != [] {
      var rest := s[Width(s)..];
      assert s == s[..Width(s)] + rest;
      WholeStaysWhole(rest, count - 1, n - 1);
    }
  }

  function Min(a: int, b: int): int { if a < b then a else b }

  /** The runes a limit of n keeps of m. */
  function Kept(n: int, m: nat): nat { if n <= 0 then 0 else Min(n, m) }

  lemma RunesOfPrefix(s: seq<byte>, i: nat)
    requires s != [] && Width(s) <= i <= |s|
    ensures Runes(s[..i]) == [Rune(s)] + Runes(s[..i][Width(s)..])
  {
    PrefixKeepsFirst(s, i);
  }

  lemma TruncatedIsPrefix(s: seq<byte>, n: int)
    ensures Truncated(s, n) == s[..|Truncated(s, n)|]
  {
    if n > 0 {
      CutAtEnd(s, n);
    }
  }

  lemma {:induction false} TruncatedAtBoundary(s: seq<byte>, n: int)
    ensures Boundary(s, |Truncated(s, n)|)
    decreases |s|
  {
    if n > 0 && s != [] {
      TruncatedAtBoundary(s[Width(s)..], n - 1);
    }
  }

  lemma TruncatedUnfolds(s: seq<byte>, n: int)
    requires n > 0 && s != []
    ensures Runes(Truncated(s, n)) == [Rune(s)] + Runes(Truncated(s[Width(s)..], n - 1))
  {
    var t, w := Truncated(s, n), Width(s);
    TruncatedIsPrefix(s, n);
    RunesOfPrefix(s, |t|);
    assert t[w..] == Truncated(s[w..], n - 1);
  }

  lemma {:induction false} TruncatedRunes(s: seq<byte>, n: int)
    ensures Runes(Truncated(s, n)) == Runes(s)[..Kept(n, |Runes(s)|)]
    decreases |s|
  {
    if n > 0 && s != [] {
      TruncatedUnfolds(s, n);
      TruncatedRunes(s[Width(s)..], n - 1);
      KeepOneMore(Rune(s), Runes(s[Width(s)..]), n);
    }
  }

  lemma KeepOneMore(r: int, rest: seq<int>, n: int)
    requires n > 0
    ensures ([r] + rest)[..Kept(n, |rest| + 1)] == [r] + rest[..Kept(n - 1, |rest|)]
  {
  }

  /**
   For every byte string, well-formed or not, the cut is a prefix that ends where a rune ends, and its runes are exactly
   the first n of the input.
   */
  lemma TruncatedIsRunePrefix(s: seq<byte>, n: int)
    ensures Truncated(s, n) <= s && Boundary(s, |Truncated(s, n)|)
    ensures Runes(Truncated(s, n)) == Runes(s)[..Kept(n, |Runes(s)|)]
  {
    TruncatedIsPrefix(s, n);
    TruncatedAtBoundary(s, n);
    TruncatedRunes(s, n);
  }

  lemma TruncatedIsCut(s: seq<byte>, n: int)
    ensures IsCut(s, Truncated(s, n), n)
  {
    TruncatedIsRunePrefix(s, n);
    if n > 0 && |Runes(s)| <= n { ShortTextKept(s, n); }
  }

  /** A byte that begins no character counts as one by itself, and the cut goes on right behind it. */
  lemma MalformedByteAlone(s: seq<byte>, n: int)
    requires s != [] && !BeginsCharacter(s) && n > 0
    ensures Truncated(s, n) == s[..1] + Truncated(s[1..], n - 1) && Truncated(s, 1) == s[..1]
  {
    FirstRune(s);
  }

  lemma RunePrefixTail(s: seq<byte>, i: nat, n: int)
    requires 0 < i <= |s| && Boundary(s, i) && |Runes(s[..i])| == Kept(n, |Runes(s)|)
    ensures n > 0 && Width(s) <= i && Boundary(s[Width(s)..], i - Width(s))
    ensures |Runes(s[Width(s)..][..i - Width(s)])| == Kept(n - 1, |Runes(s[Width(s)..])|)
  {
    RunesOfPrefix(s, i);
    CutBehind(s, Width(s), i);
  }

  /** It is the only such prefix. */
  lemma {:induction false} RunePrefixIsTruncated(s: seq<byte>, i: nat, n: int)
    requires i <= |s| && Boundary(s, i) && |Runes(s[..i])| == Kept(n, |Runes(s)|)
    ensures s[..i] == Truncated(s, n)
    decreases |s|
  {
    if i == 0 {
      assert s != [] ==> |Runes(s)| > 0;
    } else {
      var w, rest := Width(s), s[Width(s)..];
      RunePrefixTail(s, i, n);
      CutBehind(s, w, i);
      RunePrefixIsTruncated(rest, i - w, n - 1);
      TruncatedHead(s, n, s[..w], rest);
    }
  }

  /** Cutting again changes nothing. */
  lemma TruncatedIdempotent(s: seq<byte>, n: int)
    ensures Truncated(Truncated(s, n), n) == Truncated(s, n)
  {
    TruncatedIsRunePrefix(s, n);
    ShortOrEmpty(Truncated(s, n), n);
  }

  lemma ShortOrEmpty(t: seq<byte>, n: int)
    requires |Runes(t)| <= Kept(n, |Runes(t)|)
    ensures Truncated(t, n) == t
  {
    if n > 0 {
      ShortTextKept(t, n);
    }
  }

  lemma EncodePrefix(rs: seq<int>, k: nat)
    requires 0 < k <= |rs| && forall r :: r in rs ==> Scalar(r)
    ensures EncodeAll(rs[..k]) == Encode(rs[0]) + EncodeAll(rs[1..][..k - 1])
  {
    assert rs[..k][1..] == rs[1..][..k - 1];
  }

  lemma TruncatedHead(s: seq<byte>, n: int, head: seq<byte>, tail: seq<byte>)
    requires n > 0 && s != [] && s[..Width(s)] == head && s[Width(s)..] == tail
    ensures Truncated(s, n) == head + Truncated(tail, n - 1)
  {
  }

  lemma TruncatedEncodedHead(rs: seq<int>, n: int)
    requires n > 0 && rs != [] && forall r :: r in rs ==> Scalar(r)
    ensures Truncated(EncodeAll(rs), n) == Encode(rs[0]) + Truncated(EncodeAll(rs[1..]), n - 1)
  {
    EncodedHead(rs);
    TruncatedHead(EncodeAll(rs), n, Encode(rs[0]), EncodeAll(rs[1..]));
  }

  /** On encoded text the cut is the encoding of the first n characters. */
  lemma {:induction false} TruncatedOfEncoded(rs: seq<int>, n: int)
    requires forall r :: r in rs ==> Scalar(r)
    ensures Truncated(EncodeAll(rs), n) == EncodeAll(rs[..Kept(n, |rs|)])
    decreases |rs|
  {
    var k := Kept(n, |rs|);
    if k == 0 {
      assert rs[..k] == [];
    } else {
      TruncatedEncodedHead(rs, n);
      TruncatedOfEncoded(rs[1..], n - 1);
      assert Kept(n - 1, |rs[1..]|) == k - 1;
      EncodePrefix(rs, k);
    }
  }
}
