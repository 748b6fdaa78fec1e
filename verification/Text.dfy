/**
 The string operations of Go's standard library that the modelled code relies on: strings.TrimSpace, strings.Split
 on one separator, and the ordering used by slices.Sort on strings. A string is a sequence of Unicode characters, so
 the byte order of its UTF-8 form is its character order.
 */
module Text {

  /** unicode.IsSpace: the characters with the White_Space property. */
  predicate IsSpace(c: char) {
    || '\t' <= c <= '\r' || c == ' '
    || c == '\U{85}' || c == '\U{A0}' || c == '\U{1680}'
    || '\U{2000}' <= c <= '\U{200A}'
    || c == '\U{2028}' || c == '\U{2029}' || c == '\U{202F}' || c == '\U{205F}' || c == '\U{3000}'
  }

  /** The table of section White_Space in PropList.txt of the Unicode Character Database. */
  const WHITE_SPACE: set<int> := {
    0x09, 0x0A, 0x0B, 0x0C, 0x0D, 0x20, 0x85, 0xA0, 0x1680, 0x2000, 0x2001, 0x2002, 0x2003, 0x2004, 0x2005, 0x2006,
    0x2007, 0x2008, 0x2009, 0x200A, 0x2028, 0x2029, 0x202F, 0x205F, 0x3000}

  lemma SpaceIsWhiteSpace(c: char)
    ensures IsSpace(c) <==> c as int in WHITE_SPACE
  {
  }

  /** No white space at either end. */
  predicate IsTrimmed(s: string) {
    s == [] || (!IsSpace(s[0]) && !IsSpace(s[|s| - 1]))
  }

  function TrimLeft(s: string): string {
    if s == [] || !IsSpace(s[0]) then s else TrimLeft(s[1..])
  }

  function TrimRight(s: string): string {
    if s == [] || !IsSpace(s[|s| - 1]) then s else TrimRight(s[..|s| - 1])
  }

  /** strings.TrimSpace */
  function Trim(s: string): string {
    TrimRight(TrimLeft(s))
  }

  ghost predicate AllSpace(s: string) {
    forall k :: 0 <= k < |s| ==> IsSpace(s[k])
  }

  /**
   strings.ToLower as far as ASCII letters go; no other character has one of the letters of an ASCII keyword without
   an i or a k as its lower case.
   */
  function ToLower(s: string): (r: string)
    ensures |r| == |s|
  {
    seq(|s|, i requires 0 <= i < |s| => if 'A' <= s[i] <= 'Z' then 'a' + (s[i] - 'A') else s[i])
  }

  lemma {:induction false} TrimLeftSplits(s: string) returns (left: string)
    ensures s == left + TrimLeft(s) && AllSpace(left)
    ensures TrimLeft(s) == [] || !IsSpace(TrimLeft(s)[0])
  {
    left := [];
    if s != [] && IsSpace(s[0]) {
      var rest := TrimLeftSplits(s[1..]);
      left := [s[0]] + rest;
    }
  }

  lemma {:induction false} TrimRightSplits(s: string) returns (right: string)
    ensures s == TrimRight(s) + right && AllSpace(right)
    ensures TrimRight(s) == [] || !IsSpace(TrimRight(s)[|TrimRight(s)| - 1])
  {
    right := [];
    if s != [] && IsSpace(s[|s| - 1]) {
      var rest := TrimRightSplits(s[..|s| - 1]);
      right := rest + [s[|s| - 1]];
    }
  }

  /** Trimming takes white space off both ends and leaves none there. */
  lemma TrimSplits(s: string) returns (left: string, right: string)
    ensures s == left + Trim(s) + right
    ensures AllSpace(left) && AllSpace(right) && IsTrimmed(Trim(s))
    ensures IsTrimmed(s) <==> Trim(s) == s
  {
    left := TrimLeftSplits(s);
    right := TrimRightSplits(TrimLeft(s));
    assert TrimLeft(s) == Trim(s) + right;
  }

  lemma TrimIdempotent(s: string)
    ensures IsTrimmed(Trim(s)) && Trim(Trim(s)) == Trim(s)
  {
    var left, right := TrimSplits(s);
    left, right := TrimSplits(Trim(s));
  }

  lemma {:induction false} TrimLeftSkips(left: string, s: string)
    requires AllSpace(left)
    ensures TrimLeft(left + s) == TrimLeft(s)
  {
    if left == [] {
      assert left + s == s;
    } else {
      assert (left + s)[1..] == left[1..] + s;
      TrimLeftSkips(left[1..], s);
    }
  }

  lemma {:induction false} TrimRightSkips(s: string, right: string)
    requires AllSpace(right)
    ensures TrimRight(s + right) == TrimRight(s)
  {
    if right == [] {
      assert s + right == s;
    } else {
      assert (s + right)[..|s + right| - 1] == s + right[..|right| - 1];
      TrimRightSkips(s, right[..|right| - 1]);
    }
  }

  lemma {:induction false} TrimLeftOfSpace(s: string)
    requires AllSpace(s)
    ensures TrimLeft(s) == []
  {
    if s != [] {
      TrimLeftOfSpace(s[1..]);
    }
  }

  lemma {:induction false} TrimLeftAppend(s: string, right: string)
    requires AllSpace(right)
    ensures TrimLeft(s + right) == if TrimLeft(s) == [] then [] else TrimLeft(s) + right
  {
    if s == [] {
      assert s + right == right;
      TrimLeftOfSpace(right);
    } else if IsSpace(s[0]) {
      assert (s + right)[1..] == s[1..] + right;
      TrimLeftAppend(s[1..], right);
    }
  }

  /** White space around a string does not change what it trims to. */
  lemma TrimAround(left: string, s: string, right: string)
    requires AllSpace(left) && AllSpace(right)
    ensures Trim(left + s + right) == Trim(s)
  {
    assert left + s + right == left + (s + right);
    TrimLeftSkips(left, s + right);
    TrimLeftAppend(s, right);
    if TrimLeft(s) != [] { TrimRightSkips(TrimLeft(s), right); }
  }

  /** Strict order of strings: bytewise in Go, which is character order on UTF-8. */
  predicate Less(a: string, b: string) {
    b != [] && (a == [] || a[0] < b[0] || (a[0] == b[0] && Less(a[1..], b[1..])))
  }

  /** The strings agree up to position k, where the first has ended or has the smaller character. */
  ghost predicate LessAt(a: string, b: string, k: nat) {
    && k <= |a| && k < |b| && (forall i :: 0 <= i < k ==> a[i] == b[i])
    && (k == |a| || a[k] < b[k])
  }

  lemma LessAtShift(a: string, b: string, k: nat)
    requires a != [] && b != [] && a[0] == b[0]
    ensures LessAt(a, b, k + 1) <==> LessAt(a[1..], b[1..], k)
  {
    if LessAt(a, b, k + 1) {
      forall i | 0 <= i < k ensures a[1..][i] == b[1..][i] { assert a[i + 1] == b[i + 1]; }
    }
    if LessAt(a[1..], b[1..], k) {
      forall i | 0 < i < k + 1 ensures a[i] == b[i] { assert a[1..][i - 1] == b[1..][i - 1]; }
    }
  }

  /** Strings are ordered by their first difference, and a proper prefix comes first. */
  lemma {:induction false} LessIffFirstDifference(a: string, b: string)
    ensures Less(a, b) <==> exists k: nat :: LessAt(a, b, k)
  {
    if a == [] || b == [] || a[0] != b[0] {
      if Less(a, b) { assert LessAt(a, b, 0); }
    } else {
      LessIffFirstDifference(a[1..], b[1..]);
      if k: nat :| LessAt(a[1..], b[1..], k) {
        LessAtShift(a, b, k);
      }
      if k: nat :| LessAt(a, b, k) {
        assert k > 0;
        LessAtShift(a, b, k - 1);
      }
    }
  }

  lemma {:induction false} LessTrichotomy(a: string, b: string)
    ensures Less(a, b) || a == b || Less(b, a)
    ensures !(Less(a, b) && Less(b, a))
    ensures Less(a, b) ==> a != b
  {
    if a != [] && b != [] && a[0] == b[0] {
      LessTrichotomy(a[1..], b[1..]);
      assert a == [a[0]] + a[1..] && b == [b[0]] + b[1..];
    }
  }

  lemma {:induction false} LessTransitive(a: string, b: string, c: string)
    requires Less(a, b) && Less(b, c)
    ensures Less(a, c)
  {
    if a != [] && a[0] == b[0] == c[0] {
      LessTransitive(a[1..], b[1..], c[1..]);
    }
  }

  ghost predicate StrictlySorted(names: seq<string>) {
    forall i, j :: 0 <= i < j < |names| ==> Less(names[i], names[j])
  }

  function InsertName(names: seq<string>, x: string): (r: seq<string>)
    ensures multiset(r) == multiset(names) + multiset{x}
  {
    if names == [] || Less(x, names[0]) then
      assert [x] + names == [x] + names;
      [x] + names
    else
      assert names == [names[0]] + names[1..];
      [names[0]] + InsertName(names[1..], x)
  }

  /** slices.Sort on strings. */
  function SortNames(names: seq<string>): (r: seq<string>)
    ensures multiset(r) == multiset(names)
  {
    if names == [] then []
    else
      assert names == [names[0]] + names[1..];
      InsertName(SortNames(names[1..]), names[0])
  }

  lemma {:induction false} InsertNameSorts(names: seq<string>, x: string)
    requires StrictlySorted(names) && x !in names
    ensures StrictlySorted(InsertName(names, x))
  {
    var r := InsertName(names, x);
    if names == [] {
    } else if Less(x, names[0]) {
      forall j | 0 < j < |r| ensures Less(x, r[j]) {
        if j > 1 { LessTransitive(x, names[0], names[j - 1]); }
      }
    } else {
      LessTrichotomy(x, names[0]);
      InsertNameSorts(names[1..], x);
      var tail := InsertName(names[1..], x);
      forall j | 0 <= j < |tail| ensures Less(names[0], tail[j]) {
        assert tail[j] in multiset(tail);
        assert tail[j] == x || tail[j] in names[1..];
      }
    }
  }

  /** Distinct names come out in strictly increasing order. */
  lemma {:induction false} SortNamesSorts(names: seq<string>)
    requires forall i, j :: 0 <= i < j < |names| ==> names[i] != names[j]
    ensures StrictlySorted(SortNames(names))
  {
    if names != [] {
      SortNamesSorts(names[1..]);
      assert names[0] !in names[1..];
      assert multiset(SortNames(names[1..])) == multiset(names[1..]);
      assert names[0] !in multiset(SortNames(names[1..]));
      InsertNameSorts(SortNames(names[1..]), names[0]);
    }
  }

  lemma SortNamesElements(names: seq<string>, x: string)
    ensures x in SortNames(names) <==> x in names
  {
    assert x in multiset(SortNames(names)) <==> x in multiset(names);
  }

  /** Two strictly increasing sequences with the same elements are equal. */
  lemma {:induction false} SortedUnique(a: seq<string>, b: seq<string>)
    requires StrictlySorted(a) && StrictlySorted(b)
    requires forall x :: x in a <==> x in b
    ensures a == b
  {
    assert a != [] ==> a[0] in a;
    assert b != [] ==> b[0] in b;
    if a != [] {
      var i :| 0 <= i < |b| && b[i] == a[0];
      var j :| 0 <= j < |a| && a[j] == b[0];
      LessTrichotomy(a[0], b[0]);
      assert a[0] == b[0];
      forall x ensures x in a[1..] <==> x in b[1..] {
        LessTrichotomy(a[0], x);
        if x in a[1..] { assert x in a; assert x in b; assert Less(a[0], x); }
        if x in b[1..] { assert x in b; assert x in a; assert Less(b[0], x); }
      }
      SortedUnique(a[1..], b[1..]);
      assert a == [a[0]] + a[1..] && b == [b[0]] + b[1..];
    }
  }
}
