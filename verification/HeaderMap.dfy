/**
 A header list read as a map: keys are compared up to case, the first match counts, and duplicates may be there. This is
 what the carriers of kafka/instrumentation.go do to the headers of a message.
 */
module HeaderMap {

  datatype Header = Header(key: string, value: string)

  /** Case folding sends every character to the representative of its class. */
  type Folding = char -> char

  function Folded(fold: Folding, s: string): (r: string)
    ensures |r| == |s| && forall i :: 0 <= i < |s| ==> r[i] == fold(s[i])
  {
    seq(|s|, i requires 0 <= i < |s| => fold(s[i]))
  }

  /** strings.EqualFold */
  predicate SameKey(fold: Folding, a: string, b: string): (same: bool)
    ensures same <==> |a| == |b| && forall i :: 0 <= i < |a| ==> fold(a[i]) == fold(b[i])
  {
    var c, d := Folded(fold, a), Folded(fold, b);
    assert c == d ==> forall i :: 0 <= i < |a| ==> c[i] == d[i];
    c == d
  }

  function FirstMatch(fold: Folding, hs: seq<Header>, key: string): (i: nat)
    ensures i <= |hs|
    ensures i < |hs| ==> SameKey(fold, hs[i].key, key)
    ensures forall j :: 0 <= j < i ==> !SameKey(fold, hs[j].key, key)
  {
    if hs == [] then 0
    else if SameKey(fold, hs[0].key, key) then 0
    else 1 + FirstMatch(fold, hs[1..], key)
  }

  predicate Has(fold: Folding, hs: seq<Header>, key: string) { FirstMatch(fold, hs, key) < |hs| }

  function ValueFor(fold: Folding, hs: seq<Header>, key: string): string {
    var i := FirstMatch(fold, hs, key);
    if i < |hs| then hs[i].value else ""
  }

  /** The first match takes the value; without one the header is appended. */
  function SetFor(fold: Folding, hs: seq<Header>, key: string, value: string): seq<Header> {
    var i := FirstMatch(fold, hs, key);
    if i < |hs| then hs[i := hs[i].(value := value)] else hs + [Header(key, value)]
  }

  /** A position is the first match exactly when it matches and nothing before it does. */
  lemma FirstMatchUnique(fold: Folding, hs: seq<Header>, key: string, i: nat)
    requires i <= |hs| && (i < |hs| ==> SameKey(fold, hs[i].key, key))
    requires forall j :: 0 <= j < i ==> !SameKey(fold, hs[j].key, key)
    ensures FirstMatch(fold, hs, key) == i
  {
  }

  /** The header at position i has the key, and none before it does. */
  ghost predicate FirstAt(fold: Folding, hs: seq<Header>, key: string, i: nat) {
    && i < |hs| && SameKey(fold, hs[i].key, key)
    && forall j :: 0 <= j < i ==> !SameKey(fold, hs[j].key, key)
  }

  ghost predicate Absent(fold: Folding, hs: seq<Header>, key: string) {
    forall i :: 0 <= i < |hs| ==> !SameKey(fold, hs[i].key, key)
  }

  /** value is what reading the key must give: that of the first header with it, or nothing. */
  ghost predicate Reads(fold: Folding, hs: seq<Header>, key: string, value: string) {
    && (Absent(fold, hs, key) ==> value == "")
    && (forall i: nat :: FirstAt(fold, hs, key, i) ==> value == hs[i].value)
  }

  lemma ValueForReads(fold: Folding, hs: seq<Header>, key: string)
    ensures Reads(fold, hs, key, ValueFor(fold, hs, key))
  {
    forall i: nat | FirstAt(fold, hs, key, i) ensures ValueFor(fold, hs, key) == hs[i].value {
      FirstMatchUnique(fold, hs, key, i);
    }
  }

  /** What setting leaves: a first header with the key gets the value, or else one is added, and the rest stays. */
  ghost predicate IsSet(fold: Folding, hs: seq<Header>, key: string, value: string, now: seq<Header>) {
    && (Absent(fold, hs, key) ==> now == hs + [Header(key, value)])
    && (!Absent(fold, hs, key) ==> |now| == |hs|)
    && forall i: nat :: i < |hs| && i < |now| ==>
         now[i] == if FirstAt(fold, hs, key, i) then Header(hs[i].key, value) else hs[i]
  }

  lemma SetForIsSet(fold: Folding, hs: seq<Header>, key: string, value: string)
    ensures IsSet(fold, hs, key, value, SetFor(fold, hs, key, value))
  {
    forall i: nat | FirstAt(fold, hs, key, i) ensures FirstMatch(fold, hs, key) == i {
      FirstMatchUnique(fold, hs, key, i);
    }
  }

  /** Setting keeps the keys there are, in place, and where each key is first found. */
  lemma SetKeepsMatches(fold: Folding, hs: seq<Header>, key: string, value: string, other: string)
    ensures var t, i := SetFor(fold, hs, key, value), FirstMatch(fold, hs, other);
            FirstMatch(fold, t, other) == if i < |hs| || SameKey(fold, key, other) then i else i + |t| - |hs|
  {
    var t, i := SetFor(fold, hs, key, value), FirstMatch(fold, hs, other);
    forall j | 0 <= j < |hs| ensures t[j].key == hs[j].key {}
    FirstMatchUnique(fold, t, other, if i < |hs| || SameKey(fold, key, other) then i else i + |t| - |hs|);
  }

  /**
   The laws of a map, up to case: a key set is the value read back, under any spelling; every other key keeps its value;
   the list grows, by one, exactly when the key was not there.
   */
  lemma MapLaws(fold: Folding, hs: seq<Header>, key: string, value: string, other: string)
    ensures var t := SetFor(fold, hs, key, value);
            && ValueFor(fold, t, other) == (if SameKey(fold, key, other) then value else ValueFor(fold, hs, other))
            && (Has(fold, t, other) <==> SameKey(fold, key, other) || Has(fold, hs, other))
            && |t| == |hs| + if Has(fold, hs, key) then 0 else 1
  {
    SetKeepsMatches(fold, hs, key, value, other);
    var i, j := FirstMatch(fold, hs, key), FirstMatch(fold, hs, other);
    if SameKey(fold, key, other) {
      FirstMatchUnique(fold, hs, other, i);
    }
  }

  /** Setting the same key twice, in any spelling, keeps the last value and the first spelling. */
  lemma SetTwice(fold: Folding, hs: seq<Header>, key: string, value: string, again: string, last: string)
    requires SameKey(fold, key, again)
    ensures SetFor(fold, SetFor(fold, hs, key, value), again, last) == SetFor(fold, hs, key, last)
  {
    SetKeepsMatches(fold, hs, key, value, again);
    FirstMatchUnique(fold, hs, again, FirstMatch(fold, hs, key));
  }

  // ---- Injection ----

  function SetAll(fold: Folding, hs: seq<Header>, pairs: seq<Header>): seq<Header> {
    if pairs == [] then hs
    else
      var last := pairs[|pairs| - 1];
      SetFor(fold, SetAll(fold, hs, pairs[..|pairs| - 1]), last.key, last.value)
  }

  /** The value of the last pair for a key, or what was there before. */
  function LastFor(fold: Folding, pairs: seq<Header>, key: string, before: string): string {
    if pairs == [] then before
    else
      var last := pairs[|pairs| - 1];
      if SameKey(fold, last.key, key) then last.value else LastFor(fold, pairs[..|pairs| - 1], key, before)
  }

  lemma {:induction false} SetAllReads(fold: Folding, hs: seq<Header>, pairs: seq<Header>, key: string)
    ensures ValueFor(fold, SetAll(fold, hs, pairs), key) == LastFor(fold, pairs, key, ValueFor(fold, hs, key))
  {
    if pairs != [] {
      var front, last := pairs[..|pairs| - 1], pairs[|pairs| - 1];
      SetAllReads(fold, hs, front, key);
      MapLaws(fold, SetAll(fold, hs, front), last.key, last.value, key);
    }
  }

  ghost predicate FoldDistinct(fold: Folding, pairs: seq<Header>) {
    forall i, j :: 0 <= i < j < |pairs| ==> !SameKey(fold, pairs[i].key, pairs[j].key)
  }

  lemma {:induction false} LastOfDistinct(fold: Folding, pairs: seq<Header>, i: nat, key: string, before: string)
    requires FoldDistinct(fold, pairs) && i < |pairs| && SameKey(fold, pairs[i].key, key)
    ensures LastFor(fold, pairs, key, before) == pairs[i].value
  {
    var n := |pairs| - 1;
    if i < n {
      assert !SameKey(fold, pairs[i].key, pairs[n].key);
      assert pairs[..n][i] == pairs[i];
      LastOfDistinct(fold, pairs[..n], i, key, before);
    }
  }

  /**
   Injecting pairs whose keys differ up to case, over whatever headers are there, and reading any of them back, under
   any spelling, gives its value; a key not injected reads as before.
   */
  lemma InjectedIsReadBack(fold: Folding, hs: seq<Header>, pairs: seq<Header>, key: string)
    requires FoldDistinct(fold, pairs)
    ensures forall i :: 0 <= i < |pairs| && SameKey(fold, pairs[i].key, key) ==>
              ValueFor(fold, SetAll(fold, hs, pairs), key) == pairs[i].value
    ensures (forall i :: 0 <= i < |pairs| ==> !SameKey(fold, pairs[i].key, key)) ==>
              ValueFor(fold, SetAll(fold, hs, pairs), key) == ValueFor(fold, hs, key)
  {
    SetAllReads(fold, hs, pairs, key);
    forall i | 0 <= i < |pairs| && SameKey(fold, pairs[i].key, key)
      ensures ValueFor(fold, SetAll(fold, hs, pairs), key) == pairs[i].value
    {
      LastOfDistinct(fold, pairs, i, key, ValueFor(fold, hs, key));
    }
    if forall i :: 0 <= i < |pairs| ==> !SameKey(fold, pairs[i].key, key) {
      LastOfNone(fold, pairs, key, ValueFor(fold, hs, key));
    }
  }

  lemma {:induction false} LastOfNone(fold: Folding, pairs: seq<Header>, key: string, before: string)
    requires forall i :: 0 <= i < |pairs| ==> !SameKey(fold, pairs[i].key, key)
    ensures LastFor(fold, pairs, key, before) == before
  {
    if pairs != [] {
      LastOfNone(fold, pairs[..|pairs| - 1], key, before);
    }
  }

  /** How many of the pairs have a key that is not there yet. */
  function Fresh(fold: Folding, hs: seq<Header>, pairs: seq<Header>): nat {
    if pairs == [] then 0
    else
      Fresh(fold, hs, pairs[..|pairs| - 1]) + if Has(fold, hs, pairs[|pairs| - 1].key) then 0 else 1
  }

  lemma {:induction false} HasAfterAll(fold: Folding, hs: seq<Header>, pairs: seq<Header>, key: string)
    ensures Has(fold, SetAll(fold, hs, pairs), key) <==>
              Has(fold, hs, key) || exists i :: 0 <= i < |pairs| && SameKey(fold, pairs[i].key, key)
  {
    if pairs != [] {
      var front, last := pairs[..|pairs| - 1], pairs[|pairs| - 1];
      HasAfterAll(fold, hs, front, key);
      MapLaws(fold, SetAll(fold, hs, front), last.key, last.value, key);
      if SameKey(fold, last.key, key) { assert pairs[|pairs| - 1] == last; }
      if i :| 0 <= i < |front| && SameKey(fold, front[i].key, key) { assert pairs[i] == front[i]; }
    }
  }

  /** Injecting keys that differ up to case adds one header for each key that was not there, and no more. */
  lemma {:induction false} InjectedLength(fold: Folding, hs: seq<Header>, pairs: seq<Header>)
    requires FoldDistinct(fold, pairs)
    ensures |SetAll(fold, hs, pairs)| == |hs| + Fresh(fold, hs, pairs)
  {
    if pairs != [] {
      var n := |pairs| - 1;
      var front, last := pairs[..n], pairs[n];
      InjectedLength(fold, hs, front);
      HasAfterAll(fold, hs, front, last.key);
      MapLaws(fold, SetAll(fold, hs, front), last.key, last.value, last.key);
      forall i | 0 <= i < |front| ensures !SameKey(fold, front[i].key, last.key) {
        assert !SameKey(fold, pairs[i].key, pairs[n].key);
      }
    }
  }
}
