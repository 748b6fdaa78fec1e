/**
 The order in which Go sorts names is that of their bytes. On UTF-8 it is the order of their characters, which is what
 Text.Less compares.
 */
module NameOrder {
  import opened Utf8
  import opened Text

  function CodePoints(s: string): (rs: seq<int>)
    ensures |rs| == |s| && forall r :: r in rs ==> Scalar(r)
  {
    seq(|s|, i requires 0 <= i < |s| => s[i] as int)
  }

  /** Characters are the scalar values, no more and no fewer. */
  lemma ScalarsAreCharacters(r: int)
    requires Scalar(r)
    ensures (r as char) as int == r && CodePoints([r as char]) == [r]
  {
  }

  /** The bytes of a string. */
  function Bytes(s: string): seq<byte> { EncodeAll(CodePoints(s)) }

  /** Go's order on strings: byte by byte. */
  predicate ByteLess(a: seq<byte>, b: seq<byte>) {
    b != [] && (a == [] || a[0] < b[0] || (a[0] == b[0] && ByteLess(a[1..], b[1..])))
  }

  lemma {:induction false} SamePrefix(p: seq<byte>, a: seq<byte>, b: seq<byte>)
    ensures ByteLess(p + a, p + b) <==> ByteLess(a, b)
  {
    if p == [] {
      assert p + a == a && p + b == b;
    } else {
      assert (p + a)[1..] == p[1..] + a && (p + b)[1..] == p[1..] + b;
      SamePrefix(p[1..], a, b);
    }
  }

  lemma {:induction false} FirstDifference(a: seq<byte>, b: seq<byte>, k: nat)
    requires k < |a| && k < |b| && a[..k] == b[..k] && a[k] < b[k]
    ensures ByteLess(a, b) && !ByteLess(b, a)
  {
    if k > 0 {
      assert a[0] == a[..k][0] && b[0] == b[..k][0];
      assert a[1..][..k - 1] == a[..k][1..] && b[1..][..k - 1] == b[..k][1..];
      FirstDifference(a[1..], b[1..], k - 1);
    }
  }

  /** The position where the encodings of two characters first differ, with the smaller byte for the smaller one. */
  lemma DifferAt(r: int, q: int) returns (k: nat)
    requires Scalar(r) && Scalar(q) && r < q
    ensures var a, b := Encode(r), Encode(q); k < |a| && k < |b| && a[..k] == b[..k] && a[k] < b[k]
  {
    var a, b := Encode(r), Encode(q);
    if a[0] != b[0] {
      k := 0;
    } else if a[1] != b[1] {
      k := 1;
    } else if a[2] != b[2] {
      k := 2;
    } else {
      k := 3;
    }
  }

  lemma EncodingsOrdered(r: int, q: int, x: seq<byte>, y: seq<byte>)
    requires Scalar(r) && Scalar(q) && r < q
    ensures ByteLess(Encode(r) + x, Encode(q) + y) && !ByteLess(Encode(q) + y, Encode(r) + x)
  {
    var k := DifferAt(r, q);
    var a, b := Encode(r) + x, Encode(q) + y;
    assert a[..k] == Encode(r)[..k] && b[..k] == Encode(q)[..k];
    FirstDifference(a, b, k);
  }

  lemma BytesHead(s: string)
    requires s != ""
    ensures Bytes(s) == Encode(s[0] as int) + Bytes(s[1..])
  {
    assert CodePoints(s)[1..] == CodePoints(s[1..]);
  }

  /** Sorting names by their characters is sorting them by their bytes. */
  lemma {:induction false} LessIsByteOrder(a: string, b: string)
    ensures Less(a, b) <==> ByteLess(Bytes(a), Bytes(b))
  {
    if b != "" { BytesHead(b); }
    if a != "" { BytesHead(a); }
    if a != "" && b != "" {
      var x, y := Bytes(a[1..]), Bytes(b[1..]);
      if a[0] == b[0] {
        LessIsByteOrder(a[1..], b[1..]);
        SamePrefix(Encode(a[0] as int), x, y);
      } else if a[0] < b[0] {
        EncodingsOrdered(a[0] as int, b[0] as int, x, y);
      } else {
        EncodingsOrdered(b[0] as int, a[0] as int, y, x);
      }
    }
  }
}
