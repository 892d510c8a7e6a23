/**
 Go strings are byte sequences: `len` counts bytes and slicing cuts at byte
 offsets. This module holds the byte-string operations the program leans on
 (`strings.TrimSpace`, `strings.Join`, `strings.Repeat`, prefix and index
 search), with no claim about UTF-8 well-formedness.
 */
module ByteStrings {
  import opened Results

  newtype byte = x: int | 0 <= x < 256

  type Bytes = seq<byte>

  predicate IsAscii(s: string) {
    forall i :: 0 <= i < |s| ==> s[i] as int < 128
  }

  /** The UTF-8 encoding of an ASCII literal: one byte per character. */
  function Ascii(s: string): (r: Bytes)
    requires IsAscii(s)
    ensures |r| == |s|
    ensures forall i :: 0 <= i < |s| ==> r[i] as int == s[i] as int
  {
    seq(|s|, i requires 0 <= i < |s| => s[i] as int as byte)
  }

  /** Encoding a concatenation encodes each part. */
  lemma AsciiAppend(s: string, t: string)
    requires IsAscii(s) && IsAscii(t)
    ensures IsAscii(s + t)
    ensures Ascii(s + t) == Ascii(s) + Ascii(t)
  {
    assert forall i :: 0 <= i < |s + t| ==> (s + t)[i] == if i < |s| then s[i] else t[i - |s|];
  }

  /** The bytes Go's `strings.TrimSpace` strips on its ASCII path: tab,
      line feed, vertical tab, form feed, carriage return (9 to 13) and space. */
  predicate IsSpace(b: byte) {
    b == 32 || 9 <= b <= 13
  }

  /** Every byte of `s` from `lo` up to `hi` is white space. */
  predicate SpaceBetween(s: Bytes, lo: int, hi: int)
    requires 0 <= lo <= hi <= |s|
  {
    forall k :: lo <= k < hi ==> IsSpace(s[k])
  }

  predicate AllSpace(s: Bytes) {
    SpaceBetween(s, 0, |s|)
  }

  /** Drops the leading white space; TrimLeftShape says what is left. */
  function TrimLeft(s: Bytes): (r: Bytes)
    ensures |r| <= |s|
    ensures r != [] ==> !IsSpace(r[0])
  {
    if s != [] && IsSpace(s[0]) then TrimLeft(s[1..]) else s
  }

  /** What TrimLeft leaves is a suffix of `s` with only white space before it. */
  lemma {:induction false} TrimLeftShape(s: Bytes)
    ensures TrimLeft(s) == s[|s| - |TrimLeft(s)|..]
    ensures SpaceBetween(s, 0, |s| - |TrimLeft(s)|)
  {
    if s != [] && IsSpace(s[0]) {
      TrimLeftShape(s[1..]);
      var n := |s| - |TrimLeft(s)|;
      forall k | 0 <= k < n ensures IsSpace(s[k]) {
        if k > 0 {
          assert s[k] == s[1..][k - 1];
        }
      }
    }
  }

  /** Drops the trailing white space; TrimRightShape says what is left. */
  function TrimRight(s: Bytes): (r: Bytes)
    ensures |r| <= |s|
    ensures r != [] ==> !IsSpace(r[|r| - 1])
  {
    if s != [] && IsSpace(s[|s| - 1]) then TrimRight(s[..|s| - 1]) else s
  }

  /** What TrimRight leaves is a prefix of `s` with only white space after it. */
  lemma {:induction false} TrimRightShape(s: Bytes)
    ensures TrimRight(s) == s[..|TrimRight(s)|]
    ensures SpaceBetween(s, |TrimRight(s)|, |s|)
  {
    if s != [] && IsSpace(s[|s| - 1]) {
      TrimRightShape(s[..|s| - 1]);
      var n := |TrimRight(s)|;
      forall k | n <= k < |s| ensures IsSpace(s[k]) {
        if k < |s| - 1 {
          assert s[k] == s[..|s| - 1][k];
        }
      }
    }
  }

  /** `strings.TrimSpace`: `s` without its leading and trailing white space.
      TrimSpaceShape states that this is the longest such infix. */
  function TrimSpace(s: Bytes): (r: Bytes)
    ensures |r| <= |s|
    ensures r != [] ==> !IsSpace(r[0]) && !IsSpace(r[|r| - 1])
  {
    TrimRightShape(TrimLeft(s));
    TrimRight(TrimLeft(s))
  }

  /** What trimming leaves: an infix of `s` with only white space around it,
      empty exactly when `s` is all white space. */
  lemma TrimSpaceShape(s: Bytes)
    ensures var r := TrimSpace(s);
            exists i :: 0 <= i <= |s| - |r| && r == s[i..i + |r|]
                        && SpaceBetween(s, 0, i) && SpaceBetween(s, i + |r|, |s|)
    ensures TrimSpace(s) == [] <==> AllSpace(s)
  {
    var l := TrimLeft(s);
    var r := TrimRight(l);
    TrimLeftShape(s);
    TrimRightShape(l);
    var i := |s| - |l|;
    assert r == s[i..i + |r|];
    assert SpaceBetween(s, i + |r|, |s|) by {
      forall k | i + |r| <= k < |s| ensures IsSpace(s[k]) {
        assert s[k] == l[k - i];
      }
    }
    if r == [] {
      assert AllSpace(s);
    }
  }

  /** A text with no white space at either end is left as it is; in
      particular trimming twice trims nothing more. */
  lemma TrimSpaceFixesTrimmed(t: Bytes)
    requires t == [] || (!IsSpace(t[0]) && !IsSpace(t[|t| - 1]))
    ensures TrimSpace(t) == t
  {
    if t != [] {
      assert TrimLeft(t) == t;
      assert TrimRight(t) == t;
    }
  }

  /** `strings.Repeat(string([]byte{b}), n)`. */
  function Repeat(b: byte, n: nat): (r: Bytes)
    ensures |r| == n
    ensures forall k :: 0 <= k < n ==> r[k] == b
  {
    seq(n, _ => b)
  }

  /** `f` applied to every element, in order. */
  function MapSeq<A, B>(f: A -> B, s: seq<A>): (r: seq<B>)
    ensures |r| == |s|
    ensures forall i :: 0 <= i < |s| ==> r[i] == f(s[i])
  {
    seq(|s|, i requires 0 <= i < |s| => f(s[i]))
  }

  lemma MapSeqAppend<A, B>(f: A -> B, a: seq<A>, b: seq<A>)
    ensures MapSeq(f, a + b) == MapSeq(f, a) + MapSeq(f, b)
  {
    assert forall i :: 0 <= i < |a + b| ==> (a + b)[i] == if i < |a| then a[i] else b[i - |a|];
  }

  /** The sum of the lengths of `parts`. */
  function TotalLength(parts: seq<Bytes>): nat {
    if |parts| == 0 then 0 else |parts[0]| + TotalLength(parts[1..])
  }

  /** `strings.Join`: the parts in order with `sep` between neighbours. */
  function Join(parts: seq<Bytes>, sep: Bytes): (r: Bytes)
    ensures |parts| == 0 ==> r == []
    ensures |parts| > 0 ==> |r| == TotalLength(parts) + |sep| * (|parts| - 1)
    ensures |parts| > 0 ==> r[..|parts[0]|] == parts[0]
  {
    if |parts| == 0 then []
    else if |parts| == 1 then parts[0]
    else parts[0] + sep + Join(parts[1..], sep)
  }

  /** Where part `i` starts in `Join(parts, sep)`: after the first `i` parts
      and the `i` separators that follow them. */
  function Offset(parts: seq<Bytes>, sep: Bytes, i: nat): nat
    requires i <= |parts|
  {
    TotalLength(parts[..i]) + i * |sep|
  }

  lemma {:induction false} TotalLengthStep(parts: seq<Bytes>, i: nat)
    requires i < |parts|
    ensures TotalLength(parts[..i + 1]) == TotalLength(parts[..i]) + |parts[i]|
  {
    if i == 0 {
      assert parts[..1][1..] == [];
    } else {
      assert parts[..i + 1][1..] == parts[1..][..i];
      assert parts[..i][1..] == parts[1..][..i - 1];
      TotalLengthStep(parts[1..], i - 1);
    }
  }

  lemma OffsetStep(parts: seq<Bytes>, sep: Bytes, i: nat)
    requires 0 < i <= |parts|
    ensures Offset(parts, sep, i) == |parts[0]| + |sep| + Offset(parts[1..], sep, i - 1)
  {
    assert parts[..i][1..] == parts[1..][..i - 1];
  }

  lemma SliceOfSuffix(x: Bytes, y: Bytes, lo: nat, hi: nat)
    requires lo <= hi <= |y|
    ensures (x + y)[|x| + lo..|x| + hi] == y[lo..hi]
  {
  }

  /** `Join(parts, sep)` holds part `i` at `Offset(parts, sep, i)`, preceded
      by `sep` unless it is the first part, and the last part ends the
      result: with the length of `Join`, this fixes every byte of it. */
  lemma {:induction false} JoinPlacesParts(parts: seq<Bytes>, sep: Bytes, i: nat)
    requires i < |parts|
    ensures var r, o := Join(parts, sep), Offset(parts, sep, i);
            && o + |parts[i]| <= |r|
            && r[o..o + |parts[i]|] == parts[i]
            && (0 < i ==> |sep| <= o && r[o - |sep|..o] == sep)
            && (i == |parts| - 1 ==> o + |parts[i]| == |r|)
  {
    var r := Join(parts, sep);
    if i == 0 {
      assert parts[..0] == [];
      if |parts| == 1 {
        assert parts[1..] == [];
      }
    } else {
      var rest := Join(parts[1..], sep);
      var p := |parts[0]| + |sep|;
      assert r == parts[0] + sep + rest;
      OffsetStep(parts, sep, i);
      JoinPlacesParts(parts[1..], sep, i - 1);
      var o' := Offset(parts[1..], sep, i - 1);
      SliceOfSuffix(parts[0] + sep, rest, o', o' + |parts[i]|);
      if i == 1 {
        assert r[|parts[0]|..p] == sep;
      } else {
        SliceOfSuffix(parts[0] + sep, rest, o' - |sep|, o');
      }
    }
  }

  predicate HasPrefix(s: Bytes, p: Bytes) {
    |p| <= |s| && s[..|p|] == p
  }

  predicate HasSuffix(s: Bytes, p: Bytes) {
    |p| <= |s| && s[|s| - |p|..] == p
  }

  /** The position of the first `b` in `s`, or None when `s` has no `b`. */
  function IndexOf(s: Bytes, b: byte): (r: Option<nat>)
    ensures r.None? <==> b !in s
    ensures r.Some? ==> r.value < |s| && s[r.value] == b
    ensures r.Some? ==> forall j :: 0 <= j < r.value ==> s[j] != b
  {
    if |s| == 0 then None
    else if s[0] == b then Some(0)
    else match IndexOf(s[1..], b)
      case None => None
      case Some(k) => Some(k + 1)
  }

  /** The first `b` in `a + [b] + c` is the one right after `a` when `a` has none. */
  lemma IndexOfAfter(a: Bytes, b: byte, c: Bytes)
    requires b !in a
    ensures IndexOf(a + [b] + c, b) == Some(|a|)
  {
    var s := a + [b] + c;
    assert s[|a|] == b;

  }
}
