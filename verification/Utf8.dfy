/** Strict UTF-8 decoding (RFC 3629, section 4), and why splitting at byte 0x0A before or after decoding is the same. */
module Utf8 {
  import opened JsObject

  type Byte = b: int | 0 <= b < 256

  const NEWLINE: Byte := 0x0A

  predicate IsTail(b: Byte) { 0x80 <= b <= 0xBF }

  /** The length of the well-formed sequence `s` starts with, or 0. */
  function Width(s: seq<Byte>): (w: nat)
    ensures w <= |s| && w <= 4
  {
    if s == [] then 0
    else if s[0] <= 0x7F then 1
    else if |s| >= 2 && 0xC2 <= s[0] <= 0xDF && IsTail(s[1]) then 2
    else if |s| >= 3 && IsTail(s[1]) && IsTail(s[2]) && 0xE0 <= s[0] <= 0xEF
      && (s[0] == 0xE0 ==> s[1] >= 0xA0) && (s[0] == 0xED ==> s[1] <= 0x9F) then 3
    else if |s| >= 4 && IsTail(s[1]) && IsTail(s[2]) && IsTail(s[3]) && 0xF0 <= s[0] <= 0xF4
      && (s[0] == 0xF0 ==> s[1] >= 0x90) && (s[0] == 0xF4 ==> s[1] <= 0x8F) then 4
    else 0
  }

  function CodePoint(s: seq<Byte>): int
    requires Width(s) > 0
  {
    var at := (i: int) requires 0 <= i < |s| => s[i] as int;
    match Width(s)
    case 1 => at(0)
    case 2 => (at(0) - 0xC0) * 0x40 + at(1) - 0x80
    case 3 => (at(0) - 0xE0) * 0x1000 + (at(1) - 0x80) * 0x40 + at(2) - 0x80
    case _ => (at(0) - 0xF0) * 0x40000 + (at(1) - 0x80) * 0x1000 + (at(2) - 0x80) * 0x40 + at(3) - 0x80
  }

  /** Fatal decoding: one malformed sequence fails the whole text. */
  function Decode(s: seq<Byte>): Option<seq<int>>
    decreases |s|
  {
    if s == [] then Some([])
    else if Width(s) == 0 then None
    else
      var rest := Decode(s[Width(s)..]);
      if rest.None? then None else Some([CodePoint(s)] + rest.value)
  }

  lemma HeadBeforeNewline(a: seq<Byte>, b: seq<Byte>)
    requires a != []
    ensures var s := a + [NEWLINE] + b;
      Width(s) == Width(a) && (Width(a) > 0 ==> CodePoint(s) == CodePoint(a) && s[Width(a)..] == a[Width(a)..] + [NEWLINE] + b)
  {
    var s := a + [NEWLINE] + b;
    assert s[|a|] == NEWLINE;
    assert forall i :: 0 <= i < |a| ==> s[i] == a[i];
  }

  /** A newline byte is never part of a longer sequence: decoding distributes over it. */
  lemma {:induction false} DecodeAtNewline(a: seq<Byte>, b: seq<Byte>)
    ensures var whole := Decode(a + [NEWLINE] + b);
      && (whole.Some? <==> Decode(a).Some? && Decode(b).Some?)
      && (whole.Some? ==> whole.value == Decode(a).value + [NEWLINE as int] + Decode(b).value)
    decreases |a|
  {
    var s := a + [NEWLINE] + b;
    if a == [] {
      assert s[1..] == b;
    } else {
      HeadBeforeNewline(a, b);
      if Width(a) > 0 { DecodeAtNewline(a[Width(a)..], b); }
    }
  }

  lemma {:induction false} DecodedLine(a: seq<Byte>)
    requires NEWLINE !in a && Decode(a).Some?
    ensures NEWLINE as int !in Decode(a).value
    decreases |a|
  {
    if a != [] {
      DecodedLine(a[Width(a)..]);
      assert a[0] in a;
      assert CodePoint(a) != NEWLINE as int;
    }
  }

  // ----- whole text against line by line -----

  function Terminated<T>(lines: seq<seq<T>>, newline: T): seq<T> {
    if lines == [] then [] else lines[0] + [newline] + Terminated(lines[1..], newline)
  }

  ghost predicate AllDecode(lines: seq<seq<Byte>>) {
    forall i :: 0 <= i < |lines| ==> Decode(lines[i]).Some?
  }

  function DecodeLines(lines: seq<seq<Byte>>): seq<seq<int>> {
    seq(|lines|, i requires 0 <= i < |lines| => if Decode(lines[i]).Some? then Decode(lines[i]).value else [])
  }

  /** The whole buffer decodes exactly when every line does, and its lines are the decoded lines. */
  lemma {:induction false} WholeAgreesWithLines(lines: seq<seq<Byte>>)
    ensures var whole := Decode(Terminated(lines, NEWLINE));
      && (whole.Some? <==> AllDecode(lines))
      && (whole.Some? ==> whole.value == Terminated(DecodeLines(lines), NEWLINE as int))
  {
    if lines != [] {
      DecodeAtNewline(lines[0], Terminated(lines[1..], NEWLINE));
      WholeAgreesWithLines(lines[1..]);
      assert DecodeLines(lines)[1..] == DecodeLines(lines[1..]);
      if AllDecode(lines) {
        assert Decode(lines[0]).Some?;
        forall i | 0 <= i < |lines[1..]| ensures Decode(lines[1..][i]).Some? { assert lines[1..][i] == lines[i + 1]; }
      }
      if AllDecode(lines[1..]) && Decode(lines[0]).Some? {
        forall i | 0 <= i < |lines| ensures Decode(lines[i]).Some? { if i > 0 { assert lines[i] == lines[1..][i - 1]; } }
      }
    }
  }

  lemma NotWithin<T>(s: seq<T>, x: T, lo: nat, hi: nat)
    requires lo <= hi <= |s| && x !in s[lo..hi]
    ensures forall i :: lo <= i < hi ==> s[i] != x
  {
    forall i | lo <= i < hi ensures s[i] != x { assert s[i] == s[lo..hi][i - lo]; }
  }

  /** Splitting at newlines is unambiguous. */
  lemma {:induction false} SplitIsUnique<T>(a: seq<seq<T>>, b: seq<seq<T>>, newline: T)
    requires Terminated(a, newline) == Terminated(b, newline)
    requires (forall i :: 0 <= i < |a| ==> newline !in a[i]) && (forall i :: 0 <= i < |b| ==> newline !in b[i])
    ensures a == b
  {
    if a != [] && b != [] {
      var s, t := Terminated(a, newline), Terminated(b, newline);
      var m, n := |a[0]|, |b[0]|;
      assert s[..m] == a[0] && t[..n] == b[0] && s[m] == newline && t[n] == newline;
      NotWithin(s, newline, 0, m);
      NotWithin(t, newline, 0, n);
      assert m == n;
      assert Terminated(a[1..], newline) == s[m + 1..] && Terminated(b[1..], newline) == t[n + 1..];
      SplitIsUnique(a[1..], b[1..], newline);
    }
  }

  // ----- encoding -----

  /** The code points UTF-8 can carry: all but the surrogates. */
  predicate IsScalar(c: int) { 0 <= c < 0xD800 || 0xE000 <= c <= 0x10FFFF }

  /** How many bytes a code point takes (RFC 3629, section 3). */
  function ScalarWidth(c: int): nat {
    if c < 0x80 then 1 else if c < 0x800 then 2 else if c < 0x10000 then 3 else 4
  }

  function TotalWidth(text: seq<int>): nat {
    if text == [] then 0 else ScalarWidth(text[0]) + TotalWidth(text[1..])
  }

  function EncodeOne(c: int): (bytes: seq<Byte>)
    requires IsScalar(c)
    ensures |bytes| == ScalarWidth(c)
  {
    if c < 0x80 then [c]
    else if c < 0x800 then [0xC0 + c / 0x40, 0x80 + c % 0x40]
    else if c < 0x10000 then [0xE0 + c / 0x1000, 0x80 + c / 0x40 % 0x40, 0x80 + c % 0x40]
    else [0xF0 + c / 0x40000, 0x80 + c / 0x1000 % 0x40, 0x80 + c / 0x40 % 0x40, 0x80 + c % 0x40]
  }

  function Encode(text: seq<int>): seq<Byte>
    requires forall i :: 0 <= i < |text| ==> IsScalar(text[i])
  {
    if text == [] then [] else EncodeOne(text[0]) + Encode(text[1..])
  }

  ghost predicate StartsWith(s: seq<Byte>, w: nat, c: int, rest: seq<Byte>) {
    w > 0 && Width(s) == w && CodePoint(s) == c && s[w..] == rest
  }

  lemma DecodeTwo(a: int, b: int, rest: seq<Byte>)
    requires 2 <= a < 0x20 && 0 <= b < 0x40
    ensures StartsWith([0xC0 + a, 0x80 + b] + rest, 2, a * 0x40 + b, rest)
  {
    assert ([0xC0 + a, 0x80 + b] + rest)[2..] == rest;
  }

  lemma DecodeThree(a: int, b: int, d: int, rest: seq<Byte>)
    requires 0 <= a < 0x10 && 0 <= b < 0x40 && 0 <= d < 0x40 && (a == 0 ==> b >= 0x20) && (a == 0xD ==> b < 0x20)
    ensures StartsWith([0xE0 + a, 0x80 + b, 0x80 + d] + rest, 3, a * 0x1000 + b * 0x40 + d, rest)
  {
    assert ([0xE0 + a, 0x80 + b, 0x80 + d] + rest)[3..] == rest;
  }

  lemma DecodeFour(a: int, b: int, d: int, e: int, rest: seq<Byte>)
    requires 0 <= a < 5 && 0 <= b < 0x40 && 0 <= d < 0x40 && 0 <= e < 0x40 && (a == 0 ==> b >= 0x10) && (a == 4 ==> b < 0x10)
    ensures StartsWith([0xF0 + a, 0x80 + b, 0x80 + d, 0x80 + e] + rest, 4, a * 0x40000 + b * 0x1000 + d * 0x40 + e, rest)
  {
    assert ([0xF0 + a, 0x80 + b, 0x80 + d, 0x80 + e] + rest)[4..] == rest;
  }

  /** Base-64 digits. */
  lemma Digits(c: int)
    requires c >= 0
    ensures c == c / 0x40 * 0x40 + c % 0x40
    ensures c / 0x40 == c / 0x1000 * 0x40 + c / 0x40 % 0x40
    ensures c / 0x1000 == c / 0x40000 * 0x40 + c / 0x1000 % 0x40
  {
    assert c / 0x1000 == c / 0x40 / 0x40;
    assert c / 0x40000 == c / 0x1000 / 0x40;
  }

  lemma DecodeOne(c: int, rest: seq<Byte>)
    requires IsScalar(c)
    ensures StartsWith(EncodeOne(c) + rest, ScalarWidth(c), c, rest)
  {
    Digits(c);
    if c < 0x80 {
      assert ([c] + rest)[1..] == rest;
    } else if c < 0x800 {
      DecodeTwo(c / 0x40, c % 0x40, rest);
    } else if c < 0x10000 {
      DecodeThree(c / 0x1000, c / 0x40 % 0x40, c % 0x40, rest);
    } else {
      DecodeFour(c / 0x40000, c / 0x1000 % 0x40, c / 0x40 % 0x40, c % 0x40, rest);
    }
  }

  /** Decoding gives back what was encoded. */
  lemma {:induction false} EncodedDecodes(text: seq<int>)
    requires forall i :: 0 <= i < |text| ==> IsScalar(text[i])
    ensures Decode(Encode(text)) == Some(text)
  {
    if text != [] {
      DecodeOne(text[0], Encode(text[1..]));
      assert Encode(text) != [] && text == [text[0]] + text[1..];
      EncodedDecodes(text[1..]);
    }
  }

  /** A text has only one length in UTF-8, and holds no surrogates. */
  lemma {:induction false} DecodedWidth(bytes: seq<Byte>)
    requires Decode(bytes).Some?
    ensures |bytes| == TotalWidth(Decode(bytes).value)
    ensures forall i :: 0 <= i < |Decode(bytes).value| ==> IsScalar(Decode(bytes).value[i])
    decreases |bytes|
  {
    if bytes != [] {
      DecodedWidth(bytes[Width(bytes)..]);
      assert ScalarWidth(CodePoint(bytes)) == Width(bytes) && IsScalar(CodePoint(bytes));
    }
  }
}
