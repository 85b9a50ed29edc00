/** JSON string literals (RFC 8259, section 7) as `JSON.stringify` writes them, and the order of object keys. */
module CanonicalText {
  import opened JsObject

  /** A string is a sequence of UTF-16 code units. */
  type Unit = u: int | 0 <= u < 0x10000
  type Text = seq<Unit>

  const QUOTE: Unit := 0x22
  const BACKSLASH: Unit := 0x5C

  predicate IsHigh(u: Unit) { 0xD800 <= u <= 0xDBFF }
  predicate IsLow(u: Unit) { 0xDC00 <= u <= 0xDFFF }

  function HexDigit(n: int): Unit
    requires 0 <= n < 16
  {
    if n < 10 then 0x30 + n else 0x57 + n
  }

  function HexValue(u: Unit): (r: Option<int>)
    ensures r.Some? ==> 0 <= r.value < 16
  {
    if 0x30 <= u <= 0x39 then Some(u - 0x30)
    else if 0x61 <= u <= 0x66 then Some(u - 0x57)
    else if 0x41 <= u <= 0x46 then Some(u - 0x37)
    else None
  }

  /** Four lower-case hexadecimal digits. */
  function Hex(u: Unit): (h: Text)
    ensures |h| == 4
  {
    var (q, r) := (u / 16, u / 16 / 16);
    [HexDigit(r / 16), HexDigit(r % 16), HexDigit(q % 16), HexDigit(u % 16)]
  }

  function ReadHex(h: Text): Option<Unit>
    requires |h| == 4
  {
    var a, b, c, d := HexValue(h[0]), HexValue(h[1]), HexValue(h[2]), HexValue(h[3]);
    if a.None? || b.None? || c.None? || d.None? then None
    else Some(a.value * 0x1000 + b.value * 0x100 + c.value * 0x10 + d.value)
  }

  lemma DigitReadsBack(n: int)
    requires 0 <= n < 16
    ensures HexValue(HexDigit(n)) == Some(n)
  {
  }

  lemma HexReadsBack(u: Unit)
    ensures ReadHex(Hex(u)) == Some(u)
  {
    var q, r := u / 16, u / 16 / 16;
    assert u == q * 16 + u % 16 && q == r * 16 + q % 16 && r == r / 16 * 16 + r % 16;
    DigitReadsBack(r / 16); DigitReadsBack(r % 16); DigitReadsBack(q % 16); DigitReadsBack(u % 16);
  }

  /** The letter of a two-character escape. */
  function ShortEscape(u: Unit): Option<Unit> {
    match u
    case 0x22 => Some(0x22)
    case 0x5C => Some(0x5C)
    case 0x08 => Some(0x62)
    case 0x09 => Some(0x74)
    case 0x0A => Some(0x6E)
    case 0x0C => Some(0x66)
    case 0x0D => Some(0x72)
    case _ => None
  }

  function EscapeUnit(u: Unit): Text {
    if ShortEscape(u).Some? then [BACKSLASH, ShortEscape(u).value]
    else if u < 0x20 || IsHigh(u) || IsLow(u) then [BACKSLASH, 0x75] + Hex(u)
    else [u]
  }

  /** Surrogate pairs are copied, lone surrogates escaped. */
  function Escaped(s: Text): Text
    decreases |s|
  {
    if s == [] then []
    else if |s| >= 2 && IsHigh(s[0]) && IsLow(s[1]) then [s[0], s[1]] + Escaped(s[2..])
    else EscapeUnit(s[0]) + Escaped(s[1..])
  }

  function Quoted(s: Text): Text {
    [QUOTE] + Escaped(s) + [QUOTE]
  }

  function Unescape(letter: Unit): Option<Unit> {
    match letter
    case 0x22 => Some(0x22)
    case 0x5C => Some(0x5C)
    case 0x2F => Some(0x2F)
    case 0x62 => Some(0x08)
    case 0x74 => Some(0x09)
    case 0x6E => Some(0x0A)
    case 0x66 => Some(0x0C)
    case 0x72 => Some(0x0D)
    case _ => None
  }

  /** The first unit of a string body and the number of units it takes. */
  function ReadUnit(t: Text): Option<(Unit, nat)> {
    if t == [] || t[0] < 0x20 || t[0] == QUOTE then None
    else if t[0] != BACKSLASH then Some((t[0], 1))
    else if |t| < 2 then None
    else if t[1] != 0x75 then (if Unescape(t[1]).Some? then Some((Unescape(t[1]).value, 2)) else None)
    else if |t| < 6 then None
    else if ReadHex(t[2..6]).None? then None
    else Some((ReadHex(t[2..6]).value, 6))
  }

  /** Reads a string body up to its closing quote: the string and what follows. */
  function ReadString(t: Text): Option<(Text, Text)>
    decreases |t|
  {
    if t == [] then None
    else if t[0] == QUOTE then Some(([], t[1..]))
    else
      var u := ReadUnit(t);
      if u.None? then None
      else
        var rest := ReadString(t[u.value.1..]);
        if rest.None? then None else Some(([u.value.0] + rest.value.0, rest.value.1))
  }

  lemma ReadEscapedUnit(u: Unit, rest: Text)
    ensures var t := EscapeUnit(u) + rest;
      t[0] != QUOTE && ReadUnit(t) == Some((u, |EscapeUnit(u)|)) && t[|EscapeUnit(u)|..] == rest
  {
    var t := EscapeUnit(u) + rest;
    assert t[|EscapeUnit(u)|..] == rest;
    if ShortEscape(u).Some? {
      assert t[0] == BACKSLASH && t[1] == ShortEscape(u).value;
    } else if u < 0x20 || IsHigh(u) || IsLow(u) {
      assert t[0] == BACKSLASH && t[1] == 0x75 && t[2..6] == Hex(u);
      HexReadsBack(u);
    } else {
      assert t[0] == u;
    }
  }

  lemma ReadStep(t: Text, u: Unit, n: nat, rest: Text, s: Text, x: Text)
    requires t != [] && t[0] != QUOTE && ReadUnit(t) == Some((u, n)) && n <= |t| && t[n..] == rest && ReadString(rest) == Some((s, x))
    ensures ReadString(t) == Some(([u] + s, x))
  {
  }

  lemma ReadPair(a: Unit, b: Unit, rest: Text, s: Text, x: Text)
    requires IsHigh(a) && IsLow(b) && ReadString(rest) == Some((s, x))
    ensures ReadString([a, b] + rest) == Some(([a, b] + s, x))
  {
    var t := [a, b] + rest;
    assert t[1..] == [b] + rest && ([b] + rest)[1..] == rest;
    ReadStep([b] + rest, b, 1, rest, s, x);
    ReadStep(t, a, 1, [b] + rest, [b] + s, x);
    assert [a] + ([b] + s) == [a, b] + s;
  }

  lemma ReadOne(u: Unit, after: Text, s: Text, x: Text)
    requires ReadString(after) == Some((s, x))
    ensures ReadString(EscapeUnit(u) + after) == Some(([u] + s, x))
  {
    ReadEscapedUnit(u, after);
    ReadStep(EscapeUnit(u) + after, u, |EscapeUnit(u)|, after, s, x);
  }

  /** `Escaped(s) + tail`, built from the front. */
  function EscapedThen(s: Text, tail: Text): Text
    decreases |s|
  {
    if s == [] then tail
    else if |s| >= 2 && IsHigh(s[0]) && IsLow(s[1]) then [s[0], s[1]] + EscapedThen(s[2..], tail)
    else EscapeUnit(s[0]) + EscapedThen(s[1..], tail)
  }

  lemma {:induction false} EscapedThenIsAppend(s: Text, tail: Text)
    ensures EscapedThen(s, tail) == Escaped(s) + tail
    decreases |s|
  {
    if |s| >= 2 && IsHigh(s[0]) && IsLow(s[1]) {
      EscapedThenIsAppend(s[2..], tail);
    } else if s != [] {
      EscapedThenIsAppend(s[1..], tail);
    }
  }

  lemma {:induction false} ReadsBackThen(s: Text, rest: Text)
    ensures ReadString(EscapedThen(s, [QUOTE] + rest)) == Some((s, rest))
    decreases |s|
  {
    if s == [] {
      assert ([QUOTE] + rest)[1..] == rest;
    } else if |s| >= 2 && IsHigh(s[0]) && IsLow(s[1]) {
      ReadsBackThen(s[2..], rest);
      ReadPair(s[0], s[1], EscapedThen(s[2..], [QUOTE] + rest), s[2..], rest);
      assert s == [s[0], s[1]] + s[2..];
    } else {
      ReadsBackThen(s[1..], rest);
      ReadOne(s[0], EscapedThen(s[1..], [QUOTE] + rest), s[1..], rest);
      assert s == [s[0]] + s[1..];
    }
  }

  lemma Assoc(x: Text, y: Text, z: Text)
    ensures x + y + z == x + (y + z)
  {
  }

  /** A reader gets back exactly the string that was written, and stops exactly at its end. */
  lemma ReadsBack(s: Text, rest: Text)
    ensures ReadString(Escaped(s) + [QUOTE] + rest) == Some((s, rest))
  {
    ReadsBackThen(s, rest);
    EscapedThenIsAppend(s, [QUOTE] + rest);
    Assoc(Escaped(s), [QUOTE], rest);
  }

  lemma AfterFirst(u: Unit, x: Text, y: Text, z: Text)
    ensures ([u] + x + y + z)[1..] == x + y + z
  {
  }

  lemma QuotedIsInjective(s: Text, t: Text, x: Text, y: Text)
    requires Quoted(s) + x == Quoted(t) + y
    ensures s == t && x == y
  {
    AfterFirst(QUOTE, Escaped(s), [QUOTE], x);
    AfterFirst(QUOTE, Escaped(t), [QUOTE], y);
    ReadsBack(s, x);
    ReadsBack(t, y);
  }

  // ----- key order -----

  /** The order `sort()` uses: by code units. */
  predicate Less(a: Text, b: Text) {
    b != [] && (a == [] || a[0] < b[0] || (a[0] == b[0] && Less(a[1..], b[1..])))
  }

  /** `a` and `b` agree up to `i`, where `a` ends or has the smaller unit. */
  ghost predicate DiffersFirst(a: Text, b: Text, i: int) {
    0 <= i <= |a| && i < |b| && a[..i] == b[..i] && (i == |a| || a[i] < b[i])
  }

  /** The first difference decides, and a prefix comes first. */
  lemma {:induction false} LessIsFirstDifference(a: Text, b: Text)
    ensures Less(a, b) <==> exists i :: DiffersFirst(a, b, i)
  {
    if Less(a, b) {
      if a == [] || a[0] < b[0] {
        assert DiffersFirst(a, b, 0);
      } else {
        LessIsFirstDifference(a[1..], b[1..]);
        var i :| DiffersFirst(a[1..], b[1..], i);
        assert a[..i + 1] == [a[0]] + a[1..][..i] && b[..i + 1] == [b[0]] + b[1..][..i];
        assert DiffersFirst(a, b, i + 1);
      }
    }
    if i :| DiffersFirst(a, b, i) && a != [] {
      if i > 0 {
        assert a[0] == a[..i][0] == b[..i][0] == b[0];
        assert a[1..][..i - 1] == a[..i][1..] && b[1..][..i - 1] == b[..i][1..];
        LessIsFirstDifference(a[1..], b[1..]);
        assert DiffersFirst(a[1..], b[1..], i - 1);
      }
    }
  }

  lemma {:induction false} LessIsTotal(a: Text, b: Text)
    ensures a == b || Less(a, b) || Less(b, a)
    ensures !(Less(a, b) && Less(b, a)) && !Less(a, a)
  {
    if a != [] && b != [] && a[0] == b[0] {
      LessIsTotal(a[1..], b[1..]);
      LessIsTotal(a[1..], a[1..]);
      if a[1..] == b[1..] { assert a == [a[0]] + a[1..] == b; }
    } else if a != [] {
      LessIsTotal(a[1..], a[1..]);
    }
  }

  lemma {:induction false} LessIsTransitive(a: Text, b: Text, c: Text)
    requires Less(a, b) && Less(b, c)
    ensures Less(a, c)
  {
    if a != [] && a[0] == b[0] && b[0] == c[0] { LessIsTransitive(a[1..], b[1..], c[1..]); }
  }

  ghost predicate IsSorted(keys: seq<Text>) {
    forall i, j :: 0 <= i < j < |keys| ==> Less(keys[i], keys[j])
  }

  function Insert(k: Text, keys: seq<Text>): seq<Text> {
    if keys == [] || Less(k, keys[0]) then [k] + keys
    else if k == keys[0] then keys
    else [keys[0]] + Insert(k, keys[1..])
  }

  function Sort(keys: seq<Text>): seq<Text> {
    if keys == [] then [] else Insert(keys[0], Sort(keys[1..]))
  }

  lemma {:induction false} InsertSorts(k: Text, keys: seq<Text>)
    requires IsSorted(keys)
    ensures var r := Insert(k, keys); IsSorted(r) && forall x :: x in r <==> x == k || x in keys
  {
    if keys == [] {
    } else if Less(k, keys[0]) {
      forall j | 0 < j < |keys| ensures Less(k, keys[j]) { LessIsTransitive(k, keys[0], keys[j]); }
    } else if k != keys[0] {
      LessIsTotal(k, keys[0]);
      InsertSorts(k, keys[1..]);
      assert forall x :: x in keys <==> x == keys[0] || x in keys[1..];
      var rest := Insert(k, keys[1..]);
      forall j | 0 <= j < |rest| ensures Less(keys[0], rest[j]) {
        assert rest[j] in rest;
        if rest[j] != k {
          var i :| 0 <= i < |keys[1..]| && keys[1..][i] == rest[j];
          assert keys[i + 1] == rest[j];
        }
      }
    }
  }

  lemma {:induction false} SortSorts(keys: seq<Text>)
    ensures IsSorted(Sort(keys)) && forall x :: x in Sort(keys) <==> x in keys
  {
    if keys != [] {
      SortSorts(keys[1..]);
      InsertSorts(keys[0], Sort(keys[1..]));
      assert forall x :: x in keys <==> x == keys[0] || x in keys[1..];
    }
  }

  /** A sorted list is determined by its members: the order in which keys were inserted leaves no trace. */
  lemma {:induction false} SortedIsUnique(a: seq<Text>, b: seq<Text>)
    requires IsSorted(a) && IsSorted(b) && forall x :: x in a <==> x in b
    ensures a == b
  {
    assert a != [] ==> a[0] in a;
    assert b != [] ==> b[0] in b;
    if a != [] {
      SortedHead(a, b[0]);
      SortedHead(b, a[0]);
      LessIsTotal(a[0], b[0]);
      assert a[0] == b[0];
      SortedTail(a);
      SortedTail(b);
      SortedIsUnique(a[1..], b[1..]);
    }
  }

  lemma SortedHead(a: seq<Text>, x: Text)
    requires IsSorted(a) && x in a
    ensures x == a[0] || Less(a[0], x)
  {
  }

  lemma SortedTail(a: seq<Text>)
    requires IsSorted(a) && a != []
    ensures IsSorted(a[1..]) && forall x :: x in a[1..] <==> x in a && x != a[0]
  {
    LessIsTotal(a[0], a[0]);
    forall x | x in a[1..] ensures x in a && x != a[0] {
      var i :| 0 <= i < |a[1..]| && a[1..][i] == x;
      assert a[i + 1] == x;
    }
    forall x | x in a && x != a[0] ensures x in a[1..] {
      var i :| 0 <= i < |a| && a[i] == x;
      assert a[1..][i - 1] == x;
    }
  }
}
