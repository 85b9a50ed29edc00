/** Stamps as identity: canonical JSON of plain values, and merging a stamp over other facts. */
module CanonicalStamp {
  import opened JsObject
  import opened CanonicalText
  import Utf8

  /** A finite number stands for its shortest decimal text; `0` and `-0` are one value under `===` and print alike. */
  datatype Number = NegativeZero | Decimal(text: Text) | NotFinite

  datatype Json = Null | Bool(b: bool) | Num(n: Number) | Str(s: Text) | Arr(items: seq<Json>) | Object(fields: seq<(Text, Json)>)
    | Alien    // undefined, functions, class instances

  predicate IsNumberUnit(u: Unit) {
    0x30 <= u <= 0x39 || u == 0x2B || u == 0x2D || u == 0x2E || u == 0x45 || u == 0x65
  }

  /** The texts the number printer emits: they never contain anything a delimiter or another value starts with. */
  predicate IsNumberText(t: Text) {
    t != [] && (0x30 <= t[0] <= 0x39 || t[0] == 0x2D) && forall i :: 0 <= i < |t| ==> IsNumberUnit(t[i])
  }

  function NumberText(n: Number): Text {
    match n
    case NegativeZero => [0x30]
    case Decimal(t) => t
    case NotFinite => []
  }

  function Keys(fields: seq<(Text, Json)>): (r: seq<Text>)
    ensures |r| == |fields|
  {
    seq(|fields|, i requires 0 <= i < |fields| => fields[i].0)
  }

  predicate Distinct(fields: seq<(Text, Json)>) {
    forall i, j :: 0 <= i < j < |fields| ==> fields[i].0 != fields[j].0
  }

  /** A finite plain JSON value. */
  predicate Plain(v: Json) {
    match v
    case Null => true
    case Bool(_) => true
    case Num(n) => !n.NotFinite? && IsNumberText(NumberText(n))
    case Str(_) => true
    case Arr(items) => forall i :: 0 <= i < |items| ==> Plain(items[i])
    case Object(fields) => Distinct(fields) && forall i :: 0 <= i < |fields| ==> Plain(fields[i].1)
    case Alien => false
  }

  /** `w` is `v` or occurs somewhere inside it. */
  ghost predicate Within(w: Json, v: Json)
    decreases v
  {
    || w == v
    || (v.Arr? && exists i :: 0 <= i < |v.items| && Within(w, v.items[i]))
    || (v.Object? && exists i :: 0 <= i < |v.fields| && Within(w, v.fields[i].1))
  }

  /** Nothing but JSON: no number that is not finite, and no key twice. */
  ghost predicate IsJson(w: Json) {
    !w.Alien? && (w.Num? ==> !w.n.NotFinite? && IsNumberText(NumberText(w.n))) && (w.Object? ==> Distinct(w.fields))
  }

  /** A value is plain exactly if all that occurs in it is JSON. */
  lemma {:induction false} PlainExactly(v: Json)
    ensures Plain(v) <==> forall w :: Within(w, v) ==> IsJson(w)
  {
    assert Within(v, v);
    match v
    case Arr(items) =>
      forall i | 0 <= i < |items| ensures Plain(items[i]) <==> forall w :: Within(w, items[i]) ==> IsJson(w) { PlainExactly(items[i]); }
    case Object(fields) =>
      forall i | 0 <= i < |fields| ensures Plain(fields[i].1) <==> forall w :: Within(w, fields[i].1) ==> IsJson(w) { PlainExactly(fields[i].1); }
    case _ =>
  }

  function IndexOf(fields: seq<(Text, Json)>, k: Text): (i: nat)
    ensures i <= |fields| && (i < |fields| ==> fields[i].0 == k) && forall j :: 0 <= j < i ==> fields[j].0 != k
  {
    if fields == [] then 0 else if fields[0].0 == k then 0 else 1 + IndexOf(fields[1..], k)
  }

  // ----- printing -----

  const NULL: Text := [0x6E, 0x75, 0x6C, 0x6C]
  const TRUE: Text := [0x74, 0x72, 0x75, 0x65]
  const FALSE: Text := [0x66, 0x61, 0x6C, 0x73, 0x65]
  const COMMA: Unit := 0x2C
  const COLON: Unit := 0x3A

  function Print(v: Json): Text
    decreases v, 1
  {
    match v
    case Null => NULL
    case Bool(b) => if b then TRUE else FALSE
    case Num(n) => NumberText(n)
    case Str(s) => Quoted(s)
    case Arr(items) => [0x5B] + PrintItems(v, 0)
    case Object(fields) => [0x7B] + PrintMembers(v, Sort(Keys(fields)))
    case Alien => []
  }

  /** The items from the i-th on, and the closing bracket. */
  function PrintItems(v: Json, i: nat): Text
    requires v.Arr? && i <= |v.items|
    decreases v, 0, |v.items| - i
  {
    if i == |v.items| then [0x5D]
    else (if i > 0 then [COMMA] else []) + Print(v.items[i]) + PrintItems(v, i + 1)
  }

  /** The members with the given keys, in that order, and the closing brace. */
  function PrintMembers(v: Json, keys: seq<Text>): Text
    requires v.Object?
    decreases v, 0, |keys|
  {
    if keys == [] then [0x7D]
    else
      var i := IndexOf(v.fields, keys[0]);
      Quoted(keys[0]) + [COLON] + (if i < |v.fields| then Print(v.fields[i].1) else [])
        + (if |keys| > 1 then [COMMA] else []) + PrintMembers(v, keys[1..])
  }

  /** `canonicalJson`: anything that is not a finite plain JSON value is refused. */
  function Canonical(v: Json): Option<Text> {
    if Plain(v) then Some(Print(v)) else None
  }

  // ----- the form of the text -----

  /** ASCII text as UTF-16 units. */
  function Ascii(s: string): Text
    requires forall i :: 0 <= i < |s| ==> s[i] < 128 as char
  {
    seq(|s|, i requires 0 <= i < |s| => s[i] as int)
  }

  /** The parts with commas between them. */
  function Joined(parts: seq<Text>): Text {
    if parts == [] then [] else if |parts| == 1 then parts[0] else parts[0] + Ascii(",") + Joined(parts[1..])
  }

  function ItemTexts(items: seq<Json>): seq<Text> {
    seq(|items|, i requires 0 <= i < |items| => Print(items[i]))
  }

  function MemberText(fields: seq<(Text, Json)>, k: Text): Text
    requires k in Keys(fields)
  {
    Quoted(k) + Ascii(":") + Print(fields[IndexOf(fields, k)].1)
  }

  function MemberTexts(fields: seq<(Text, Json)>, keys: seq<Text>): seq<Text>
    requires forall i :: 0 <= i < |keys| ==> keys[i] in Keys(fields)
  {
    seq(|keys|, i requires 0 <= i < |keys| => MemberText(fields, keys[i]))
  }

  lemma JoinedFirst(parts: seq<Text>)
    requires parts != []
    ensures Joined(parts) == parts[0] + (if |parts| > 1 then Ascii(",") + Joined(parts[1..]) else [])
  {
    Assoc(parts[0], Ascii(","), Joined(parts[1..]));
  }

  lemma ItemsStep(h: Text, p: Text, rest: Text, close: Text)
    ensures h + p + (rest + close) == h + (p + rest) + close
  {
    Assoc(h, p, rest + close);
    Assoc(p, rest, close);
    Assoc(h, p + rest, close);
  }

  lemma {:induction false} ItemsAreJoined(v: Json, i: nat)
    requires v.Arr? && i <= |v.items|
    ensures PrintItems(v, i) == (if 0 < i < |v.items| then Ascii(",") else []) + Joined(ItemTexts(v.items)[i..]) + Ascii("]")
    decreases |v.items| - i
  {
    var texts := ItemTexts(v.items);
    assert Ascii("]") == [0x5D] && Ascii(",") == [COMMA];
    if i < |v.items| {
      ItemsAreJoined(v, i + 1);
      JoinedFirst(texts[i..]);
      assert texts[i..][0] == Print(v.items[i]) && texts[i..][1..] == texts[i + 1..];
      var more := if i + 1 < |v.items| then Ascii(",") else [];
      var h := if i > 0 then Ascii(",") else [];
      ItemsStep(h, Print(v.items[i]), more + Joined(texts[i + 1..]), Ascii("]"));
      if i + 1 == |v.items| { assert texts[i + 1..] == []; }
    } else {
      assert texts[i..] == [];
    }
  }

  lemma {:induction false} MembersAreJoined(v: Json, keys: seq<Text>)
    requires v.Object? && forall i :: 0 <= i < |keys| ==> keys[i] in Keys(v.fields)
    ensures PrintMembers(v, keys) == Joined(MemberTexts(v.fields, keys)) + Ascii("}")
  {
    var texts := MemberTexts(v.fields, keys);
    if keys != [] {
      MembersAreJoined(v, keys[1..]);
      JoinedFirst(texts);
      assert texts[0] == MemberText(v.fields, keys[0]) && texts[1..] == MemberTexts(v.fields, keys[1..]);
      assert Ascii(",") == [COMMA] && Ascii(":") == [COLON];
    } else {
      assert Ascii("}") == [0x7D];
    }
  }

  ghost predicate IsObjectText(fields: seq<(Text, Json)>, t: Text) {
    exists keys ::
      && IsSorted(keys) && (forall k :: k in keys <==> k in Keys(fields))
      && t == Ascii("{") + Joined(MemberTexts(fields, keys)) + Ascii("}")
  }

  lemma ArrayForm(items: seq<Json>)
    ensures Print(Arr(items)) == Ascii("[") + Joined(ItemTexts(items)) + Ascii("]")
  {
    var v := Arr(items);
    ItemsAreJoined(v, 0);
    assert ItemTexts(items)[0..] == ItemTexts(items);
    assert Print(v) == [0x5B] + PrintItems(v, 0) && Ascii("[") == [0x5B];
    assert [] + Joined(ItemTexts(items)) == Joined(ItemTexts(items));
    Assoc([0x5B], Joined(ItemTexts(items)), Ascii("]"));
  }

  lemma ObjectForm(fields: seq<(Text, Json)>)
    ensures IsObjectText(fields, Print(Object(fields)))
  {
    var v, keys := Object(fields), Sort(Keys(fields));
    SortSorts(Keys(fields));
    assert forall i :: 0 <= i < |keys| ==> keys[i] in keys;
    MembersAreJoined(v, keys);
    assert Print(v) == [0x7B] + PrintMembers(v, keys) && Ascii("{") == [0x7B];
    Assoc([0x7B], Joined(MemberTexts(fields, keys)), Ascii("}"));
  }

  /** The text of each kind of value: no spaces, commas between, members in ascending order of their keys. */
  lemma CanonicalForm(v: Json)
    requires Plain(v)
    ensures v.Null? ==> Print(v) == Ascii("null")
    ensures v.Bool? ==> Print(v) == Ascii(if v.b then "true" else "false")
    ensures v.Num? ==> Print(v) == if v.n.NegativeZero? then Ascii("0") else v.n.text
    ensures v.Str? ==> Print(v) == Quoted(v.s)
    ensures v.Arr? ==> Print(v) == Ascii("[") + Joined(ItemTexts(v.items)) + Ascii("]")
    ensures v.Object? ==> IsObjectText(v.fields, Print(v))
  {
    if v.Arr? { ArrayForm(v.items); }
    if v.Object? { ObjectForm(v.fields); }
  }

  // ----- equality of JSON values -----

  predicate SameField(a: Json, b: Json, i: nat)
    requires a.Object? && b.Object? && i < |a.fields|
    decreases a, 0
  {
    var j := IndexOf(b.fields, a.fields[i].0);
    j < |b.fields| && Same(a.fields[i].1, b.fields[j].1)
  }

  /** Equal as JSON values, whatever the insertion order of keys. */
  predicate Same(a: Json, b: Json)
    decreases a, 1
  {
    match a
    case Null => b.Null?
    case Bool(x) => b == Bool(x)
    case Num(x) => b.Num? && NumberText(x) == NumberText(b.n)
    case Str(s) => b == Str(s)
    case Arr(items) => b.Arr? && |items| == |b.items| && forall i :: 0 <= i < |items| ==> Same(items[i], b.items[i])
    case Object(fields) =>
      && b.Object?
      && (forall i :: 0 <= i < |fields| ==> SameField(a, b, i))
      && forall j :: 0 <= j < |b.fields| ==> IndexOf(fields, b.fields[j].0) < |fields|
    case Alien => false
  }

  // ----- equal text means equal value -----

  /** What may follow a printed value: nothing that could continue a number. */
  predicate Ends(s: Text) {
    s == [] || !IsNumberUnit(s[0])
  }

  // `Print(v) + tail`, `PrintItems(v, i) + tail` and `PrintMembers(v, keys) + tail`, built from the front.

  function Separated(comma: bool, tail: Text): Text {
    if comma then [COMMA] + tail else tail
  }

  function PrintThen(v: Json, tail: Text): Text
    decreases v, 1
  {
    match v
    case Null => NULL + tail
    case Bool(b) => (if b then TRUE else FALSE) + tail
    case Num(n) => NumberText(n) + tail
    case Str(s) => Quoted(s) + tail
    case Arr(items) => [0x5B] + ItemsThen(v, 0, tail)
    case Object(fields) => [0x7B] + MembersThen(v, Sort(Keys(fields)), tail)
    case Alien => tail
  }

  function ItemsThen(v: Json, i: nat, tail: Text): Text
    requires v.Arr? && i <= |v.items|
    decreases v, 0, |v.items| - i
  {
    if i == |v.items| then [0x5D] + tail
    else Separated(i > 0, PrintThen(v.items[i], ItemsThen(v, i + 1, tail)))
  }

  function MembersThen(v: Json, keys: seq<Text>, tail: Text): Text
    requires v.Object?
    decreases v, 0, |keys|
  {
    if keys == [] then [0x7D] + tail
    else
      var i := IndexOf(v.fields, keys[0]);
      var rest := Separated(|keys| > 1, MembersThen(v, keys[1..], tail));
      Quoted(keys[0]) + ([COLON] + if i < |v.fields| then PrintThen(v.fields[i].1, rest) else rest)
  }

  lemma {:induction false} PrintThenIsAppend(v: Json, tail: Text)
    ensures PrintThen(v, tail) == Print(v) + tail
    decreases v, 1
  {
    match v
    case Arr(items) =>
      ItemsThenIsAppend(v, 0, tail);
      Assoc([0x5B], PrintItems(v, 0), tail);
    case Object(fields) =>
      var keys := Sort(Keys(fields));
      MembersThenIsAppend(v, keys, tail);
      Assoc([0x7B], PrintMembers(v, keys), tail);
    case _ =>
  }

  lemma {:induction false} ItemsThenIsAppend(v: Json, i: nat, tail: Text)
    requires v.Arr? && i <= |v.items|
    ensures ItemsThen(v, i, tail) == PrintItems(v, i) + tail
    decreases v, 0, |v.items| - i
  {
    if i < |v.items| {
      ItemsThenIsAppend(v, i + 1, tail);
      PrintThenIsAppend(v.items[i], ItemsThen(v, i + 1, tail));
      var h, p, q := if i > 0 then [COMMA] else [], Print(v.items[i]), PrintItems(v, i + 1);
      Assoc(h + p, q, tail);
      Assoc(h, p, q + tail);
    }
  }

  lemma {:induction false} MembersThenIsAppend(v: Json, keys: seq<Text>, tail: Text)
    requires v.Object?
    ensures MembersThen(v, keys, tail) == PrintMembers(v, keys) + tail
    decreases v, 0, |keys|
  {
    if keys != [] {
      var i := IndexOf(v.fields, keys[0]);
      MembersThenIsAppend(v, keys[1..], tail);
      var rest := Separated(|keys| > 1, MembersThen(v, keys[1..], tail));
      if i < |v.fields| { PrintThenIsAppend(v.fields[i].1, rest); }
      var p := if i < |v.fields| then Print(v.fields[i].1) else [];
      var h, q := if |keys| > 1 then [COMMA] else [], PrintMembers(v, keys[1..]);
      Assoc(Quoted(keys[0]) + [COLON] + p + h, q, tail);
      Assoc(Quoted(keys[0]) + [COLON] + p, h, q + tail);
      Assoc(Quoted(keys[0]) + [COLON], p, h + (q + tail));
      Assoc(Quoted(keys[0]), [COLON], p + (h + (q + tail)));
    }
  }

  /** The kind of a value shows in the first unit of its text. */
  lemma HeadOf(v: Json, tail: Text)
    requires Plain(v)
    ensures var p := PrintThen(v, tail);
      && p != [] && p[0] != 0x5D && p[0] != 0x7D && p[0] != COMMA
      && (p[0] == 0x6E <==> v.Null?) && (p[0] == 0x74 <==> v == Bool(true)) && (p[0] == 0x66 <==> v == Bool(false))
      && (p[0] == QUOTE <==> v.Str?) && (p[0] == 0x5B <==> v.Arr?) && (p[0] == 0x7B <==> v.Object?)
  {
  }

  lemma NumbersEnd(x: Text, y: Text, s: Text, t: Text)
    requires IsNumberText(x) && IsNumberText(y) && x + s == y + t && Ends(s) && Ends(t)
    ensures x == y && s == t
  {
    var w := x + s;
    assert forall i :: 0 <= i < |x| ==> w[i] == x[i];
    assert forall i :: 0 <= i < |y| ==> w[i] == y[i];
    assert s != [] ==> w[|x|] == s[0];
    assert t != [] ==> w[|y|] == t[0];
    assert |x| == |y|;
    assert x == w[..|x|] && y == w[..|y|] && s == w[|x|..] && t == w[|y|..];
  }

  lemma Strip(h: Text, x: Text, y: Text)
    requires h + x == h + y
    ensures x == y
  {
    assert (h + x)[|h|..] == x && (h + y)[|h|..] == y;
  }

  /** Printed values are prefix-free: two texts that agree come from equal values and end at the same place. */
  lemma {:induction false} Reads(a: Json, b: Json, s: Text, t: Text)
    requires Plain(a) && Plain(b) && PrintThen(a, s) == PrintThen(b, t) && Ends(s) && Ends(t)
    ensures Same(a, b) && s == t
    decreases a, 1
  {
    HeadOf(a, s);
    HeadOf(b, t);
    match a
    case Null => Strip(NULL, s, t);
    case Bool(x) => Strip(if x then TRUE else FALSE, s, t);
    case Num(x) => NumbersEnd(NumberText(x), NumberText(b.n), s, t);
    case Str(x) => QuotedIsInjective(x, b.s, s, t);
    case Arr(_) =>
      Strip([0x5B], ItemsThen(a, 0, s), ItemsThen(b, 0, t));
      ReadsItems(a, b, 0, s, t);
    case Object(_) => ReadsObject(a, b, s, t);
  }

  lemma {:induction false} ReadsItems(a: Json, b: Json, i: nat, s: Text, t: Text)
    requires a.Arr? && b.Arr? && Plain(a) && Plain(b) && i <= |a.items| && i <= |b.items|
    requires ItemsThen(a, i, s) == ItemsThen(b, i, t)
    ensures s == t && |a.items| == |b.items| && forall j :: i <= j < |a.items| ==> Same(a.items[j], b.items[j])
    decreases a, 0, |a.items| - i
  {
    ItemsHead(a, i, s);
    ItemsHead(b, i, t);
    if i == |a.items| {
      Strip([0x5D], s, t);
    } else {
      ReadsItem(a, b, i, s, t);
      ReadsItems(a, b, i + 1, s, t);
    }
  }

  lemma {:induction false} ReadsItem(a: Json, b: Json, i: nat, s: Text, t: Text)
    requires a.Arr? && b.Arr? && Plain(a) && Plain(b) && i < |a.items| && i < |b.items|
    requires ItemsThen(a, i, s) == ItemsThen(b, i, t)
    ensures Same(a.items[i], b.items[i]) && ItemsThen(a, i + 1, s) == ItemsThen(b, i + 1, t)
    decreases a, 0, 0
  {
    var u, w := ItemsThen(a, i + 1, s), ItemsThen(b, i + 1, t);
    if i > 0 { Strip([COMMA], PrintThen(a.items[i], u), PrintThen(b.items[i], w)); }
    ItemsHead(a, i + 1, s);
    ItemsHead(b, i + 1, t);
    Reads(a.items[i], b.items[i], u, w);
  }

  lemma ItemsHead(a: Json, i: nat, s: Text)
    requires a.Arr? && Plain(a) && i <= |a.items|
    ensures var p := ItemsThen(a, i, s); p != [] && (p[0] == 0x5D <==> i == |a.items|) && (i > 0 ==> Ends(p))
  {
    if i < |a.items| { HeadOf(a.items[i], ItemsThen(a, i + 1, s)); }
  }

  function Value(v: Json, k: Text): Json
    requires v.Object? && k in Keys(v.fields)
    ensures Value(v, k) < v
  {
    var i := IndexOf(v.fields, k);
    assert i < |v.fields|;
    v.fields[i].1
  }

  /** The separator, the rest of the object and the tail after the first of `keys`. */
  function AfterMember(v: Json, keys: seq<Text>, tail: Text): Text
    requires v.Object? && keys != []
  {
    Separated(|keys| > 1, MembersThen(v, keys[1..], tail))
  }

  lemma MembersText(v: Json, keys: seq<Text>, tail: Text)
    requires v.Object? && keys != [] && keys[0] in Keys(v.fields)
    ensures MembersThen(v, keys, tail) == Quoted(keys[0]) + ([COLON] + PrintThen(Value(v, keys[0]), AfterMember(v, keys, tail)))
    ensures MembersThen(v, keys, tail)[0] == QUOTE
    ensures var p := AfterMember(v, keys, tail);
      Ends(p) && p != [] && (p[0] == 0x7D <==> |keys| == 1) && (|keys| == 1 ==> p == [0x7D] + tail)
  {
  }

  lemma SameFromParts(ks: seq<Text>, ls: seq<Text>)
    requires ks != [] && ls != [] && ks[0] == ls[0] && ks[1..] == ls[1..]
    ensures ks == ls
  {
    assert ks == [ks[0]] + ks[1..] && ls == [ls[0]] + ls[1..];
  }

  lemma {:induction false} ReadsMembers(a: Json, b: Json, ks: seq<Text>, ls: seq<Text>, s: Text, t: Text)
    requires a.Object? && b.Object? && Plain(a) && Plain(b)
    requires (forall k :: k in ks ==> k in Keys(a.fields)) && (forall k :: k in ls ==> k in Keys(b.fields))
    requires MembersThen(a, ks, s) == MembersThen(b, ls, t)
    ensures s == t && ks == ls && forall k :: k in ks ==> Same(Value(a, k), Value(b, k))
    decreases a, 0, |ks|
  {
    if ks != [] { MembersText(a, ks, s); }
    if ls != [] { MembersText(b, ls, t); }
    if ks == [] {
      Strip([0x7D], s, t);
    } else {
      ReadsMember(a, b, ks, ls, s, t);
      ReadsRest(a, b, ks, ls, s, t);
      SameFromParts(ks, ls);
      forall k | k in ks ensures Same(Value(a, k), Value(b, k)) {
        if k != ks[0] { assert k in ks[1..]; }
      }
    }
  }

  lemma {:induction false} ReadsRest(a: Json, b: Json, ks: seq<Text>, ls: seq<Text>, s: Text, t: Text)
    requires a.Object? && b.Object? && Plain(a) && Plain(b) && ks != [] && ls != []
    requires (forall k :: k in ks ==> k in Keys(a.fields)) && (forall k :: k in ls ==> k in Keys(b.fields))
    requires AfterMember(a, ks, s) == AfterMember(b, ls, t)
    ensures s == t && ks[1..] == ls[1..] && forall k :: k in ks[1..] ==> k in Keys(a.fields) && k in Keys(b.fields) && Same(Value(a, k), Value(b, k))
    decreases a, 0, |ks|, 0
  {
    MembersText(a, ks, s);
    MembersText(b, ls, t);
    if |ks| == 1 {
      Strip([0x7D], s, t);
    } else {
      Strip([COMMA], MembersThen(a, ks[1..], s), MembersThen(b, ls[1..], t));
      ReadsMembers(a, b, ks[1..], ls[1..], s, t);
    }
  }

  lemma {:induction false} ReadsMember(a: Json, b: Json, ks: seq<Text>, ls: seq<Text>, s: Text, t: Text)
    requires a.Object? && b.Object? && Plain(a) && Plain(b) && ks != [] && ls != []
    requires ks[0] in Keys(a.fields) && ls[0] in Keys(b.fields)
    requires MembersThen(a, ks, s) == MembersThen(b, ls, t)
    ensures ks[0] == ls[0] && Same(Value(a, ks[0]), Value(b, ls[0])) && AfterMember(a, ks, s) == AfterMember(b, ls, t)
    decreases a, 0, 0
  {
    MembersText(a, ks, s);
    MembersText(b, ls, t);
    var u, w := AfterMember(a, ks, s), AfterMember(b, ls, t);
    var av, bv := Value(a, ks[0]), Value(b, ls[0]);
    QuotedIsInjective(ks[0], ls[0], [COLON] + PrintThen(av, u), [COLON] + PrintThen(bv, w));
    Strip([COLON], PrintThen(av, u), PrintThen(bv, w));
    Reads(av, bv, u, w);
  }

  lemma {:induction false} ReadsObject(a: Json, b: Json, s: Text, t: Text)
    requires a.Object? && b.Object? && Plain(a) && Plain(b) && PrintThen(a, s) == PrintThen(b, t)
    ensures Same(a, b) && s == t
    decreases a, 0, |Sort(Keys(a.fields))| + 1
  {
    var ks, ls := Sort(Keys(a.fields)), Sort(Keys(b.fields));
    Strip([0x7B], MembersThen(a, ks, s), MembersThen(b, ls, t));
    SortSorts(Keys(a.fields));
    SortSorts(Keys(b.fields));
    ReadsMembers(a, b, ks, ls, s, t);
    SameFields(a, b, ks);
  }

  lemma KeyFound(fields: seq<(Text, Json)>, k: Text)
    ensures k in Keys(fields) <==> IndexOf(fields, k) < |fields|
  {
    var i := IndexOf(fields, k);
    if i < |fields| { assert Keys(fields)[i] == k; }
    if k in Keys(fields) {
      var j :| 0 <= j < |fields| && Keys(fields)[j] == k;
    }
  }

  lemma SameFields(a: Json, b: Json, ks: seq<Text>)
    requires a.Object? && b.Object? && (forall k :: k in ks <==> k in Keys(a.fields)) && (forall k :: k in ks <==> k in Keys(b.fields))
    requires Distinct(a.fields) && forall k :: k in ks ==> Same(Value(a, k), Value(b, k))
    ensures Same(a, b)
  {
    forall i | 0 <= i < |a.fields| ensures SameField(a, b, i) {
      var k := a.fields[i].0;
      assert Keys(a.fields)[i] == k && k in ks;
      KeyFound(b.fields, k);
      assert Same(Value(a, k), Value(b, k));
    }
    forall j | 0 <= j < |b.fields| ensures IndexOf(a.fields, b.fields[j].0) < |a.fields| {
      assert Keys(b.fields)[j] == b.fields[j].0 && b.fields[j].0 in ks;
      KeyFound(a.fields, b.fields[j].0);
    }
  }

  // ----- equal value means equal text -----

  lemma {:induction false} SamePrints(a: Json, b: Json)
    requires Same(a, b)
    ensures Print(a) == Print(b)
    decreases a, 1
  {
    match a
    case Arr(_) => SamePrintsItems(a, b, 0);
    case Object(fields) =>
      forall k ensures k in Keys(fields) <==> k in Keys(b.fields) {
        KeyFound(fields, k);
        KeyFound(b.fields, k);
        if k in Keys(fields) { assert SameField(a, b, IndexOf(fields, k)); }
      }
      SortSorts(Keys(fields));
      SortSorts(Keys(b.fields));
      SortedIsUnique(Sort(Keys(fields)), Sort(Keys(b.fields)));
      SamePrintsMembers(a, b, Sort(Keys(fields)));
    case _ =>
  }

  lemma {:induction false} SamePrintsItems(a: Json, b: Json, i: nat)
    requires a.Arr? && Same(a, b) && i <= |a.items|
    ensures PrintItems(a, i) == PrintItems(b, i)
    decreases a, 0, |a.items| - i
  {
    if i < |a.items| {
      SamePrints(a.items[i], b.items[i]);
      SamePrintsItems(a, b, i + 1);
    }
  }

  lemma {:induction false} SamePrintsMembers(a: Json, b: Json, keys: seq<Text>)
    requires a.Object? && Same(a, b) && forall k :: k in keys ==> k in Keys(a.fields)
    ensures PrintMembers(a, keys) == PrintMembers(b, keys)
    decreases a, 0, |keys|
  {
    if keys != [] {
      KeyFound(a.fields, keys[0]);
      var i := IndexOf(a.fields, keys[0]);
      assert SameField(a, b, i);
      SamePrints(a.fields[i].1, b.fields[IndexOf(b.fields, keys[0])].1);
      SamePrintsMembers(a, b, keys[1..]);
    }
  }

  /** The canonical text is an identity: equal exactly for values that are equal up to the order of their keys. */
  lemma CanonicalIsFaithful(a: Json, b: Json)
    requires Canonical(a).Some? && Canonical(b).Some?
    ensures Canonical(a) == Canonical(b) <==> Same(a, b)
  {
    if Same(a, b) { SamePrints(a, b); }
    if Print(a) == Print(b) {
      PrintThenIsAppend(a, []);
      PrintThenIsAppend(b, []);
      assert Print(a) + [] == Print(a) && Print(b) + [] == Print(b);
      Reads(a, b, [], []);
    }
  }

  // ----- stamp keys -----

  const STAMP_LIMIT := 1024

  /** The UTF-8 length of a string of UTF-16 units. */
  function ByteLength(t: Text): nat
    decreases |t|
  {
    if t == [] then 0
    else if |t| >= 2 && IsHigh(t[0]) && IsLow(t[1]) then 4 + ByteLength(t[2..])
    else (if t[0] < 0x80 then 1 else if t[0] < 0x800 then 2 else 3) + ByteLength(t[1..])
  }

  function StampKey(v: Json): Option<Text> {
    if !v.Object? || Canonical(v).None? || ByteLength(Canonical(v).value) > STAMP_LIMIT then None else Canonical(v)
  }

  const REPLACEMENT := 0xFFFD

  /** The code points of a string: surrogate pairs combined, a lone surrogate replaced. */
  function CodePoints(t: Text): seq<int>
    decreases |t|
  {
    if t == [] then []
    else if |t| >= 2 && IsHigh(t[0]) && IsLow(t[1]) then [0x10000 + (t[0] - 0xD800) * 0x400 + (t[1] - 0xDC00)] + CodePoints(t[2..])
    else [if IsHigh(t[0]) || IsLow(t[0]) then REPLACEMENT else t[0]] + CodePoints(t[1..])
  }

  /** Some UTF-8 text of at most `limit` bytes stands for the string. */
  ghost predicate FitsInUtf8(t: Text, limit: nat) {
    exists bytes :: Utf8.Decode(bytes) == Some(CodePoints(t)) && |bytes| <= limit
  }

  lemma {:induction false} CodePointsAreScalar(t: Text)
    ensures Utf8.TotalWidth(CodePoints(t)) == ByteLength(t)
    ensures forall i :: 0 <= i < |CodePoints(t)| ==> Utf8.IsScalar(CodePoints(t)[i])
    decreases |t|
  {
    if |t| >= 2 && IsHigh(t[0]) && IsLow(t[1]) {
      CodePointsAreScalar(t[2..]);
    } else if t != [] {
      CodePointsAreScalar(t[1..]);
    }
  }

  /** The byte count is the length of the string in UTF-8. */
  lemma ByteLengthIsUtf8(t: Text, limit: nat)
    ensures FitsInUtf8(t, limit) <==> ByteLength(t) <= limit
  {
    CodePointsAreScalar(t);
    if ByteLength(t) <= limit {
      var bytes := Utf8.Encode(CodePoints(t));
      Utf8.EncodedDecodes(CodePoints(t));
      Utf8.DecodedWidth(bytes);
    }
    if bytes :| Utf8.Decode(bytes) == Some(CodePoints(t)) && |bytes| <= limit { Utf8.DecodedWidth(bytes); }
  }

  /** A stamp is usable exactly if it is a plain JSON object of at most 1024 canonical bytes; its key is the canonical text. */
  lemma StampKeyExactly(v: Json)
    ensures StampKey(v).Some? <==> v.Object? && Plain(v) && FitsInUtf8(Print(v), 1024)
    ensures StampKey(v).Some? ==> StampKey(v) == Some(Print(v))
  {
    ByteLengthIsUtf8(Print(v), 1024);
  }

  /** `sameStamp`: is the record's ext exactly the caller's stamp? */
  predicate SameStamp(ext: Option<Json>, key: Text) {
    ext.Some? && Canonical(ext.value) == Some(key)
  }

  /** A record belongs to a stamp exactly when its ext is that stamp, with nothing beside it. */
  lemma OwnershipIsExact(ext: Json, stamp: Json)
    requires StampKey(stamp).Some?
    ensures SameStamp(Some(ext), StampKey(stamp).value) <==> Plain(ext) && Same(ext, stamp)
    ensures StampKey(ext).Some? ==> (StampKey(ext) == StampKey(stamp) <==> Same(ext, stamp))
  {
    if Plain(ext) { CanonicalIsFaithful(ext, stamp); }
  }

  // ----- merging -----

  function MergedFields(base: seq<(Text, Json)>, stamp: Json): (r: seq<(Text, Json)>)
    requires stamp.Object?
    ensures |r| == |base| && forall i :: 0 <= i < |r| ==> r[i].0 == base[i].0
    decreases stamp, 0, |base|
  {
    if base == [] then []
    else
      var (k, v) := base[0];
      var i := IndexOf(stamp.fields, k);
      [(k, if i < |stamp.fields| then Merge(v, stamp.fields[i].1) else v)] + MergedFields(base[1..], stamp)
  }

  function OnlyIn(stamp: seq<(Text, Json)>, base: seq<(Text, Json)>): seq<(Text, Json)> {
    if stamp == [] then []
    else (if IndexOf(base, stamp[0].0) < |base| then [] else [stamp[0]]) + OnlyIn(stamp[1..], base)
  }

  /** The stamp merged over other facts: the base's keys first, then the stamp's own. */
  function Merge(base: Json, stamp: Json): Json
    decreases stamp, 1
  {
    if base.Object? && stamp.Object? then Object(MergedFields(base.fields, stamp) + OnlyIn(stamp.fields, base.fields))
    else stamp
  }

  function Field(v: Json, k: Text): Option<Json> {
    if v.Object? && IndexOf(v.fields, k) < |v.fields| then Some(v.fields[IndexOf(v.fields, k)].1) else None
  }

  function At(v: Json, path: seq<Text>): Option<Json>
    decreases |path|
  {
    if path == [] then Some(v)
    else
      var f := Field(v, path[0]);
      if f.None? then None else At(f.value, path[1..])
  }

  lemma {:induction false} IndexOfAppend(a: seq<(Text, Json)>, b: seq<(Text, Json)>, k: Text)
    ensures IndexOf(a + b, k) == if IndexOf(a, k) < |a| then IndexOf(a, k) else |a| + IndexOf(b, k)
  {
    if a == [] {
      assert a + b == b;
    } else {
      assert (a + b)[1..] == a[1..] + b;
      IndexOfAppend(a[1..], b, k);
    }
  }

  lemma {:induction false} SameKeysSameIndex(a: seq<(Text, Json)>, b: seq<(Text, Json)>, k: Text)
    requires |a| == |b| && forall i :: 0 <= i < |a| ==> a[i].0 == b[i].0
    ensures IndexOf(a, k) == IndexOf(b, k)
  {
    if a != [] { SameKeysSameIndex(a[1..], b[1..], k); }
  }

  lemma {:induction false} MergedFieldsAt(base: seq<(Text, Json)>, stamp: Json, i: nat)
    requires stamp.Object? && i < |base|
    ensures MergedFields(base, stamp)[i].1 ==
      if Field(stamp, base[i].0).Some? then Merge(base[i].1, Field(stamp, base[i].0).value) else base[i].1
    decreases |base|
  {
    if i > 0 { MergedFieldsAt(base[1..], stamp, i - 1); }
  }

  lemma MergedField(base: seq<(Text, Json)>, stamp: Json, k: Text)
    requires stamp.Object?
    ensures var r, i := MergedFields(base, stamp), IndexOf(base, k);
      && IndexOf(r, k) == i
      && (i < |base| ==> r[i].1 == if Field(stamp, k).Some? then Merge(base[i].1, Field(stamp, k).value) else base[i].1)
  {
    SameKeysSameIndex(MergedFields(base, stamp), base, k);
    if IndexOf(base, k) < |base| { MergedFieldsAt(base, stamp, IndexOf(base, k)); }
  }

  lemma {:induction false} OnlyInField(stamp: seq<(Text, Json)>, base: seq<(Text, Json)>, k: Text)
    requires IndexOf(base, k) == |base|
    ensures var r := OnlyIn(stamp, base);
      && (IndexOf(r, k) < |r| <==> IndexOf(stamp, k) < |stamp|)
      && (IndexOf(r, k) < |r| ==> r[IndexOf(r, k)].1 == stamp[IndexOf(stamp, k)].1)
  {
    if stamp != [] {
      var r := OnlyIn(stamp, base);
      if stamp[0].0 != k {
        OnlyInField(stamp[1..], base, k);
        if IndexOf(base, stamp[0].0) == |base| { assert r[1..] == OnlyIn(stamp[1..], base); }
        else { assert r == OnlyIn(stamp[1..], base); }
      }
    }
  }

  /** The value of every key after a merge. */
  lemma MergeField(base: Json, stamp: Json, k: Text)
    requires base.Object? && stamp.Object?
    ensures Field(Merge(base, stamp), k) ==
      if Field(stamp, k).None? then Field(base, k)
      else if Field(base, k).None? then Field(stamp, k)
      else Some(Merge(Field(base, k).value, Field(stamp, k).value))
  {
    var m, o := MergedFields(base.fields, stamp), OnlyIn(stamp.fields, base.fields);
    IndexOfAppend(m, o, k);
    MergedField(base.fields, stamp, k);
    var i := IndexOf(base.fields, k);
    if i < |base.fields| {
      assert (m + o)[i] == m[i];
    } else {
      OnlyInField(stamp.fields, base.fields, k);
      var n := IndexOf(o, k);
      if n < |o| { assert (m + o)[|m| + n] == o[n]; }
    }
  }

  /** The stamp wins: whatever the base says, every leaf of the stamp is carried to the same place. */
  lemma {:induction false} MergeCarriesStamp(base: Json, stamp: Json, path: seq<Text>)
    requires At(stamp, path).Some?
    ensures var r := At(Merge(base, stamp), path);
      r.Some? && (if At(stamp, path).value.Object? then r.value.Object? else r == At(stamp, path))
    decreases |path|
  {
    if path != [] && base.Object? {
      MergeField(base, stamp, path[0]);
      if Field(base, path[0]).Some? { MergeCarriesStamp(Field(base, path[0]).value, Field(stamp, path[0]).value, path[1..]); }
    }
  }

  /** The path runs through objects of the stamp and then takes a key the stamp does not have. */
  predicate LeavesStamp(stamp: Json, path: seq<Text>)
    decreases |path|
  {
    stamp.Object? && path != [] && (Field(stamp, path[0]).Some? ==> LeavesStamp(Field(stamp, path[0]).value, path[1..]))
  }

  /** Everything under a key only the base has is kept as it is; where the base has nothing, nothing appears. */
  lemma {:induction false} MergeKeepsBase(base: Json, stamp: Json, path: seq<Text>)
    requires LeavesStamp(stamp, path)
    ensures At(Merge(base, stamp), path) == At(base, path)
    decreases |path|
  {
    if base.Object? {
      MergeField(base, stamp, path[0]);
      if Field(stamp, path[0]).Some? {
        if Field(base, path[0]).Some? {
          MergeKeepsBase(Field(base, path[0]).value, Field(stamp, path[0]).value, path[1..]);
        } else {
          LeavesNothing(Field(stamp, path[0]).value, path[1..]);
        }
      }
    } else {
      LeavesNothing(stamp, path);
    }
  }

  lemma {:induction false} LeavesNothing(stamp: Json, path: seq<Text>)
    requires LeavesStamp(stamp, path)
    ensures At(stamp, path).None?
    decreases |path|
  {
    if Field(stamp, path[0]).Some? { LeavesNothing(Field(stamp, path[0]).value, path[1..]); }
  }

  /** Every JavaScript object has each key once. */
  predicate ObjectsOk(v: Json) {
    match v
    case Arr(items) => forall i :: 0 <= i < |items| ==> ObjectsOk(items[i])
    case Object(fields) => Distinct(fields) && forall i :: 0 <= i < |fields| ==> ObjectsOk(fields[i].1)
    case _ => true
  }

  lemma {:induction false} OnlyInNothing(stamp: seq<(Text, Json)>, base: seq<(Text, Json)>)
    requires forall i :: 0 <= i < |stamp| ==> IndexOf(base, stamp[i].0) < |base|
    ensures OnlyIn(stamp, base) == []
  {
    if stamp != [] { OnlyInNothing(stamp[1..], base); }
  }

  lemma {:induction false} IndexInDistinct(fields: seq<(Text, Json)>, i: nat)
    requires i < |fields| && Distinct(fields)
    ensures IndexOf(fields, fields[i].0) == i
  {
  }

  /** Merging a value over itself changes nothing. */
  lemma {:induction false} MergeSelf(v: Json)
    requires ObjectsOk(v)
    ensures Merge(v, v) == v
    decreases v
  {
    if v.Object? {
      forall i | 0 <= i < |v.fields| ensures MergedFields(v.fields, v)[i] == v.fields[i] && IndexOf(v.fields, v.fields[i].0) == i {
        IndexInDistinct(v.fields, i);
        MergedFieldsAt(v.fields, v, i);
        MergeSelf(v.fields[i].1);
      }
      OnlyInNothing(v.fields, v.fields);
      assert MergedFields(v.fields, v) == v.fields;
    }
  }

  /** Applying a stamp twice is applying it once, key order included. */
  lemma {:induction false} MergeIsIdempotent(base: Json, stamp: Json)
    requires ObjectsOk(base) && ObjectsOk(stamp)
    ensures Merge(Merge(base, stamp), stamp) == Merge(base, stamp)
    decreases stamp
  {
    if !base.Object? || !stamp.Object? {
      MergeSelf(stamp);
    } else {
      var m := Merge(base, stamp);
      var again := MergedFields(m.fields, stamp);
      forall i | 0 <= i < |m.fields| ensures again[i] == m.fields[i] {
        MergedFieldsAt(m.fields, stamp, i);
        MergedAgain(base, stamp, i);
        var k := m.fields[i].0;
        if Field(stamp, k).Some? {
          if i < |base.fields| { MergeIsIdempotent(base.fields[i].1, Field(stamp, k).value); }
          else { MergeSelf(Field(stamp, k).value); }
        }
      }
      forall i | 0 <= i < |stamp.fields| ensures IndexOf(m.fields, stamp.fields[i].0) < |m.fields| {
        IndexInDistinct(stamp.fields, i);
        MergeField(base, stamp, stamp.fields[i].0);
      }
      OnlyInNothing(stamp.fields, m.fields);
      assert again == m.fields;
    }
  }

  /** Where the i-th field of a merge comes from. */
  lemma MergedAgain(base: Json, stamp: Json, i: nat)
    requires base.Object? && stamp.Object? && ObjectsOk(base) && ObjectsOk(stamp) && i < |Merge(base, stamp).fields|
    ensures var (k, v) := Merge(base, stamp).fields[i];
      if i < |base.fields| then
        k == base.fields[i].0 && v == (if Field(stamp, k).Some? then Merge(base.fields[i].1, Field(stamp, k).value) else base.fields[i].1)
      else Field(stamp, k) == Some(v)
  {
    if i < |base.fields| {
      MergedFieldsAt(base.fields, stamp, i);
    } else {
      OnlyInFrom(stamp.fields, base.fields, i - |base.fields|);
    }
  }

  lemma {:induction false} OnlyInFrom(stamp: seq<(Text, Json)>, base: seq<(Text, Json)>, i: nat)
    requires Distinct(stamp) && i < |OnlyIn(stamp, base)|
    ensures var (k, v) := OnlyIn(stamp, base)[i]; IndexOf(stamp, k) < |stamp| && stamp[IndexOf(stamp, k)].1 == v
  {
    var j := if IndexOf(base, stamp[0].0) < |base| then i else i - 1;
    if j >= 0 {
      assert Distinct(stamp[1..]);
      OnlyInFrom(stamp[1..], base, j);
      var k := OnlyIn(stamp, base)[i].0;
      assert stamp[1 + IndexOf(stamp[1..], k)].0 == k;
    }
  }
}
