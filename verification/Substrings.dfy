/** Occurrences of one text in another. */
module Substrings {
  import opened JsObject
  import opened Lines

  predicate At(s: string, t: string, i: nat) {
    i + |t| <= |s| && s[i..i + |t|] == t
  }

  predicate Includes(s: string, t: string) {
    exists i :: 0 <= i <= |s| && At(s, t, i)
  }

  predicate EndsWith(s: string, t: string) {
    |t| <= |s| && s[|s| - |t|..] == t
  }

  function LastFrom(s: string, t: string, n: nat): Option<nat> {
    if At(s, t, n) then Some(n) else if n == 0 then None else LastFrom(s, t, n - 1)
  }

  function LastIndexOf(s: string, t: string): Option<nat> { LastFrom(s, t, |s|) }

  lemma {:induction false} LastFromIs(s: string, t: string, n: nat, i: nat)
    requires i <= n && At(s, t, i) && forall j :: i < j <= n ==> !At(s, t, j)
    ensures LastFrom(s, t, n) == Some(i)
    decreases n
  {
    if n != i { LastFromIs(s, t, n - 1, i); }
  }

  lemma {:induction false} LastFromFound(s: string, t: string, n: nat)
    ensures LastFrom(s, t, n).Some? ==> LastFrom(s, t, n).value <= n && At(s, t, LastFrom(s, t, n).value)
    ensures LastFrom(s, t, n).Some? ==> forall j :: LastFrom(s, t, n).value < j <= n ==> !At(s, t, j)
  {
    if !At(s, t, n) && n != 0 { LastFromFound(s, t, n - 1); }
  }

  lemma CharsOf(s: string, t: string, i: nat)
    requires At(s, t, i)
    ensures forall k :: i <= k < i + |t| ==> s[k] == t[k - i]
  {
    forall k | i <= k < i + |t| ensures s[k] == t[k - i] { assert s[i..i + |t|][k - i] == s[k]; }
  }

  /** An occurrence of text without the separator lies before the separator or after it. */
  lemma WithinPart(a: string, sep: char, b: string, t: string, i: nat)
    requires At(a + [sep] + b, t, i) && sep !in t && t != ""
    ensures if i < |a| + 1 then At(a, t, i) else At(b, t, i - |a| - 1)
  {
    var s := a + [sep] + b;
    assert s[|a|] == sep;
    CharsOf(s, t, i);
    if i <= |a| {
      assert a[i..i + |t|] == s[i..i + |t|];
    } else {
      assert b[i - |a| - 1..i - |a| - 1 + |t|] == s[i..i + |t|];
    }
  }

  lemma IncludesParts(a: string, sep: char, b: string, t: string)
    requires sep !in t && t != ""
    ensures Includes(a + [sep] + b, t) <==> Includes(a, t) || Includes(b, t)
  {
    var s := a + [sep] + b;
    if Includes(s, t) {
      var i :| 0 <= i <= |s| && At(s, t, i);
      WithinPart(a, sep, b, t, i);
      assert At(a, t, i) || At(b, t, i - |a| - 1);
    }
    if Includes(a, t) {
      var i :| 0 <= i <= |a| && At(a, t, i);
      assert s[i..i + |t|] == a[i..i + |t|];
      assert At(s, t, i);
    }
    if Includes(b, t) {
      var i :| 0 <= i <= |b| && At(b, t, i);
      Shifted(a + [sep], b, t, i + |a| + 1);
      assert At(s, t, i + |a| + 1);
    }
  }

  /** Text without newlines that no line includes is not in their join. */
  lemma {:induction false} NotInJoin(lines: seq<string>, t: string)
    requires lines != [] && '\n' !in t && t != "" && forall k :: 0 <= k < |lines| ==> !Includes(lines[k], t)
    ensures !Includes(Join(lines), t)
    decreases |lines|
  {
    if |lines| > 1 {
      NotInJoin(lines[1..], t);
      assert "\n" == ['\n'];
      IncludesParts(lines[0], '\n', Join(lines[1..]), t);
    }
  }

  lemma Shifted(a: string, b: string, t: string, i: nat)
    ensures i >= |a| ==> (At(a + b, t, i) <==> At(b, t, i - |a|))
  {
    if i >= |a| && i + |t| <= |a + b| {
      assert (a + b)[i..i + |t|] == b[i - |a|..i - |a| + |t|];
    }
  }

  lemma IncludesCons(c: char, s: string, t: string)
    ensures Includes([c] + s, t) <==> At([c] + s, t, 0) || Includes(s, t)
  {
    var all := [c] + s;
    if Includes(all, t) {
      var i :| 0 <= i <= |all| && At(all, t, i);
      if i > 0 {
        Shifted([c], s, t, i);
        assert At(s, t, i - 1);
      }
    }
    if Includes(s, t) {
      var i :| 0 <= i <= |s| && At(s, t, i);
      Shifted([c], s, t, i + 1);
      assert At(all, t, i + 1);
    }
  }

  /** `At` as a prefix of what remains. */
  lemma AtIsPrefix(s: string, t: string, i: nat)
    requires i <= |s|
    ensures At(s, t, i) <==> t <= s[i..]
  {
    if i + |t| <= |s| { assert s[i..i + |t|] == s[i..][..|t|]; }
  }

  lemma PrefixCons(c: char, s: string, t: string)
    requires t != ""
    ensures t <= [c] + s <==> t[0] == c && t[1..] <= s
  {
    if t[0] == c && t[1..] <= s { assert t == [c] + t[1..]; }
    if t <= [c] + s { assert t[1..] == ([c] + s)[1..|t|] == s[..|t| - 1]; }
  }

  /** Text that begins with `<` is not in text without one. */
  lemma NeedsBracket(s: string, t: string)
    requires '<' !in s && t != "" && t[0] == '<'
    ensures !Includes(s, t)
  {
    forall i: nat | i <= |s| ensures !At(s, t, i) {
      if i + |t| <= |s| {
        assert s[i..i + |t|][0] == s[i];
        assert s[i] in s;
      }
    }
  }

  /** The last occurrence in the text lies in the line that holds it when nothing later does. */
  lemma LastInLine(head: string, line: string, tail: string, t: string)
    requires '\n' !in t && t != "" && Includes(line, t) && !Includes(tail, t)
    ensures var r := LastIndexOf(head + (line + "\n" + tail), t);
      r.Some? && |head| <= r.value && r.value - |head| + |t| <= |line|
  {
    var rest := line + "\n" + tail;
    var content := head + rest;
    var i :| 0 <= i <= |line| && At(line, t, i);
    assert rest[i..i + |t|] == line[i..i + |t|];
    Shifted(head, rest, t, |head| + i);
    LastIsAtLeast(content, t, |content|, |head| + i);
    var q := LastIndexOf(content, t).value;
    Shifted(head, rest, t, q);
    assert "\n" == ['\n'];
    WithinPart(line, '\n', tail, t, q - |head|);
  }

  lemma {:induction false} LastIsAtLeast(s: string, t: string, n: nat, i: nat)
    requires i <= n && At(s, t, i)
    ensures LastFrom(s, t, n).Some? && i <= LastFrom(s, t, n).value <= n && At(s, t, LastFrom(s, t, n).value)
    decreases n
  {
    if !At(s, t, n) { LastIsAtLeast(s, t, n - 1, i); }
  }
}
