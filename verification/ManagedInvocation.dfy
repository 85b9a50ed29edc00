/** Managed invocations as shell text: quoting and reading arguments, printing and normalising whole commands. */
module ManagedInvocation {
  import opened JsObject
  import opened Substrings

  predicate IsControl(c: char) { c as int <= 0x1f || c as int == 0x7f }

  predicate HasControl(s: string) { exists i :: 0 <= i < |s| && IsControl(s[i]) }

  function Escaped(v: string): string {
    if v == "" then "" else (if v[0] == '\'' then "'\\''" else [v[0]]) + Escaped(v[1..])
  }

  /** `quotePosixArgument`: only absolute paths without control characters. */
  function Quote(v: string): Option<string> {
    if HasControl(v) || v == "" || v[0] != '/' then None else Some("'" + Escaped(v) + "'")
  }

  predicate StartsEscape(s: string) {
    |s| >= 4 && s[0] == '\'' && s[1] == '\\' && s[2] == '\'' && s[3] == '\''
  }

  /** What remains after a closing quote would make that quote the start of an escape. */
  predicate ReopensQuote(rest: string) {
    |rest| >= 3 && rest[0] == '\\' && rest[1] == '\'' && rest[2] == '\''
  }

  function Before(prefix: string, r: Option<(string, string)>): Option<(string, string)> {
    if r.None? then None else Some((prefix + r.value.0, r.value.1))
  }

  /** Inside an opened quote: the value up to its closing quote, and the text after it. */
  function ReadQuoted(s: string): Option<(string, string)>
    decreases |s|
  {
    if s == "" then None
    else if StartsEscape(s) then Before("'", ReadQuoted(s[4..]))
    else if s[0] == '\'' then Some(("", s[1..]))
    else Before([s[0]], ReadQuoted(s[1..]))
  }

  function ReadArgument(s: string): Option<(string, string)> {
    if s != "" && s[0] == '\'' then ReadQuoted(s[1..]) else None
  }

  method ReadShellArgument(command: string, start: nat) returns (r: Option<(string, nat)>)
    requires start <= |command|
    ensures r.Some? <==> ReadArgument(command[start..]).Some?
    ensures r.Some? ==> r.value.1 <= |command| && ReadArgument(command[start..]) == Some((r.value.0, command[r.value.1..]))
  {
    var index := start;
    var result := "";
    if index < |command| && command[index] == '\'' {
      index := index + 1;
      assert command[start..][1..] == command[index..];
      BeforeNothing(ReadQuoted(command[index..]));
      while index < |command|
        invariant start < index <= |command|
        invariant ReadArgument(command[start..]) == Before(result, ReadQuoted(command[index..]))
      {
        ghost var here := command[index..];
        if index + 4 <= |command| && command[index] == '\'' && command[index + 1] == '\\' && command[index + 2] == '\'' && command[index + 3] == '\'' {
          assert here[4..] == command[index + 4..];
          BeforeBefore(result, "'", ReadQuoted(here[4..]));
          result := result + "'";
          index := index + 4;
        } else if command[index] == '\'' {
          assert here[1..] == command[index + 1..];
          assert result + "" == result;
          return Some((result, index + 1));
        } else {
          assert here[1..] == command[index + 1..];
          BeforeBefore(result, [command[index]], ReadQuoted(here[1..]));
          result := result + [command[index]];
          index := index + 1;
        }
      }
      assert command[index..] == "";
    }
    r := None;
  }

  lemma BeforeNothing(r: Option<(string, string)>)
    ensures Before("", r) == r
  {
    if r.Some? { assert "" + r.value.0 == r.value.0; }
  }

  lemma BeforeBefore(a: string, b: string, r: Option<(string, string)>)
    ensures Before(a, Before(b, r)) == Before(a + b, r)
  {
    if r.Some? { assert a + (b + r.value.0) == a + b + r.value.0; }
  }

  /** Reading gives back the quoted value exactly when what follows does not reopen the quote: a space or the end does not. */
  lemma {:induction false} ReadsEscaped(v: string, rest: string)
    ensures ReadQuoted(Escaped(v) + "'" + rest) == Some((v, rest)) <==> !ReopensQuote(rest)
    ensures ReadQuoted(Escaped(v) + "'" + rest) == Before(v, ReadQuoted("'" + rest))
  {
    var s := Escaped(v) + "'" + rest;
    if v == "" {
      assert s == "'" + rest && s[1..] == rest;
      if ReadQuoted(s).Some? { assert "" + ReadQuoted(s).value.0 == ReadQuoted(s).value.0; }
      if ReopensQuote(rest) { assert StartsEscape(s); }
    } else {
      ReadsEscaped(v[1..], rest);
      var tail := Escaped(v[1..]) + "'" + rest;
      if v[0] == '\'' {
        assert s == "'\\''" + tail && s[4..] == tail && StartsEscape(s);
        BeforeBefore("'", v[1..], ReadQuoted("'" + rest));
        assert "'" + v[1..] == v;
      } else {
        assert s == [v[0]] + tail && s[1..] == tail;
        BeforeBefore([v[0]], v[1..], ReadQuoted("'" + rest));
        assert [v[0]] + v[1..] == v;
      }
      ReadLonger("'" + rest);
    }
  }

  /** A read value and what is left are shorter than the text read from. */
  lemma {:induction false} ReadLonger(s: string)
    ensures ReadQuoted(s).Some? ==> |ReadQuoted(s).value.0| + |ReadQuoted(s).value.1| < |s|
    decreases |s|
  {
    if s != "" {
      if StartsEscape(s) { ReadLonger(s[4..]); } else if s[0] != '\'' { ReadLonger(s[1..]); }
    }
  }

  /** Every text that reads as an argument is the quoting of the value read. */
  lemma {:induction false} ReadIsCanonical(s: string)
    ensures ReadQuoted(s).Some? ==> s == Escaped(ReadQuoted(s).value.0) + "'" + ReadQuoted(s).value.1 && !ReopensQuote(ReadQuoted(s).value.1)
    decreases |s|
  {
    if ReadQuoted(s).Some? {
      if StartsEscape(s) {
        ReadIsCanonical(s[4..]);
        var (w, rest) := ReadQuoted(s[4..]).value;
        EscapedCons('\'', w);
        Regroup("'\\''", Escaped(w), "'", rest);
        assert s == "'\\''" + s[4..];
      } else if s[0] == '\'' {
        assert s == "'" + s[1..];
        assert StartsEscape(s) <==> ReopensQuote(s[1..]);
      } else {
        ReadIsCanonical(s[1..]);
        var (w, rest) := ReadQuoted(s[1..]).value;
        EscapedCons(s[0], w);
        Regroup([s[0]], Escaped(w), "'", rest);
        assert s == [s[0]] + s[1..];
      }
    }
  }

  lemma EscapedCons(c: char, v: string)
    ensures Escaped([c] + v) == (if c == '\'' then "'\\''" else [c]) + Escaped(v)
    ensures c == '\'' ==> "'" + v == [c] + v
  {
    assert ([c] + v)[1..] == v;
  }

  lemma Regroup(a: string, b: string, c: string, d: string)
    ensures a + (b + c + d) == (a + b) + c + d
  {
  }

  // ----- managed invocations -----

  datatype Telemetry = AdapterOff | Official

  const PREFIX := "env OPENSPEC_NO_UPDATE_CHECK=1 "
  const TELEMETRY_OFF := "OPENSPEC_TELEMETRY=0 "

  function ModeText(t: Telemetry): string { if t == AdapterOff then TELEMETRY_OFF else "" }

  function Managed(node: string, cli: string, t: Telemetry): Option<string> {
    var n, c := Quote(node), Quote(cli);
    if n.None? || c.None? then None else Some(PREFIX + ModeText(t) + n.value + " " + c.value)
  }

  /** An absolute path without control characters. */
  predicate IsManagedPath(v: string) {
    v != "" && v[0] == '/' && forall i :: 0 <= i < |v| ==> 0x20 <= v[i] as int && v[i] as int != 0x7f
  }

  /** Exactly the pairs of such paths have a managed invocation, and this is its text. */
  lemma ManagedExactly(node: string, cli: string, t: Telemetry)
    ensures Managed(node, cli, t).Some? <==> IsManagedPath(node) && IsManagedPath(cli)
    ensures Managed(node, cli, t).Some? ==>
      Managed(node, cli, t).value ==
        "env OPENSPEC_NO_UPDATE_CHECK=1 " + (if t.AdapterOff? then "OPENSPEC_TELEMETRY=0 " else "") + ("'" + Escaped(node) + "'") + " " + ("'" + Escaped(cli) + "'")
  {
  }

  /** The two arguments after the environment, or None. */
  function ReadPair(s: string): Option<(string, string)> {
    var node := ReadArgument(s);
    if node.None? || node.value.1 == "" || node.value.1[0] != ' ' then None
    else
      var cli := ReadArgument(node.value.1[1..]);
      if cli.None? || cli.value.1 != "" then None else Some((node.value.0, cli.value.0))
  }

  function Normalized(value: string, t: Telemetry): Option<string> {
    if HasControl(value) || !(PREFIX <= value) then None
    else
      var rest := value[|PREFIX|..];
      var off := TELEMETRY_OFF <= rest;
      var pair := ReadPair(if off then rest[|TELEMETRY_OFF|..] else rest);
      if pair.None? || off != (t == AdapterOff) then None else Managed(pair.value.0, pair.value.1, t)
  }

  method ReadPairAt(value: string, start: nat) returns (r: Option<(string, string)>)
    requires start <= |value|
    ensures r == ReadPair(value[start..])
  {
    var node := ReadShellArgument(value, start);
    if node.None? { return None; }
    var index := node.value.1;
    if index == |value| || value[index] != ' ' { return None; }
    assert value[index..][1..] == value[index + 1..];
    var cli := ReadShellArgument(value, index + 1);
    if cli.None? || cli.value.1 != |value| { return None; }
    r := Some((node.value.0, cli.value.0));
  }

  method NormalizeInvocation(value: string, telemetry: Telemetry) returns (r: Option<string>)
    ensures r == Normalized(value, telemetry)
  {
    if HasControl(value) || !(PREFIX <= value) { return None; }
    var index := |PREFIX|;
    var found := Official;
    if TELEMETRY_OFF <= value[index..] {
      found := AdapterOff;
      assert value[index..][|TELEMETRY_OFF|..] == value[index + |TELEMETRY_OFF|..];
      index := index + |TELEMETRY_OFF|;
    }
    var pair := ReadPairAt(value, index);
    if pair.None? || (telemetry == AdapterOff) != (found == AdapterOff) { return None; }
    r := Managed(pair.value.0, pair.value.1, telemetry);
  }

  lemma QuotedReads(v: string, rest: string)
    requires Quote(v).Some? && !ReopensQuote(rest)
    ensures ReadArgument(Quote(v).value + rest) == Some((v, rest))
  {
    ReadsEscaped(v, rest);
    assert (Quote(v).value + rest)[1..] == Escaped(v) + "'" + rest;
  }

  lemma ReadArgumentIsCanonical(s: string)
    requires ReadArgument(s).Some?
    ensures s == "'" + Escaped(ReadArgument(s).value.0) + "'" + ReadArgument(s).value.1
  {
    ReadIsCanonical(s[1..]);
    assert s == "'" + s[1..];
  }

  /** A pair that reads is printed back as the very same text. */
  lemma PairIsCanonical(s: string)
    requires ReadPair(s).Some?
    ensures var (a, b) := ReadPair(s).value;
      s == ("'" + Escaped(a) + "'") + " " + ("'" + Escaped(b) + "'")
  {
    var (a, b) := ReadPair(s).value;
    ReadArgumentIsCanonical(s);
    var rest := ReadArgument(s).value.1;
    ReadArgumentIsCanonical(rest[1..]);
    assert rest == " " + rest[1..];
    assert rest[1..] == "'" + Escaped(b) + "'" + "" == "'" + Escaped(b) + "'";
    var q := "'" + Escaped(a) + "'";
    assert s == q + rest;
  }

  lemma PairReads(node: string, cli: string)
    requires Quote(node).Some? && Quote(cli).Some?
    ensures ReadPair(Quote(node).value + " " + Quote(cli).value) == Some((node, cli))
  {
    var tail := " " + Quote(cli).value;
    assert Quote(node).value + " " + Quote(cli).value == Quote(node).value + tail;
    QuotedReads(node, tail);
    assert tail[1..] == Quote(cli).value + "";
    QuotedReads(cli, "");
  }

  lemma NormalizedIsIdentity(value: string, t: Telemetry)
    ensures Normalized(value, t).Some? ==> Normalized(value, t) == Some(value)
    ensures Normalized(value, t).Some? ==> exists node, cli :: Managed(node, cli, t) == Some(value)
  {
    if Normalized(value, t).Some? {
      var rest := value[|PREFIX|..];
      var s := if t == AdapterOff then rest[|TELEMETRY_OFF|..] else rest;
      var (node, cli) := ReadPair(s).value;
      PairIsCanonical(s);
      assert Normalized(value, t) == Managed(node, cli, t);
      TextIs(value, PREFIX, rest, ModeText(t), s);
      Reassociate(PREFIX, ModeText(t), Quote(node).value, " ", Quote(cli).value);
    }
  }

  lemma TextIs(value: string, prefix: string, rest: string, mode: string, s: string)
    requires prefix <= value && rest == value[|prefix|..] && mode <= rest && s == rest[|mode|..]
    ensures value == prefix + (mode + s)
  {
  }

  lemma Reassociate(p: string, m: string, a: string, b: string, c: string)
    ensures p + (m + (a + b + c)) == p + m + a + b + c
  {
  }

  lemma {:induction false} EscapedKeepsControl(v: string)
    ensures HasControl(Escaped(v)) ==> HasControl(v)
  {
    if HasControl(Escaped(v)) {
      var i :| 0 <= i < |Escaped(v)| && IsControl(Escaped(v)[i]);
      var head := if v[0] == '\'' then "'\\''" else [v[0]];
      if i < |head| {
        assert Escaped(v)[i] == head[i];
        assert v[0] != '\'';
        assert IsControl(v[0]);
      } else {
        assert IsControl(Escaped(v[1..])[i - |head|]);
        EscapedKeepsControl(v[1..]);
        var j :| 0 <= j < |v[1..]| && IsControl(v[1..][j]);
        assert IsControl(v[j + 1]);
      }
    }
  }

  lemma ConcatControl(a: string, b: string)
    requires !HasControl(a) && !HasControl(b)
    ensures !HasControl(a + b)
  {
  }

  lemma QuotedHasNoControl(v: string)
    requires Quote(v).Some?
    ensures !HasControl(Quote(v).value)
  {
    EscapedKeepsControl(v);
    ConcatControl("'", Escaped(v));
    ConcatControl("'" + Escaped(v), "'");
  }

  lemma FixedTextHasNoControl(t: Telemetry)
    ensures !HasControl(PREFIX) && !HasControl(ModeText(t)) && !HasControl(" ")
  {
  }

  lemma ManagedHasNoControl(node: string, cli: string, t: Telemetry)
    requires Managed(node, cli, t).Some?
    ensures !HasControl(Managed(node, cli, t).value)
  {
    FixedTextHasNoControl(t);
    QuotedHasNoControl(node);
    QuotedHasNoControl(cli);
    ConcatControl(PREFIX, ModeText(t));
    ConcatControl(PREFIX + ModeText(t), Quote(node).value);
    ConcatControl(PREFIX + ModeText(t) + Quote(node).value, " ");
    ConcatControl(PREFIX + ModeText(t) + Quote(node).value + " ", Quote(cli).value);
  }

  lemma ManagedNormalizes(node: string, cli: string, t: Telemetry)
    requires Managed(node, cli, t).Some?
    ensures Normalized(Managed(node, cli, t).value, t) == Managed(node, cli, t)
  {
    var value := Managed(node, cli, t).value;
    var pair := Quote(node).value + " " + Quote(cli).value;
    ManagedHasNoControl(node, cli, t);
    PairReads(node, cli);
    Reassociate(PREFIX, ModeText(t), Quote(node).value, " ", Quote(cli).value);
    PrefixThen(PREFIX, ModeText(t) + pair);
    if t == AdapterOff {
      PrefixThen(TELEMETRY_OFF, pair);
    } else {
      assert "" + pair == pair;
      QuoteIsNotMode(pair);
    }
  }

  lemma PrefixThen(p: string, s: string)
    ensures p <= p + s && (p + s)[|p|..] == s
  {
  }

  lemma QuoteIsNotMode(s: string)
    requires s != "" && s[0] == '\''
    ensures !(TELEMETRY_OFF <= s)
  {
    assert TELEMETRY_OFF[0] == 'O';
  }

  /** Normalising accepts exactly the strings a managed invocation has in that telemetry mode, and leaves them as they are. */
  lemma NormalizesExactlyManaged(value: string, t: Telemetry)
    ensures Normalized(value, t).Some? <==> exists node, cli :: Managed(node, cli, t) == Some(value)
    ensures Normalized(value, t).Some? ==> Normalized(value, t) == Some(value)
  {
    NormalizedIsIdentity(value, t);
    if node, cli :| Managed(node, cli, t) == Some(value) { ManagedNormalizes(node, cli, t); }
  }

  lemma NormalizedEndsQuoted(value: string, t: Telemetry)
    requires Normalized(value, t).Some?
    ensures value != "" && value[|value| - 1] == '\''
  {
    NormalizedIsIdentity(value, t);
  }

  // ----- text inside a quoted path -----

  lemma {:induction false} EscapedPrefix(v: string, t: string)
    requires '\'' !in t && '\\' !in t
    ensures t <= Escaped(v) <==> t <= v
    decreases |v|
  {
    if t != "" && v != "" {
      if v[0] == '\'' {
        assert Escaped(v)[0] == '\'';
      } else {
        var e := Escaped(v[1..]);
        assert Escaped(v) == [v[0]] + e;
        EscapedPrefix(v[1..], t[1..]);
        PrefixCons(v[0], e, t);
        PrefixCons(v[0], v[1..], t);
        assert v == [v[0]] + v[1..];
      }
    }
  }

  /** Quoting neither makes nor breaks an occurrence of text without quotes and backslashes. */
  lemma {:induction false} EscapedIncludes(v: string, t: string)
    requires t != "" && '\'' !in t && '\\' !in t
    ensures Includes(Escaped(v), t) <==> Includes(v, t)
    decreases |v|
  {
    if v == "" {
    } else {
      EscapedIncludes(v[1..], t);
      var head := if v[0] == '\'' then "'\\''" else [v[0]];
      var e := Escaped(v[1..]);
      assert Escaped(v) == head + e;
      EscapedPrefix(v, t);
      AtIsPrefix(Escaped(v), t, 0);
      AtIsPrefix(v, t, 0);
      if v[0] == '\'' {
        IncludesAfterQuote(e, t);
        IncludesCons('\'', v[1..], t);
      } else {
        IncludesCons(v[0], e, t);
        IncludesCons(v[0], v[1..], t);
      }
      assert v == [v[0]] + v[1..];
    }
  }

  lemma IncludesAfterQuote(e: string, t: string)
    requires t != "" && '\'' !in t && '\\' !in t
    ensures Includes("'\\''" + e, t) <==> Includes(e, t)
  {
    var all := "'\\''" + e;
    if Includes(all, t) {
      var i :| 0 <= i <= |all| && At(all, t, i);
      CharsOf(all, t, i);
      assert all[0] == '\'' && all[1] == '\\' && all[2] == '\'' && all[3] == '\'';
      assert all[i] == t[0] && t[0] in t;
      Shifted("'\\''", e, t, i);
      assert At(e, t, i - 4);
    }
    if Includes(e, t) {
      var i :| 0 <= i <= |e| && At(e, t, i);
      Shifted("'\\''", e, t, i + 4);
      assert At(all, t, i + 4);
    }
  }

  /** Text without quotes and backslashes that begins with `<` is in an invocation exactly when it is in one of the two paths. */
  lemma IncludedThroughPaths(node: string, cli: string, mode: Telemetry, t: string)
    requires Managed(node, cli, mode).Some? && t != "" && t[0] == '<' && '\'' !in t && '\\' !in t
    ensures Includes(Managed(node, cli, mode).value, t) <==> Includes(node, t) || Includes(cli, t)
  {
    var n, c := Escaped(node), Escaped(cli);
    var front := PREFIX + ModeText(mode);
    var last := c + ['\''] + "";
    var middle := " " + ['\''] + last;
    var pair := n + ['\''] + middle;
    assert Managed(node, cli, mode).value == front + ['\''] + pair;
    NoBracketInFront(mode);
    NeedsBracket(front, t);
    NeedsBracket(" ", t);
    NeedsBracket("", t);
    IncludesParts(front, '\'', pair, t);
    IncludesParts(n, '\'', middle, t);
    IncludesParts(" ", '\'', last, t);
    IncludesParts(c, '\'', "", t);
    EscapedIncludes(node, t);
    EscapedIncludes(cli, t);
  }

  lemma NoBracketInFront(mode: Telemetry)
    ensures '<' !in PREFIX + ModeText(mode)
  {
    assert '<' !in PREFIX;
    assert '<' !in ModeText(mode);
  }
}
