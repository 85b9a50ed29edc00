/** Splitting text at newlines and joining lines with them. */
module Lines {
  /** `text.split('\n')` */
  function Split(text: string): (lines: seq<string>)
    ensures lines != []
  {
    if text == "" then [""] else Prepend(text[0], Split(text[1..]))
  }

  function Prepend(ch: char, lines: seq<string>): (r: seq<string>)
    requires lines != []
    ensures r != []
  {
    if ch == '\n' then [""] + lines else [[ch] + lines[0]] + lines[1..]
  }

  /** `lines.join('\n')` */
  function Join(lines: seq<string>): string
    requires lines != []
  {
    if |lines| == 1 then lines[0] else lines[0] + "\n" + Join(lines[1..])
  }

  lemma {:induction false} SplitAtNewline(a: string, b: string)
    ensures Split(a + "\n" + b) == Split(a) + Split(b)
  {
    var whole := a + "\n" + b;
    assert Split(whole) == Prepend(whole[0], Split(whole[1..]));
    if a == "" {
      assert whole[1..] == b;
    } else {
      assert whole[1..] == a[1..] + "\n" + b;
      SplitAtNewline(a[1..], b);
      PrependAppend(a[0], Split(a[1..]), Split(b));
    }
  }

  lemma PrependAppend(ch: char, x: seq<string>, y: seq<string>)
    requires x != [] && y != []
    ensures Prepend(ch, x + y) == Prepend(ch, x) + y
  {
    assert (x + y)[0] == x[0] && (x + y)[1..] == x[1..] + y;
  }

  lemma {:induction false} SplitOneLine(a: string)
    requires '\n' !in a
    ensures Split(a) == [a]
  {
    if a != "" {
      SplitOneLine(a[1..]);
      assert [a[0]] + a[1..] == a;
    }
  }

  /** Lines without newlines come back as they were. */
  lemma {:induction false} SplitJoin(lines: seq<string>)
    requires lines != [] && forall i :: 0 <= i < |lines| ==> '\n' !in lines[i]
    ensures Split(Join(lines)) == lines
  {
    SplitOneLine(lines[0]);
    if |lines| == 1 {
      assert lines == [lines[0]];
    } else {
      SplitJoin(lines[1..]);
      SplitAtNewline(lines[0], Join(lines[1..]));
      assert lines == [lines[0]] + lines[1..];
    }
  }

  /** And any text comes back from its lines, none of which holds a newline. */
  lemma {:induction false} JoinSplit(text: string)
    ensures Join(Split(text)) == text && forall i :: 0 <= i < |Split(text)| ==> '\n' !in Split(text)[i]
  {
    if text != "" {
      JoinSplit(text[1..]);
      JoinPrepend(text[0], Split(text[1..]));
      assert text == [text[0]] + text[1..];
    }
  }

  lemma JoinPrepend(ch: char, lines: seq<string>)
    requires lines != []
    ensures Join(Prepend(ch, lines)) == [ch] + Join(lines)
  {
    var r := Prepend(ch, lines);
    if ch == '\n' {
      assert r[1..] == lines;
    } else if |lines| > 1 {
      assert r[1..] == lines[1..];
      assert [ch] + (lines[0] + "\n" + Join(lines[1..])) == [ch] + lines[0] + "\n" + Join(lines[1..]);
    }
  }
}
