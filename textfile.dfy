/**
  What `open(path, 'r').readlines()` makes of a file's decoded text:
  universal-newline translation, then a list of lines, each keeping the
  `\n` that ends it.
 */
module TextFile {
  import opened Strings

  /** `\n` occurs in `line` as its last character or not at all. */
  predicate NewlineOnlyAtEnd(line: string)
  {
    forall k :: 0 <= k < |line| - 1 ==> line[k] != '\n'
  }

  /** Text mode with `newline=None`: `\r\n` and a lone `\r` are both read
      as `\n`; every other character is kept. */
  function TranslateNewlines(text: string): (r: string)
    ensures '\r' !in r
    ensures |r| <= |text|
    ensures '\r' !in text ==> r == text
  {
    if text == [] then ""
    else if text[0] == '\r' then
      if |text| > 1 && text[1] == '\n' then "\n" + TranslateNewlines(text[2..])
      else "\n" + TranslateNewlines(text[1..])
    else [text[0]] + TranslateNewlines(text[1..])
  }

  /** The first line of `text`: up to and including the first `\n`, or all
      of `text` when it has none. */
  function FirstLine(text: string): (line: string)
    ensures |line| <= |text| && line == text[..|line|]
    ensures text != [] ==> line != []
    ensures NewlineOnlyAtEnd(line)
    ensures line == text || line[|line| - 1] == '\n'
  {
    if text == [] then ""
    else if text[0] == '\n' then "\n"
    else [text[0]] + FirstLine(text[1..])
  }

  /** `readlines()` on already translated text: joining the lines gives the
      text back, no line is empty, `\n` only ends a line, and every line
      but the last ends with one. */
  function SplitLines(text: string): (lines: seq<string>)
    ensures Concat(lines) == text
    ensures forall i :: 0 <= i < |lines| ==> lines[i] != [] && NewlineOnlyAtEnd(lines[i])
    ensures forall i :: 0 <= i < |lines| - 1 ==> lines[i][|lines[i]| - 1] == '\n'
    decreases |text|
  {
    if text == [] then []
    else
      var line := FirstLine(text);
      var rest := SplitLines(text[|line|..]);
      var lines := [line] + rest;
      assert lines[0] == line && lines[1..] == rest;
      assert line + text[|line|..] == text;
      lines
  }

  /** `open(path, 'r').readlines()` on a file whose decoded contents are
      `text`. */
  function ReadLines(text: string): (lines: seq<string>)
    ensures Concat(lines) == TranslateNewlines(text)
    ensures forall i :: 0 <= i < |lines| ==> lines[i] != [] && NewlineOnlyAtEnd(lines[i])
    ensures forall i :: 0 <= i < |lines| - 1 ==> lines[i][|lines[i]| - 1] == '\n'
    ensures forall i :: 0 <= i < |lines| ==> '\r' !in lines[i]
  {
    var lines := SplitLines(TranslateNewlines(text));
    PartsLackChar(lines, TranslateNewlines(text), '\r');
    lines
  }

  /** A character the joined text does not hold is held by none of the
      parts it was joined from. */
  lemma {:induction false} PartsLackChar(lines: seq<string>, text: string, c: char)
    requires Concat(lines) == text && c !in text
    ensures forall i :: 0 <= i < |lines| ==> c !in lines[i]
  {
    if lines != [] {
      assert Concat(lines) == lines[0] + Concat(lines[1..]);
      PartsLackChar(lines[1..], Concat(lines[1..]), c);
      forall i | 0 <= i < |lines| ensures c !in lines[i] {
        if i > 0 { assert lines[i] == lines[1..][i - 1]; }
      }
    }
  }

  /** Splitting and joining are inverse: the lines of a joined list of
      well-formed lines are that list. */
  lemma {:induction false} SplitConcat(lines: seq<string>)
    requires forall i :: 0 <= i < |lines| ==> lines[i] != [] && NewlineOnlyAtEnd(lines[i])
    requires forall i :: 0 <= i < |lines| - 1 ==> lines[i][|lines[i]| - 1] == '\n'
    ensures SplitLines(Concat(lines)) == lines
  {
    if lines != [] {
      var text := Concat(lines);
      var l := lines[0];
      assert text == l + Concat(lines[1..]);
      FirstLineOf(l, Concat(lines[1..]));
      assert text[|l|..] == Concat(lines[1..]);
      SplitConcat(lines[1..]);
    }
  }

  lemma {:induction false} FirstLineOf(l: string, rest: string)
    requires l != [] && NewlineOnlyAtEnd(l)
    requires rest == [] || l[|l| - 1] == '\n'
    ensures FirstLine(l + rest) == l
  {
    if l[0] == '\n' {
      assert |l| == 1;
      assert l == "\n";
    } else if |l| == 1 {
      assert rest == [];
      assert l + rest == [l[0]];
    } else {
      assert (l + rest)[1..] == l[1..] + rest;
      FirstLineOf(l[1..], rest);
      assert l == [l[0]] + l[1..];
    }
  }
}
