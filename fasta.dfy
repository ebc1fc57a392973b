/**
  The sequence filter of `PCRSimulator.load_fasta`: header lines (those
  starting with `>`) are dropped, every other line is stripped of leading
  and trailing whitespace, and the results are joined in order into one
  sequence string.
 */
module Fasta {
  import opened Strings
  import opened TextFile

  /** `line.startswith(">")`: the test is made on the raw line, before any
      stripping. */
  predicate IsHeader(line: string)
  {
    StartsWith(line, ">")
  }

  /** A header is a line whose first character is `>`. */
  lemma HeaderMarker(line: string)
    ensures IsHeader(line) <==> |line| > 0 && line[0] == '>'
  {
  }

  /** The list comprehension `[line.strip() for line in lines if not
      line.startswith(">")]`. */
  function SequenceParts(lines: seq<string>): (parts: seq<string>)
    ensures |parts| <= |lines|
  {
    if lines == [] then []
    else
      var rest := SequenceParts(lines[1..]);
      if IsHeader(lines[0]) then rest else [Strip(lines[0])] + rest
  }

  /** `"".join(...)` of the comprehension: the sequence text loaded from a
      list of file lines. */
  function StripFasta(lines: seq<string>): string
  {
    Concat(SequenceParts(lines))
  }

  /** What one line contributes to the sequence. */
  function LinePart(line: string): string
  {
    if IsHeader(line) then "" else Strip(line)
  }

  /** `load_fasta` from the decoded file contents to the sequence text. */
  function LoadSequence(text: string): string
  {
    StripFasta(ReadLines(text))
  }

  lemma {:induction false} SequencePartsAppend(a: seq<string>, b: seq<string>)
    ensures SequenceParts(a + b) == SequenceParts(a) + SequenceParts(b)
  {
    if a == [] {
      assert a + b == b;
    } else {
      assert (a + b)[0] == a[0];
      assert (a + b)[1..] == a[1..] + b;
      SequencePartsAppend(a[1..], b);
    }
  }

  /** On a single line the comprehension yields nothing for a header and
      the one stripped line otherwise, even when that is empty. */
  lemma SequencePartsLine(line: string)
    ensures SequenceParts([line]) == if IsHeader(line) then [] else [Strip(line)]
  {
  }

  /** The filter works line by line: the sequence of a concatenation of
      line lists is the concatenation of their sequences. */
  lemma StripFastaAppend(a: seq<string>, b: seq<string>)
    ensures StripFasta(a + b) == StripFasta(a) + StripFasta(b)
  {
    SequencePartsAppend(a, b);
    ConcatAppend(SequenceParts(a), SequenceParts(b));
  }

  /** A single line yields its stripped text, or nothing if it is a
      header; with `StripFastaAppend` this fixes the result for every
      list: the stripped non-header lines, in their original order. */
  lemma StripFastaLine(line: string)
    ensures StripFasta([line]) == LinePart(line)
  {
    SequencePartsLine(line);
    assert [Strip(line)][1..] == [];
    assert Concat([Strip(line)]) == Strip(line) + Concat([]);
  }

  /** The sequence is the in-order join of each line's contribution. */
  lemma {:induction false} StripFastaIsJoinOfParts(lines: seq<string>)
    ensures StripFasta(lines) == Concat(seq(|lines|, i requires 0 <= i < |lines| => LinePart(lines[i])))
  {
    var contributions := seq(|lines|, i requires 0 <= i < |lines| => LinePart(lines[i]));
    if lines != [] {
      StripFastaIsJoinOfParts(lines[1..]);
      assert lines == [lines[0]] + lines[1..];
      StripFastaAppend([lines[0]], lines[1..]);
      StripFastaLine(lines[0]);
      assert contributions[1..] == seq(|lines[1..]|, i requires 0 <= i < |lines[1..]| => LinePart(lines[1..][i]));
    }
  }

  /** A header line contributes nothing, wherever it stands. */
  lemma HeaderDropped(a: seq<string>, header: string, b: seq<string>)
    requires IsHeader(header)
    ensures StripFasta(a + [header] + b) == StripFasta(a + b)
  {
    StripFastaAppend(a + [header], b);
    StripFastaAppend(a, [header]);
    StripFastaAppend(a, b);
    StripFastaLine(header);
  }

  /** A sequence line contributes its stripped text at its own place. */
  lemma SequenceLineKept(a: seq<string>, line: string, b: seq<string>)
    requires !IsHeader(line)
    ensures StripFasta(a + [line] + b) == StripFasta(a) + Strip(line) + StripFasta(b)
  {
    StripFastaAppend(a + [line], b);
    StripFastaAppend(a, [line]);
    StripFastaLine(line);
  }

  /** The header test sees the raw line: a `>` preceded by whitespace is
      not a header, and after stripping the `>` leads the line's
      contribution. */
  lemma IndentedHeaderKept(indent: string, rest: string)
    requires indent != [] && AllSpace(indent)
    ensures !IsHeader(indent + ">" + rest)
    ensures StripFasta([indent + ">" + rest]) == Strip(indent + ">" + rest)
    ensures StripFasta([indent + ">" + rest]) != "" && StripFasta([indent + ">" + rest])[0] == '>'
  {
    var line := indent + ">" + rest;
    assert line[0] == indent[0];
    HeaderMarker(line);
    StripFastaLine(line);
    var m := |indent|;
    assert line[m] == '>';
    assert SpaceIn(line, 0, m) by {
      forall k | 0 <= k < m ensures IsSpace(line[k]) { assert line[k] == indent[k]; }
    }
    SkipSpaceForwardAt(line, 0, m);
    StripEmpty(line);
  }

  /** Every part the comprehension yields is stripped. */
  lemma {:induction false} SequencePartsTrimmed(lines: seq<string>)
    ensures forall k :: 0 <= k < |SequenceParts(lines)| ==> Trimmed(SequenceParts(lines)[k])
  {
    if lines != [] {
      SequencePartsTrimmed(lines[1..]);
      var rest := SequenceParts(lines[1..]);
      if !IsHeader(lines[0]) {
        var parts := [Strip(lines[0])] + rest;
        assert forall k :: 1 <= k < |parts| ==> parts[k] == rest[k - 1];
      }
    }
  }

  /** Neither end of the sequence is whitespace. */
  lemma StripFastaTrimmed(lines: seq<string>)
    ensures Trimmed(StripFasta(lines))
  {
    SequencePartsTrimmed(lines);
    ConcatTrimmed(SequenceParts(lines));
  }

  lemma {:induction false} StripFastaEmptyParts(lines: seq<string>)
    ensures StripFasta(lines) == "" <==> forall i :: 0 <= i < |lines| ==> LinePart(lines[i]) == ""
  {
    if lines != [] {
      var tail := lines[1..];
      StripFastaEmptyParts(tail);
      assert lines == [lines[0]] + tail;
      StripFastaAppend([lines[0]], tail);
      StripFastaLine(lines[0]);
      assert StripFasta(lines) == LinePart(lines[0]) + StripFasta(tail);
      assert forall i :: 1 <= i < |lines| ==> lines[i] == tail[i - 1];
    }
  }

  /** The sequence is empty exactly when every line is a header or holds
      only whitespace. */
  lemma StripFastaEmpty(lines: seq<string>)
    ensures StripFasta(lines) == "" <==>
            forall i :: 0 <= i < |lines| ==> IsHeader(lines[i]) || AllSpace(lines[i])
  {
    StripFastaEmptyParts(lines);
    forall i | 0 <= i < |lines|
      ensures LinePart(lines[i]) == "" <==> IsHeader(lines[i]) || AllSpace(lines[i])
    {
      StripEmpty(lines[i]);
    }
  }

  /** An empty file, or one holding only headers, loads as the empty
      sequence. */
  lemma OnlyHeaders(lines: seq<string>)
    requires forall i :: 0 <= i < |lines| ==> IsHeader(lines[i])
    ensures StripFasta(lines) == ""
  {
    StripFastaEmpty(lines);
  }

  /** The sequence is never longer than the lines it came from. */
  lemma {:induction false} StripFastaLength(lines: seq<string>)
    ensures |StripFasta(lines)| <= TotalLength(lines)
  {
    if lines != [] {
      StripFastaLength(lines[1..]);
      assert lines == [lines[0]] + lines[1..];
      StripFastaAppend([lines[0]], lines[1..]);
      StripFastaLine(lines[0]);
      TotalLengthAppend([lines[0]], lines[1..]);
      assert TotalLength([lines[0]]) == |lines[0]| by { assert [lines[0]][1..] == []; }
    }
  }

  /** Loading the sequence again, as the only line of a file, gives it back
      unchanged, unless it starts with `>`. */
  lemma StripFastaIdempotent(lines: seq<string>)
    requires !IsHeader(StripFasta(lines))
    ensures StripFasta([StripFasta(lines)]) == StripFasta(lines)
  {
    var s := StripFasta(lines);
    StripFastaTrimmed(lines);
    StripFastaLine(s);
    StripOfPadded([], s, []);
    assert [] + s + [] == s;
  }

  /** A character in no line is in no sequence built from them. */
  lemma {:induction false} StripFastaChars(lines: seq<string>, c: char)
    requires forall i :: 0 <= i < |lines| ==> c !in lines[i]
    ensures c !in StripFasta(lines)
  {
    if lines != [] {
      StripFastaChars(lines[1..], c);
      assert lines == [lines[0]] + lines[1..];
      StripFastaAppend([lines[0]], lines[1..]);
      StripFastaLine(lines[0]);
      assert forall j :: 1 <= j < |lines| ==> lines[j] == lines[1..][j - 1];
    }
  }

  /** Stripping a line in which `\n` at most ends it leaves no `\n`. */
  lemma StripLineNoNewline(line: string)
    requires NewlineOnlyAtEnd(line)
    ensures '\n' !in Strip(line)
  {
  }

  /** Lines as `readlines()` gives them load as a sequence with no line
      break in it. */
  lemma {:induction false} SplitLinesNoNewline(lines: seq<string>)
    requires forall i :: 0 <= i < |lines| ==> NewlineOnlyAtEnd(lines[i])
    ensures '\n' !in StripFasta(lines)
  {
    if lines != [] {
      SplitLinesNoNewline(lines[1..]);
      assert lines == [lines[0]] + lines[1..];
      StripFastaAppend([lines[0]], lines[1..]);
      StripFastaLine(lines[0]);
      StripLineNoNewline(lines[0]);
    }
  }

  /** Whatever the file holds, the loaded sequence has neither `\n` nor
      `\r` in it, and neither end is whitespace. */
  lemma LoadSequenceSingleLine(text: string)
    ensures '\n' !in LoadSequence(text) && '\r' !in LoadSequence(text)
    ensures Trimmed(LoadSequence(text))
  {
    var lines := ReadLines(text);
    SplitLinesNoNewline(lines);
    StripFastaChars(lines, '\r');
    StripFastaTrimmed(lines);
  }
}
