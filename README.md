# FASTA sequence loading of the PCR simulator, in Dafny

The PCR simulator is a PyQt5 desktop application. Its only computation is the
"Load FASTA" action, `PCRSimulator.load_fasta`. The action reads a file with
`readlines()`, drops every header line (a line starting with `>`), strips
leading and trailing whitespace from each remaining line, and joins the
results in file order into one DNA sequence string. That string is then shown
in the sequence input field.

This project models that transformation as pure functions and proves what it
does. There are three modules:

- `Strings` (strings.dfy): Python `str` behaviour that the filter relies on.
  This is the whitespace table of `str.isspace` and `str.strip()`,
  modelled as CPython's two index scans. It also covers
  `str.startswith` and `"".join`.
- `TextFile` (textfile.dfy): what text-mode `open(path, 'r').readlines()`
  gives for a file's decoded contents. First the universal-newline
  translation turns `\r\n` and a lone `\r` into `\n`. The text is then split
  after every `\n`, and each line keeps its terminator.
- `Fasta` (fasta.dfy): the comprehension
  `[line.strip() for line in lines if not line.startswith(">")]`
  (`SequenceParts`), its join (`StripFasta`), and the whole path from file
  text to sequence (`LoadSequence`). It also holds the lemmas about them.

The result is fixed completely by three facts.
- The filter is a homomorphism over line lists (`StripFastaAppend`).
- A single line contributes nothing if it is a header, and its stripped text
  otherwise (`StripFastaLine`).
- `strip()` itself is fixed by `StripOfPadded`.

The other lemmas state consequences the application relies on:
- headers vanish wherever they stand;
- an indented `>` line is not a header;
- the sequence has no `\n` or `\r` and no whitespace at either end;
- the sequence is empty exactly when every line is a header or blank;
- the output is never longer than the input;
- filtering the output again, as a one-line file, gives it back unless it
  starts with `>`.

The window has Cycles, Efficiency (0-1) and Threshold fields
(main.py:137-150), but `run_simulation` (main.py:261-272) reads none of them.
It plots the cumulative sum of 40 random numbers and reports
"Simulation complete.". The project therefore has no amplification or
Ct model.

## Model

| member | source | states |
|---|---|---|
| `Strings.Strip` | main.py:280 | `line.strip()` returns a slice of the line. Everything before and after the slice is whitespace, and the slice neither starts nor ends with whitespace. |
| `Strings.StripOfPadded` | main.py:280 | `strip()` is fully determined. If `t` is trimmed and `p`, `q` are all whitespace, then `(p + t + q).strip()` is exactly `t`. |
| `Strings.StripEmpty` | main.py:280 | `strip()` returns the empty string exactly when the line consists only of whitespace. |
| `Strings.StripIdempotent` | main.py:280 | Stripping twice is the same as stripping once. |
| `Strings.SkipSpaceForward` | main.py:280 | The forward scan of `strip()` returns the index of the first non-whitespace character at or after its start, or the end of the string if there is none. |
| `Strings.SkipSpaceBackward` | main.py:280 | The backward scan of `strip()` passes only whitespace. It stops just after a non-whitespace character, or at the start of the slice. |
| `Strings.SkipSpaceForwardAt` | main.py:280 | The forward scan stops exactly at the first non-whitespace position. It cannot stop earlier or later. |
| `Strings.SkipSpaceBackwardAt` | main.py:280 | The backward scan stops exactly just after the last non-whitespace position. |
| `Strings.ConcatAppend` | main.py:280 | `"".join(a + b)` equals `"".join(a) + "".join(b)`. |
| `Strings.ConcatTrimmed` | main.py:280 | Joining strings that are each trimmed gives a trimmed string. |
| `Strings.TotalLengthAppend` | main.py:279-280 | The summed length of two line lists put together is the sum of their summed lengths. |
| `TextFile.TranslateNewlines` | main.py:278-279 | Text mode with universal newlines leaves no `\r`, never lengthens the text, and leaves text without `\r` unchanged. |
| `TextFile.FirstLine` | main.py:279 | The first line is a prefix of the text. It is non-empty when the text is. It contains `\n` only as its last character, and it either ends with `\n` or is the whole text. |
| `TextFile.SplitLines` | main.py:279 | Joining the lines of `readlines()` gives the text back. No line is empty, `\n` appears only as a line's last character, and every line except the last ends with `\n`. |
| `TextFile.FirstLineOf` | main.py:279 | A well-formed line followed by more text is exactly what the first-line scan returns. |
| `TextFile.SplitConcat` | main.py:279 | Joining well-formed lines and then splitting the result gives back the same list of lines. |
| `TextFile.ReadLines` | main.py:278-279 | The lines read from a file join to the translated text. Each line is non-empty, has `\n` only at its end, and contains no `\r`. Every line except the last ends with `\n`. |
| `TextFile.PartsLackChar` | main.py:278-279 | A character absent from the joined text is absent from every line it was joined from; `ReadLines` uses it for `\r`. |
| `Fasta.HeaderMarker` | main.py:280 | `line.startswith(">")` holds exactly when the line's first character is `>`. |
| `Fasta.SequenceParts` | main.py:280 | The comprehension yields at most one part per line. |
| `Fasta.SequencePartsLine` | main.py:280 | On one line, the comprehension yields `[]` for a header and `[line.strip()]` otherwise, including when the stripped line is empty. |
| `Fasta.SequencePartsAppend` | main.py:280 | The comprehension over `a + b` is the comprehension over `a` followed by the one over `b`. |
| `Fasta.SequencePartsTrimmed` | main.py:280 | Every element the comprehension yields is stripped: it neither begins nor ends with whitespace. |
| `Fasta.StripFastaAppend` | main.py:280 | The filter distributes over concatenation of line lists. |
| `Fasta.StripFastaLine` | main.py:280 | A single line yields the empty string if it starts with `>`, and its stripped text otherwise. |
| `Fasta.StripFastaIsJoinOfParts` | main.py:280 | The sequence is the in-order join of each line's contribution. A header contributes nothing; any other line contributes its stripped text. |
| `Fasta.HeaderDropped` | main.py:280 | Inserting a header line anywhere in the list leaves the sequence unchanged. |
| `Fasta.SequenceLineKept` | main.py:280 | A non-header line contributes its stripped text at its own position, between the contributions of the lines before and after it. |
| `Fasta.IndentedHeaderKept` | main.py:280 | The header test is made on the unstripped line. A line with whitespace before `>` is kept, and its contribution starts with `>`. |
| `Fasta.StripFastaTrimmed` | main.py:280 | The loaded sequence neither begins nor ends with whitespace. |
| `Fasta.StripFastaEmptyParts` | main.py:280 | The sequence is empty exactly when every line contributes the empty string. |
| `Fasta.StripFastaEmpty` | main.py:280 | The sequence is empty exactly when every line is a header or consists only of whitespace. This covers both directions and the empty file. |
| `Fasta.OnlyHeaders` | main.py:280 | A file with no lines, or with header lines only, loads as the empty sequence. |
| `Fasta.StripFastaLength` | main.py:280 | The sequence is never longer than the summed length of the lines. |
| `Fasta.StripFastaIdempotent` | main.py:280 | Given the sequence back as the only line of a file, the filter returns it unchanged, unless it starts with `>`. |
| `Fasta.StripFastaChars` | main.py:280 | A character that appears in no line does not appear in the sequence. |
| `Fasta.StripLineNoNewline` | main.py:280 | Stripping a line whose only `\n` is its terminator leaves no `\n`. |
| `Fasta.SplitLinesNoNewline` | main.py:279-280 | For lines in which `\n` is only a terminator, as `readlines()` produces them, the sequence contains no `\n`. |
| `Fasta.LoadSequenceSingleLine` | main.py:278-280 | For any file contents, the loaded sequence contains neither `\n` nor `\r`, and it neither begins nor ends with whitespace. |

## Left out

- The GUI: `init_ui`, the `create_*_tab` and `create_control_buttons` builders, and `apply_styles` (main.py:29-238). They are widget construction and styling in PyQt5.
- `clear_fields` and `load_example` (main.py:244-259). They only set or clear widget text and clear the plot.
- `run_simulation` (main.py:261-272). It plots random numbers with numpy and matplotlib. It has no amplification, threshold or Ct logic to model.
- `load_database` (main.py:241-242). It is a stub that returns an empty dictionary.
- The file dialog, the `open` call that can fail, and the `QMessageBox` error report in `load_fasta` (main.py:275-277, 282-283). They are I/O. The model starts from the file's contents as already decoded text.
- Decoding the file's bytes with the platform's default encoding is not modelled. Text is a sequence of Unicode code points.
- `self.dna_input.setText(sequence)` (main.py:281). It is a widget update; the model returns the sequence instead.
- `Strings.IsSpace` follows Python 3's current whitespace table. Python versions that built on older Unicode data treated U+180E as whitespace too; that difference is not modelled.
- `TextFile.TranslateNewlines`: its contract states that no `\r` survives and that text without `\r` is unchanged. The rule that `\r\n` and a lone `\r` each become one `\n` is stated only by its definition.
- `Fasta.SequenceParts`: its own contract gives only a length bound. What the comprehension yields is stated by `SequencePartsLine` together with `SequencePartsAppend`, and every part is stripped by `SequencePartsTrimmed`.
