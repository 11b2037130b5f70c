/** The `_time.md` table format shared by the recorder and both cleaners:
    rows `| MM:SS | text |`, read back with the regular expressions
    `\|\s*\d{2}:\d{2}` (row start) and `\|\s*(\d{2}:\d{2})\s*\|\s*(.+?)\s*\|`
    (row with its time and text cell). */
module TimeTable {
  import opened Strings
  import opened Wrappers

  /** `\d{2}:\d{2}` at index `i`. */
  predicate ClockAt(line: string, i: nat) {
    && i + 5 <= |line|
    && IsDigit(line[i]) && IsDigit(line[i + 1]) && line[i + 2] == ':'
    && IsDigit(line[i + 3]) && IsDigit(line[i + 4])
  }

  /** A five-character `DD:DD` time stamp. */
  predicate IsClock(t: string) {
    |t| == 5 && ClockAt(t, 0)
  }

  /** `re.match(r'\|\s*\d{2}:\d{2}', line)`. Once `\s*` has taken every
      space, giving one back leaves a space where a digit is needed, so the
      greedy reading is the only one. */
  predicate StartsRow(line: string) {
    |line| > 0 && line[0] == '|' && ClockAt(line, SkipSpaces(line, 1))
  }

  /** After the lazy group ends at `e`, `\s*\|` can follow. */
  predicate ClosesAt(line: string, e: nat)
    requires e <= |line|
  {
    SkipSpaces(line, e) < |line| && line[SkipSpaces(line, e)] == '|'
  }

  /** The end the lazy group `(.+?)` started at `g` settles on, trying the
      ends `e, e + 1, ...`; `.` stops at a newline. */
  function GroupEnd(line: string, g: nat, e: nat): (r: Option<nat>)
    requires g < e && e - 1 <= |line|
    requires forall i :: g <= i < e - 1 ==> line[i] != '\n'
    ensures r.Some? ==> e <= r.value <= |line| && ClosesAt(line, r.value)
    ensures r.Some? ==> forall i :: g <= i < r.value ==> line[i] != '\n'
    decreases |line| + 1 - e
  {
    if e > |line| || line[e - 1] == '\n' then None
    else if ClosesAt(line, e) then Some(e)
    else GroupEnd(line, g, e + 1)
  }

  /** The start and end of the group, trying the starts `g, g - 1, ..., lo`:
      the greedy `\s*` before the group gives back one space at a time. */
  function FindCell(line: string, lo: nat, g: nat): (r: Option<(nat, nat)>)
    requires lo <= g <= |line|
    ensures r.Some? ==> lo <= r.value.0 < r.value.1 <= |line| && ClosesAt(line, r.value.1)
    ensures r.Some? ==> forall i :: r.value.0 <= i < r.value.1 ==> line[i] != '\n'
    decreases g
  {
    match GroupEnd(line, g, g + 1)
    case Some(e) => Some((g, e))
    case None => if g == lo then None else FindCell(line, lo, g - 1)
  }

  /** What `re.match(r'\|\s*(\d{2}:\d{2})\s*\|\s*(.+?)\s*\|', line)` captures. */
  datatype RowMatch = RowMatch(time: string, cell: string)

  /** The row regular expression, matched at the start of `line`. */
  function MatchRow(line: string): (r: Option<RowMatch>)
    ensures r.Some? ==> IsClock(r.value.time) && r.value.cell != [] && '\n' !in r.value.cell
  {
    if |line| == 0 || line[0] != '|' then None
    else
      var a := SkipSpaces(line, 1);
      if !ClockAt(line, a) then None
      else
        var b := SkipSpaces(line, a + 5);
        if b == |line| || line[b] != '|' then None
        else
          match FindCell(line, b + 1, SkipSpaces(line, b + 1))
          case None => None
          case Some((g, e)) =>
            assert forall i :: 0 <= i < e - g ==> line[g..e][i] == line[g + i];
            Some(RowMatch(line[a..a + 5], line[g..e]))
  }

  /** Every line the row regular expression accepts also passes the row-start
      test. */
  lemma MatchRowStartsRow(line: string)
    requires MatchRow(line).Some?
    ensures StartsRow(line)
  {
  }

  /** One table row as both writers format it: `f"| {time} | {text} |\n"`. */
  function Row(time: string, text: string): string {
    "| " + time + " | " + text + " |\n"
  }

  /** The cell text that survives a round trip through a row. */
  predicate RowSafe(text: string) {
    text != [] && IsStripped(text) && '|' !in text && '\n' !in text
  }

  /** Within the cell, the lazy group ends only at the cell's end. */
  lemma {:induction false} RowGroupEnds(line: string, t: string, c: string, e: nat)
    requires IsClock(t) && RowSafe(c)
    requires line == Row(t, c)
    requires 11 <= e <= 10 + |c|
    ensures GroupEnd(line, 10, e) == Some(10 + |c|)
    decreases 10 + |c| - e
  {
    assert line == "| " + t + " | " + c + " |\n";
    assert |line| == 13 + |c|;
    assert forall i :: 10 <= i < 10 + |c| ==> line[i] == c[i - 10];
    assert line[10 + |c|] == ' ' && line[11 + |c|] == '|';
    assert line[e - 1] != '\n' by {
      assert line[e - 1] == c[e - 11];
    }
    if e < 10 + |c| {
      var j := SkipSpaces(line, e);
      assert j < 10 + |c| by {
        assert !IsSpace(line[9 + |c|]) by { assert line[9 + |c|] == c[|c| - 1]; }
      }
      assert line[j] == c[j - 10];
      assert !ClosesAt(line, e);
      RowGroupEnds(line, t, c, e + 1);
    } else {
      assert SkipSpaces(line, e + 1) == e + 1;
      assert SkipSpaces(line, e) == e + 1;
    }
  }

  /** Reading back a row written with a row-safe text gives its time and text. */
  lemma RowRoundTrip(t: string, c: string)
    requires IsClock(t) && RowSafe(c)
    ensures MatchRow(Row(t, c)) == Some(RowMatch(t, c))
  {
    var line := Row(t, c);
    assert line == "| " + t + " | " + c + " |\n";
    assert line[0] == '|' && line[1] == ' ';
    assert forall i :: 2 <= i < 7 ==> line[i] == t[i - 2];
    assert line[7] == ' ' && line[8] == '|' && line[9] == ' ';
    assert forall i :: 10 <= i < 10 + |c| ==> line[i] == c[i - 10];
    assert SkipSpaces(line, 2) == 2;
    assert SkipSpaces(line, 1) == 2;
    assert ClockAt(line, 2);
    assert SkipSpaces(line, 8) == 8;
    assert SkipSpaces(line, 7) == 8;
    assert line[10] == c[0];
    assert SkipSpaces(line, 10) == 10;
    assert SkipSpaces(line, 9) == 10;
    RowGroupEnds(line, t, c, 11);
    assert FindCell(line, 9, 10) == Some((10, 10 + |c|));
    assert line[2..7] == t;
    assert line[10..10 + |c|] == c;
  }

  /** A line as `readlines()` yields it: non-empty, with no newline before
      its last character. */
  predicate OneLine(l: string) {
    l != [] && forall m :: 0 <= m < |l| - 1 ==> l[m] != '\n'
  }

  /** The line ends with its newline. */
  predicate EndsLine(l: string) {
    l != [] && l[|l| - 1] == '\n'
  }

  /** Python's `readlines()`: the text cut after every newline; the last line
      has no newline when the text does not end in one. */
  function Lines(text: string): (ls: seq<string>)
    ensures Concat(ls) == text
    ensures forall k :: 0 <= k < |ls| ==> ls[k] != []
    decreases |text|
  {
    if text == [] then []
    else
      var i := LineEnd(text, 0);
      assert text == text[..i] + text[i..];
      [text[..i]] + Lines(text[i..])
  }

  /** The index just past the first newline at or after `i`, or the end. */
  function LineEnd(text: string, i: nat): (j: nat)
    requires i < |text|
    ensures i < j <= |text|
    ensures forall m :: i <= m < j - 1 ==> text[m] != '\n'
    ensures j < |text| ==> text[j - 1] == '\n'
    decreases |text| - i
  {
    if text[i] == '\n' || i + 1 == |text| then i + 1 else LineEnd(text, i + 1)
  }

  /** The line ends where its newline is. */
  lemma {:induction false} LineEndIs(text: string, i: nat, n: nat)
    requires i < n <= |text|
    requires forall m :: i <= m < n - 1 ==> text[m] != '\n'
    requires text[n - 1] == '\n'
    ensures LineEnd(text, i) == n
    decreases n - i
  {
    if i + 1 < n {
      LineEndIs(text, i + 1, n);
    }
  }

  /** Every line `readlines()` yields is one line, and every line but the
      last ends with its newline. */
  lemma {:induction false} LinesShape(text: string)
    ensures forall k :: 0 <= k < |Lines(text)| ==> OneLine(Lines(text)[k])
    ensures forall k :: 0 <= k < |Lines(text)| - 1 ==> EndsLine(Lines(text)[k])
    decreases |text|
  {
    if text != [] {
      var i := LineEnd(text, 0);
      var first := text[..i];
      var rest := Lines(text[i..]);
      LinesShape(text[i..]);
      var ls := Lines(text);
      assert ls == [first] + rest;
      assert OneLine(first);
      assert |ls| > 1 ==> i < |text| && EndsLine(first);
      forall k | 1 <= k < |ls|
        ensures OneLine(ls[k]) && (k < |ls| - 1 ==> EndsLine(ls[k]))
      {
        assert ls[k] == rest[k - 1];
      }
    }
  }

  /** Writing lines that each end with their only newline and reading the
      text back gives the same lines. */
  lemma {:induction false} LinesOfConcat(ls: seq<string>)
    requires forall k :: 0 <= k < |ls| ==> OneLine(ls[k]) && EndsLine(ls[k])
    ensures Lines(Concat(ls)) == ls
    decreases |ls|
  {
    if ls != [] {
      var text := Concat(ls);
      var n := |ls[0]|;
      assert text == ls[0] + Concat(ls[1..]);
      assert forall m :: 0 <= m < n - 1 ==> text[m] == ls[0][m];
      assert text[n - 1] == ls[0][n - 1];
      LineEndIs(text, 0, n);
      assert text[..n] == ls[0];
      assert text[n..] == Concat(ls[1..]);
      LinesOfConcat(ls[1..]);
    }
  }

  /** A row is one line ending with its newline. */
  lemma RowLine(time: string, text: string)
    requires IsClock(time) && '\n' !in text
    ensures OneLine(Row(time, text)) && EndsLine(Row(time, text))
  {
    var line := Row(time, text);
    assert line == "| " + time + " | " + text + " |\n";
    assert forall m :: 2 <= m < 7 ==> line[m] == time[m - 2];
    assert forall m :: 10 <= m < 10 + |text| ==> line[m] == text[m - 10];
  }

  /** A row with a `|`-free text does not contain the separator row
      `|---|---|`: each of its bars is followed by a space or the newline. */
  lemma RowHasNoRule(time: string, text: string)
    requires IsClock(time) && '|' !in text
    ensures !Contains(Row(time, text), "|---|---|")
  {
    var line := Row(time, text);
    assert line == "| " + time + " | " + text + " |\n";
    assert forall m :: 2 <= m < 7 ==> line[m] == time[m - 2];
    assert forall m :: 10 <= m < 10 + |text| ==> line[m] == text[m - 10];
    forall i | 0 <= i < |line| - 1
      ensures line[i] != '|' || line[i + 1] != '-'
    {
      if 2 <= i < 7 {
        assert line[i] == time[i - 2];
      } else if 10 <= i < 10 + |text| {
        assert line[i] == text[i - 10];
      }
    }
    forall i | 0 <= i
      ensures !OccursAt(line, "|---|---|", i)
    {
      if i + 9 <= |line| {
        assert line[i..i + 9][0] == line[i] && line[i..i + 9][1] == line[i + 1];
      }
    }
    ContainsIff(line, "|---|---|");
  }

  // ---------------------------------------------------------------------
  // Entries: the rows both cleaners read and write
  // ---------------------------------------------------------------------

  /** One table row: its time stamp, its stripped text and the line read. */
  datatype Entry = Entry(time: string, content: string, originalLine: string)

  /** The entry a line yields, if the row pattern accepts it. */
  function EntryOf(line: string): (r: Option<Entry>)
    ensures r.Some? <==> MatchRow(line).Some?
    ensures r.Some? ==> r.value == Entry(MatchRow(line).value.time, Strip(MatchRow(line).value.cell), line)
  {
    match MatchRow(line)
    case None => None
    case Some(m) => Some(Entry(m.time, Strip(m.cell), line))
  }

  /** The entry of a line as a sequence of zero or one entries. */
  function OptionalEntry(line: string): (r: seq<Entry>)
    ensures |r| <= 1
    ensures |r| == 1 <==> MatchRow(line).Some?
    ensures |r| == 1 ==> EntryOf(line) == Some(r[0])
  {
    match EntryOf(line)
    case None => []
    case Some(e) => [e]
  }

  /** The entries of the table rows `rows`, in order; other lines are skipped. */
  function ParseRows(rows: seq<string>): (es: seq<Entry>)
    ensures |es| <= |rows|
    ensures forall k :: 0 <= k < |es| ==>
              IsClock(es[k].time) && IsStripped(es[k].content) && EntryOf(es[k].originalLine) == Some(es[k])
    decreases |rows|
  {
    if rows == [] then []
    else ParseRows(rows[..|rows| - 1]) + OptionalEntry(rows[|rows| - 1])
  }

  lemma {:induction false} ParseRowsAppend(a: seq<string>, b: seq<string>)
    ensures ParseRows(a + b) == ParseRows(a) + ParseRows(b)
    decreases |b|
  {
    if b == [] {
      assert a + b == a;
      assert ParseRows(a) + [] == ParseRows(a);
    } else {
      var b' := b[..|b| - 1];
      var last := b[|b| - 1];
      assert (a + b)[..|a + b| - 1] == a + b';
      ParseRowsSnoc(a + b, a + b', last);
      ParseRowsSnoc(b, b', last);
      ParseRowsAppend(a, b');
      EntriesAssoc(ParseRows(a), ParseRows(b'), OptionalEntry(last));
    }
  }

  /** `ParseRows` on a non-empty list of rows, one step, with its front and
      last row named by the caller. */
  lemma ParseRowsSnoc(rows: seq<string>, init: seq<string>, last: string)
    requires rows != [] && init == rows[..|rows| - 1] && last == rows[|rows| - 1]
    ensures ParseRows(rows) == ParseRows(init) + OptionalEntry(last)
  {
  }

  lemma EntriesAssoc(a: seq<Entry>, b: seq<Entry>, c: seq<Entry>)
    ensures a + b + c == a + (b + c)
  {
  }

  /** The entry loop of both readers (`parse_time_md_file` and
      `_remove_hallucination`): one entry per matching row, in order. */
  method CollectEntries(rows: seq<string>) returns (entries: seq<Entry>)
    ensures entries == ParseRows(rows)
  {
    entries := [];
    for k := 0 to |rows|
      invariant entries == ParseRows(rows[..k])
    {
      assert rows[..k + 1][..k] == rows[..k];
      match EntryOf(rows[k]) {
        case Some(e) =>
          entries := entries + [e];
        case None =>
      }
    }
    assert rows[..|rows|] == rows;
  }

  /** The texts of the entries. */
  function Contents(entries: seq<Entry>): (r: seq<string>)
    ensures |r| == |entries|
    ensures forall k :: 0 <= k < |entries| ==> r[k] == entries[k].content
  {
    seq(|entries|, k requires 0 <= k < |entries| => entries[k].content)
  }

  /** The rows a cleaner writes after the header, one `Row` per entry. */
  function RenderRows(es: seq<Entry>): (rows: seq<string>)
    ensures |rows| == |es|
    ensures forall k :: 0 <= k < |es| ==> rows[k] == Row(es[k].time, es[k].content)
  {
    if es == [] then [] else RenderRows(es[..|es| - 1]) + [Row(es[|es| - 1].time, es[|es| - 1].content)]
  }

  /** The rewrite loop of both cleaners: the header lines as read, then one
      row per entry. */
  method RenderTable(header: seq<string>, es: seq<Entry>) returns (text: string)
    ensures text == Concat(header + RenderRows(es))
  {
    text := Concat(header);
    assert header + RenderRows(es[..0]) == header;
    for k := 0 to |es|
      invariant text == Concat(header + RenderRows(es[..k]))
    {
      assert header + RenderRows(es[..k + 1])
          == (header + RenderRows(es[..k])) + [Row(es[k].time, es[k].content)];
      ConcatAppend(header + RenderRows(es[..k]), [Row(es[k].time, es[k].content)]);
      text := text + Row(es[k].time, es[k].content);
    }
    assert es[..|es|] == es;
  }

  /** The entries a rewritten table reads back as: same times and texts,
      the rendered rows as original lines. */
  function Reread(es: seq<Entry>): (r: seq<Entry>)
    ensures |r| == |es|
    ensures forall k :: 0 <= k < |es| ==>
              r[k] == Entry(es[k].time, es[k].content, Row(es[k].time, es[k].content))
  {
    if es == [] then []
    else Reread(es[..|es| - 1]) + [Entry(es[|es| - 1].time, es[|es| - 1].content, Row(es[|es| - 1].time, es[|es| - 1].content))]
  }

  /** Rendering entries whose texts are row-safe and reading the rows back
      gives the same times and texts. */
  lemma {:induction false} ParseRendered(es: seq<Entry>)
    requires forall k :: 0 <= k < |es| ==> IsClock(es[k].time) && RowSafe(es[k].content)
    ensures ParseRows(RenderRows(es)) == Reread(es)
    decreases |es|
  {
    if es != [] {
      var init := es[..|es| - 1];
      ParseRendered(init);
      var last := es[|es| - 1];
      RenderedRow(last.time, last.content);
      var rows := RenderRows(es);
      assert rows[..|rows| - 1] == RenderRows(init);
      assert rows[|rows| - 1] == Row(last.time, last.content);
    }
  }

  /** One rendered row reads back as its time and text. */
  lemma RenderedRow(time: string, content: string)
    requires IsClock(time) && RowSafe(content)
    ensures OptionalEntry(Row(time, content)) == [Entry(time, content, Row(time, content))]
  {
    RowRoundTrip(time, content);
    StripOfStripped(content);
  }
}
