/** The recording side of src/mp3_to_text.py: the time stamps, the filter
    that drops noise segments while the engine streams, the three outputs a
    transcription appends to as segments arrive, and the cleaner it may run
    on the time table afterwards. */
module Transcriber {
  import opened Wrappers
  import opened Strings
  import opened Repeats
  import opened TimeTable
  import opened WordRuns

  // ---------------------------------------------------------------------
  // Time stamps
  // ---------------------------------------------------------------------

  /** `format_time(seconds)`, given the seconds already floored to a whole
      number (hours, minutes and seconds of the source are the floored
      quotients, which only depend on the floor); a negative time prints as
      `--:--`, an hour or more as `H:MM:SS`, less as `MM:SS`. */
  function FormatTime(seconds: int): (r: string)
    ensures seconds < 0 ==> r == "--:--"
  {
    if seconds < 0 then "--:--"
    else if seconds / 3600 > 0 then NatToString(seconds / 3600) + ":" + Pad2(seconds % 3600 / 60) + ":" + Pad2(seconds % 60)
    else Pad2(seconds % 3600 / 60) + ":" + Pad2(seconds % 60)
  }

  /** The seconds an `MM:SS` stamp denotes. */
  function ClockSeconds(t: string): nat
    requires IsClock(t)
  {
    assert AllDigits(t[..2]) && AllDigits(t[3..]) by {
      assert forall i :: 0 <= i < 2 ==> t[..2][i] == t[i];
      assert forall i :: 0 <= i < 2 ==> t[3..][i] == t[3 + i];
    }
    DecimalValue(t[..2]) * 60 + DecimalValue(t[3..])
  }

  /** `H:MM:SS`: an hour count with no leading zero, then minutes and
      seconds below 60 in two digits each. */
  predicate IsHourClock(t: string) {
    && |t| >= 7 && t[|t| - 6] == ':' && t[|t| - 3] == ':'
    && AllDigits(t[..|t| - 6]) && t[0] != '0'
    && AllDigits(t[|t| - 5..|t| - 3]) && AllDigits(t[|t| - 2..])
    && DecimalValue(t[|t| - 5..|t| - 3]) < 60 && DecimalValue(t[|t| - 2..]) < 60
  }

  /** The seconds an `H:MM:SS` stamp denotes. */
  function HourClockSeconds(t: string): nat
    requires IsHourClock(t)
  {
    DecimalValue(t[..|t| - 6]) * 3600 + DecimalValue(t[|t| - 5..|t| - 3]) * 60 + DecimalValue(t[|t| - 2..])
  }

  /** Reading a stamp back gives the seconds it was made from: below an hour
      as an `MM:SS` clock with seconds below 60, from an hour on as
      `H:MM:SS`. */
  lemma FormatTimeReadsBack(n: int)
    requires n >= 0
    ensures n < 3600 ==> IsClock(FormatTime(n)) && ClockSeconds(FormatTime(n)) == n && DecimalValue(FormatTime(n)[3..]) < 60
    ensures n >= 3600 ==> IsHourClock(FormatTime(n)) && HourClockSeconds(FormatTime(n)) == n
  {
    var mm := Pad2(n % 3600 / 60);
    var ss := Pad2(n % 60);
    SplitSeconds(n);
    if n < 3600 {
      assert FormatTime(n) == mm + ":" + ss;
      ClockOfParts(mm, ss);
    } else {
      var h := NatToString(n / 3600);
      NatToStringValue(n / 3600);
      assert FormatTime(n) == h + ":" + mm + ":" + ss;
      HourClockOfParts(h, mm, ss);
    }
  }

  /** A number of seconds is its whole hours, the minutes left over and the
      seconds left over. */
  lemma SplitSeconds(n: nat)
    ensures n == n / 3600 * 3600 + n % 3600 / 60 * 60 + n % 60
    ensures n < 3600 ==> n == n % 3600 / 60 * 60 + n % 60
  {
    assert n % 3600 == n % 3600 / 60 * 60 + n % 3600 % 60;
    assert n % 3600 % 60 == n % 60 by {
      assert n == n / 3600 * 3600 + n % 3600;
      assert 3600 == 60 * 60;
    }
  }

  /** Two two-digit fields around a colon make a clock worth their minutes
      and seconds. */
  lemma ClockOfParts(mm: string, ss: string)
    requires |mm| == 2 && |ss| == 2 && AllDigits(mm) && AllDigits(ss)
    ensures IsClock(mm + ":" + ss)
    ensures ClockSeconds(mm + ":" + ss) == DecimalValue(mm) * 60 + DecimalValue(ss)
    ensures (mm + ":" + ss)[3..] == ss
  {
    var r := mm + ":" + ss;
    assert r[..2] == mm && r[3..] == ss;
  }

  /** An hour count without a leading zero and two fields below 60 make an
      `H:MM:SS` stamp worth their hours, minutes and seconds. */
  lemma HourClockOfParts(h: string, mm: string, ss: string)
    requires h != [] && AllDigits(h) && DecimalValue(h) > 0 && (|h| > 1 ==> h[0] != '0')
    requires |mm| == 2 && |ss| == 2 && AllDigits(mm) && AllDigits(ss)
    requires DecimalValue(mm) < 60 && DecimalValue(ss) < 60
    ensures IsHourClock(h + ":" + mm + ":" + ss)
    ensures HourClockSeconds(h + ":" + mm + ":" + ss) == DecimalValue(h) * 3600 + DecimalValue(mm) * 60 + DecimalValue(ss)
  {
    HourClockFields(h, mm, ss);
    NoLeadingZero(h);
  }

  /** Where the fields of `H:MM:SS` sit. */
  lemma HourClockFields(h: string, mm: string, ss: string)
    requires h != [] && |mm| == 2 && |ss| == 2
    ensures var r := h + ":" + mm + ":" + ss;
            && |r| == |h| + 6 && r[0] == h[0]
            && r[..|r| - 6] == h && r[|r| - 5..|r| - 3] == mm && r[|r| - 2..] == ss
            && r[|r| - 6] == ':' && r[|r| - 3] == ':'
  {
    var r := h + ":" + mm + ":" + ss;
    assert r[..|r| - 6] == h;
    assert r[|r| - 5..|r| - 3] == mm by {
      assert r[|r| - 5] == mm[0] && r[|r| - 4] == mm[1];
    }
    assert r[|r| - 2..] == ss by {
      assert r[|r| - 2] == ss[0] && r[|r| - 1] == ss[1];
    }
  }

  /** A positive count written without a leading zero starts with a
      non-zero digit. */
  lemma NoLeadingZero(h: string)
    requires h != [] && AllDigits(h) && DecimalValue(h) > 0 && (|h| > 1 ==> h[0] != '0')
    ensures h[0] != '0'
  {
    if |h| == 1 {
      assert h[..0] == [];
    }
  }

  /** A stamp is a five-character clock exactly when the time is under an
      hour and not negative. */
  lemma FormatTimeIsClock(n: int)
    ensures IsClock(FormatTime(n)) <==> 0 <= n < 3600
  {
    if n < 0 {
      assert !IsDigit(FormatTime(n)[0]);
    } else if n >= 3600 {
      NatToStringValue(n / 3600);
      assert |FormatTime(n)| >= 7;
    } else {
      FormatTimeReadsBack(n);
    }
  }

  /** The time-table row of a segment an hour or more into the audio is not
      matched by the row pattern the cleaners read with: its stamp has no
      `MM:` field followed by the cell bar. */
  lemma HourRowsNotRead(n: int, text: string)
    requires n >= 3600
    ensures MatchRow(Row(FormatTime(n), text)) == None
  {
    FormatTimeReadsBack(n);
    var t := FormatTime(n);
    var line := Row(t, text);
    assert line == "| " + t + " | " + text + " |\n";
    assert forall i :: 2 <= i < 2 + |t| ==> line[i] == t[i - 2];
    var h := |t| - 6;
    assert forall i :: 0 <= i < h ==> IsDigit(t[i]) by {
      assert forall i :: 0 <= i < h ==> t[..h][i] == t[i];
    }
    assert SkipSpaces(line, 2) == 2;
    assert SkipSpaces(line, 1) == 2;
    if ClockAt(line, 2) {
      assert t[2] == ':';
      assert h == 2;
      assert line[7] == t[5] == ':';
      assert SkipSpaces(line, 7) == 7;
    }
  }

  // ---------------------------------------------------------------------
  // Output names
  // ---------------------------------------------------------------------

  /** The base name the two transcript files are named after when `-o`
      gives one: a trailing `.txt` or `.md` is cut off, anything else is
      kept. */
  function OutputBase(output: string): (r: string)
    ensures EndsWith(output, ".txt") ==> r + ".txt" == output
    ensures !EndsWith(output, ".txt") && EndsWith(output, ".md") ==> r + ".md" == output
    ensures !EndsWith(output, ".txt") && !EndsWith(output, ".md") ==> r == output
  {
    if EndsWith(output, ".txt") || EndsWith(output, ".md") then
      if EndsWith(output, ".txt") then output[..|output| - 4] else output[..|output| - 3]
    else output
  }

  /** Naming the output after a base with `.txt` gives that base back. */
  lemma OutputBaseTxt(base: string)
    ensures OutputBase(base + ".txt") == base
  {
    var output := base + ".txt";
    assert output[|base|..] == ".txt";
    assert output[..|base|] == base;
  }

  /** Naming the output after a base with `.md` gives that base back; only
      one suffix is cut, so `x.md.md` names `x.md`. */
  lemma OutputBaseMd(base: string)
    ensures OutputBase(base + ".md") == base
  {
    var output := base + ".md";
    assert output[|base|..] == ".md";
    assert !EndsWith(output, ".txt") by {
      assert output[|output| - 1] == 'd';
    }
    assert output[..|base|] == base;
  }

  // ---------------------------------------------------------------------
  // The noise filter of the segment stream
  // ---------------------------------------------------------------------

  /** `HALLUCINATION_PATTERNS`: phrases the engine produces over silence or
      music (subtitle credits, sign-offs). */
  const HallucinationPatterns: seq<string> := [
    "한글자막", "자막 제작", "자막 by", "수고하셨습니다",
    "시청해주셔서 감사합니다", "구독과 좋아요",
    "영상 편집", "제작 지원", "번역 :", "싱크 :", "배급 :",
    "한글 자막", "by 한효정", "한글자막 by 한효정", "아멘",
    "이 시각 세계였습니다", "끝 끝", "다음 영상에서 만나요",
    "다음 주에 만나요", "다음 시간에 뵙겠습니다"
  ]

  /** Some phrase of `patterns` occurs in `text`, tried in order. */
  function ContainsAny(text: string, patterns: seq<string>): (r: bool)
    ensures r <==> exists k :: 0 <= k < |patterns| && Contains(text, patterns[k])
    decreases |patterns|
  {
    if patterns == [] then false
    else
      assert forall k :: 1 <= k < |patterns| ==> patterns[k] == patterns[1..][k - 1];
      Contains(text, patterns[0]) || ContainsAny(text, patterns[1..])
  }

  /** `is_hallucination(text)`: the text is blank, or longer than ten
      characters with fewer than five distinct ones, or holds a known
      phrase. */
  function IsHallucination(text: string): (r: bool)
    ensures r <==> || AllSpace(text)
                   || (|text| > 10 && |CharSet(text)| < 5)
                   || exists k :: 0 <= k < |HallucinationPatterns| && Contains(text, HallucinationPatterns[k])
  {
    Strip(text) == [] || (|text| > 10 && |CharSet(text)| < 5) || ContainsAny(text, HallucinationPatterns)
  }

  /** One segment the engine yields: its start and end in whole seconds, the
      integer progress `int(end / total * 100)` it stands for (computed by the
      caller from the exact times), and its text. */
  datatype Segment = Segment(start: int, end: int, progress: int, text: string)

  /** The segments `_transcribe_generator` passes on, in engine order. */
  function Accepted(segs: seq<Segment>): (r: seq<Segment>)
    ensures |r| <= |segs|
    decreases |segs|
  {
    if segs == [] then []
    else
      var last := segs[|segs| - 1];
      Accepted(segs[..|segs| - 1]) + (if IsHallucination(last.text) then [] else [last])
  }

  /** A segment is passed on exactly when it comes from the engine and is
      not noise. */
  lemma {:induction false} AcceptedMembers(segs: seq<Segment>, s: Segment)
    ensures s in Accepted(segs) <==> s in segs && !IsHallucination(s.text)
    decreases |segs|
  {
    if segs != [] {
      AcceptedMembers(segs[..|segs| - 1], s);
      InSnoc(segs, s);
    }
  }

  /** A member of a non-empty sequence is in its front or is its last. */
  lemma InSnoc(segs: seq<Segment>, s: Segment)
    requires segs != []
    ensures s in segs <==> s in segs[..|segs| - 1] || s == segs[|segs| - 1]
  {
    if s in segs && s != segs[|segs| - 1] {
      var i :| 0 <= i < |segs| && segs[i] == s;
      assert segs[..|segs| - 1][i] == s;
    }
  }

  lemma SegmentsAssoc(a: seq<Segment>, b: seq<Segment>, c: seq<Segment>)
    ensures a + b + c == a + (b + c)
  {
  }

  /** The filter works segment by segment: the stream of a longer engine
      output starts with the stream of its beginning, so order is kept. */
  lemma {:induction false} AcceptedAppend(a: seq<Segment>, b: seq<Segment>)
    ensures Accepted(a + b) == Accepted(a) + Accepted(b)
    decreases |b|
  {
    if b == [] {
      assert a + b == a;
      assert Accepted(a) + [] == Accepted(a);
    } else {
      var init := b[..|b| - 1];
      var last := b[|b| - 1];
      assert (a + b)[..|a + b| - 1] == a + init;
      assert (a + b)[|a + b| - 1] == last;
      AcceptedAppend(a, init);
      SegmentsAssoc(Accepted(a), Accepted(init), if IsHallucination(last.text) then [] else [last]);
    }
  }

  /** Every segment passed on has text left after stripping. */
  lemma AcceptedHaveText(segs: seq<Segment>)
    ensures forall k :: 0 <= k < |Accepted(segs)| ==> Strip(Accepted(segs)[k].text) != []
  {
    forall k | 0 <= k < |Accepted(segs)|
      ensures Strip(Accepted(segs)[k].text) != []
    {
      AcceptedMembers(segs, Accepted(segs)[k]);
    }
  }

  /** The generator's loop: noise segments are skipped, the others are
      yielded in order. */
  method FilterSegments(segs: seq<Segment>) returns (kept: seq<Segment>)
    ensures kept == Accepted(segs)
  {
    kept := [];
    var i := 0;
    while i < |segs|
      invariant 0 <= i <= |segs|
      invariant kept == Accepted(segs[..i])
    {
      assert segs[..i + 1][..i] == segs[..i];
      if !IsHallucination(segs[i].text) {
        kept := kept + [segs[i]];
      }
      i := i + 1;
    }
    assert segs[..i] == segs;
  }

  // ---------------------------------------------------------------------
  // The built-in cleaner `_remove_hallucination`
  // ---------------------------------------------------------------------

  /** The first line at or after `i` that passes the row-start test. */
  function FirstRowFrom(lines: seq<string>, i: nat): (r: Option<nat>)
    requires i <= |lines|
    ensures r.Some? ==> i <= r.value < |lines| && StartsRow(lines[r.value])
    ensures forall k :: i <= k < |lines| && (r.None? || k < r.value) ==> !StartsRow(lines[k])
    decreases |lines| - i
  {
    if i == |lines| then None
    else if StartsRow(lines[i]) then Some(i)
    else FirstRowFrom(lines, i + 1)
  }

  /** Where this cleaner's table starts: the first line matching
      `\|\s*\d{2}:\d{2}`. (The offline cleaner looks for a heading line
      instead.) */
  function FirstRow(lines: seq<string>): (r: Option<nat>)
    ensures r.Some? ==> r.value < |lines| && StartsRow(lines[r.value])
    ensures forall k :: 0 <= k < |lines| && (r.None? || k < r.value) ==> !StartsRow(lines[k])
  {
    FirstRowFrom(lines, 0)
  }

  /** The word pass of the cleaner: runs of three or more equal words become
      one, and the words are joined with single spaces. */
  function Collapsed(content: string): string {
    Join(" ", CollapseRuns(Words(content)))
  }

  /** An entry with its words collapsed, under the same time. */
  function Collapse(e: Entry): Entry {
    Entry(e.time, Collapsed(e.content), e.originalLine)
  }

  /** The word pass on an entry outside a run: its collapse when at least
      three characters remain after stripping, nothing otherwise. */
  function KeepCollapsed(e: Entry): (r: seq<Entry>)
    ensures |r| <= 1
    ensures r != [] <==> |Strip(Collapsed(e.content))| >= 3
  {
    if |Strip(Collapsed(e.content))| >= 3 then [Collapse(e)] else []
  }

  /** The length of the run of entries with exactly the text of the first. */
  function RunLength(es: seq<Entry>): (n: nat)
    requires es != []
    ensures 1 <= n <= |es|
  {
    RunEnd(Contents(es), 0)
  }

  /** The entries the cleaner keeps, scanning from the front: a run of three
      or more entries with exactly the same text keeps its first entry as it
      is and drops the rest; any other entry has its words collapsed and is
      kept only when at least three characters remain after stripping. */
  function RemoveRuns(es: seq<Entry>): (r: seq<Entry>)
    ensures |r| <= |es|
    decreases |es|
  {
    if es == [] then []
    else if RunLength(es) >= 3 then [es[0]] + RemoveRuns(es[RunLength(es)..])
    else KeepCollapsed(es[0]) + RemoveRuns(es[1..])
  }

  /** A kept entry stands for the entry `src` it was made from: the entry
      itself, or its word collapse with at least three characters, under the
      same time. */
  predicate Derived(e: Entry, src: Entry) {
    || e == src
    || (e == Collapse(src) && |Strip(e.content)| >= 3)
  }

  /** `r` is made of entries of `es`, one each, in the order of `es`. */
  predicate DerivedSubseq(r: seq<Entry>, es: seq<Entry>)
    decreases |es|
  {
    if r == [] then true
    else if es == [] then false
    else (Derived(r[0], es[0]) && DerivedSubseq(r[1..], es[1..])) || DerivedSubseq(r, es[1..])
  }

  /** Skipping entries of the input keeps the relation. */
  lemma {:induction false} DerivedSubseqDrop(r: seq<Entry>, es: seq<Entry>, n: nat)
    requires n <= |es| && DerivedSubseq(r, es[n..])
    ensures DerivedSubseq(r, es)
    decreases n
  {
    if n > 0 {
      assert es[1..][n - 1..] == es[n..];
      DerivedSubseqDrop(r, es[1..], n - 1);
    }
  }

  /** Putting an entry derived from the first input entry in front keeps the
      relation with the rest of the input. */
  lemma DerivedSubseqCons(e: Entry, r: seq<Entry>, es: seq<Entry>)
    requires es != [] && Derived(e, es[0]) && DerivedSubseq(r, es[1..])
    ensures DerivedSubseq([e] + r, es)
  {
    assert ([e] + r)[1..] == r;
  }

  /** The kept entries are, in order, entries of the table or their word
      collapses: times and order are kept and nothing is invented. */
  lemma {:induction false} RemoveRunsDerived(es: seq<Entry>)
    ensures DerivedSubseq(RemoveRuns(es), es)
    decreases |es|
  {
    if es != [] {
      if RunLength(es) >= 3 {
        RemoveRunsDerived(es[RunLength(es)..]);
        DerivedAfterRun(es);
      } else {
        RemoveRunsDerived(es[1..]);
        DerivedAfterSingle(es);
      }
    }
  }

  /** The step of `RemoveRunsDerived` for a run of three or more. */
  lemma DerivedAfterRun(es: seq<Entry>)
    requires es != [] && RunLength(es) >= 3
    requires DerivedSubseq(RemoveRuns(es[RunLength(es)..]), es[RunLength(es)..])
    ensures DerivedSubseq(RemoveRuns(es), es)
  {
    var j := RunLength(es);
    var rest := RemoveRuns(es[j..]);
    DerivedSubseqDropTail(rest, es, j);
    DerivedSubseqCons(es[0], rest, es);
  }

  /** Skipping all but the first `n` entries of the input keeps the relation
      with the input's tail. */
  lemma DerivedSubseqDropTail(r: seq<Entry>, es: seq<Entry>, n: nat)
    requires 1 <= n <= |es| && DerivedSubseq(r, es[n..])
    ensures DerivedSubseq(r, es[1..])
  {
    assert es[1..][n - 1..] == es[n..];
    DerivedSubseqDrop(r, es[1..], n - 1);
  }

  /** The step of `RemoveRunsDerived` for an entry outside a run. */
  lemma DerivedAfterSingle(es: seq<Entry>)
    requires es != [] && RunLength(es) < 3
    requires DerivedSubseq(RemoveRuns(es[1..]), es[1..])
    ensures DerivedSubseq(RemoveRuns(es), es)
  {
    var rest := RemoveRuns(es[1..]);
    var block := KeepCollapsed(es[0]);
    if block == [] {
      assert RemoveRuns(es) == rest by { assert [] + rest == rest; }
      DerivedSubseqDrop(rest, es, 1);
    } else {
      DerivedSubseqCons(block[0], rest, es);
    }
  }

  /** A run of three or more equal texts at the front keeps its first entry
      unchanged; the rest of the run is gone. */
  lemma RunKeepsFirst(es: seq<Entry>, j: nat)
    requires 3 <= j <= |es|
    requires forall k :: 0 <= k < j ==> es[k].content == es[0].content
    requires j == |es| || es[j].content != es[0].content
    ensures RemoveRuns(es) == [es[0]] + RemoveRuns(es[j..])
  {
    RunEndIs(Contents(es), j);
  }

  /** One step of the cleaner's outer loop at `i`, where `j` ends a run of
      three or more texts equal to the text at `i`: the run keeps its first
      entry, and the loop goes on after the run. */
  lemma {:induction false} RemoveStepRun(es: seq<Entry>, i: nat, j: nat)
    requires i + 3 <= j <= |es| && RunLength(es[i..]) == j - i
    ensures RemoveRuns(es[i..]) == [es[i]] + RemoveRuns(es[j..])
  {
    var rest := es[i..];
    DropDrop(es, i, j);
    RemoveRunsFrontRun(rest, j - i, es[i], es[j..]);
  }

  /** The same step for a run of one or two: the entry's word pass, and the
      loop goes on at the next entry. */
  lemma {:induction false} RemoveStepSingle(es: seq<Entry>, i: nat)
    requires i < |es| && RunLength(es[i..]) < 3
    ensures RemoveRuns(es[i..]) == KeepCollapsed(es[i]) + RemoveRuns(es[i + 1..])
  {
    var rest := es[i..];
    DropDrop(es, i, i + 1);
    RemoveRunsFrontSingle(rest, es[i], es[i + 1..]);
  }

  /** `RemoveRuns` on a table that opens with a run of three or more. */
  lemma RemoveRunsFrontRun(es: seq<Entry>, n: nat, head: Entry, tail: seq<Entry>)
    requires es != [] && n == RunLength(es) >= 3
    requires head == es[0] && tail == es[n..]
    ensures RemoveRuns(es) == [head] + RemoveRuns(tail)
  {
  }

  /** `RemoveRuns` on a table that opens with a run of one or two. */
  lemma RemoveRunsFrontSingle(es: seq<Entry>, head: Entry, tail: seq<Entry>)
    requires es != [] && RunLength(es) < 3
    requires head == es[0] && tail == es[1..]
    ensures RemoveRuns(es) == KeepCollapsed(head) + RemoveRuns(tail)
  {
  }

  /** The run at `i` read on the suffix from `i`. */
  lemma {:induction false} RunLengthAt(es: seq<Entry>, i: nat, j: nat)
    requires i < j <= |es|
    requires forall k :: i <= k < j ==> es[k].content == es[i].content
    requires j == |es| || es[j].content != es[i].content
    ensures RunLength(es[i..]) == j - i
  {
    assert Contents(es[i..]) == Contents(es)[i..];
    RunEndShift(Contents(es), i, j);
  }

  /** Dropping `i` entries and then `j - i` more drops `j`. */
  lemma DropDrop(es: seq<Entry>, i: nat, j: nat)
    requires i <= j <= |es|
    ensures es[i..][j - i..] == es[j..]
  {
  }

  /** The inner loop over `j`: the end of the run of entries whose text is
      exactly the text at `i`. */
  method EqualRunEnd(entries: seq<Entry>, i: nat) returns (j: nat)
    requires i < |entries|
    ensures i < j <= |entries|
    ensures forall k :: i <= k < j ==> entries[k].content == entries[i].content
    ensures j == |entries| || entries[j].content != entries[i].content
  {
    j := i + 1;
    while j < |entries| && entries[j].content == entries[i].content
      invariant i < j <= |entries|
      invariant forall k :: i <= k < j ==> entries[k].content == entries[i].content
    {
      j := j + 1;
    }
  }

  /** The word pass on one entry that is not part of a run: the entry with
      its words collapsed, or nothing when fewer than three characters
      remain. */
  method CollapseEntry(entry: Entry) returns (kept: Option<Entry>)
    ensures kept.None? <==> KeepCollapsed(entry) == []
    ensures kept.Some? ==> kept.value == Collapse(entry)
  {
    var cleanedWords := CollapseWordRuns(Words(entry.content));
    var cleanedContent := Join(" ", cleanedWords);
    if |Strip(cleanedContent)| >= 3 {
      kept := Some(Entry(entry.time, cleanedContent, entry.originalLine));
    } else {
      kept := None;
    }
  }

  /** One pass of the outer loop of `_remove_hallucination` at `i`: what it
      keeps, where it goes on, and how many entries it drops. */
  method RemoveAt(entries: seq<Entry>, i: nat) returns (block: seq<Entry>, next: nat, dropped: nat)
    requires i < |entries|
    ensures i < next <= |entries|
    ensures RemoveRuns(entries[i..]) == block + RemoveRuns(entries[next..])
    ensures dropped + |block| == next - i
  {
    var j := EqualRunEnd(entries, i);
    var repeatCount := j - i;
    RunLengthAt(entries, i, j);
    if repeatCount >= 3 {
      RemoveStepRun(entries, i, j);
      block, next, dropped := [entries[i]], j, repeatCount - 1;
    } else {
      RemoveStepSingle(entries, i);
      var kept := CollapseEntry(entries[i]);
      next := i + 1;
      if kept.Some? {
        block, dropped := [kept.value], 0;
      } else {
        block, dropped := [], 1;
      }
    }
  }

  /** The outer loop of `_remove_hallucination`: the kept entries, and the
      count of entries removed (the rest of a run, or an entry left too
      short by the word pass). */
  method RemoveRepeats(entries: seq<Entry>) returns (cleaned: seq<Entry>, removed: nat)
    ensures cleaned == RemoveRuns(entries)
    ensures removed == |entries| - |cleaned|
  {
    cleaned := [];
    removed := 0;
    var i := 0;
    assert entries[i..] == entries;
    while i < |entries|
      invariant 0 <= i <= |entries|
      invariant cleaned + RemoveRuns(entries[i..]) == RemoveRuns(entries)
      invariant removed + |cleaned| == i
    {
      var block, next, dropped := RemoveAt(entries, i);
      EntriesAssoc(cleaned, block, RemoveRuns(entries[next..]));
      cleaned := cleaned + block;
      removed := removed + dropped;
      i := next;
    }
    assert entries[i..] == [];
    assert cleaned + [] == cleaned;
  }

  /** The count and the rewrite for the header lines `header` and the
      table entries `entries`. */
  function TableRemoval(header: seq<string>, entries: seq<Entry>): (r: (nat, Option<string>))
    ensures r.0 == |entries| - |RemoveRuns(entries)|
    ensures r.1.Some? <==> r.0 > 0
    ensures r.1.Some? ==> r.1.value == Concat(header + RenderRows(RemoveRuns(entries)))
  {
    var removed := |entries| - |RemoveRuns(entries)|;
    (removed, if removed > 0 then Some(Concat(header + RenderRows(RemoveRuns(entries)))) else None)
  }

  /** What `_remove_hallucination` does to a time table's text: nothing when
      no line starts a row; otherwise the count of entries it did not keep,
      and, when that count is positive, the text it writes back. */
  function RemovalOf(text: string): (nat, Option<string>)
  {
    match FirstRow(Lines(text))
    case None => (0, None)
    case Some(t) => TableRemoval(Lines(text)[..t], ParseRows(Lines(text)[t..]))
  }

  /** The loop that finds the first row, leaving `-1` when there is none. */
  method FindFirstRow(lines: seq<string>) returns (tableStart: int)
    ensures FirstRow(lines).None? ==> tableStart == -1
    ensures FirstRow(lines).Some? ==> tableStart == FirstRow(lines).value
  {
    tableStart := -1;
    for i := 0 to |lines|
      invariant forall k :: 0 <= k < i ==> !StartsRow(lines[k])
    {
      if StartsRow(lines[i]) {
        tableStart := i;
        break;
      }
    }
  }

  /** `_remove_hallucination(time_file)` on the file's text: the number of
      entries removed, and the new text, written when that number is
      positive. */
  method RemoveHallucination(text: string) returns (removed: nat, written: Option<string>)
    ensures (removed, written) == RemovalOf(text)
  {
    var lines := Lines(text);
    var tableStart := FindFirstRow(lines);
    if tableStart == -1 {
      return 0, None;
    }
    var header := lines[..tableStart];
    var entries := CollectEntries(lines[tableStart..]);
    if entries == [] {
      return 0, None;
    }
    var cleaned;
    cleaned, removed := RemoveRepeats(entries);
    written := None;
    if removed > 0 {
      var newText := RenderTable(header, cleaned);
      written := Some(newText);
    }
    assert (removed, written) == TableRemoval(header, entries);
  }

  // ---------------------------------------------------------------------
  // The outputs of `transcribe_to_files`
  // ---------------------------------------------------------------------

  /** The status line both transcript files open with while recording. */
  const InProgress := "> **상태**: 변환 중... (실시간 업데이트)\n\n---\n\n"

  /** The writes that open the full-text file. */
  function FullHeader(name: string): seq<string> {
    ["# 📝 Audio Transcription - Full Text\n\n", "> **파일**: `" + name + "`  \n", InProgress]
  }

  /** The writes that open the time-table file, ending with the table head. */
  function TimeHeader(name: string): seq<string> {
    ["# ⏱️ Audio Transcription - Time Intervals\n\n", "> **파일**: `" + name + "`  \n", InProgress,
     "| 시간 | 내용 |\n|---|---|\n"]
  }

  /** The audio length as the log shows it: `알 수 없음` (unknown) when it could
      not be measured, the floored seconds otherwise. */
  function DurationText(duration: Option<int>): string {
    match duration
    case None => "알 수 없음"
    case Some(d) => FormatTime(d)
  }

  /** The writes a recording adds to the day's log before the first segment:
      the day's title when the log is new, then a section for the file. */
  function LogHeader(isNew: bool, date: string, name: string, duration: Option<int>, started: string, vad: bool): seq<string> {
    (if isNew then ["# 📋 Transcription Log - " + date + "\n\n"] else [])
    + ["---\n\n", "## 🎵 " + name + "\n\n", "| 항목 | 값 |\n|---|---|\n",
       "| **파일** | `" + name + "` |\n",
       "| **오디오 길이** | " + DurationText(duration) + " |\n",
       "| **시작 시간** | " + started + " |\n",
       "| **VAD** | " + (if vad then "활성화" else "비활성화") + " |\n"]
  }

  /** The log row for the detected language, its probability already
      formatted. */
  function LanguageRow(language: string, probability: string): string {
    "| **언어** | " + language + " (" + probability + ") |\n"
  }

  /** `range(10, 100, 10)`: the progress percentages the log records. */
  const Milestones: seq<nat> := [10, 20, 30, 40, 50, 60, 70, 80, 90]

  /** The log row for a milestone reached at `end` seconds of `total`. */
  function MilestoneRow(m: nat, end: int, total: int): string {
    "| **진행률** | " + NatToString(m) + "% (" + FormatTime(end) + "/" + FormatTime(total) + ") |\n"
  }

  /** The log rows for the milestones `ms`, in order. */
  function MilestoneRows(ms: seq<nat>, end: int, total: int): (r: seq<string>)
    ensures |r| == |ms|
    ensures forall k :: 0 <= k < |ms| ==> r[k] == MilestoneRow(ms[k], end, total)
  {
    seq(|ms|, k requires 0 <= k < |ms| => MilestoneRow(ms[k], end, total))
  }


  /** The milestones of `ms`, in order, that `progress` has reached and that
      are not in `logged` yet. */
  function Reached(logged: set<int>, progress: int, ms: seq<nat>): (r: seq<nat>)
    ensures |r| <= |ms|
    decreases |ms|
  {
    if ms == [] then []
    else
      Reached(logged, progress, ms[..|ms| - 1])
      + (if progress >= ms[|ms| - 1] && ms[|ms| - 1] !in logged then [ms[|ms| - 1]] else [])
  }

  /** The milestones up to `peak`. */
  function UpTo(peak: int): set<int> {
    set m | m in Milestones && m <= peak
  }

  /** The log rows for a text chunk of the full-text file: the stripped text
      and a newline after a sentence end `.`, `!` or `?`, a space otherwise;
      nothing for a blank text. */
  function FullChunk(text: string): (r: seq<string>)
    ensures |r| <= 1
    ensures !AllSpace(text) ==> |r| == 1
  {
    var t := Strip(text);
    if t == [] then []
    else if t[|t| - 1] in ".!?" then [t + "\n"]
    else [t + " "]
  }

  /** The time-table row of a segment: its start and its stripped text. */
  function TimeRow(seg: Segment): string {
    Row(FormatTime(seg.start), Strip(seg.text))
  }

  /** What an interruption appends to the full-text file. */
  const CancelledFull := "\n\n> **⚠️ 중단됨: 사용자에 의해 작업이 취소되었습니다.**\n"

  /** What an interruption appends to the time-table file. */
  const CancelledTable := "\n> **⚠️ 중단됨: 사용자에 의해 작업이 취소되었습니다.**\n"

  /** The completion footer of both transcript files. */
  function Footer(elapsed: string): string {
    "\n\n---\n✅ **변환 완료** (소요 시간: " + elapsed + ")"
  }

  /** The completion row of the log. */
  function ElapsedRow(elapsed: string): string {
    "| **소요 시간** | " + elapsed + " |\n\n"
  }

  function Max(a: int, b: int): int {
    if a >= b then a else b
  }

  /** The new milestones of a step are exactly those above the progress
      reached before and not above the step's progress. */
  lemma {:induction false} ReachedMembers(logged: set<int>, progress: int, ms: seq<nat>, m: int)
    ensures m in Reached(logged, progress, ms) <==> m in ms && m <= progress && m !in logged
    decreases |ms|
  {
    if ms != [] {
      ReachedMembers(logged, progress, ms[..|ms| - 1], m);
      assert ms == ms[..|ms| - 1] + [ms[|ms| - 1]];
    }
  }

  /** Step `i` of the milestone loop: the milestone at `i` is new to the
      prefix before it, and is logged after the earlier ones exactly when
      the progress has reached it and it was not logged before the loop. */
  lemma MilestoneStep(logged: set<int>, progress: int, i: nat, end: int, total: int)
    requires i < |Milestones|
    ensures Milestones[i] !in Milestones[..i]
    ensures Milestones[..i + 1] == Milestones[..i] + [Milestones[i]]
    ensures MilestoneRows(Reached(logged, progress, Milestones[..i + 1]), end, total)
            == MilestoneRows(Reached(logged, progress, Milestones[..i]), end, total)
               + (if progress >= Milestones[i] && Milestones[i] !in logged then [MilestoneRow(Milestones[i], end, total)] else [])
  {
    assert Milestones[..i + 1][..i] == Milestones[..i];
  }

  /** Strictly increasing. */
  predicate Increasing(ms: seq<nat>) {
    forall a, b :: 0 <= a < b < |ms| ==> ms[a] < ms[b]
  }

  /** Within one step the milestones are logged in increasing order, so each
      at most once. */
  lemma {:induction false} ReachedIncreasing(logged: set<int>, progress: int, ms: seq<nat>)
    requires Increasing(ms)
    ensures Increasing(Reached(logged, progress, ms))
    decreases |ms|
  {
    if ms != [] {
      var init := ms[..|ms| - 1];
      assert Increasing(init);
      ReachedIncreasing(logged, progress, init);
      var r0 := Reached(logged, progress, init);
      forall k | 0 <= k < |r0|
        ensures r0[k] < ms[|ms| - 1]
      {
        ReachedMembers(logged, progress, init, r0[k]);
      }
    }
  }

  /** The milestones logged so far are those up to the peak, so a step logs
      exactly the milestones it is the first to pass. */
  lemma NewMilestones(peak: int, progress: int, m: int)
    ensures m in Reached(UpTo(peak), progress, Milestones) <==> m in Milestones && peak < m <= progress
  {
    ReachedMembers(UpTo(peak), progress, Milestones, m);
  }

  /** Adding the milestones up to a new progress gives the milestones up to
      the larger of the two. */
  lemma UpToMax(a: int, b: int)
    ensures UpTo(a) + UpTo(b) == UpTo(Max(a, b))
  {
    LoggedUpTo(UpTo(a) + UpTo(b), a, b);
  }

  /** The milestones logged before a step (those up to `a`) together with
      those the step reaches (up to `b`) are the milestones up to the larger
      of the two. */
  lemma LoggedUpTo(logged: set<int>, a: int, b: int)
    requires forall m :: m in logged <==> m in UpTo(a) || (m in Milestones && m <= b)
    ensures logged == UpTo(Max(a, b))
  {
    forall m
      ensures m in logged <==> m in UpTo(Max(a, b))
    {
      assert m in UpTo(a) <==> m in Milestones && m <= a;
      assert m in UpTo(Max(a, b)) <==> m in Milestones && m <= Max(a, b);
    }
  }

  /** The time-table rows of `segs`, one per segment, in order. */
  function TimeRows(segs: seq<Segment>): (r: seq<string>)
    ensures |r| == |segs|
    decreases |segs|
  {
    if segs == [] then []
    else TimeRows(segs[..|segs| - 1]) + [TimeRow(segs[|segs| - 1])]
  }

  /** Row `k` of the table is the row of segment `k`. */
  lemma {:induction false} TimeRowsAt(segs: seq<Segment>, k: nat)
    requires k < |segs|
    ensures TimeRows(segs)[k] == TimeRow(segs[k])
    decreases |segs|
  {
    var init := segs[..|segs| - 1];
    var rows := TimeRows(init);
    assert TimeRows(segs) == rows + [TimeRow(segs[|segs| - 1])];
    if k < |segs| - 1 {
      TimeRowsAt(init, k);
      assert (rows + [TimeRow(segs[|segs| - 1])])[k] == rows[k];
    }
  }

  /** The full-text chunks of `segs`, in order. */
  function FullChunks(segs: seq<Segment>): (r: seq<string>)
    ensures |r| <= |segs|
    decreases |segs|
  {
    if segs == [] then []
    else FullChunks(segs[..|segs| - 1]) + FullChunk(segs[|segs| - 1].text)
  }

  /** Segments that all carry text get exactly one chunk each. */
  lemma {:induction false} FullChunksCount(segs: seq<Segment>)
    requires forall k :: 0 <= k < |segs| ==> !AllSpace(segs[k].text)
    ensures |FullChunks(segs)| == |segs|
    decreases |segs|
  {
    if segs != [] {
      FullChunksCount(segs[..|segs| - 1]);
    }
  }

  /** The largest progress seen after `segs`, starting from `peak`; progress
      only counts while the total duration is known. */
  function PeakAfter(peak: int, segs: seq<Segment>, total: Option<int>): (r: int)
    ensures r >= peak
    ensures total.None? ==> r == peak
    ensures forall k :: 0 <= k < |segs| && total.Some? ==> segs[k].progress <= r
    decreases |segs|
  {
    if segs == [] then peak
    else if total.Some? then Max(PeakAfter(peak, segs[..|segs| - 1], total), segs[|segs| - 1].progress)
    else PeakAfter(peak, segs[..|segs| - 1], total)
  }

  /** The milestones a segment logs after the progress `peak`. */
  function StepMilestones(peak: int, seg: Segment, total: Option<int>): seq<nat> {
    if total.Some? then Reached(UpTo(peak), seg.progress, Milestones) else []
  }

  /** The log rows of one recorded segment: the language row for the first
      one, then its milestone rows. */
  function StepLog(seen: bool, peak: int, seg: Segment, language: string, probability: string, total: Option<int>): seq<string> {
    (if seen then [] else [LanguageRow(language, probability)])
    + (if total.Some? then MilestoneRows(StepMilestones(peak, seg, total), seg.end, total.value) else [])
  }

  /** What the recorder has produced so far: the writes to the full-text
      file, to the time table and to the log, the segment count, whether the
      language row was written, and the largest progress seen. */
  datatype Sinks = Sinks(full: seq<string>, table: seq<string>, log: seq<string>, count: nat, seen: bool, peak: int)

  /** The outputs after one more accepted segment: its chunk, its row, its
      log rows, and the count one higher. */
  function Recorded(s: Sinks, seg: Segment, language: string, probability: string, total: Option<int>): Sinks {
    Sinks(s.full + FullChunk(seg.text), s.table + [TimeRow(seg)],
          s.log + StepLog(s.seen, s.peak, seg, language, probability, total),
          s.count + 1, true, if total.Some? then Max(s.peak, seg.progress) else s.peak)
  }

  /** The outputs after the accepted segments `segs`, in order. */
  function RecordedAll(s: Sinks, segs: seq<Segment>, language: string, probability: string, total: Option<int>): Sinks
    decreases |segs|
  {
    if segs == [] then s
    else Recorded(RecordedAll(s, segs[..|segs| - 1], language, probability, total), segs[|segs| - 1], language, probability, total)
  }

  /** The outputs after an interruption: a marker on both transcript files,
      nothing in the log. */
  function Interrupted(s: Sinks): Sinks {
    s.(full := s.full + [CancelledFull], table := s.table + [CancelledTable])
  }

  /** The outputs after a run that reached its end: the footer on both
      transcript files, the elapsed time in the log, and the time table
      cleaned when `autoClean` asks for it. */
  function Finished(s: Sinks, elapsed: int, autoClean: bool): Sinks {
    var footer := Footer(FormatTime(elapsed));
    s.(full := s.full + [footer], table := AfterClean(s.table + [footer], autoClean),
       log := s.log + [ElapsedRow(FormatTime(elapsed))])
  }

  /** The log rows that recording `segs` adds, from a state where the
      language row was (`seen`) or was not yet written and progress `peak`
      was reached. */
  function SessionLog(seen: bool, peak: int, segs: seq<Segment>, language: string, probability: string, total: Option<int>): seq<string>
    decreases |segs|
  {
    if segs == [] then []
    else
      var init := segs[..|segs| - 1];
      SessionLog(seen, peak, init, language, probability, total)
      + StepLog(seen || init != [], PeakAfter(peak, init, total), segs[|segs| - 1], language, probability, total)
  }

  /** The milestones logged while recording `segs`, in the order logged. */
  function SessionMilestones(peak: int, segs: seq<Segment>, total: Option<int>): seq<nat>
    decreases |segs|
  {
    if segs == [] then []
    else
      var init := segs[..|segs| - 1];
      SessionMilestones(peak, init, total) + StepMilestones(PeakAfter(peak, init, total), segs[|segs| - 1], total)
  }

  /** Over a whole recording the milestones are logged in increasing order,
      hence each at most once, and each lies above the progress reached
      before and not above the progress reached at the end. */
  lemma {:induction false} SessionMilestonesOnce(peak: int, segs: seq<Segment>, total: Option<int>)
    ensures Increasing(SessionMilestones(peak, segs, total))
    ensures forall k :: 0 <= k < |SessionMilestones(peak, segs, total)| ==>
              var m := SessionMilestones(peak, segs, total)[k];
              m in Milestones && peak < m <= PeakAfter(peak, segs, total)
    decreases |segs|
  {
    if segs != [] {
      var init := segs[..|segs| - 1];
      var last := segs[|segs| - 1];
      var before := PeakAfter(peak, init, total);
      SessionMilestonesOnce(peak, init, total);
      var a := SessionMilestones(peak, init, total);
      var b := StepMilestones(before, last, total);
      assert Increasing(Milestones);
      ReachedIncreasing(UpTo(before), last.progress, Milestones);
      forall k | 0 <= k < |b|
        ensures b[k] in Milestones && before < b[k] <= PeakAfter(peak, segs, total)
      {
        NewMilestones(before, last.progress, b[k]);
      }
      assert SessionMilestones(peak, segs, total) == a + b;
    }
  }

  /** With the total duration unknown, the log gains no milestone row: only
      the language row, once, at the first segment. */
  lemma {:induction false} UnknownTotalLog(seen: bool, peak: int, segs: seq<Segment>, language: string, probability: string)
    ensures SessionLog(seen, peak, segs, language, probability, None)
            == if seen || segs == [] then [] else [LanguageRow(language, probability)]
    decreases |segs|
  {
    if segs != [] {
      UnknownTotalLog(seen, peak, segs[..|segs| - 1], language, probability);
    }
  }

  /** Recording `segs` only appends: the full text gains their chunks, the
      table one row per segment, the log their language and milestone rows;
      the count grows by their number. Nothing written before is changed. */
  lemma {:induction false} RecordedAllShape(s: Sinks, segs: seq<Segment>, language: string, probability: string, total: Option<int>)
    ensures var r := RecordedAll(s, segs, language, probability, total);
            && r.full == s.full + FullChunks(segs)
            && r.table == s.table + TimeRows(segs)
            && r.log == s.log + SessionLog(s.seen, s.peak, segs, language, probability, total)
            && r.count == s.count + |segs|
            && r.seen == (s.seen || segs != [])
            && r.peak == PeakAfter(s.peak, segs, total)
    decreases |segs|
  {
    if segs == [] {
      assert s.full + [] == s.full && s.table + [] == s.table && s.log + [] == s.log;
    } else {
      var init := segs[..|segs| - 1];
      var last := segs[|segs| - 1];
      RecordedAllShape(s, init, language, probability, total);
      var r0 := RecordedAll(s, init, language, probability, total);
      Assoc(s.full, FullChunks(init), FullChunk(last.text));
      Assoc(s.table, TimeRows(init), [TimeRow(last)]);
      Assoc(s.log, SessionLog(s.seen, s.peak, init, language, probability, total),
            StepLog(s.seen || init != [], PeakAfter(s.peak, init, total), last, language, probability, total));
    }
  }

  /** The table after a recording holds exactly one row per accepted
      segment, in engine order, and nothing else after what it held. */
  lemma TableRowsAreAccepted(s: Sinks, engine: seq<Segment>, language: string, probability: string, total: Option<int>)
    ensures var t := RecordedAll(s, Accepted(engine), language, probability, total).table;
            && |t| == |s.table| + |Accepted(engine)|
            && t[..|s.table|] == s.table
            && forall k :: 0 <= k < |Accepted(engine)| ==> t[|s.table| + k] == TimeRow(Accepted(engine)[k])
  {
    var segs := Accepted(engine);
    RecordedAllShape(s, segs, language, probability, total);
    AppendedRows(s.table, segs);
  }

  /** Rows appended after `before`: one per segment, in order. */
  lemma AppendedRows(before: seq<string>, segs: seq<Segment>)
    ensures var t := before + TimeRows(segs);
            && |t| == |before| + |segs|
            && t[..|before|] == before
            && forall k :: 0 <= k < |segs| ==> t[|before| + k] == TimeRow(segs[k])
  {
    var t := before + TimeRows(segs);
    forall k | 0 <= k < |segs|
      ensures t[|before| + k] == TimeRow(segs[k])
    {
      TimeRowsAt(segs, k);
    }
  }

  /** What cuts the engine's output short while the segment at index `at`
      is awaited: the user's interrupt, or an exception raised by the engine. */
  datatype Break = Runs | InterruptAt(at: nat) | RaiseAt(at: nat)

  /** How a session ends: finished, cancelled by the user, or ended by an
      exception that `transcribe_to_files` lets propagate. */
  datatype Outcome = Completed | Cancelled | Failed

  /** The index at which the engine's output is cut short, if anywhere. */
  function BreakPoint(brk: Break): (at: Option<nat>)
    ensures at.None? <==> brk.Runs?
    ensures at.Some? ==> at.value == brk.at
  {
    if brk.Runs? then None else Some(brk.at)
  }

  /** How many engine segments are pulled: all of them, or those before the
      break when it comes first. */
  function Stop(engine: seq<Segment>, cancelAt: Option<nat>): (n: nat)
    ensures n <= |engine|
  {
    if cancelAt.Some? && cancelAt.value <= |engine| then cancelAt.value else |engine|
  }

  /** The segments a recording writes: the accepted ones among those
      pulled. */
  function Written(engine: seq<Segment>, cancelAt: Option<nat>): seq<Segment> {
    Accepted(engine[..Stop(engine, cancelAt)])
  }

  /** Pulling engine segment `i` adds it to the accepted ones unless it is
      noise. */
  lemma AcceptedStep(engine: seq<Segment>, i: nat)
    requires i < |engine|
    ensures IsHallucination(engine[i].text) ==> Accepted(engine[..i + 1]) == Accepted(engine[..i])
    ensures !IsHallucination(engine[i].text) ==> Accepted(engine[..i + 1]) == Accepted(engine[..i]) + [engine[i]]
  {
    assert engine[..i + 1][..i] == engine[..i];
    var a := Accepted(engine[..i]);
    assert a + [] == a;
  }

  /** Pulling engine segment `i` records it unless it is noise. */
  lemma RecordedAllStep(s: Sinks, engine: seq<Segment>, i: nat, language: string, probability: string, total: Option<int>)
    requires i < |engine|
    ensures RecordedAll(s, Accepted(engine[..i + 1]), language, probability, total)
            == if IsHallucination(engine[i].text) then RecordedAll(s, Accepted(engine[..i]), language, probability, total)
               else Recorded(RecordedAll(s, Accepted(engine[..i]), language, probability, total), engine[i], language, probability, total)
  {
    AcceptedStep(engine, i);
    if !IsHallucination(engine[i].text) {
      RecordedAllSnoc(s, Accepted(engine[..i]), engine[i], language, probability, total);
    }
  }

  /** Recording `segs` and then `seg` is recording `segs + [seg]`. */
  lemma RecordedAllSnoc(s: Sinks, segs: seq<Segment>, seg: Segment, language: string, probability: string, total: Option<int>)
    ensures RecordedAll(s, segs + [seg], language, probability, total)
            == Recorded(RecordedAll(s, segs, language, probability, total), seg, language, probability, total)
  {
    assert (segs + [seg])[..|segs|] == segs;
  }

  /** The time table as it stands after the completion footer: unchanged, or
      with `autoClean` rewritten as `_remove_hallucination` writes it when it
      removed something. */
  function AfterClean(writes: seq<string>, autoClean: bool): seq<string> {
    if autoClean && RemovalOf(Concat(writes)).1.Some? then [RemovalOf(Concat(writes)).1.value] else writes
  }

  /** The optional clean-up after a finished run: with `autoClean`, the
      time table is replaced by the text `_remove_hallucination` writes,
      when it writes one. */
  method CleanTable(writes: seq<string>, autoClean: bool) returns (r: seq<string>)
    ensures r == AfterClean(writes, autoClean)
  {
    r := writes;
    if autoClean {
      var removed, written := RemoveHallucination(Concat(writes));
      if written.Some? {
        r := [written.value];
      }
    }
  }

  /** The three outputs of one transcription, as the writes appended to
      each, and the state the loop keeps between segments. */
  class Recorder {
    /** The writes to the `_full.md` file. */
    var full: seq<string>
    /** The writes to the `_time.md` file. */
    var table: seq<string>
    /** The writes to the day's log, after what it held before. */
    var log: seq<string>
    var segmentCount: nat
    /** Whether the language row has been logged (`info is not None`). */
    var infoSeen: bool
    var loggedProgress: set<int>
    /** The largest progress seen while the total duration was known. */
    ghost var peak: int

    ghost predicate Valid()
      reads this
    {
      && loggedProgress == UpTo(peak)
      && (infoSeen <==> segmentCount > 0)
    }

    /** The outputs and counters as a value. */
    ghost function State(): Sinks
      reads this
    {
      Sinks(full, table, log, segmentCount, infoSeen, peak)
    }

    /** The set-up before the loop: the log gets its section (after its old
        text, whose emptiness decides the title), the two transcript files
        start afresh with their headers. */
    constructor (name: string, duration: Option<int>, date: string, started: string, vad: bool, oldLog: string)
      ensures Valid()
      ensures full == FullHeader(name) && table == TimeHeader(name)
      ensures log == [oldLog] + LogHeader(oldLog == [], date, name, duration, started, vad)
      ensures segmentCount == 0 && !infoSeen && loggedProgress == {} && peak == 0
    {
      log := [oldLog] + LogHeader(oldLog == [], date, name, duration, started, vad);
      full := FullHeader(name);
      table := TimeHeader(name);
      segmentCount := 0;
      infoSeen := false;
      loggedProgress := {};
      peak := 0;
    }

    /** The milestone loop for a segment ending at `end` with integer
        progress `progress`, when the total `total` is known. */
    method LogMilestones(progress: int, end: int, total: int)
      requires Valid()
      modifies this
      ensures Valid()
      ensures log == old(log) + MilestoneRows(Reached(old(loggedProgress), progress, Milestones), end, total)
      ensures peak == Max(old(peak), progress)
      ensures full == old(full) && table == old(table)
      ensures segmentCount == old(segmentCount) && infoSeen == old(infoSeen)
    {
      ghost var logged := loggedProgress;
      for i := 0 to |Milestones|
        invariant log == old(log) + MilestoneRows(Reached(logged, progress, Milestones[..i]), end, total)
        invariant forall m :: m in loggedProgress <==> m in logged || (m in Milestones[..i] && m <= progress)
        invariant full == old(full) && table == old(table)
        invariant segmentCount == old(segmentCount) && infoSeen == old(infoSeen) && peak == old(peak)
      {
        MilestoneAt(old(log), logged, progress, i, end, total);
      }
      assert Milestones[..|Milestones|] == Milestones;
      peak := Max(peak, progress);
      LoggedUpTo(loggedProgress, old(peak), progress);
    }

    /** One pass of the milestone loop: milestone `i` is logged when the
        progress has reached it and it was not logged before. */
    method MilestoneAt(ghost before: seq<string>, ghost logged: set<int>, progress: int, i: nat, end: int, total: int)
      requires i < |Milestones|
      requires log == before + MilestoneRows(Reached(logged, progress, Milestones[..i]), end, total)
      requires forall m :: m in loggedProgress <==> m in logged || (m in Milestones[..i] && m <= progress)
      modifies this
      ensures log == before + MilestoneRows(Reached(logged, progress, Milestones[..i + 1]), end, total)
      ensures forall m :: m in loggedProgress <==> m in logged || (m in Milestones[..i + 1] && m <= progress)
      ensures full == old(full) && table == old(table)
      ensures segmentCount == old(segmentCount) && infoSeen == old(infoSeen) && peak == old(peak)
    {
      var milestone := Milestones[i];
      MilestoneStep(logged, progress, i, end, total);
      if progress >= milestone && milestone !in loggedProgress {
        loggedProgress := loggedProgress + {milestone};
        Assoc(before, MilestoneRows(Reached(logged, progress, Milestones[..i]), end, total), [MilestoneRow(milestone, end, total)]);
        log := log + [MilestoneRow(milestone, end, total)];
      } else {
        assert MilestoneRows(Reached(logged, progress, Milestones[..i]), end, total) + [] == MilestoneRows(Reached(logged, progress, Milestones[..i]), end, total);
      }
    }

    /** One segment of the stream: the count goes up, the first segment logs
        the language, milestones are logged when the total is known, and the
        text goes to the full-text file and, as a row, to the time table. */
    method Record(seg: Segment, language: string, probability: string, total: Option<int>)
      requires Valid()
      modifies this
      ensures Valid()
      ensures State() == Recorded(old(State()), seg, language, probability, total)
      ensures loggedProgress == if total.Some? then old(loggedProgress) + UpTo(seg.progress) else old(loggedProgress)
    {
      segmentCount := segmentCount + 1;
      LogLanguage(language, probability);
      ghost var log1 := log;
      if total.Some? {
        LogMilestones(seg.progress, seg.end, total.value);
        UpToMax(old(peak), seg.progress);
      } else {
        assert log1 + [] == log1;
      }
      Assoc(old(log), if old(infoSeen) then [] else [LanguageRow(language, probability)],
            if total.Some? then MilestoneRows(StepMilestones(old(peak), seg, total), seg.end, total.value) else []);
      AppendChunk(seg.text);
      table := table + [Row(FormatTime(seg.start), Strip(seg.text))];
    }

    /** The language row, written with the first segment only. */
    method LogLanguage(language: string, probability: string)
      requires loggedProgress == UpTo(peak) && segmentCount > 0
      modifies this
      ensures Valid()
      ensures log == old(log) + if old(infoSeen) then [] else [LanguageRow(language, probability)]
      ensures full == old(full) && table == old(table) && segmentCount == old(segmentCount)
      ensures loggedProgress == old(loggedProgress) && peak == old(peak)
    {
      if !infoSeen {
        infoSeen := true;
        log := log + [LanguageRow(language, probability)];
      } else {
        assert log + [] == log;
      }
    }

    /** The segment's text, stripped, on the full-text file: followed by a
        line break after a sentence end, by a space otherwise. */
    method AppendChunk(text: string)
      modifies this
      ensures full == old(full) + FullChunk(text)
      ensures log == old(log) && table == old(table) && segmentCount == old(segmentCount)
      ensures infoSeen == old(infoSeen) && loggedProgress == old(loggedProgress) && peak == old(peak)
    {
      var chunk := Strip(text);
      if chunk != [] {
        if chunk[|chunk| - 1] in ".!?" {
          full := full + [chunk + "\n"];
        } else {
          full := full + [chunk + " "];
        }
      } else {
        assert full + [] == full;
      }
    }

    /** The interruption: a marker on both transcript files, nothing in the
        log. */
    method Interrupt()
      requires Valid()
      modifies this
      ensures Valid()
      ensures State() == Interrupted(old(State()))
      ensures loggedProgress == old(loggedProgress)
    {
      full := full + [CancelledFull];
      table := table + [CancelledTable];
    }

    /** The normal end: the elapsed time in the log, the footer on both
        transcript files. */
    method Finish(elapsed: int)
      requires Valid()
      modifies this
      ensures Valid()
      ensures State() == Finished(old(State()), elapsed, false)
      ensures loggedProgress == old(loggedProgress)
    {
      log := log + [ElapsedRow(FormatTime(elapsed))];
      full := full + [Footer(FormatTime(elapsed))];
      table := table + [Footer(FormatTime(elapsed))];
    }

    /** The pulls of the session loop up to the interruption or the end of
        the engine's output: how many engine segments were pulled, and the
        outputs with every accepted one among them recorded. */
    method Stream(engine: seq<Segment>, cancelAt: Option<nat>, language: string, probability: string, total: Option<int>)
      returns (i: nat)
      requires Valid()
      modifies this
      ensures Valid()
      ensures i == Stop(engine, cancelAt)
      ensures State() == RecordedAll(old(State()), Accepted(engine[..i]), language, probability, total)
    {
      i := 0;
      while i < |engine| && cancelAt != Some(i)
        invariant 0 <= i <= Stop(engine, cancelAt)
        invariant Valid()
        invariant State() == RecordedAll(old(State()), Accepted(engine[..i]), language, probability, total)
      {
        Pull(old(State()), engine, i, language, probability, total);
        i := i + 1;
      }
    }

    /** One pass of the segment loop: engine segment `i` is recorded unless
        it is noise. */
    method Pull(ghost start: Sinks, engine: seq<Segment>, i: nat, language: string, probability: string, total: Option<int>)
      requires Valid() && i < |engine|
      requires State() == RecordedAll(start, Accepted(engine[..i]), language, probability, total)
      modifies this
      ensures Valid()
      ensures State() == RecordedAll(start, Accepted(engine[..i + 1]), language, probability, total)
    {
      RecordedAllStep(start, engine, i, language, probability, total);
      if !IsHallucination(engine[i].text) {
        Record(engine[i], language, probability, total);
      }
    }

    /** The segment loop of `transcribe_to_files` over the engine's output
        `engine`, cut short by `brk` while the engine segment at its index is
        awaited: the filter drops noise, every other segment is recorded; an
        interruption marks both transcript files and ends the run; an
        exception from the engine leaves the files as they are and ends the
        run, since only `KeyboardInterrupt` is caught; otherwise the run is
        finished and, with `autoClean`, the time table is cleaned by
        `_remove_hallucination` and rewritten when it removed something. */
    method Transcribe(engine: seq<Segment>, brk: Break, language: string, probability: string,
                      total: Option<int>, elapsed: int, autoClean: bool) returns (outcome: Outcome)
      requires Valid()
      modifies this
      ensures Valid()
      ensures outcome == Cancelled <==> brk.InterruptAt? && brk.at <= |engine|
      ensures outcome == Failed <==> brk.RaiseAt? && brk.at <= |engine|
      ensures var s := RecordedAll(old(State()), Written(engine, BreakPoint(brk)), language, probability, total);
              State() == match outcome
                         case Cancelled => Interrupted(s)
                         case Failed => s
                         case Completed => Finished(s, elapsed, autoClean)
    {
      ghost var start := State();
      var at := BreakPoint(brk);
      var i := Stream(engine, at, language, probability, total);
      ghost var recorded := State();
      assert recorded == RecordedAll(start, Written(engine, at), language, probability, total);
      if at == Some(i) {
        if brk.InterruptAt? {
          Interrupt();
          return Cancelled;
        }
        return Failed;
      }
      Finish(elapsed);
      table := CleanTable(table, autoClean);
      return Completed;
    }
  }
}
