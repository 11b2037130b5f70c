/** The offline cleaner of src/fix_hallucination.py: it reads a `_time.md`
    table, finds blocks of repeated or near-identical rows, short phrases
    repeated many times and rows that look like engine noise, and rewrites
    the table without them. */
module FixHallucination {
  import opened Wrappers
  import opened Strings
  import opened Repeats
  import opened TimeTable
  import opened WordRuns

  // ---------------------------------------------------------------------
  // detect_repeated_content
  // ---------------------------------------------------------------------

  /** Lines `start..end` (both included) repeat the stripped text `text`. */
  datatype Section = Section(start: nat, end: nat, text: string)

  /** Every line stripped: the texts the scan compares. */
  function StripAll(lines: seq<string>): (texts: seq<string>)
    ensures |texts| == |lines|
    ensures forall k :: 0 <= k < |lines| ==> texts[k] == Strip(lines[k])
  {
    seq(|lines|, k requires 0 <= k < |lines| => Strip(lines[k]))
  }

  /** A stripped text continues the run opened by the stripped text `first`:
      it is the same text, or its character set is more than 80% similar. */
  predicate Continues(first: string, next: string) {
    next == first || Similar(first, next)
  }

  /** Only a text of five or more characters opens a run. */
  predicate CanOpen(text: string) {
    |text| >= 5
  }

  /** The end of the run of texts from `j` on that continue `first` (every
      text before it continues the run, see `RunExtentContinues`). */
  function RunExtent(texts: seq<string>, first: string, j: nat): (k: nat)
    requires j <= |texts|
    ensures j <= k <= |texts|
    ensures k == |texts| || !Continues(first, texts[k])
    decreases |texts| - j
  {
    if j < |texts| && Continues(first, texts[j]) then RunExtent(texts, first, j + 1) else j
  }

  /** The end of the run the text at `i` opens. */
  function RunEndAt(texts: seq<string>, i: nat): (k: nat)
    requires i < |texts|
    ensures i < k <= |texts|
  {
    RunExtent(texts, texts[i], i + 1)
  }

  /** The sections the scan from text `i` reports: a text that can open a
      run and is followed by enough continuing texts starts a section and the
      scan resumes after it; otherwise the scan moves on by one line. */
  function SectionsFrom(texts: seq<string>, threshold: nat, i: nat): seq<Section>
    requires i <= |texts|
    decreases |texts| - i
  {
    if i == |texts| then []
    else if CanOpen(texts[i]) && RunEndAt(texts, i) - i >= threshold then
      [Section(i, RunEndAt(texts, i) - 1, texts[i])] + SectionsFrom(texts, threshold, RunEndAt(texts, i))
    else SectionsFrom(texts, threshold, i + 1)
  }

  /** `detect_repeated_content(lines, threshold)` as a value. */
  function RepeatedSections(lines: seq<string>, threshold: nat): seq<Section> {
    SectionsFrom(StripAll(lines), threshold, 0)
  }

  /** The scan at a text that opens a run long enough reports that run. */
  lemma SectionsAtOpen(texts: seq<string>, threshold: nat, i: nat)
    requires i < |texts| && CanOpen(texts[i]) && RunEndAt(texts, i) - i >= threshold
    ensures SectionsFrom(texts, threshold, i)
            == [Section(i, RunEndAt(texts, i) - 1, texts[i])] + SectionsFrom(texts, threshold, RunEndAt(texts, i))
  {
  }

  /** Otherwise the scan moves on by one line. */
  lemma SectionsAtSkip(texts: seq<string>, threshold: nat, i: nat)
    requires i < |texts| && !(CanOpen(texts[i]) && RunEndAt(texts, i) - i >= threshold)
    ensures SectionsFrom(texts, threshold, i) == SectionsFrom(texts, threshold, i + 1)
  {
  }

  /** One step of the outer loop at a text that opens a section. */
  lemma OpenStep(texts: seq<string>, threshold: nat, i: nat, j: nat, sections: seq<Section>)
    requires i < |texts| && CanOpen(texts[i]) && RunEndAt(texts, i) == j && j - i >= threshold
    ensures sections + SectionsFrom(texts, threshold, i)
            == (sections + [Section(i, j - 1, texts[i])]) + SectionsFrom(texts, threshold, j)
  {
    SectionsAtOpen(texts, threshold, i);
  }

  /** What a reported section promises about the stripped texts. */
  predicate SectionOf(texts: seq<string>, threshold: nat, s: Section) {
    && s.start <= s.end < |texts|
    && CanOpen(texts[s.start])
    && s.text == texts[s.start]
    && s.end + 1 - s.start >= threshold
    && (forall m :: s.start < m <= s.end ==> Continues(s.text, texts[m]))
    && (s.end + 1 == |texts| || !Continues(s.text, texts[s.end + 1]))
  }

  /** Line `p` lies inside one of the sections. */
  predicate Covers(secs: seq<Section>, p: int) {
    exists k :: 0 <= k < |secs| && secs[k].start <= p <= secs[k].end
  }

  /** `detect_repeated_content(lines, threshold)`: the outer loop over `i`. */
  method DetectRepeatedContent(lines: seq<string>, threshold: nat) returns (sections: seq<Section>)
    ensures sections == RepeatedSections(lines, threshold)
  {
    ghost var texts := StripAll(lines);
    sections := [];
    var i := 0;
    while i < |lines|
      invariant 0 <= i <= |lines|
      invariant sections + SectionsFrom(texts, threshold, i) == SectionsFrom(texts, threshold, 0)
    {
      var current := Strip(lines[i]);
      assert texts[i] == current;
      if current == [] || |current| < 5 {
        SectionsAtSkip(texts, threshold, i);
        i := i + 1;
      } else {
        var j := RunLength(lines, current, i + 1);
        var repeatCount := j - i;
        assert RunEndAt(texts, i) == j;
        if repeatCount >= threshold {
          OpenStep(texts, threshold, i, j, sections);
          sections := sections + [Section(i, j - 1, current)];
          i := j;
        } else {
          SectionsAtSkip(texts, threshold, i);
          i := i + 1;
        }
      }
    }
  }

  /** The inner loop of `detect_repeated_content`: `j` moves on while the
      stripped line at `j` equals `current` or is similar to it. */
  method RunLength(lines: seq<string>, current: string, from: nat) returns (j: nat)
    requires from <= |lines|
    ensures j == RunExtent(StripAll(lines), current, from)
  {
    ghost var texts := StripAll(lines);
    j := from;
    while j < |lines|
      invariant from <= j <= |lines|
      invariant RunExtent(texts, current, j) == RunExtent(texts, current, from)
    {
      var next := Strip(lines[j]);
      if next == current || Similar(current, next) {
        j := j + 1;
      } else {
        break;
      }
    }
  }

  /** Every section the scan reports meets `SectionOf`, starts at or after
      the scan's start, and the sections come in order without overlapping. */
  lemma {:induction false} SectionsSound(texts: seq<string>, threshold: nat, i: nat)
    requires i <= |texts|
    ensures forall k :: 0 <= k < |SectionsFrom(texts, threshold, i)| ==>
              SectionOf(texts, threshold, SectionsFrom(texts, threshold, i)[k])
              && i <= SectionsFrom(texts, threshold, i)[k].start
    decreases |texts| - i
  {
    if i < |texts| {
      if CanOpen(texts[i]) && RunEndAt(texts, i) - i >= threshold {
        var j := RunEndAt(texts, i);
        SectionsAtOpen(texts, threshold, i);
        SectionsSound(texts, threshold, j);
        var rest := SectionsFrom(texts, threshold, j);
        var first := Section(i, j - 1, texts[i]);
        FirstSection(texts, threshold, i);
        var secs := [first] + rest;
        assert forall k :: 1 <= k < |secs| ==> secs[k] == rest[k - 1];
      } else {
        SectionsAtSkip(texts, threshold, i);
        SectionsSound(texts, threshold, i + 1);
      }
    }
  }

  /** Each section's first line comes no later than its last, and every
      section ends before the next one starts. */
  predicate Disjoint(secs: seq<Section>) {
    && (forall k :: 0 <= k < |secs| ==> secs[k].start <= secs[k].end)
    && (forall a, b :: 0 <= a < b < |secs| ==> secs[a].end < secs[b].start)
  }

  /** The sections lie after `i`, in increasing order, and do not overlap. */
  lemma {:induction false} SectionsOrdered(texts: seq<string>, threshold: nat, i: nat)
    requires i <= |texts|
    ensures forall k :: 0 <= k < |SectionsFrom(texts, threshold, i)| ==>
              i <= SectionsFrom(texts, threshold, i)[k].start && SectionsFrom(texts, threshold, i)[k].end < |texts|
    ensures Disjoint(SectionsFrom(texts, threshold, i))
    decreases |texts| - i
  {
    if i < |texts| {
      if CanOpen(texts[i]) && RunEndAt(texts, i) - i >= threshold {
        var j := RunEndAt(texts, i);
        SectionsAtOpen(texts, threshold, i);
        SectionsOrdered(texts, threshold, j);
        var rest := SectionsFrom(texts, threshold, j);
        var secs := [Section(i, j - 1, texts[i])] + rest;
        assert forall k :: 1 <= k < |secs| ==> secs[k] == rest[k - 1];
      } else {
        SectionsAtSkip(texts, threshold, i);
        SectionsOrdered(texts, threshold, i + 1);
      }
    }
  }

  /** The section a text opens meets `SectionOf`. */
  lemma FirstSection(texts: seq<string>, threshold: nat, i: nat)
    requires i < |texts| && CanOpen(texts[i]) && RunEndAt(texts, i) - i >= threshold
    ensures SectionOf(texts, threshold, Section(i, RunEndAt(texts, i) - 1, texts[i]))
  {
    var j := RunEndAt(texts, i);
    forall m | i < m <= j - 1
      ensures Continues(texts[i], texts[m])
    {
      RunExtentContinues(texts, texts[i], i + 1, m);
    }
  }

  /** Every text a run spans continues it. */
  lemma {:induction false} RunExtentContinues(texts: seq<string>, first: string, j: nat, m: nat)
    requires j <= m && j <= |texts| && m < RunExtent(texts, first, j)
    ensures Continues(first, texts[m])
    decreases |texts| - j
  {
    if m > j {
      RunExtentContinues(texts, first, j + 1, m);
    }
  }

  /** The scan misses nothing: a text from the scan's start on that can open
      a run long enough lies inside one of the sections. */
  lemma {:induction false} SectionsComplete(texts: seq<string>, threshold: nat, i: nat, p: nat)
    requires i <= p < |texts|
    requires CanOpen(texts[p]) && RunEndAt(texts, p) - p >= threshold
    ensures Covers(SectionsFrom(texts, threshold, i), p)
    decreases |texts| - i
  {
    var secs := SectionsFrom(texts, threshold, i);
    if CanOpen(texts[i]) && RunEndAt(texts, i) - i >= threshold {
      var j := RunEndAt(texts, i);
      SectionsAtOpen(texts, threshold, i);
      var rest := SectionsFrom(texts, threshold, j);
      if p < j {
        assert secs[0].start <= p <= secs[0].end;
      } else {
        SectionsComplete(texts, threshold, j, p);
        var k :| 0 <= k < |rest| && rest[k].start <= p <= rest[k].end;
        assert secs[k + 1] == rest[k];
      }
    } else {
      SectionsAtSkip(texts, threshold, i);
      assert i != p;
      SectionsComplete(texts, threshold, i + 1, p);
    }
  }

  // ---------------------------------------------------------------------
  // is_likely_hallucination
  // ---------------------------------------------------------------------

  /** How often the most common character of `s` occurs among `s[i..]`'s
      characters, counted over all of `s` (`Counter(s).most_common(1)`). */
  function MostCommonCount(s: string, i: nat): (m: nat)
    requires i <= |s|
    ensures forall j :: i <= j < |s| ==> multiset(s)[s[j]] <= m
    ensures i < |s| ==> exists j :: i <= j < |s| && m == multiset(s)[s[j]]
    ensures i == |s| ==> m == 0
    decreases |s| - i
  {
    if i == |s| then 0
    else
      var rest := MostCommonCount(s, i + 1);
      if multiset(s)[s[i]] >= rest then multiset(s)[s[i]] else rest
  }

  /** One character makes up more than 80% of `s`. */
  ghost predicate Dominated(s: string) {
    exists c :: c in s && 5 * multiset(s)[c] > 4 * |s|
  }

  lemma DominatedByMostCommon(s: string)
    ensures 5 * MostCommonCount(s, 0) > 4 * |s| <==> Dominated(s)
  {
    var m := MostCommonCount(s, 0);
    if 5 * m > 4 * |s| {
      var j :| 0 <= j < |s| && m == multiset(s)[s[j]];
      assert s[j] in s;
    }
    if Dominated(s) {
      var c :| c in s && 5 * multiset(s)[c] > 4 * |s|;
      var j :| 0 <= j < |s| && s[j] == c;
    }
  }

  /** `^(.{1,3})\1{5,}`: one to three characters repeated six times in all. */
  const ShortUnitRun := RepeatPattern(1, 3, 6)

  /** What `re.match(r'^(.{1,3})\1{5,}', s)` accepts, stated on `s` itself. */
  predicate OpensWithRepeatedUnit(s: string) {
    exists k :: 1 <= k <= 3 && 6 * k <= |s| && NoNewline(s[..k]) && s[..6 * k] == Repeat(s[..k], 6)
  }

  lemma ShortUnitRunMeaning(s: string)
    ensures MatchAt(s, 0, ShortUnitRun).Some? <==> OpensWithRepeatedUnit(s)
  {
    var m := MatchAt(s, 0, ShortUnitRun);
    if m.Some? {
      var k := m.value;
      assert s[0..k] == s[..k];
      CopiesSpell(s, 0, s[..k], 6);
      assert s[0..6 * k] == s[..6 * k];
    }
    if OpensWithRepeatedUnit(s) {
      var k :| 1 <= k <= 3 && 6 * k <= |s| && NoNewline(s[..k]) && s[..6 * k] == Repeat(s[..k], 6);
      assert s[0..6 * k] == s[..6 * k] && s[0..k] == s[..k];
      CopiesOfRepeat(s, 0, s[..k], 6);
      assert MatchesWith(s, 0, ShortUnitRun, k);
    }
  }

  /** The class `[ㄱ-ㅎㅏ-ㅣ]`: the compatibility jamo U+3131 to U+3163. */
  predicate IsJamo(c: char) {
    'ㄱ' <= c <= 'ㅣ'
  }

  predicate AllJamo(s: string) {
    forall i :: 0 <= i < |s| ==> IsJamo(s[i])
  }

  /** `re.match(r'^[ㄱ-ㅎㅏ-ㅣ]+$', s)`: `$` also matches just before a final
      newline. */
  predicate JamoOnly(s: string) {
    (s != [] && AllJamo(s))
    || (|s| >= 2 && s[|s| - 1] == '\n' && AllJamo(s[..|s| - 1]))
  }

  predicate IsAsciiLetter(c: char) {
    ('a' <= c <= 'z') || ('A' <= c <= 'Z')
  }

  /** `re.match(r'^([a-zA-Z])\1{10,}', s)`: one ASCII letter eleven times. */
  predicate OpensWithLetterRun(s: string) {
    |s| >= 11 && IsAsciiLetter(s[0]) && forall i :: 0 < i < 11 ==> s[i] == s[0]
  }

  /** `is_likely_hallucination(content)`. */
  function IsLikelyHallucination(content: string): (r: bool)
    ensures r <==>
      || |content| < 2
      || (|content| > 10 && Dominated(content))
      || OpensWithRepeatedUnit(content)
      || JamoOnly(content)
      || OpensWithLetterRun(content)
  {
    DominatedByMostCommon(content);
    ShortUnitRunMeaning(content);
    || |content| < 2
    || (|content| > 10 && 5 * MostCommonCount(content, 0) > 4 * |content|)
    || MatchAt(content, 0, ShortUnitRun).Some?
    || JamoOnly(content)
    || OpensWithLetterRun(content)
  }

  // ---------------------------------------------------------------------
  // parse_time_md_file
  // ---------------------------------------------------------------------

  /** The separator row the table header is followed by. */
  const Rule := "|---|---|"

  /** The table's header row as the recorder writes it. */
  const TableHeading := "| 시간 | 내용 |"

  /** A line that may open the table: the header row or a time-stamped row. */
  predicate OpensTable(line: string) {
    StartsWith(Strip(line), TableHeading) || StartsRow(line)
  }

  /** The first table start from line `i` on: an opening line preceded by a
      separator row starts the table itself; one followed by a separator row
      starts it two lines later. */
  function TableStart(lines: seq<string>, i: nat): (r: Option<nat>)
    requires i <= |lines|
    ensures r.Some? ==> i <= r.value <= |lines|
    decreases |lines| - i
  {
    if i == |lines| then None
    else if OpensTable(lines[i]) && i > 0 && Contains(lines[i - 1], Rule) then Some(i)
    else if OpensTable(lines[i]) && i < |lines| - 1 && Contains(lines[i + 1], Rule) then Some(i + 2)
    else TableStart(lines, i + 1)
  }

  /** `parse_time_md_file` on the file's lines: the lines before the table and
      the entries of the rows from the table start on; with no table start,
      every line is header and there are no entries. */
  method ParseTimeMd(lines: seq<string>) returns (header: seq<string>, entries: seq<Entry>)
    ensures TableStart(lines, 0).None? ==> header == lines && entries == []
    ensures TableStart(lines, 0).Some? ==>
              header == lines[..TableStart(lines, 0).value]
              && entries == ParseRows(lines[TableStart(lines, 0).value..])
  {
    var tableStart := FindTableStart(lines);
    if tableStart == -1 {
      return lines, [];
    }
    header := lines[..tableStart];
    entries := CollectEntries(lines[tableStart..]);
  }

  /** The first loop of `parse_time_md_file`: the table start, or -1. */
  method FindTableStart(lines: seq<string>) returns (tableStart: int)
    ensures TableStart(lines, 0).None? ==> tableStart == -1
    ensures TableStart(lines, 0).Some? ==> tableStart == TableStart(lines, 0).value
  {
    tableStart := -1;
    for i := 0 to |lines|
      invariant tableStart == -1
      invariant TableStart(lines, i) == TableStart(lines, 0)
    {
      if OpensTable(lines[i]) {
        if i > 0 && Contains(lines[i - 1], Rule) {
          tableStart := i;
          break;
        } else if i < |lines| - 1 && Contains(lines[i + 1], Rule) {
          tableStart := i + 2;
          break;
        }
      }
    }
  }

  /** `parse_time_md_file` as a value: the header lines and the entries. */
  function ParseFile(lines: seq<string>): (seq<string>, seq<Entry>) {
    match TableStart(lines, 0)
    case None => (lines, [])
    case Some(t) => (lines[..t], ParseRows(lines[t..]))
  }

  // ---------------------------------------------------------------------
  // clean_repeated_words
  // ---------------------------------------------------------------------

  /** `clean_repeated_words(text)` as a value: collapse runs of three or more
      equal words, join with single spaces, replace every stutter
      `(.{2,10}?)\1{2,}` by one copy of its unit, strip. */
  function CleanedWords(text: string): (r: string)
    ensures IsStripped(r)
  {
    Strip(SubAll(Join(" ", CollapseRuns(Words(text))), Stutter, 0))
  }

  /** The cleaned text is a single line. */
  lemma CleanedWordsOneLine(text: string)
    ensures '\n' !in CleanedWords(text)
  {
    var words := Words(text);
    var kept := CollapseRuns(words);
    forall k | 0 <= k < |kept|
      ensures '\n' !in kept[k]
    {
      CollapseKeepsWords(words, kept[k]);
      var m :| 0 <= m < |words| && words[m] == kept[k];
      WordHasNoNewline(words[m]);
    }
    var joined := Join(" ", kept);
    JoinOneLine(" ", kept);
    assert joined[0..] == joined;
    SubAllInside(joined, Stutter, 0, '\n');
    StripInside(SubAll(joined, Stutter, 0), '\n');
  }

  /** "그녀는 그녀는 그녀는" cleans to "그녀는". */
  lemma CleanedWordsExample()
    ensures CleanedWords("그녀는 그녀는 그녀는") == "그녀는"
  {
    WordsOfExample();
    CollapseExample();
    SubAllShort("그녀는", Stutter, 0);
    StripOfStripped("그녀는");
  }

  lemma WordsOfExample()
    ensures Words("그녀는 그녀는 그녀는") == ["그녀는", "그녀는", "그녀는"]
  {
    var s := "그녀는 그녀는 그녀는";
    assert SkipSpaces(s, 0) == 0;
    assert WordEnd(s, 0) == 3;
    var s1 := s[3..];
    assert s1 == " 그녀는 그녀는";
    assert SkipSpaces(s1, 0) == 1;
    assert s1[4] == ' ';
    assert WordEnd(s1, 4) == 4;
    assert WordEnd(s1, 2) == 4;
    assert WordEnd(s1, 1) == 4;
    var s2 := s1[4..];
    assert s2 == " 그녀는";
    assert SkipSpaces(s2, 0) == 1;
    assert WordEnd(s2, 4) == 4;
    assert WordEnd(s2, 2) == 4;
    assert WordEnd(s2, 1) == 4;
    assert s2[4..] == [];
    assert Words(s2[4..]) == [];
    assert Words(s2) == [s2[1..4]] + Words(s2[4..]);
    assert Words(s1) == [s1[1..4]] + Words(s2);
    assert Words(s) == [s[0..3]] + Words(s1);
    assert s[0..3] == "그녀는" && s1[1..4] == "그녀는" && s2[1..4] == "그녀는";
  }

  /** `clean_repeated_words(text)`. */
  method CleanRepeatedWords(text: string) returns (r: string)
    ensures r == CleanedWords(text)
  {
    var words := Words(text);
    var cleanedWords := CollapseWordRuns(words);
    var result := Join(" ", cleanedWords);
    result := SubAll(result, Stutter, 0);
    r := Strip(result);
  }

  // ---------------------------------------------------------------------
  // clean_entries
  // ---------------------------------------------------------------------

  /** The rewrite one short pattern applies to a row's text: when the text
      splits into more than two pieces around it, the result is the pattern
      once, followed by the stripped remainder with every occurrence deleted. */
  function RewriteWithPattern(content: string, pattern: string): (r: string)
    requires pattern != []
    ensures |SplitOn(content, pattern)| <= 2 ==> r == content
    ensures |SplitOn(content, pattern)| > 2 ==> StartsWith(r, pattern)
  {
    if Contains(content, pattern) && |SplitOn(content, pattern)| > 2 then
      pattern + Strip(ReplaceAll(Join("", SplitOn(content, pattern)[1..]), pattern, ""))
    else content
  }

  /** When the rewrite fires, whatever precedes the first occurrence is lost:
      the result is the pattern followed by the text after the first
      occurrence with the pattern deleted twice over, stripped. */
  lemma RewriteDropsLead(content: string, pattern: string)
    requires pattern != [] && |SplitOn(content, pattern)| > 2
    ensures Find(content, pattern, 0).Some?
    ensures RewriteWithPattern(content, pattern)
            == pattern + Strip(ReplaceAll(ReplaceAll(content[Find(content, pattern, 0).value + |pattern|..], pattern, ""), pattern, ""))
  {
    SplitOnFound(content, pattern);
    RewriteFires(content, pattern);
    JoinLaterPieces(content, pattern);
  }

  lemma RewriteFires(content: string, pattern: string)
    requires pattern != [] && |SplitOn(content, pattern)| > 2
    ensures RewriteWithPattern(content, pattern)
            == pattern + Strip(ReplaceAll(Join("", SplitOn(content, pattern)[1..]), pattern, ""))
  {
    SplitOnFound(content, pattern);
  }

  /** The patterns applied one after another, in list order. */
  function ApplyPatterns(content: string, patterns: seq<string>): string
    requires forall k :: 0 <= k < |patterns| ==> patterns[k] != []
  {
    if patterns == [] then content
    else RewriteWithPattern(ApplyPatterns(content, patterns[..|patterns| - 1]), patterns[|patterns| - 1])
  }

  /** A text in which no pattern occurs twice is left as it is. */
  lemma {:induction false} ApplyPatternsUnchanged(content: string, patterns: seq<string>)
    requires forall k :: 0 <= k < |patterns| ==> patterns[k] != []
    requires forall k :: 0 <= k < |patterns| ==> |SplitOn(content, patterns[k])| <= 2
    ensures ApplyPatterns(content, patterns) == content
  {
    if patterns != [] {
      ApplyPatternsUnchanged(content, patterns[..|patterns| - 1]);
    }
  }

  /** The text a kept row ends up with. */
  function CleanContent(content: string, patterns: seq<string>): (r: string)
    requires forall k :: 0 <= k < |patterns| ==> patterns[k] != []
    ensures IsStripped(r)
  {
    CleanedWords(ApplyPatterns(content, patterns))
  }

  /** Row `i` lies strictly inside a repeated section: after its first line. */
  predicate Skipped(secs: seq<Section>, i: int) {
    exists k :: 0 <= k < |secs| && secs[k].start < i <= secs[k].end
  }

  /** Row `i` survives: it is not skipped, does not look like noise, and
      keeps at least three characters after cleaning. */
  predicate Keeps(entries: seq<Entry>, secs: seq<Section>, patterns: seq<string>, i: nat)
    requires i < |entries|
    requires forall k :: 0 <= k < |patterns| ==> patterns[k] != []
  {
    && !Skipped(secs, i)
    && !IsLikelyHallucination(entries[i].content)
    && |Strip(CleanContent(entries[i].content, patterns))| >= 3
  }

  /** Whether each row survives. */
  function KeepFlags(entries: seq<Entry>, secs: seq<Section>, patterns: seq<string>): (f: seq<bool>)
    requires forall k :: 0 <= k < |patterns| ==> patterns[k] != []
    ensures |f| == |entries|
    ensures forall k :: 0 <= k < |entries| ==> f[k] == Keeps(entries, secs, patterns, k)
  {
    seq(|entries|, k requires 0 <= k < |entries| => Keeps(entries, secs, patterns, k))
  }

  /** The indices below `n` whose flag is set, in increasing order. */
  function Selected(flags: seq<bool>, n: nat): (r: seq<nat>)
    requires n <= |flags|
    ensures |r| <= n
    ensures forall t :: 0 <= t < |r| ==> r[t] < n
    ensures forall t, u :: 0 <= t < u < |r| ==> r[t] < r[u]
    ensures forall k :: 0 <= k < n ==> (k in r <==> flags[k])
  {
    if n == 0 then []
    else Selected(flags, n - 1) + (if flags[n - 1] then [n - 1] else [])
  }

  /** The indices of the rows `clean_entries` keeps. */
  function Kept(entries: seq<Entry>, patterns: seq<string>): seq<nat>
    requires forall k :: 0 <= k < |patterns| ==> patterns[k] != []
  {
    Selected(KeepFlags(entries, RepeatedSections(Contents(entries), 3), patterns), |entries|)
  }

  /** A surviving row: its time and original line, its cleaned text. */
  function CleanOne(e: Entry, patterns: seq<string>): Entry
    requires forall k :: 0 <= k < |patterns| ==> patterns[k] != []
  {
    Entry(e.time, CleanContent(e.content, patterns), e.originalLine)
  }

  /** `patterns` lists, once each, the phrases `detect_short_repeats` finds in
      the row texts joined with spaces. */
  ghost predicate PatternsOf(entries: seq<Entry>, patterns: seq<string>) {
    && (forall a, b :: 0 <= a < b < |patterns| ==> patterns[a] != patterns[b])
    && (forall x :: x in patterns <==> x in DetectShortRepeats(Join(" ", Contents(entries)), 5))
  }

  /** `cleaned` holds, in order, the cleaned form of every surviving row. */
  predicate CleanedAs(entries: seq<Entry>, patterns: seq<string>, cleaned: seq<Entry>)
    requires forall k :: 0 <= k < |patterns| ==> patterns[k] != []
  {
    && |cleaned| == |Kept(entries, patterns)|
    && forall t :: 0 <= t < |cleaned| ==> cleaned[t] == CleanOne(entries[Kept(entries, patterns)[t]], patterns)
  }

  /** Python's `list(set(...))`: the elements once each, in an order the
      model leaves open. */
  method SetToList(s: set<string>) returns (r: seq<string>)
    ensures forall x :: x in r <==> x in s
    ensures forall a, b :: 0 <= a < b < |r| ==> r[a] != r[b]
  {
    r := [];
    var rest := s;
    while rest != {}
      invariant rest <= s
      invariant forall x :: x in r <==> x in s && x !in rest
      invariant forall a, b :: 0 <= a < b < |r| ==> r[a] != r[b]
      decreases |rest|
    {
      var x :| x in rest;
      r := r + [x];
      rest := rest - {x};
    }
  }

  /** The `skip_indices` loop: every row after the first of each section. */
  method SkipIndices(sections: seq<Section>) returns (skip: set<int>)
    ensures forall i :: i in skip <==> Skipped(sections, i)
  {
    skip := {};
    for k := 0 to |sections|
      invariant forall i :: i in skip <==> Skipped(sections[..k], i)
    {
      var idx := sections[k].start + 1;
      while idx <= sections[k].end
        invariant sections[k].start + 1 <= idx
        invariant idx == sections[k].start + 1 || idx <= sections[k].end + 1
        invariant forall i :: i in skip <==>
                    (Skipped(sections[..k], i) || sections[k].start < i < idx)
      {
        ghost var before := skip;
        skip := skip + {idx};
        assert forall i :: i in skip <==> i in before || i == idx;
        idx := idx + 1;
      }
      SkippedExtend(sections, k);
    }
    assert sections[..|sections|] == sections;
  }

  lemma SkippedExtend(sections: seq<Section>, k: nat)
    requires k < |sections|
    ensures forall i :: Skipped(sections[..k + 1], i) <==>
              (Skipped(sections[..k], i) || sections[k].start < i <= sections[k].end)
  {
    var a, b := sections[..k], sections[..k + 1];
    forall i
      ensures Skipped(b, i) <==> (Skipped(a, i) || sections[k].start < i <= sections[k].end)
    {
      if Skipped(b, i) {
        var m :| 0 <= m < |b| && b[m].start < i <= b[m].end;
        if m < k {
          assert a[m] == b[m];
        }
      }
      if Skipped(a, i) {
        var m :| 0 <= m < |a| && a[m].start < i <= a[m].end;
        assert b[m] == a[m];
      }
      if sections[k].start < i <= sections[k].end {
        assert b[k] == sections[k];
      }
    }
  }

  /** The per-row step of `clean_entries` for a row not skipped. */
  method CleanEntry(entry: Entry, patterns: seq<string>) returns (r: Option<Entry>)
    requires forall k :: 0 <= k < |patterns| ==> patterns[k] != []
    ensures r.Some? <==>
              !IsLikelyHallucination(entry.content) && |Strip(CleanContent(entry.content, patterns))| >= 3
    ensures r.Some? ==> r.value == CleanOne(entry, patterns)
  {
    var content := entry.content;
    if IsLikelyHallucination(content) {
      return None;
    }
    for k := 0 to |patterns|
      invariant content == ApplyPatterns(entry.content, patterns[..k])
    {
      var pattern := patterns[k];
      assert patterns[..k + 1][..k] == patterns[..k];
      if Contains(content, pattern) {
        var parts := SplitOn(content, pattern);
        if |parts| > 2 {
          content := pattern + Strip(ReplaceAll(Join("", parts[1..]), pattern, ""));
        }
      }
    }
    assert patterns[..|patterns|] == patterns;
    content := CleanRepeatedWords(content);
    if |Strip(content)| < 3 {
      return None;
    }
    return Some(Entry(entry.time, content, entry.originalLine));
  }

  /** `clean_entries(entries)`: the surviving rows, cleaned, together with the
      short patterns it applied. */
  method CleanEntries(entries: seq<Entry>) returns (cleaned: seq<Entry>, patterns: seq<string>)
    ensures forall k :: 0 <= k < |patterns| ==> patterns[k] != []
    ensures entries == [] ==> cleaned == [] && patterns == []
    ensures entries != [] ==> PatternsOf(entries, patterns)
    ensures CleanedAs(entries, patterns, cleaned)
  {
    if entries == [] {
      return [], [];
    }
    var contents := Contents(entries);
    var sections := DetectRepeatedContent(contents, 3);
    var fullContent := Join(" ", contents);
    var found := DetectShortRepeats(fullContent, 5);
    patterns := SetToList(found);
    var skip := SkipIndices(sections);
    cleaned := CleanRows(entries, sections, skip, patterns);
  }

  /** `cleaned` holds, in order, the cleaned form of every row below `i`
      whose flag is set. */
  predicate CleanedUpTo(entries: seq<Entry>, patterns: seq<string>, flags: seq<bool>, i: nat, cleaned: seq<Entry>)
    requires forall k :: 0 <= k < |patterns| ==> patterns[k] != []
    requires i <= |flags| == |entries|
  {
    && |cleaned| == |Selected(flags, i)|
    && forall t :: 0 <= t < |cleaned| ==> cleaned[t] == CleanOne(entries[Selected(flags, i)[t]], patterns)
  }

  /** One row more: a kept row adds its cleaned form, any other adds nothing. */
  lemma CleanedStep(entries: seq<Entry>, patterns: seq<string>, flags: seq<bool>, i: nat, cleaned: seq<Entry>)
    requires forall k :: 0 <= k < |patterns| ==> patterns[k] != []
    requires i < |flags| == |entries|
    requires CleanedUpTo(entries, patterns, flags, i, cleaned)
    ensures flags[i] ==> CleanedUpTo(entries, patterns, flags, i + 1, cleaned + [CleanOne(entries[i], patterns)])
    ensures !flags[i] ==> CleanedUpTo(entries, patterns, flags, i + 1, cleaned)
  {
    assert Selected(flags, i + 1) == Selected(flags, i) + (if flags[i] then [i] else []);
  }

  /** The per-row step of the row loop: nothing for a skipped row, otherwise
      what `CleanEntry` gives. */
  method CleanRowAt(entries: seq<Entry>, secs: seq<Section>, skip: set<int>, patterns: seq<string>, i: nat)
    returns (r: Option<Entry>)
    requires forall k :: 0 <= k < |patterns| ==> patterns[k] != []
    requires forall j :: j in skip <==> Skipped(secs, j)
    requires i < |entries|
    ensures r.Some? <==> Keeps(entries, secs, patterns, i)
    ensures r.Some? ==> r.value == CleanOne(entries[i], patterns)
  {
    if i in skip {
      return None;
    }
    r := CleanEntry(entries[i], patterns);
  }

  /** The row loop of `clean_entries`: skipped rows are passed over, the
      others go through `CleanEntry`. */
  method CleanRows(entries: seq<Entry>, secs: seq<Section>, skip: set<int>, patterns: seq<string>)
    returns (cleaned: seq<Entry>)
    requires forall k :: 0 <= k < |patterns| ==> patterns[k] != []
    requires forall i :: i in skip <==> Skipped(secs, i)
    ensures |cleaned| == |Selected(KeepFlags(entries, secs, patterns), |entries|)|
    ensures forall t :: 0 <= t < |cleaned| ==>
              cleaned[t] == CleanOne(entries[Selected(KeepFlags(entries, secs, patterns), |entries|)[t]], patterns)
  {
    ghost var flags := KeepFlags(entries, secs, patterns);
    cleaned := [];
    for i := 0 to |entries|
      invariant CleanedUpTo(entries, patterns, flags, i, cleaned)
    {
      var r := CleanRowAt(entries, secs, skip, patterns, i);
      CleanedStep(entries, patterns, flags, i, cleaned);
      if r.Some? {
        cleaned := cleaned + [r.value];
      }
    }
  }

  /** The first row of every repeated section is not skipped. */
  lemma FirstRowsStay(secs: seq<Section>, k: nat)
    requires Disjoint(secs) && k < |secs|
    ensures !Skipped(secs, secs[k].start)
  {
    forall m | 0 <= m < |secs|
      ensures !(secs[m].start < secs[k].start <= secs[m].end)
    {
      if m > k {
        assert secs[k].end < secs[m].start;
      }
    }
  }

  /** The repeated content `clean_entries` finds never skips a section's
      first row. */
  lemma SectionStartsNotSkipped(lines: seq<string>, threshold: nat, k: nat)
    requires k < |RepeatedSections(lines, threshold)|
    ensures !Skipped(RepeatedSections(lines, threshold), RepeatedSections(lines, threshold)[k].start)
  {
    SectionsOrdered(StripAll(lines), threshold, 0);
    FirstRowsStay(RepeatedSections(lines, threshold), k);
  }

  // ---------------------------------------------------------------------
  // write_cleaned_file and main
  // ---------------------------------------------------------------------

  /** `str(file_path).replace('.md', '.backup.md')`: every `.md` in the path
      is rewritten, not only the extension. */
  function BackupPath(path: string): string {
    ReplaceAll(path, ".md", ".backup.md")
  }

  /** For a path whose only `.md` is its extension, the backup sits beside
      it with `.backup.md` in place of `.md`. */
  lemma BackupOfMarkdown(stem: string)
    requires !Contains(stem, ".md")
    ensures BackupPath(stem + ".md") == stem + ".backup.md"
  {
    BackupOfFirstMarkdown(stem, "");
    assert stem + ".md" + "" == stem + ".md";
    ReplaceAbsent("", ".md", ".backup.md");
  }

  /** The first `.md` after a part without one is rewritten, and the
      replacement goes on in the rest. */
  lemma BackupOfFirstMarkdown(a: string, b: string)
    requires !Contains(a, ".md")
    ensures BackupPath(a + ".md" + b) == a + ".backup.md" + BackupPath(b)
  {
    var path := a + ".md" + b;
    forall i | 0 <= i < |a|
      ensures !OccursAt(path, ".md", i)
    {
      NoMarkdownInStem(a, i);
      assert OccursAt(path, ".md", i) ==> OccursAt(a + ".md", ".md", i) by {
        if i + 3 <= |a + ".md"| {
          assert path[i..i + 3] == (a + ".md")[i..i + 3];
        }
      }
    }
    assert path[|a|..|a| + 3] == ".md";
    assert OccursAt(path, ".md", |a|);
    assert Find(path, ".md", 0) == Some(|a|);
    SplitOnFirst(path, ".md");
    assert path[..|a|] == a && path[|a| + 3..] == b;
    var rest := SplitOn(b, ".md");
    assert SplitOn(path, ".md") == [a] + rest;
    assert ([a] + rest)[1..] == rest;
  }

  /** In `stem + ".md"`, `.md` cannot start inside a stem without it. */
  lemma NoMarkdownInStem(stem: string, i: nat)
    requires !Contains(stem, ".md") && i < |stem|
    ensures !OccursAt(stem + ".md", ".md", i)
  {
    var path := stem + ".md";
    if i + 3 <= |stem| {
      assert path[i..i + 3] == stem[i..i + 3];
      assert !OccursAt(stem, ".md", i);
    } else if i + 2 == |stem| {
      assert path[i..i + 3][2] == path[i + 2] == '.';
    } else {
      assert path[i..i + 3][1] == path[i + 1] == '.';
    }
  }

  /** A path without `.md` is its own backup path, so the backup copy is
      overwritten by the rewrite that follows it. */
  lemma BackupOfOtherPath(path: string)
    requires !Contains(path, ".md")
    ensures BackupPath(path) == path
  {
    ReplaceAbsent(path, ".md", ".backup.md");
  }

  /** The files after `write_cleaned_file(path, ...)` with new text `text`:
      with `backup`, the backup path is first truncated, then receives what
      the file holds at that moment; then the file gets `text`. */
  function Rewritten(fs: map<string, string>, path: string, text: string, backup: bool): (r: map<string, string>)
    requires path in fs
    ensures r.Keys == fs.Keys + (if backup then {BackupPath(path)} else {})
    ensures r[path] == text
    ensures backup && BackupPath(path) != path ==> r[BackupPath(path)] == fs[path]
    ensures forall p :: p in fs && p != path && !(backup && p == BackupPath(path)) ==> r[p] == fs[p]
  {
    if backup then
      fs[BackupPath(path) := ""][BackupPath(path) := fs[BackupPath(path) := ""][path]][path := text]
    else fs[path := text]
  }

  /** Without `.md` in the path, a backup leaves no copy of the old text:
      the result is the same as writing without one. */
  lemma BackupLostWithoutMarkdown(fs: map<string, string>, path: string, text: string)
    requires path in fs && !Contains(path, ".md")
    ensures Rewritten(fs, path, text, true) == Rewritten(fs, path, text, false)
  {
    BackupOfOtherPath(path);
  }

  /** Cleaning is not idempotent: "ㅋㅎㅋ ㅋㅎㅋ ㅋㅎㅋ" is not noise, so a
      first clean keeps it and collapses it to "ㅋㅎㅋ"; that text is
      jamo-only noise, so a second clean over the rewritten file drops the
      row it kept. */
  lemma SecondCleanDropsMore(time: string, line: string)
    ensures Keeps([Entry(time, "ㅋㅎㅋ ㅋㅎㅋ ㅋㅎㅋ", line)], [], [], 0)
    ensures CleanOne(Entry(time, "ㅋㅎㅋ ㅋㅎㅋ ㅋㅎㅋ", line), []) == Entry(time, "ㅋㅎㅋ", line)
    ensures !Keeps([Entry(time, "ㅋㅎㅋ", line)], [], [], 0)
  {
    LaughNotNoise();
    LaughCleaned();
    StripOfStripped("ㅋㅎㅋ");
    assert !Skipped([], 0);
    CollapsedLaughNoise();
  }

  /** "ㅋㅎㅋ" is jamo only, hence noise. */
  lemma CollapsedLaughNoise()
    ensures IsLikelyHallucination("ㅋㅎㅋ")
  {
    assert JamoOnly("ㅋㅎㅋ");
  }

  /** "ㅋㅎㅋ ㅋㅎㅋ ㅋㅎㅋ" passes every noise test. */
  lemma LaughNotNoise()
    ensures !IsLikelyHallucination("ㅋㅎㅋ ㅋㅎㅋ ㅋㅎㅋ")
  {
    LaughNotDominated();
    LaughNoUnitRun();
    LaughNotJamo();
  }

  lemma LaughNotDominated()
    ensures !Dominated("ㅋㅎㅋ ㅋㅎㅋ ㅋㅎㅋ")
  {
    forall c | c in "ㅋㅎㅋ ㅋㅎㅋ ㅋㅎㅋ"
      ensures 5 * multiset("ㅋㅎㅋ ㅋㅎㅋ ㅋㅎㅋ")[c] <= 44
    {
      LaughCount(c);
    }
  }

  lemma LaughNoUnitRun()
    ensures !OpensWithRepeatedUnit("ㅋㅎㅋ ㅋㅎㅋ ㅋㅎㅋ")
  {
    var s := "ㅋㅎㅋ ㅋㅎㅋ ㅋㅎㅋ";
    assert Repeat(s[..1], 6)[1] == 'ㅋ' != s[1];
  }

  lemma LaughNotJamo()
    ensures !JamoOnly("ㅋㅎㅋ ㅋㅎㅋ ㅋㅎㅋ")
  {
    var s := "ㅋㅎㅋ ㅋㅎㅋ ㅋㅎㅋ";
    assert s[3] == ' ' && !IsJamo(s[3]);
  }

  /** No character makes up more than eight of the eleven. */
  lemma LaughCount(c: char)
    ensures multiset("ㅋㅎㅋ ㅋㅎㅋ ㅋㅎㅋ")[c] <= 8
  {
    LaughSplit();
    ThreeCopiesCount("ㅋㅎㅋ", " ", c);
    UnitCount(c);
  }

  lemma LaughSplit()
    ensures "ㅋㅎㅋ ㅋㅎㅋ ㅋㅎㅋ" == "ㅋㅎㅋ" + " " + "ㅋㅎㅋ" + " " + "ㅋㅎㅋ"
  {
  }

  lemma ThreeCopiesCount(u: string, sp: string, c: char)
    ensures multiset(u + sp + u + sp + u)[c] == 3 * multiset(u)[c] + 2 * multiset(sp)[c]
  {
  }

  lemma UnitCount(c: char)
    ensures multiset("ㅋㅎㅋ")[c] <= 2
    ensures multiset(" ")[c] <= 1
  {
    var u := "ㅋㅎㅋ";
    assert u == [u[0]] + [u[1]] + [u[2]];
    assert multiset(u) == multiset{'ㅋ', 'ㅎ', 'ㅋ'};
  }

  /** "ㅋㅎㅋ ㅋㅎㅋ ㅋㅎㅋ" cleans to "ㅋㅎㅋ". */
  lemma LaughCleaned()
    ensures CleanContent("ㅋㅎㅋ ㅋㅎㅋ ㅋㅎㅋ", []) == "ㅋㅎㅋ"
  {
    var w := ["ㅋㅎㅋ", "ㅋㅎㅋ", "ㅋㅎㅋ"];
    LaughWords();
    assert RunEnd(w, 0) == 3;
    assert w[3..] == [];
    assert CollapseRuns(w) == ["ㅋㅎㅋ"];
    SubAllShort("ㅋㅎㅋ", Stutter, 0);
    StripOfStripped("ㅋㅎㅋ");
  }

  lemma LaughWords()
    ensures Words("ㅋㅎㅋ ㅋㅎㅋ ㅋㅎㅋ") == ["ㅋㅎㅋ", "ㅋㅎㅋ", "ㅋㅎㅋ"]
  {
    var s := "ㅋㅎㅋ ㅋㅎㅋ ㅋㅎㅋ";
    assert SkipSpaces(s, 0) == 0;
    assert WordEnd(s, 0) == 3;
    var s1 := s[3..];
    assert s1 == " ㅋㅎㅋ ㅋㅎㅋ";
    assert SkipSpaces(s1, 0) == 1;
    assert s1[4] == ' ';
    assert WordEnd(s1, 4) == 4;
    assert WordEnd(s1, 2) == 4;
    assert WordEnd(s1, 1) == 4;
    var s2 := s1[4..];
    assert s2 == " ㅋㅎㅋ";
    assert SkipSpaces(s2, 0) == 1;
    assert WordEnd(s2, 4) == 4;
    assert WordEnd(s2, 2) == 4;
    assert WordEnd(s2, 1) == 4;
    assert s2[4..] == [];
    assert Words(s2[4..]) == [];
    assert Words(s2) == [s2[1..4]] + Words(s2[4..]);
    assert Words(s1) == [s1[1..4]] + Words(s2);
    assert Words(s) == [s[0..3]] + Words(s1);
    assert s[0..3] == "ㅋㅎㅋ" && s1[1..4] == "ㅋㅎㅋ" && s2[1..4] == "ㅋㅎㅋ";
  }

  /** The directory part of a path: what precedes its last `/`, or "" (the
      working or root directory, which always exists) when it has none. */
  function DirOf(path: string): (d: string)
    ensures '/' !in path ==> d == ""
    ensures d == "" || (|d| < |path| && path[..|d|] == d && path[|d|] == '/' && '/' !in path[|d| + 1..])
    decreases |path|
  {
    if path == [] then ""
    else if path[|path| - 1] == '/' then path[..|path| - 1]
    else DirOf(path[..|path| - 1])
  }

  /** Appending a name without `/` keeps the directory. */
  lemma {:induction false} DirOfAppend(a: string, s: string)
    requires '/' !in s
    ensures DirOf(a + s) == DirOf(a)
    decreases |s|
  {
    if s != [] {
      var t := s[..|s| - 1];
      assert (a + s)[..|a + s| - 1] == a + t;
      assert (a + s)[|a + s| - 1] == s[|s| - 1];
      assert '/' !in t by {
        forall k | 0 <= k < |t| ensures t[k] != '/' { assert t[k] == s[k]; }
      }
      DirOfAppend(a, t);
    } else {
      assert a + s == a;
    }
  }

  /** `open(backup_path, 'w')` raises `FileNotFoundError`: a backup is asked
      for and its path lies in a directory missing from `dirs`. */
  predicate BackupFails(dirs: set<string>, path: string, backup: bool) {
    backup && DirOf(BackupPath(path)) != "" && DirOf(BackupPath(path)) !in dirs
  }

  /** For `stem.md` with no other `.md`, the backup sits in the file's own
      directory, so it can only fail where the file itself could not be. */
  lemma BackupBeside(dirs: set<string>, stem: string)
    requires !Contains(stem, ".md")
    ensures DirOf(BackupPath(stem + ".md")) == DirOf(stem + ".md") == DirOf(stem)
    ensures BackupFails(dirs, stem + ".md", true) <==> DirOf(stem) != "" && DirOf(stem) !in dirs
  {
    BackupOfMarkdown(stem);
    DirOfAppend(stem, ".md");
    DirOfAppend(stem, ".backup.md");
  }

  /** A `.md` in a directory name moves the backup into another directory:
      `notes.md/a_time.md` backs up into `notes.backup.md/`, so where only
      `notes.md` exists the backup fails. */
  lemma BackupDirectoryMissing(dir: string, name: string)
    requires !Contains(dir, ".md") && '/' !in name && !Contains(name, ".md")
    ensures BackupPath(dir + ".md" + "/" + (name + ".md")) == dir + ".backup.md" + "/" + (name + ".backup.md")
    ensures DirOf(dir + ".md" + "/" + (name + ".md")) == dir + ".md"
    ensures DirOf(dir + ".backup.md" + "/" + (name + ".backup.md")) == dir + ".backup.md"
    ensures BackupFails({dir + ".md"}, dir + ".md" + "/" + (name + ".md"), true)
  {
    NestedBackupPath(dir, name);
    NoSlashAfter(name, ".md");
    NoSlashAfter(name, ".backup.md");
    DirOfFile(dir + ".md", name + ".md");
    DirOfFile(dir + ".backup.md", name + ".backup.md");
    assert |dir + ".backup.md"| != |dir + ".md"|;
  }

  lemma NoSlashAfter(name: string, ext: string)
    requires '/' !in name && '/' !in ext
    ensures '/' !in name + ext
  {
    forall k | 0 <= k < |name + ext|
      ensures (name + ext)[k] != '/'
    {
      if k < |name| {
        assert (name + ext)[k] == name[k];
      } else {
        assert (name + ext)[k] == ext[k - |name|];
      }
    }
  }

  lemma NestedBackupPath(dir: string, name: string)
    requires !Contains(dir, ".md") && !Contains(name, ".md")
    ensures BackupPath(dir + ".md" + "/" + (name + ".md")) == dir + ".backup.md" + "/" + (name + ".backup.md")
  {
    NoMarkdownAfterSlash(name);
    BackupOfFirstMarkdown(dir, "/" + (name + ".md"));
    BackupOfMarkdown("/" + name);
    Regroup(dir + ".md", "/", name + ".md");
    Regroup(dir + ".backup.md", "/", name + ".backup.md");
    Regroup("/", name, ".md");
    Regroup("/", name, ".backup.md");
  }

  lemma Regroup(a: string, b: string, c: string)
    ensures a + b + c == a + (b + c)
  {
  }

  /** The directory of `d/n`, for a name `n` without `/`, is `d`. */
  lemma DirOfFile(d: string, n: string)
    requires '/' !in n
    ensures DirOf(d + "/" + n) == d
  {
    DirOfAppend(d + "/", n);
    assert (d + "/")[..|d + "/"| - 1] == d;
  }

  /** A leading `/` adds no `.md`. */
  lemma NoMarkdownAfterSlash(name: string)
    requires !Contains(name, ".md")
    ensures !Contains("/" + name, ".md")
  {
    var q := "/" + name;
    ContainsIff(name, ".md");
    ContainsIff(q, ".md");
    forall i
      ensures !OccursAt(q, ".md", i)
    {
      if 1 <= i && i + 3 <= |q| {
        assert q[i..i + 3] == name[i - 1..i + 2];
        assert !OccursAt(name, ".md", i - 1);
      } else if i == 0 && 3 <= |q| {
        assert q[0..3][0] == '/';
      }
    }
  }

  /** `write_cleaned_file`: the optional backup, then the header lines and one
      row per entry. `dirs` are the directories that exist; when the
      backup's directory is missing, `open` raises before anything is
      written (`None`). */
  method WriteCleanedFile(fs: map<string, string>, dirs: set<string>, path: string, header: seq<string>,
                          cleaned: seq<Entry>, backup: bool)
    returns (fs': Option<map<string, string>>)
    requires path in fs
    ensures BackupFails(dirs, path, backup) ==> fs' == None
    ensures !BackupFails(dirs, path, backup) ==>
              fs' == Some(Rewritten(fs, path, Concat(header + RenderRows(cleaned)), backup))
  {
    var files := fs;
    if backup {
      var backupPath := BackupPath(path);
      if DirOf(backupPath) != "" && DirOf(backupPath) !in dirs {
        return None;
      }
      files := files[backupPath := ""];
      files := files[backupPath := files[path]];
    }
    var text := RenderTable(header, cleaned);
    files := files[path := text];
    return Some(files);
  }

  /** `main()` on the files `fs` and the directories `dirs`: exit code 1
      when the file is missing or has no rows; otherwise the entries are
      cleaned, and the file is rewritten (with a backup unless `noBackup`)
      exactly when some row was removed. When that backup cannot be opened,
      the exception leaves `main` and the interpreter exits with 1, no file
      changed. */
  method FixFile(fs: map<string, string>, dirs: set<string>, path: string, noBackup: bool)
    returns (code: int, removed: int, patterns: seq<string>, cleaned: seq<Entry>, fs': map<string, string>)
    ensures path !in fs ==> code == 1 && fs' == fs
    ensures path in fs && ParseFile(Lines(fs[path])).1 == [] ==> code == 1 && fs' == fs
    ensures path in fs && ParseFile(Lines(fs[path])).1 != [] ==>
              && (forall k :: 0 <= k < |patterns| ==> patterns[k] != [])
              && PatternsOf(ParseFile(Lines(fs[path])).1, patterns)
              && CleanedAs(ParseFile(Lines(fs[path])).1, patterns, cleaned)
              && 0 <= removed == |ParseFile(Lines(fs[path])).1| - |cleaned|
              && (removed > 0 && BackupFails(dirs, path, !noBackup) ==> code == 1 && fs' == fs)
              && (!(removed > 0 && BackupFails(dirs, path, !noBackup)) ==>
                    && code == 0
                    && fs' == if removed > 0
                              then Rewritten(fs, path, Concat(ParseFile(Lines(fs[path])).0 + RenderRows(cleaned)), !noBackup)
                              else fs)
  {
    if path !in fs {
      return 1, 0, [], [], fs;
    }
    var header, entries := ParseTimeMd(Lines(fs[path]));
    if entries == [] {
      return 1, 0, [], [], fs;
    }
    cleaned, patterns := CleanEntries(entries);
    removed := |entries| - |cleaned|;
    fs' := fs;
    code := 0;
    if removed > 0 {
      var written := WriteCleanedFile(fs, dirs, path, header, cleaned, !noBackup);
      match written {
        case None => code := 1;
        case Some(files) => fs' := files;
      }
    }
  }

  /** A cleaned row keeps the time of the row it came from and holds a
      stripped, single-line text of at least three characters; so it is
      row-safe exactly when its text has no `|`. */
  lemma CleanedRowShape(entries: seq<Entry>, patterns: seq<string>, cleaned: seq<Entry>, t: nat)
    requires forall k :: 0 <= k < |patterns| ==> patterns[k] != []
    requires CleanedAs(entries, patterns, cleaned) && t < |cleaned|
    ensures Kept(entries, patterns)[t] < |entries|
    ensures cleaned[t].time == entries[Kept(entries, patterns)[t]].time
    ensures cleaned[t].originalLine == entries[Kept(entries, patterns)[t]].originalLine
    ensures |cleaned[t].content| >= 3
    ensures RowSafe(cleaned[t].content) <==> '|' !in cleaned[t].content
  {
    var i := Kept(entries, patterns)[t];
    var secs := RepeatedSections(Contents(entries), 3);
    assert i in Kept(entries, patterns);
    assert Keeps(entries, secs, patterns, i);
    var c := CleanContent(entries[i].content, patterns);
    StripOfStripped(c);
    CleanedWordsOneLine(ApplyPatterns(entries[i].content, patterns));
  }

  /** Which lines may open the table, and which hold the separator row. */
  function OpenFlags(lines: seq<string>): (f: seq<bool>)
    ensures |f| == |lines| && forall k :: 0 <= k < |lines| ==> f[k] == OpensTable(lines[k])
  {
    seq(|lines|, k requires 0 <= k < |lines| => OpensTable(lines[k]))
  }

  function RuleFlags(lines: seq<string>): (f: seq<bool>)
    ensures |f| == |lines| && forall k :: 0 <= k < |lines| ==> f[k] == Contains(lines[k], Rule)
  {
    seq(|lines|, k requires 0 <= k < |lines| => Contains(lines[k], Rule))
  }

  /** `TableStart` read off the two flag sequences. */
  function StartBy(opens: seq<bool>, rules: seq<bool>, i: nat): (r: Option<nat>)
    requires |opens| == |rules| && i <= |opens|
    ensures r.Some? ==> i <= r.value <= |opens|
    decreases |opens| - i
  {
    if i == |opens| then None
    else if opens[i] && i > 0 && rules[i - 1] then Some(i)
    else if opens[i] && i < |opens| - 1 && rules[i + 1] then Some(i + 2)
    else StartBy(opens, rules, i + 1)
  }

  lemma {:induction false} TableStartByFlags(lines: seq<string>, i: nat)
    requires i <= |lines|
    ensures TableStart(lines, i) == StartBy(OpenFlags(lines), RuleFlags(lines), i)
    decreases |lines| - i
  {
    if i < |lines| {
      TableStartByFlags(lines, i + 1);
    }
  }

  /** The start found in the flags stays where it is when the flags from it
      on change, as long as the new line there opens the table and holds no
      separator. */
  lemma {:induction false} StartByKept(o1: seq<bool>, r1: seq<bool>, o2: seq<bool>, r2: seq<bool>, i: nat, t: nat)
    requires |o1| == |r1| && |o2| == |r2| && i <= |o1|
    requires StartBy(o1, r1, i) == Some(t)
    requires t < |o2| && t <= |o1| && o2[..t] == o1[..t] && r2[..t] == r1[..t]
    requires o2[t] && !r2[t]
    ensures StartBy(o2, r2, i) == Some(t)
    decreases t - i
  {
    assert i <= t;
    assert forall m :: 0 <= m < t ==> o2[m] == o2[..t][m] == o1[..t][m] == o1[m];
    assert forall m :: 0 <= m < t ==> r2[m] == r2[..t][m] == r1[..t][m] == r1[m];
    if !(o1[i] && i > 0 && r1[i - 1]) && !(o1[i] && i < |o1| - 1 && r1[i + 1]) {
      StartByKept(o1, r1, o2, r2, i + 1, t);
    }
  }

  /** The table start stays where it is when the lines from it on are
      replaced by lines whose first opens the table and holds no separator. */
  lemma TableStartKept(before: seq<string>, after: seq<string>, t: nat)
    requires TableStart(before, 0) == Some(t)
    requires t < |after| && t <= |before| && after[..t] == before[..t]
    requires OpensTable(after[t]) && !Contains(after[t], Rule)
    ensures TableStart(after, 0) == Some(t)
  {
    TableStartByFlags(before, 0);
    TableStartByFlags(after, 0);
    FlagsAgree(before, after, t);
    StartByKept(OpenFlags(before), RuleFlags(before), OpenFlags(after), RuleFlags(after), 0, t);
  }

  lemma FlagsAgree(before: seq<string>, after: seq<string>, t: nat)
    requires t <= |after| && t <= |before| && after[..t] == before[..t]
    ensures OpenFlags(after)[..t] == OpenFlags(before)[..t]
    ensures RuleFlags(after)[..t] == RuleFlags(before)[..t]
  {
    forall m | 0 <= m < t
      ensures after[m] == before[m]
    {
      assert after[m] == after[..t][m];
    }
  }

  /** The lines before the table start are whole lines. */
  lemma HeaderLinesWhole(text: string, t: nat)
    requires t < |Lines(text)|
    ensures forall k :: 0 <= k < |Lines(text)[..t]| ==> OneLine(Lines(text)[..t][k]) && EndsLine(Lines(text)[..t][k])
  {
    LinesShape(text);
  }

  /** Header lines followed by rendered rows split back into themselves. */
  lemma RewrittenLines(header: seq<string>, cleaned: seq<Entry>)
    requires forall k :: 0 <= k < |header| ==> OneLine(header[k]) && EndsLine(header[k])
    requires forall k :: 0 <= k < |cleaned| ==> IsClock(cleaned[k].time) && RowSafe(cleaned[k].content)
    ensures Lines(Concat(header + RenderRows(cleaned))) == header + RenderRows(cleaned)
  {
    var rows := RenderRows(cleaned);
    RowsWhole(cleaned);
    var after := header + rows;
    forall k | 0 <= k < |after|
      ensures OneLine(after[k]) && EndsLine(after[k])
    {
      if k < |header| {
        assert after[k] == header[k];
      } else {
        assert after[k] == rows[k - |header|];
      }
    }
    LinesOfConcat(after);
  }

  /** Rendered rows of row-safe entries are whole lines. */
  lemma RowsWhole(cleaned: seq<Entry>)
    requires forall k :: 0 <= k < |cleaned| ==> IsClock(cleaned[k].time) && RowSafe(cleaned[k].content)
    ensures forall k :: 0 <= k < |cleaned| ==> OneLine(RenderRows(cleaned)[k]) && EndsLine(RenderRows(cleaned)[k])
  {
    forall k | 0 <= k < |cleaned|
      ensures OneLine(RenderRows(cleaned)[k]) && EndsLine(RenderRows(cleaned)[k])
    {
      RowLine(cleaned[k].time, cleaned[k].content);
    }
  }

  /** Header lines up to a table start followed by rendered rows parse as
      that header and the rows read back. */
  lemma ParseRewritten(lines: seq<string>, t: nat, cleaned: seq<Entry>)
    requires TableStart(lines, 0) == Some(t) && cleaned != []
    requires forall k :: 0 <= k < |cleaned| ==> IsClock(cleaned[k].time) && RowSafe(cleaned[k].content)
    ensures ParseFile(lines[..t] + RenderRows(cleaned)) == (lines[..t], Reread(cleaned))
  {
    var rows := RenderRows(cleaned);
    var after := lines[..t] + rows;
    RowRoundTrip(cleaned[0].time, cleaned[0].content);
    MatchRowStartsRow(rows[0]);
    RowHasNoRule(cleaned[0].time, cleaned[0].content);
    assert after[t] == rows[0];
    assert after[..t] == lines[..t];
    TableStartKept(lines, after, t);
    assert after[t..] == rows;
    ParseRendered(cleaned);
  }

  /** Reading back a file rewritten from its own header and row-safe rows
      gives that header and exactly those rows. */
  lemma RereadRewrite(text: string, cleaned: seq<Entry>)
    requires ParseFile(Lines(text)).1 != [] && cleaned != []
    requires forall k :: 0 <= k < |cleaned| ==> IsClock(cleaned[k].time) && RowSafe(cleaned[k].content)
    ensures ParseFile(Lines(Concat(ParseFile(Lines(text)).0 + RenderRows(cleaned))))
            == (ParseFile(Lines(text)).0, Reread(cleaned))
  {
    var lines := Lines(text);
    var t := TableStart(lines, 0).value;
    assert ParseFile(lines).0 == lines[..t];
    assert |ParseRows(lines[t..])| <= |lines[t..]|;
    HeaderLinesWhole(text, t);
    RewrittenLines(lines[..t], cleaned);
    ParseRewritten(lines, t, cleaned);
  }

  /** After `main` rewrites a file, the rewritten file reads back as the same
      header and exactly the rows it kept, as long as no cleaned text holds a
      `|`. */
  lemma RewriteRereads(text: string, patterns: seq<string>, cleaned: seq<Entry>)
    requires forall k :: 0 <= k < |patterns| ==> patterns[k] != []
    requires ParseFile(Lines(text)).1 != [] && cleaned != []
    requires CleanedAs(ParseFile(Lines(text)).1, patterns, cleaned)
    requires forall k :: 0 <= k < |cleaned| ==> '|' !in cleaned[k].content
    ensures ParseFile(Lines(Concat(ParseFile(Lines(text)).0 + RenderRows(cleaned))))
            == (ParseFile(Lines(text)).0, Reread(cleaned))
  {
    var entries := ParseFile(Lines(text)).1;
    forall k | 0 <= k < |cleaned|
      ensures IsClock(cleaned[k].time) && RowSafe(cleaned[k].content)
    {
      CleanedRowShape(entries, patterns, cleaned, k);
      var i := Kept(entries, patterns)[k];
      assert IsClock(entries[i].time);
    }
    RereadRewrite(text, cleaned);
  }

  /** Every row after the first of a repeated section is absent from the
      result. */
  lemma SectionRowsDropped(entries: seq<Entry>, patterns: seq<string>, k: nat, i: nat)
    requires forall m :: 0 <= m < |patterns| ==> patterns[m] != []
    requires k < |RepeatedSections(Contents(entries), 3)|
    requires RepeatedSections(Contents(entries), 3)[k].start < i <= RepeatedSections(Contents(entries), 3)[k].end
    ensures i !in Kept(entries, patterns)
  {
    var secs := RepeatedSections(Contents(entries), 3);
    SectionsOrdered(StripAll(Contents(entries)), 3, 0);
    assert i < |entries|;
    assert Skipped(secs, i);
    assert !KeepFlags(entries, secs, patterns)[i];
  }
}
