/** The browser front end of src/web_ui.py, without the web server: the
    upload filter, the shared conversion status that the page polls, and the
    sequence of status updates one background conversion makes. */
module WebUi {
  import opened Wrappers
  import opened Strings

  // ---------------------------------------------------------------------
  // Upload filter
  // ---------------------------------------------------------------------

  /** `ALLOWED_EXTENSIONS`. */
  const AllowedExtensions: set<string> := {"mp3", "wav", "flac", "m4a", "ogg", "wma"}

  /** The index of the last `c` in `s`, if there is one. */
  function LastIndex(s: string, c: char): (r: Option<nat>)
    ensures r.None? <==> c !in s
    ensures r.Some? ==> r.value < |s| && s[r.value] == c && c !in s[r.value + 1..]
    decreases |s|
  {
    if s == [] then None
    else if s[|s| - 1] == c then Some(|s| - 1)
    else
      var r := LastIndex(s[..|s| - 1], c);
      assert s == s[..|s| - 1] + [s[|s| - 1]];
      assert r.Some? ==> s[r.value + 1..] == s[..|s| - 1][r.value + 1..] + [s[|s| - 1]];
      r
  }

  /** `allowed_file(filename)`: the name has a dot, and the text after its
      last dot, lower-cased, is one of the audio extensions. */
  function AllowedFile(name: string): (r: bool)
    ensures '.' !in name ==> !r
  {
    match LastIndex(name, '.')
    case None => false
    case Some(i) => Lower(name[i + 1..]) in AllowedExtensions
  }

  /** The dot before the extension is the last one: a name decided by its
      stem and an extension without a dot is accepted exactly when the
      lower-cased extension is in the list, whatever the stem holds. */
  lemma AllowedByExtension(stem: string, ext: string)
    requires '.' !in ext
    ensures AllowedFile(stem + "." + ext) <==> Lower(ext) in AllowedExtensions
  {
    var name := stem + "." + ext;
    var i := |stem|;
    assert name[i] == '.' && name[i + 1..] == ext;
  }

  /** An upper-case extension passes. */
  lemma UpperCaseExtension()
    ensures AllowedFile("lecture.MP3")
  {
    AllowedByExtension("lecture", "MP3");
    assert "lecture" + "." + "MP3" == "lecture.MP3";
    assert Lower("MP3") == "mp3";
  }

  /** A dot inside the stem does not matter. */
  lemma DotInStem()
    ensures AllowedFile("take.2.wav")
  {
    AllowedByExtension("take.2", "wav");
    assert "take.2" + "." + "wav" == "take.2.wav";
    assert Lower("wav") == "wav";
  }

  /** Only the last extension counts. */
  lemma LastExtensionDecides()
    ensures !AllowedFile("notes.mp3.md")
  {
    AllowedByExtension("notes.mp3", "md");
    assert "notes.mp3" + "." + "md" == "notes.mp3.md";
    assert Lower("md") == "md";
  }

  /** A bare extension is no file name. */
  lemma BareExtension()
    ensures !AllowedFile("mp3")
  {
    assert '.' !in "mp3";
  }

  // ---------------------------------------------------------------------
  // Paths
  // ---------------------------------------------------------------------

  /** `os.path.basename(path)`: the text after the last `/`. */
  function BaseName(path: string): (r: string)
    ensures '/' !in r
    ensures |r| <= |path|
    ensures '/' !in path ==> r == path
  {
    match LastIndex(path, '/')
    case None => path
    case Some(i) => path[i + 1..]
  }

  // ---------------------------------------------------------------------
  // Progress
  // ---------------------------------------------------------------------

  function Min(a: int, b: int): int {
    if a <= b then a else b
  }

  /** The progress shown after the segment with index `i` arrives: two points
      per segment from 10, capped at 90. */
  function SegmentProgress(i: nat): (p: int)
    ensures 12 <= p <= 90
    ensures i >= 39 ==> p == 90
  {
    Min(10 + (i + 1) * 2, 90)
  }

  /** The progress never goes back while segments arrive. */
  lemma {:induction false} ProgressMonotone(i: nat, j: nat)
    requires i <= j
    ensures SegmentProgress(i) <= SegmentProgress(j)
    decreases j - i
  {
    if i < j {
      ProgressMonotone(i + 1, j);
    }
  }

  // ---------------------------------------------------------------------
  // The shared status
  // ---------------------------------------------------------------------

  /** One row of the `segments` list the page shows. */
  datatype SegmentRow = SegmentRow(id: nat, start: int, end: int, text: string)

  /** The values the status dictionary holds. */
  datatype Value = Text(s: string) | Number(n: int) | Nothing | Rows(rows: seq<SegmentRow>)

  /** The keys of `conversion_state`, which are the only keywords
      `update_state` is called with. */
  datatype Key = Status | Progress | CurrentSegment | TotalSegments | ElapsedTime | CurrentText
               | FullText | ErrorMessage | FileName | Model | StartTime | Segments

  /** A status dictionary, or the keyword arguments of one update. */
  type Dict = map<Key, Value>

  /** `conversion_state` before any conversion. */
  function Initial(): (m: Dict)
    ensures Status in m && m[Status] == Text("idle")
    ensures Progress in m && m[Progress] == Number(0)
  {
    map[Status := Text("idle"), Progress := Number(0), CurrentSegment := Number(0),
        TotalSegments := Number(0), ElapsedTime := Number(0), CurrentText := Text(""),
        FullText := Text(""), ErrorMessage := Text(""), FileName := Text(""),
        Model := Text(""), StartTime := Nothing, Segments := Rows([])]
  }

  /** `dict.update`: `kw` written over `m`. */
  function Merged(m: Dict, kw: Dict): Dict {
    m + kw
  }

  /** After `dict.update` the keys of `kw` have its values, every other key
      keeps its value, and no key is lost or invented. */
  lemma MergedAt(m: Dict, kw: Dict, k: Key)
    ensures k in Merged(m, kw) <==> k in m || k in kw
    ensures k in kw ==> Merged(m, kw)[k] == kw[k]
    ensures k in m && k !in kw ==> Merged(m, kw)[k] == m[k]
  {
  }

  /** The status after the updates `kws`, oldest first. */
  function Applied(m: Dict, kws: seq<Dict>): Dict
    decreases |kws|
  {
    if kws == [] then m else Merged(Applied(m, kws[..|kws| - 1]), kws[|kws| - 1])
  }

  /** A key keeps the value its latest update gave it. */
  lemma {:induction false} AppliedKeeps(m: Dict, kws: seq<Dict>, i: nat, k: Key)
    requires i < |kws| && k in kws[i]
    requires forall j :: i < j < |kws| ==> k !in kws[j]
    ensures k in Applied(m, kws) && Applied(m, kws)[k] == kws[i][k]
    decreases |kws|
  {
    if i < |kws| - 1 {
      var init := kws[..|kws| - 1];
      forall j | i < j < |init|
        ensures k !in init[j]
      {
        assert init[j] == kws[j];
      }
      AppliedKeeps(m, init, i, k);
    }
    MergedAt(Applied(m, kws[..|kws| - 1]), kws[|kws| - 1], k);
  }

  lemma DictsAssoc(a: seq<Dict>, b: seq<Dict>, c: seq<Dict>)
    ensures a + b + c == a + (b + c)
  {
  }

  lemma Chain(a: seq<Dict>, b: seq<Dict>, c: seq<Dict>, d: seq<Dict>, e: seq<Dict>)
    ensures a + b + c + d + e == a + (b + c + d + e)
  {
  }

  /** Updating in two rounds is updating with both, in order. */
  lemma {:induction false} AppliedConcat(m: Dict, a: seq<Dict>, b: seq<Dict>)
    ensures Applied(m, a + b) == Applied(Applied(m, a), b)
    decreases |b|
  {
    if b == [] {
      assert a + b == a;
    } else {
      var init := b[..|b| - 1];
      AppliedConcat(m, a, init);
      assert (a + b)[..|a + b| - 1] == a + init;
    }
  }

  /** The status dictionary and its lock, with the updates it has seen. */
  class Board {
    var state: Dict
    /** The dictionary before the first update, and every update since. */
    ghost var origin: Dict
    ghost var history: seq<Dict>

    ghost predicate Valid()
      reads this
    {
      state == Applied(origin, history)
    }

    constructor ()
      ensures Valid() && state == Initial() && history == []
    {
      state := Initial();
      origin := state;
      history := [];
    }

    /** `update_state(**kwargs)`. */
    method Update(kw: Dict)
      requires Valid()
      modifies this
      ensures Valid()
      ensures state == Merged(old(state), kw)
      ensures history == old(history) + [kw] && origin == old(origin)
    {
      state := state + kw;
      history := history + [kw];
      assert history[..|history| - 1] == old(history);
    }

    /** `get_state()`: a copy of the dictionary, which later updates leave
        as it is. */
    method Get() returns (snapshot: Dict)
      ensures snapshot == state
    {
      snapshot := state;
    }

    /** One pass of the segment loop: the segment's row and text are
        collected and the page gets its progress. */
    method Arrived(ghost before: seq<Dict>, segs: seq<Spoken>, i: nat, segmentList: seq<SegmentRow>, parts: seq<string>)
      returns (rows: seq<SegmentRow>, texts: seq<string>)
      requires Valid() && i < |segs|
      requires history == before + SegmentUpdates(segs, i)
      requires segmentList == RowsUpTo(segs, i) && parts == TextsUpTo(segs, i)
      modifies this
      ensures Valid() && origin == old(origin)
      ensures history == before + SegmentUpdates(segs, i + 1)
      ensures rows == RowsUpTo(segs, i + 1) && texts == TextsUpTo(segs, i + 1)
    {
      var seg := segs[i];
      rows := segmentList + [SegmentRow(i + 1, seg.start, seg.end, Strip(seg.text))];
      texts := parts + [seg.text];
      var progress := Min(10 + (i + 1) * 2, 90);
      Update(map[CurrentSegment := Number(i + 1), Progress := Number(progress),
                 ElapsedTime := Number(seg.elapsed), CurrentText := Text(Strip(seg.text)),
                 Segments := Rows(rows)]);
      SegmentUpdatesSnoc(segs, i);
      DictsAssoc(before, SegmentUpdates(segs, i), [SegmentUpdate(segs, i)]);
    }

    /** `run_conversion`: the updates one conversion makes, with the model
        load, the engine and the clock readings given by `run`; the status
        the page reads at the end is the one these updates leave. */
    method RunConversion(path: string, modelSize: string, started: int, run: Run)
      requires Valid()
      modifies this
      ensures Valid() && origin == old(origin)
      ensures history == old(history) + Updates(path, modelSize, started, run)
      ensures state == Applied(old(state), Updates(path, modelSize, started, run))
    {
      ghost var before := history;
      Update(Starting(path, modelSize, started));
      if run.LoadFailed? {
        Update(Failed(run.message));
        DictsAssoc(before, [Starting(path, modelSize, started)], [Failed(run.message)]);
      } else {
        Update(Transcribing());
        var segs := run.segments;
        ghost var head := history;
        var segmentList: seq<SegmentRow> := [];
        var parts: seq<string> := [];
        assert head + SegmentUpdates(segs, 0) == head;
        for i := 0 to |segs|
          invariant Valid() && origin == old(origin)
          invariant history == head + SegmentUpdates(segs, i)
          invariant segmentList == RowsUpTo(segs, i)
          invariant parts == TextsUpTo(segs, i)
        {
          segmentList, parts := Arrived(head, segs, i, segmentList, parts);
        }
        ghost var streamed := history;
        match run.ending {
          case Raised(message) =>
            Update(Failed(message));
          case Done(totalTime) =>
            var fullText := Strip(Join(" ", parts));
            Update(map[Status := Text("completed"), Progress := Number(100),
                       ElapsedTime := Number(totalTime), FullText := Text(fullText),
                       TotalSegments := Number(|segmentList|), Segments := Rows(segmentList)]);
        }
        Chain(before, [Starting(path, modelSize, started)], [Transcribing()],
              SegmentUpdates(segs, |segs|), [Final(segs, run.ending)]);
      }
      AppliedConcat(origin, before, Updates(path, modelSize, started, run));
    }
  }

  // ---------------------------------------------------------------------
  // One conversion
  // ---------------------------------------------------------------------

  /** A segment as the engine yields it, with the seconds since the
      transcription started read when it arrived. */
  datatype Spoken = Spoken(start: int, end: int, text: string, elapsed: int)

  /** How the engine's stream ends: with the total time, or with an
      exception and its text. */
  datatype Ending = Done(totalTime: int) | Raised(message: string)

  /** What a conversion meets: the model fails to load, or the engine
      yields `segments` and then ends. */
  datatype Run = LoadFailed(message: string) | Streamed(segments: seq<Spoken>, ending: Ending)

  /** The first update: the file, the model and the start time, with the
      texts of an earlier run cleared. */
  function Starting(path: string, modelSize: string, started: int): Dict {
    map[Status := Text("loading_model"), Progress := Number(5), FileName := Text(BaseName(path)),
        Model := Text(modelSize), StartTime := Number(started), Segments := Rows([]),
        FullText := Text(""), ErrorMessage := Text("")]
  }

  /** The update once the model is loaded. */
  function Transcribing(): Dict {
    map[Status := Text("transcribing"), Progress := Number(10)]
  }

  /** The update of the exception handler. */
  function Failed(message: string): Dict {
    map[Status := Text("error"), ErrorMessage := Text(message), Progress := Number(0)]
  }

  /** The rows of the first `n` segments. */
  function RowsUpTo(segs: seq<Spoken>, n: nat): (r: seq<SegmentRow>)
    requires n <= |segs|
    ensures |r| == n
    decreases n
  {
    if n == 0 then [] else RowsUpTo(segs, n - 1) + [SegmentRow(n, segs[n - 1].start, segs[n - 1].end, Strip(segs[n - 1].text))]
  }

  /** The raw texts of the first `n` segments, which the full text is
      joined from. */
  function TextsUpTo(segs: seq<Spoken>, n: nat): (r: seq<string>)
    requires n <= |segs|
    ensures |r| == n
    decreases n
  {
    if n == 0 then [] else TextsUpTo(segs, n - 1) + [segs[n - 1].text]
  }

  /** The update after segment `i` arrives. */
  function SegmentUpdate(segs: seq<Spoken>, i: nat): Dict
    requires i < |segs|
  {
    map[CurrentSegment := Number(i + 1), Progress := Number(SegmentProgress(i)),
        ElapsedTime := Number(segs[i].elapsed), CurrentText := Text(RowsUpTo(segs, i + 1)[i].text),
        Segments := Rows(RowsUpTo(segs, i + 1))]
  }

  /** The updates after each of the first `n` segments. */
  function SegmentUpdates(segs: seq<Spoken>, n: nat): (r: seq<Dict>)
    requires n <= |segs|
  {
    seq(n, k requires 0 <= k < n => SegmentUpdate(segs, k))
  }

  /** One more segment, one more update. */
  lemma SegmentUpdatesSnoc(segs: seq<Spoken>, n: nat)
    requires n < |segs|
    ensures SegmentUpdates(segs, n + 1) == SegmentUpdates(segs, n) + [SegmentUpdate(segs, n)]
  {
    var a := SegmentUpdates(segs, n + 1);
    var b := SegmentUpdates(segs, n) + [SegmentUpdate(segs, n)];
    assert forall k :: 0 <= k < n + 1 ==> a[k] == b[k];
  }

  /** The last update of a stream: `completed` with the count and the
      joined, stripped text, or the exception handler's. */
  function Final(segs: seq<Spoken>, ending: Ending): Dict {
    match ending
    case Done(totalTime) =>
      map[Status := Text("completed"), Progress := Number(100), ElapsedTime := Number(totalTime),
          FullText := Text(Strip(Join(" ", TextsUpTo(segs, |segs|)))), TotalSegments := Number(|segs|),
          Segments := Rows(RowsUpTo(segs, |segs|))]
    case Raised(message) => Failed(message)
  }

  /** Every update `run_conversion` makes, in order. */
  function Updates(path: string, modelSize: string, started: int, run: Run): (us: seq<Dict>)
    ensures |us| == if run.LoadFailed? then 2 else |run.segments| + 3
  {
    match run
    case LoadFailed(message) => [Starting(path, modelSize, started)] + [Failed(message)]
    case Streamed(segs, ending) =>
      [Starting(path, modelSize, started)] + [Transcribing()] + SegmentUpdates(segs, |segs|) + [Final(segs, ending)]
  }

  /** The first update starts the load; the second reports the load's
      failure or its success. */
  lemma FirstUpdates(path: string, modelSize: string, started: int, run: Run)
    ensures Updates(path, modelSize, started, run)[0] == Starting(path, modelSize, started)
    ensures Updates(path, modelSize, started, run)[1] == if run.LoadFailed? then Failed(run.message) else Transcribing()
  {
  }

  /** Between the load and the end, update `j` reports segment `j - 2`. */
  lemma MiddleUpdate(path: string, modelSize: string, started: int, run: Run, j: nat)
    requires run.Streamed? && 2 <= j < |run.segments| + 2
    ensures Updates(path, modelSize, started, run)[j] == SegmentUpdate(run.segments, j - 2)
  {
    var segs := run.segments;
    IndexMiddle([Starting(path, modelSize, started)] + [Transcribing()], SegmentUpdates(segs, |segs|), [Final(segs, run.ending)], j);
  }

  lemma IndexMiddle(a: seq<Dict>, b: seq<Dict>, c: seq<Dict>, j: nat)
    requires |a| <= j < |a| + |b|
    ensures (a + b + c)[j] == b[j - |a|]
  {
  }

  /** The run succeeded. */
  predicate Succeeded(run: Run) {
    run.Streamed? && run.ending.Done?
  }

  /** The text of the exception a failed run ends with. */
  function FailureOf(run: Run): string {
    match run
    case LoadFailed(message) => message
    case Streamed(_, ending) => if ending.Raised? then ending.message else ""
  }

  /** Only the first update names the file and the model. */
  lemma LaterUpdate(path: string, modelSize: string, started: int, run: Run, j: nat)
    requires 0 < j < |Updates(path, modelSize, started, run)|
    ensures FileName !in Updates(path, modelSize, started, run)[j]
    ensures Model !in Updates(path, modelSize, started, run)[j]
  {
    if j == 1 {
      SecondUnnamed(path, modelSize, started, run);
    } else if j == |Updates(path, modelSize, started, run)| - 1 {
      LastUnnamed(path, modelSize, started, run);
    } else {
      MiddleUnnamed(path, modelSize, started, run, j);
    }
  }

  lemma SecondUnnamed(path: string, modelSize: string, started: int, run: Run)
    ensures FileName !in Updates(path, modelSize, started, run)[1]
    ensures Model !in Updates(path, modelSize, started, run)[1]
  {
    FirstUpdates(path, modelSize, started, run);
  }

  lemma LastUnnamed(path: string, modelSize: string, started: int, run: Run)
    ensures FileName !in Updates(path, modelSize, started, run)[|Updates(path, modelSize, started, run)| - 1]
    ensures Model !in Updates(path, modelSize, started, run)[|Updates(path, modelSize, started, run)| - 1]
  {
    LastUpdate(path, modelSize, started, run);
  }

  lemma MiddleUnnamed(path: string, modelSize: string, started: int, run: Run, j: nat)
    requires run.Streamed? && 2 <= j < |run.segments| + 2
    ensures FileName !in Updates(path, modelSize, started, run)[j]
    ensures Model !in Updates(path, modelSize, started, run)[j]
  {
    MiddleUpdate(path, modelSize, started, run, j);
    SegmentKeys(run.segments, j - 2);
  }

  /** The keys a segment update sets and leaves alone. */
  lemma SegmentKeys(segs: seq<Spoken>, i: nat)
    requires i < |segs|
    ensures FileName !in SegmentUpdate(segs, i) && Model !in SegmentUpdate(segs, i)
    ensures Status !in SegmentUpdate(segs, i)
    ensures Progress in SegmentUpdate(segs, i) && SegmentUpdate(segs, i)[Progress] == Number(SegmentProgress(i))
  {
  }

  /** The last update ends the conversion. */
  lemma LastUpdate(path: string, modelSize: string, started: int, run: Run)
    ensures Updates(path, modelSize, started, run)[|Updates(path, modelSize, started, run)| - 1]
            == if run.LoadFailed? then Failed(run.message) else Final(run.segments, run.ending)
  {
  }

  /** Once the conversion is over, the page shows the file and the model of
      this run, however it ended. */
  lemma ConversionNamesRun(m: Dict, path: string, modelSize: string, started: int, run: Run)
    ensures var s := Applied(m, Updates(path, modelSize, started, run));
            && FileName in s && s[FileName] == Text(BaseName(path))
            && Model in s && s[Model] == Text(modelSize)
  {
    var us := Updates(path, modelSize, started, run);
    forall j | 0 < j < |us|
      ensures FileName !in us[j] && Model !in us[j]
    {
      LaterUpdate(path, modelSize, started, run, j);
    }
    AppliedKeeps(m, us, 0, FileName);
    AppliedKeeps(m, us, 0, Model);
  }

  /** After a normal end the page shows `completed` at 100, the number of
      segments and their texts joined with spaces and stripped. */
  lemma ConversionCompletes(m: Dict, path: string, modelSize: string, started: int, run: Run)
    requires Succeeded(run)
    ensures var s := Applied(m, Updates(path, modelSize, started, run));
            && Status in s && s[Status] == Text("completed")
            && Progress in s && s[Progress] == Number(100)
            && TotalSegments in s && s[TotalSegments] == Number(|run.segments|)
            && FullText in s && s[FullText] == Text(Strip(Join(" ", TextsUpTo(run.segments, |run.segments|))))
  {
    var us := Updates(path, modelSize, started, run);
    var last := |us| - 1;
    LastUpdate(path, modelSize, started, run);
    AppliedKeeps(m, us, last, Status);
    AppliedKeeps(m, us, last, Progress);
    AppliedKeeps(m, us, last, TotalSegments);
    AppliedKeeps(m, us, last, FullText);
  }

  /** After an exception, in the model load or in the stream, the page shows
      `error` at 0 with the exception's text. */
  lemma ConversionFails(m: Dict, path: string, modelSize: string, started: int, run: Run)
    requires !Succeeded(run)
    ensures var s := Applied(m, Updates(path, modelSize, started, run));
            && Status in s && s[Status] == Text("error")
            && Progress in s && s[Progress] == Number(0)
            && ErrorMessage in s && s[ErrorMessage] == Text(FailureOf(run))
  {
    var us := Updates(path, modelSize, started, run);
    var last := |us| - 1;
    LastUpdate(path, modelSize, started, run);
    AppliedKeeps(m, us, last, Status);
    AppliedKeeps(m, us, last, Progress);
    AppliedKeeps(m, us, last, ErrorMessage);
  }

  /** The status the page reads after update `j`: `loading_model` first,
      after a load `transcribing` while the segments arrive, at the end
      `completed` or `error`. */
  lemma StatusSeen(m: Dict, path: string, modelSize: string, started: int, run: Run, j: nat)
    requires j < |Updates(path, modelSize, started, run)|
    ensures var us := Updates(path, modelSize, started, run);
            var s := Applied(m, us[..j + 1]);
            && Status in s
            && s[Status] == Text(if j == 0 then "loading_model"
                                 else if j < |us| - 1 then "transcribing"
                                 else if Succeeded(run) then "completed" else "error")
  {
    var us := Updates(path, modelSize, started, run);
    var seen := us[..j + 1];
    var last := |us| - 1;
    var i := if j == 0 then 0 else if j < last then 1 else last;
    assert Status in seen[i] && seen[i][Status] == Text(if j == 0 then "loading_model"
                                 else if j < last then "transcribing"
                                 else if Succeeded(run) then "completed" else "error") by {
      assert seen[i] == us[i];
      FirstUpdates(path, modelSize, started, run);
      LastUpdate(path, modelSize, started, run);
    }
    forall k | i < k < |seen|
      ensures Status !in seen[k]
    {
      MiddleUpdate(path, modelSize, started, run, k);
      SegmentKeys(run.segments, k - 2);
      assert seen[k] == us[k];
    }
    AppliedKeeps(m, seen, i, Status);
  }

  /** The progress the page reads after update `j`. */
  lemma ProgressSeen(m: Dict, path: string, modelSize: string, started: int, run: Run, j: nat)
    requires j < |Updates(path, modelSize, started, run)|
    ensures var s := Applied(m, Updates(path, modelSize, started, run)[..j + 1]);
            Progress in s && s[Progress] == Number(Shown(run, j))
  {
    var us := Updates(path, modelSize, started, run);
    var seen := us[..j + 1];
    assert Progress in seen[j] && seen[j][Progress] == Number(Shown(run, j)) by {
      assert seen[j] == us[j];
      FirstUpdates(path, modelSize, started, run);
      LastUpdate(path, modelSize, started, run);
      if 2 <= j < |us| - 1 {
        MiddleUpdate(path, modelSize, started, run, j);
        SegmentKeys(run.segments, j - 2);
      }
    }
    AppliedKeeps(m, seen, j, Progress);
  }

  /** The progress shown after update `j`. */
  function Shown(run: Run, j: nat): int {
    if j == 0 then 5
    else if run.LoadFailed? then 0
    else if j == 1 then 10
    else if j < |run.segments| + 2 then SegmentProgress(j - 2)
    else if run.ending.Done? then 100
    else 0
  }

  /** A conversion that ends normally never shows a lower progress than it
      showed before: 5, 10, two points per segment up to 90, then 100. */
  lemma ProgressRises(run: Run, i: nat, j: nat)
    requires Succeeded(run)
    requires i <= j < |run.segments| + 3
    ensures Shown(run, i) <= Shown(run, j)
  {
    if 2 <= i && j < |run.segments| + 2 {
      ProgressMonotone(i - 2, j - 2);
    }
  }
}
