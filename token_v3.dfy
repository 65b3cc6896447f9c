/**
  The third prototype (archived/main_v3.py): segments of at most sixteen characters cut from
  the recogniser's text. A space is kept in the pending line but takes no time entry; every
  other character takes the next entry while there is one and is dropped once they run out;
  a line is cut as soon as it holds sixteen characters, spaces included, and cut lines are
  stripped.
 */
module TokenV3 {
  import opened Wrappers
  import opened Strings
  import opened Decimal
  import opened Timestamp
  import opened TokenTimes

  /** `MAX_CHARS`: a line is cut once it holds this many characters. */
  const MaxChars: nat := 16

  /** Every character but the space takes a time entry. */
  predicate Takes(c: char) { c != ' ' }

  /** The characters that take time entries, in order. */
  function Taken(p: string): string { Filter(Takes, p) }

  /** The loop's variables (`segments`, `current_chars`, `current_start`, `ts_idx`), and
      `from`, the first entry of the pending line, which the model adds. The model keeps each
      segment's line as it was collected, with its entry range; the segment itself is that
      line stripped. `current_end` is read only right after it is set, so the model reads the
      entry directly. */
  datatype State = State(done: seq<Emitted>, current: string, startTime: int, tsIdx: nat, from: nat)

  predicate Sane(st: State, ts: seq<Span>) { st.from <= st.tsIdx <= |ts| }

  const Initial: State := State([], "", -1, 0, 0)

  /** One turn of the loop over the characters of `raw_text`. */
  function Step(st: State, c: char, ts: seq<Span>): (r: State)
    requires Sane(st, ts)
    ensures Sane(r, ts)
  {
    if c == ' ' then st.(current := st.current + [c])
    else if st.tsIdx < |ts| then
      var start := if st.startTime == -1 then ts[st.tsIdx].startMs else st.startTime;
      var chars := st.current + [c];
      if |chars| >= MaxChars then
        State(st.done + [Emitted(Cue(chars, start, ts[st.tsIdx].endMs), st.from, st.tsIdx + 1)], "", -1, st.tsIdx + 1, st.tsIdx + 1)
      else State(st.done, chars, start, st.tsIdx + 1, st.from)
    else st
  }

  /** The loop run over `text`. */
  function Run(text: string, ts: seq<Span>): (r: State)
    ensures Sane(r, ts)
  {
    if text == [] then Initial else Step(Run(text[..|text| - 1], ts), text[|text| - 1], ts)
  }

  /** A pending line left over at the end becomes a segment ending with the last entry; with
      no entries at all, reading the last one fails. */
  function Finish(st: State, ts: seq<Span>): Result<seq<Emitted>, Crash>
    requires Sane(st, ts)
  {
    if st.current == [] then Success(st.done)
    else if ts == [] then Failure(IndexError)
    else Success(st.done + [Emitted(Cue(st.current, st.startTime, ts[|ts| - 1].endMs), st.from, st.tsIdx)])
  }

  function Segmented(text: string, ts: seq<Span>): Result<seq<Emitted>, Crash> {
    Finish(Run(text, ts), ts)
  }

  /** The segment made of a collected line: the line stripped, with its times. */
  function Line(e: Emitted): Cue {
    Cue(Strip(e.cue.text), e.cue.startMs, e.cue.endMs)
  }

  function Lines(es: seq<Emitted>): (r: seq<Cue>)
    ensures |r| == |es|
  {
    seq(|es|, k requires 0 <= k < |es| => Line(es[k]))
  }

  lemma LinesPush(es: seq<Emitted>, e: Emitted)
    ensures Lines(es + [e]) == Lines(es) + [Line(e)]
  {
  }

  /** The `segments` list built from `raw_text` and `timestamps`, or the error. */
  function Segments(text: string, ts: seq<Span>): Result<seq<Cue>, Crash> {
    var r := Segmented(text, ts);
    if r.Failure? then Failure(r.error) else Success(Lines(r.value))
  }

  lemma RunPush(text: string, i: nat, ts: seq<Span>)
    requires i < |text|
    ensures Run(text[..i + 1], ts) == Step(Run(text[..i], ts), text[i], ts)
  {
    assert text[..i + 1][..i] == text[..i];
  }

  /** The segmentation loop of `generate_srt`. */
  method SegmentText(rawText: string, timestamps: seq<Span>) returns (result: Result<seq<Cue>, Crash>)
    ensures result == Segments(rawText, timestamps)
  {
    var segments: seq<Cue> := [];
    var currentChars := "";
    var currentStart := -1;
    var tsIdx := 0;
    for i := 0 to |rawText|
      invariant var st := Run(rawText[..i], timestamps);
        segments == Lines(st.done) && currentChars == st.current
        && currentStart == st.startTime && tsIdx == st.tsIdx
    {
      var c := rawText[i];
      ghost var st := Run(rawText[..i], timestamps);
      RunPush(rawText, i, timestamps);
      if c == ' ' {
        StepSpaceTo(st, timestamps);
        currentChars := currentChars + [c];
        continue;
      }
      if tsIdx < |timestamps| {
        if |currentChars| + 1 >= MaxChars {
          StepCutsTo(st, c, timestamps);
        } else {
          StepExtendsTo(st, c, timestamps);
        }
        if currentStart == -1 {
          currentStart := timestamps[tsIdx].startMs;
        }
        currentChars := currentChars + [c];
        var currentEnd := timestamps[tsIdx].endMs;
        tsIdx := tsIdx + 1;
        if |currentChars| >= MaxChars {
          LinesPush(st.done, Emitted(Cue(currentChars, currentStart, currentEnd), st.from, tsIdx));
          segments := segments + [Cue(Strip(currentChars), currentStart, currentEnd)];
          currentChars := "";
          currentStart := -1;
        }
      }
    }
    assert rawText[..|rawText|] == rawText;
    ghost var st := Run(rawText, timestamps);
    if currentChars != [] {
      if |timestamps| == 0 {
        return Failure(IndexError);
      }
      var end := timestamps[|timestamps| - 1].endMs;
      LinesPush(st.done, Emitted(Cue(currentChars, currentStart, end), st.from, tsIdx));
      segments := segments + [Cue(Strip(currentChars), currentStart, end)];
    }
    return Success(segments);
  }

  // ---------------------------------------------------------------------------------------
  // What the loop keeps true
  // ---------------------------------------------------------------------------------------

  /** A collected line used the entries `lo` to `hi - 1`, one per character but its spaces,
      no more than sixteen, and starts at the first start among them that is set. */
  predicate Stamped(e: Emitted, ts: seq<Span>) {
    e.lo <= e.hi <= |ts| && e.hi - e.lo <= MaxChars
    && e.cue.startMs == FirstStart(ts, e.lo, e.hi) && |Taken(e.cue.text)| == e.hi - e.lo
  }

  /** A line cut inside the loop reached sixteen characters with one that took an entry, and
      ends where that entry ends. */
  predicate CutLine(e: Emitted, ts: seq<Span>) {
    Stamped(e, ts) && e.lo < e.hi && e.cue.endMs == ts[e.hi - 1].endMs
    && |e.cue.text| >= MaxChars && Takes(e.cue.text[|e.cue.text| - 1])
  }

  predicate AllCut(done: seq<Emitted>, ts: seq<Span>) {
    forall k :: 0 <= k < |done| ==> CutLine(done[k], ts)
  }

  /** The entries taken so far belong to the first characters that take one, and the lines
      and the pending line hold exactly those characters, besides spaces. */
  predicate Counted(st: State, p: string, ts: seq<Span>) {
    st.tsIdx == Min(|Taken(p)|, |ts|)
    && Taken(AllText(st.done)) + Taken(st.current) == Taken(p)[..st.tsIdx]
  }

  /** The pending line used one entry per character but its spaces, fewer than sixteen, and
      starts at the first set start of its entries. */
  predicate Pending(st: State, ts: seq<Span>)
    requires Sane(st, ts)
  {
    |Taken(st.current)| == st.tsIdx - st.from && |Taken(st.current)| < MaxChars
    && st.startTime == FirstStart(ts, st.from, st.tsIdx)
  }

  /** What holds after every turn of the loop over the prefix `p`. */
  predicate Inv(st: State, p: string, ts: seq<Span>) {
    Sane(st, ts) && Counted(st, p, ts) && Pending(st, ts) && Tiled(st.done, st.from) && AllCut(st.done, ts)
  }

  lemma AllCutPush(done: seq<Emitted>, e: Emitted, ts: seq<Span>)
    requires AllCut(done, ts) && CutLine(e, ts)
    ensures AllCut(done + [e], ts)
  {
    var r := done + [e];
    forall k | 0 <= k < |r| ensures CutLine(r[k], ts) {
      if k < |done| { assert r[k] == done[k]; }
    }
  }

  /** The invariant for a state with a line still pending. */
  lemma PendingInv(done: seq<Emitted>, chars: string, start: int, n: nat, from: nat, q: string, ts: seq<Span>)
    requires from <= n <= |ts| && n == Min(|Taken(q)|, |ts|)
    requires Taken(AllText(done)) + Taken(chars) == Taken(q)[..n]
    requires |Taken(chars)| == n - from && |Taken(chars)| < MaxChars && start == FirstStart(ts, from, n)
    requires Tiled(done, from) && AllCut(done, ts)
    ensures Inv(State(done, chars, start, n, from), q, ts)
  {
  }

  lemma StepSpace(st: State, p: string, ts: seq<Span>)
    requires Inv(st, p, ts)
    ensures Inv(State(st.done, st.current + [' '], st.startTime, st.tsIdx, st.from), p + [' '], ts)
  {
    FilterPush(Takes, p, ' ');
    FilterPush(Takes, st.current, ' ');
    PendingInv(st.done, st.current + [' '], st.startTime, st.tsIdx, st.from, p + [' '], ts);
  }

  lemma StepDrops(st: State, p: string, c: char, ts: seq<Span>)
    requires Inv(st, p, ts) && Takes(c) && st.tsIdx == |ts|
    ensures Step(st, c, ts) == st && Inv(st, p + [c], ts)
  {
    FilterPush(Takes, p, c);
    assert Taken(p + [c])[..st.tsIdx] == Taken(p)[..st.tsIdx];
  }

  /** Moving a cut line `e` into the segments, with nothing pending afterwards, keeps the
      invariant. */
  lemma Pushed(done: seq<Emitted>, e: Emitted, q: string, ts: seq<Span>, n: nat)
    requires Tiled(done, e.lo) && e.hi == n && n <= |ts| && n == Min(|Taken(q)|, |ts|)
    requires AllCut(done, ts) && CutLine(e, ts)
    requires Taken(AllText(done)) + Taken(e.cue.text) == Taken(q)[..n]
    ensures Inv(State(done + [e], "", -1, n, n), q, ts)
  {
    AllTextPush(done, e);
    FilterAppend(Takes, AllText(done), e.cue.text);
    TiledPush(done, e.lo, e);
    AllCutPush(done, e, ts);
  }

  /** Taking the next entry for `c`: the entries and the characters move on together. */
  lemma TakeOne(st: State, p: string, c: char, ts: seq<Span>)
    requires Inv(st, p, ts) && Takes(c) && st.tsIdx < |ts|
    ensures st.tsIdx + 1 == Min(|Taken(p + [c])|, |ts|)
    ensures Taken(AllText(st.done)) + Taken(st.current + [c]) == Taken(p + [c])[..st.tsIdx + 1]
    ensures |Taken(st.current + [c])| == st.tsIdx + 1 - st.from
  {
    FilterPush(Takes, p, c);
    assert Taken(p + [c])[..st.tsIdx + 1] == Taken(p)[..st.tsIdx] + [c];
    FilterPush(Takes, st.current, c);
    AppendAssoc(Taken(AllText(st.done)), Taken(st.current), [c]);
  }

  /** The character that fills the line to sixteen cuts it. */
  lemma StepCuts(st: State, p: string, c: char, ts: seq<Span>)
    requires Inv(st, p, ts) && Takes(c) && st.tsIdx < |ts| && |st.current| + 1 >= MaxChars
    ensures var start := if st.startTime == -1 then ts[st.tsIdx].startMs else st.startTime;
      Inv(State(st.done + [Emitted(Cue(st.current + [c], start, ts[st.tsIdx].endMs), st.from, st.tsIdx + 1)],
                "", -1, st.tsIdx + 1, st.tsIdx + 1), p + [c], ts)
  {
    TakeOne(st, p, c, ts);
    FirstStartExtend(ts, st.from, st.tsIdx);
    var start := if st.startTime == -1 then ts[st.tsIdx].startMs else st.startTime;
    var chars := st.current + [c];
    var e := Emitted(Cue(chars, start, ts[st.tsIdx].endMs), st.from, st.tsIdx + 1);
    assert chars[|chars| - 1] == c;
    assert CutLine(e, ts);
    Pushed(st.done, e, p + [c], ts, st.tsIdx + 1);
  }

  /** Any other character that takes an entry joins the pending line. */
  lemma StepExtends(st: State, p: string, c: char, ts: seq<Span>)
    requires Inv(st, p, ts) && Takes(c) && st.tsIdx < |ts| && |st.current| + 1 < MaxChars
    ensures var start := if st.startTime == -1 then ts[st.tsIdx].startMs else st.startTime;
      Inv(State(st.done, st.current + [c], start, st.tsIdx + 1, st.from), p + [c], ts)
  {
    TakeOne(st, p, c, ts);
    FirstStartExtend(ts, st.from, st.tsIdx);
    var start := if st.startTime == -1 then ts[st.tsIdx].startMs else st.startTime;
    var chars := st.current + [c];
    assert |Taken(chars)| <= |chars|;
    PendingInv(st.done, chars, start, st.tsIdx + 1, st.from, p + [c], ts);
  }

  // What one turn computes, branch by branch.

  lemma StepSpaceTo(st: State, ts: seq<Span>)
    requires Sane(st, ts)
    ensures Step(st, ' ', ts) == State(st.done, st.current + [' '], st.startTime, st.tsIdx, st.from)
  {
  }

  lemma StepCutsTo(st: State, c: char, ts: seq<Span>)
    requires Sane(st, ts) && Takes(c) && st.tsIdx < |ts| && |st.current| + 1 >= MaxChars
    ensures var start := if st.startTime == -1 then ts[st.tsIdx].startMs else st.startTime;
      Step(st, c, ts) == State(st.done + [Emitted(Cue(st.current + [c], start, ts[st.tsIdx].endMs), st.from, st.tsIdx + 1)],
                               "", -1, st.tsIdx + 1, st.tsIdx + 1)
  {
  }

  lemma StepExtendsTo(st: State, c: char, ts: seq<Span>)
    requires Sane(st, ts) && Takes(c) && st.tsIdx < |ts| && |st.current| + 1 < MaxChars
    ensures var start := if st.startTime == -1 then ts[st.tsIdx].startMs else st.startTime;
      Step(st, c, ts) == State(st.done, st.current + [c], start, st.tsIdx + 1, st.from)
  {
  }

  lemma StepKeeps(st: State, p: string, c: char, ts: seq<Span>)
    requires Inv(st, p, ts)
    ensures Inv(Step(st, c, ts), p + [c], ts)
  {
    if c == ' ' {
      StepSpaceTo(st, ts);
      StepSpace(st, p, ts);
    } else if st.tsIdx < |ts| && |st.current| + 1 >= MaxChars {
      StepCutsTo(st, c, ts);
      StepCuts(st, p, c, ts);
    } else if st.tsIdx < |ts| {
      StepExtendsTo(st, c, ts);
      StepExtends(st, p, c, ts);
    } else {
      StepDrops(st, p, c, ts);
    }
  }

  lemma {:induction false} RunKeeps(p: string, ts: seq<Span>)
    ensures Inv(Run(p, ts), p, ts)
    decreases |p|
  {
    if p == [] {
      assert Taken(p) == [];
    } else {
      var q := p[..|p| - 1];
      RunKeeps(q, ts);
      StepKeeps(Run(q, ts), q, p[|p| - 1], ts);
      ButLastAppend(p);
    }
  }

  // ---------------------------------------------------------------------------------------
  // Properties of the segments
  // ---------------------------------------------------------------------------------------

  /** With no time entries nothing is ever taken, and what is pending is the spaces. */
  lemma {:induction false} RunWithoutEntries(p: string)
    ensures var st := Run(p, []);
      st.done == [] && st.tsIdx == 0 && (st.current != [] <==> exists i :: 0 <= i < |p| && p[i] == ' ')
    decreases |p|
  {
    if p != [] {
      var q := p[..|p| - 1];
      RunWithoutEntries(q);
      if exists i :: 0 <= i < |q| && q[i] == ' ' {
        var i :| 0 <= i < |q| && q[i] == ' ';
        assert p[i] == ' ';
      }
      if p[|p| - 1] != ' ' {
        forall i | 0 <= i < |p| && p[i] == ' ' ensures q[i] == ' ' { }
      }
    }
  }

  /** The prototype stops with an error exactly when there are no time entries and the text
      holds a space: the space is left pending and the last entry is read for its end. */
  lemma SegmentedFails(text: string, ts: seq<Span>)
    ensures Segmented(text, ts).Failure? <==> ts == [] && exists i :: 0 <= i < |text| && text[i] == ' '
  {
    if ts == [] {
      RunWithoutEntries(text);
    }
  }

  /** Every collected line used the entries `lo` to `hi - 1`, one per character but its
      spaces (at most sixteen, at most fifteen for the last, left-over one), and starts at the
      first set start among them. The ranges follow one another from the first entry up to
      the number of entries taken. A line cut in the loop reached sixteen characters and ends
      with its last entry; the left-over one ends with the last entry of all. */
  lemma SegmentedShape(text: string, ts: seq<Span>)
    requires Segmented(text, ts).Success?
    ensures var es := Segmented(text, ts).value;
      && Tiled(es, Min(|Taken(text)|, |ts|))
      && forall k :: 0 <= k < |es| ==>
           && Stamped(es[k], ts)
           && (CutLine(es[k], ts)
               || (k == |es| - 1 && |ts| > 0 && es[k].hi - es[k].lo < MaxChars && es[k].cue.endMs == ts[|ts| - 1].endMs))
  {
    var st := Run(text, ts);
    RunKeeps(text, ts);
    if st.current != [] {
      var e := Emitted(Cue(st.current, st.startTime, ts[|ts| - 1].endMs), st.from, st.tsIdx);
      TiledPush(st.done, st.from, e);
    }
  }

  /** Besides spaces, the collected lines spell the characters that took an entry: those of
      the text, in order, up to the last entry; the rest is dropped. */
  lemma SegmentedChars(text: string, ts: seq<Span>)
    requires Segmented(text, ts).Success?
    ensures Taken(AllText(Segmented(text, ts).value)) == Taken(text)[..Min(|Taken(text)|, |ts|)]
  {
    var st := Run(text, ts);
    RunKeeps(text, ts);
    if st.current != [] {
      var e := Emitted(Cue(st.current, st.startTime, ts[|ts| - 1].endMs), st.from, st.tsIdx);
      AllTextPush(st.done, e);
      FilterAppend(Takes, AllText(st.done), st.current);
    } else {
      assert Taken(st.current) == [];
    }
  }

  /** Segment `k` is stripped and starts at the first set start among its entries, and
      besides whitespace it holds exactly the characters `lo` to `hi - 1` of those that took
      an entry. */
  lemma SegmentsPieces(text: string, ts: seq<Span>)
    requires Segmented(text, ts).Success?
    ensures var es := Segmented(text, ts).value; var cues := Segments(text, ts).value;
      var x := Taken(text)[..Min(|Taken(text)|, |ts|)];
      forall k :: 0 <= k < |es| ==>
        && es[k].lo <= es[k].hi <= |x|
        && NoEdgeSpace(cues[k].text) && cues[k].startMs == FirstStart(ts, es[k].lo, es[k].hi)
        && Filter(NotSpace, cues[k].text) == Filter(NotSpace, x[es[k].lo..es[k].hi])
  {
    var es := Segmented(text, ts).value;
    var n := Min(|Taken(text)|, |ts|);
    var x := Taken(text)[..n];
    SegmentedShape(text, ts);
    SegmentedChars(text, ts);
    TiledPieces(Takes, es, n, x);
    forall k | 0 <= k < |es|
      ensures Filter(NotSpace, Strip(es[k].cue.text)) == Filter(NotSpace, x[es[k].lo..es[k].hi])
    {
      StripKeepsNonSpace(es[k].cue.text);
      FilterOfFilter(Takes, NotSpace, es[k].cue.text);
    }
  }

  /** With no entry starting at -1, a segment that used entries starts where the entry of its
      first character starts; one made of spaces alone keeps the start -1. */
  lemma SegmentStarts(text: string, ts: seq<Span>)
    requires Segmented(text, ts).Success?
    requires forall j :: 0 <= j < |ts| ==> ts[j].startMs != -1
    ensures var es := Segmented(text, ts).value; var cues := Segments(text, ts).value;
      forall k :: 0 <= k < |es| ==>
        es[k].lo <= es[k].hi <= |ts|
        && cues[k].startMs == if es[k].lo < es[k].hi then ts[es[k].lo].startMs else -1
  {
    var es := Segmented(text, ts).value;
    SegmentedShape(text, ts);
    forall k | 0 <= k < |es| && es[k].lo < es[k].hi
      ensures es[k].cue.startMs == ts[es[k].lo].startMs
    {
      FirstStartPlain(ts, es[k].lo, es[k].hi);
    }
  }

  // ---------------------------------------------------------------------------------------
  // Writing the file
  // ---------------------------------------------------------------------------------------

  /** What is written for segment number `n`: the number, the timing line, the text and a
      blank line. */
  function CueLines(n: nat, cue: Cue): string {
    NatToString(n) + "\n"
    + (FormatTimestampTimedelta(cue.startMs) + " --> " + FormatTimestampTimedelta(cue.endMs) + "\n")
    + (cue.text + "\n\n")
  }

  /** The file: segments keep their position as number, and one with empty text is skipped,
      leaving a gap in the numbering. */
  function Written(cues: seq<Cue>): string {
    if cues == [] then "" else
      var last := cues[|cues| - 1];
      Written(cues[..|cues| - 1]) + (if last.text == "" then "" else CueLines(|cues|, last))
  }

  /** Every segment, numbered from 1, with nothing skipped. */
  function AllCueLines(cues: seq<Cue>): string {
    if cues == [] then "" else AllCueLines(cues[..|cues| - 1]) + CueLines(|cues|, cues[|cues| - 1])
  }

  /** A skipped segment leaves no trace; without empty texts the file holds every segment. */
  lemma {:induction false} WrittenAll(cues: seq<Cue>)
    requires forall k :: 0 <= k < |cues| ==> cues[k].text != ""
    ensures Written(cues) == AllCueLines(cues)
    decreases |cues|
  {
    if cues != [] {
      WrittenAll(cues[..|cues| - 1]);
    }
  }

  /** Only empty segments are skipped: when every segment is empty, nothing is written. */
  lemma {:induction false} WrittenNone(cues: seq<Cue>)
    requires forall k :: 0 <= k < |cues| ==> cues[k].text == ""
    ensures Written(cues) == ""
    decreases |cues|
  {
    if cues != [] {
      WrittenNone(cues[..|cues| - 1]);
    }
  }

  lemma WrittenStep(segments: seq<Cue>, i: nat)
    requires i < |segments|
    ensures Written(segments[..i + 1]) == Written(segments[..i])
      + (if segments[i].text == "" then "" else CueLines(i + 1, segments[i]))
  {
    assert segments[..i + 1][..i] == segments[..i];
  }

  /** The writing loop of `generate_srt`. */
  method WriteSegments(segments: seq<Cue>) returns (content: string)
    ensures content == Written(segments)
  {
    content := "";
    for i := 0 to |segments|
      invariant content == Written(segments[..i])
    {
      WrittenStep(segments, i);
      var seg := segments[i];
      if seg.text == "" {
        continue;
      }
      var number := NatToString(i + 1) + "\n";
      var timing := FormatTimestampTimedelta(seg.startMs) + " --> " + FormatTimestampTimedelta(seg.endMs) + "\n";
      var text := seg.text + "\n\n";
      AppendAssoc(content, number, timing);
      AppendAssoc(content, number + timing, text);
      content := content + number;
      content := content + timing;
      content := content + text;
    }
    assert segments[..|segments|] == segments;
  }

  /** `generate_srt` after recognition: reading `res[0]` fails when there is no result,
      reading its `text` and then its `timestamp` fails when it lacks that key, and the
      segmentation may fail as above; otherwise the file holds the segments of the text. */
  method GenerateSrt(res: seq<TokenResult>) returns (written: Result<string, Crash>)
    ensures res == [] ==> written == Failure(IndexError)
    ensures res != [] && (res[0].text.None? || res[0].timestamp.None?) ==> written == Failure(KeyError)
    ensures res != [] && res[0].text.Some? && res[0].timestamp.Some? ==>
      var s := Segments(res[0].text.value, res[0].timestamp.value);
      && (s.Failure? ==> written == Failure(s.error))
      && (s.Success? ==> written == Success(Written(s.value)))
  {
    if res == [] {
      return Failure(IndexError);
    }
    if res[0].text.None? || res[0].timestamp.None? {
      return Failure(KeyError);
    }
    var segments := SegmentText(res[0].text.value, res[0].timestamp.value);
    if segments.Failure? {
      return Failure(segments.error);
    }
    var content := WriteSegments(segments.value);
    return Success(content);
  }
}
