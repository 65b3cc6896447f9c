/**
  main.py's segment builder `funasr_to_segments`: the recogniser's per-sentence records are
  normalised, filtered and clamped, sorted by (start, end), swept into a monotone,
  non-overlapping cue list bounded by the audio length, and the last cue is stretched to the
  end of the audio when it stops 800 ms or more before it. Also `write_srt`'s line layout.
 */
module SentenceSegments {
  import opened Wrappers
  import opened Strings
  import opened Normalize
  import opened Decimal
  import opened Timestamp

  /** main.py `Segment`: one cue, times in milliseconds. */
  datatype Segment = Segment(startMs: int, endMs: int, text: string)

  /** One element of `sentence_info`: a record whose keys may be missing, or a value that is
      not a dict at all (skipped). */
  datatype SentenceRecord =
    | Sentence(text: Option<string>, start: Option<int>, end: Option<int>)
    | NotADict

  /** The recogniser's result as the builder sees it: not a non-empty list of dicts, or the
      first dict with its `sentence_info` entry (`None` when the key is missing). */
  datatype RecognizerOutput =
    | UnexpectedShape
    | Output(sentenceInfo: Option<seq<SentenceRecord>>)

  datatype BuildError = UnexpectedFormat | NoSentenceInfo

  /** Floor applied to a cue whose end is not after its start. */
  const MinCueMs: int := 400
  /** A last cue that stops this much or more before the audio end is stretched to it. */
  const TailGapMs: int := 800

  function Min(a: int, b: int): int { if a <= b then a else b }

  /** What the builder promises of a cue's text: non-empty, normalised, and not ending in
      sentence-final punctuation. */
  predicate CueText(t: string) {
    t != [] && Normalized(t) && !IsTrailing(t[|t| - 1])
  }

  /** `strip_trailing_punc(norm_text(t))`. */
  function CleanSentence(t: string): string {
    StripPunc(NormText(t))
  }

  /** A cleaned sentence is empty or a proper cue text. */
  lemma CleanSentenceCue(t: string)
    ensures CleanSentence(t) == [] || CueText(CleanSentence(t))
  {
    var n := NormText(t);
    var r := StripPunc(n);
    if r != [] {
      assert r[0] == n[0];
      assert forall i :: 0 <= i < |r| ==> r[i] == n[i];
    }
  }

  /** The loop body of the first pass for one record: the cue it contributes, if any. */
  function Admit(rec: SentenceRecord, audioMs: int): Option<Segment> {
    match rec
    case NotADict => None
    case Sentence(t, st0, ed0) =>
      var text := CleanSentence(t.GetOr(""));
      if text == [] then None
      else
        var st := st0.GetOr(0);
        var ed := ed0.GetOr(0);
        var ed1 := if ed <= st then st + MinCueMs else ed;
        var st1 := if st < 0 then 0 else st;
        var ed2 := if ed1 > audioMs then audioMs else ed1;
        Some(Segment(st1, ed2, text))
  }

  /** A record is admitted exactly when it is a dict whose cleaned text is not empty; the cue
      then carries that text, starts at 0 or later and ends no later than the audio. */
  lemma AdmitCue(rec: SentenceRecord, audioMs: int)
    ensures Admit(rec, audioMs).Some? <==> rec.Sentence? && CleanSentence(rec.text.GetOr("")) != []
    ensures var r := Admit(rec, audioMs); r.Some? ==>
      r.value.text == CleanSentence(rec.text.GetOr("")) && CueText(r.value.text)
      && 0 <= r.value.startMs && r.value.endMs <= audioMs
  {
    if rec.Sentence? {
      CleanSentenceCue(rec.text.GetOr(""));
    }
  }

  /** The first pass over `sentence_info`: the admitted cues, in record order. */
  function Admitted(recs: seq<SentenceRecord>, audioMs: int): (r: seq<Segment>)
    ensures |r| <= |recs|
  {
    if recs == [] then []
    else
      var last := Admit(recs[|recs| - 1], audioMs);
      Admitted(recs[..|recs| - 1], audioMs) + (if last.Some? then [last.value] else [])
  }

  predicate CueTexts(s: seq<Segment>) {
    forall k :: 0 <= k < |s| ==> CueText(s[k].text)
  }

  /** Every cue starts at 0 or later and ends no later than the audio. */
  predicate InAudio(s: seq<Segment>, audioMs: int) {
    forall k :: 0 <= k < |s| ==> 0 <= s[k].startMs && s[k].endMs <= audioMs
  }

  lemma {:induction false} AdmittedCues(recs: seq<SentenceRecord>, audioMs: int)
    ensures CueTexts(Admitted(recs, audioMs)) && InAudio(Admitted(recs, audioMs), audioMs)
  {
    if recs != [] {
      AdmittedCues(recs[..|recs| - 1], audioMs);
      AdmitCue(recs[|recs| - 1], audioMs);
    }
  }

  /** The sort key `(start_ms, end_ms)`, compared lexicographically. */
  predicate KeyLe(a: Segment, b: Segment) {
    a.startMs < b.startMs || (a.startMs == b.startMs && a.endMs <= b.endMs)
  }

  predicate SortedByKey(s: seq<Segment>) {
    forall k :: 0 <= k < |s| - 1 ==> KeyLe(s[k], s[k + 1])
  }

  function Texts(s: seq<Segment>): (r: seq<string>) {
    seq(|s|, k requires 0 <= k < |s| => s[k].text)
  }

  /** Inserts `x` after every element whose key is not greater, which keeps the sort stable. */
  function Insert(x: Segment, s: seq<Segment>): (r: seq<Segment>)
    ensures |r| == |s| + 1
  {
    if s == [] then [x]
    else if !KeyLe(s[0], x) then [x] + s
    else [s[0]] + Insert(x, s[1..])
  }

  lemma {:induction false} InsertSorted(x: Segment, s: seq<Segment>)
    requires SortedByKey(s)
    ensures SortedByKey(Insert(x, s))
    ensures Insert(x, s)[0] == x || Insert(x, s)[0] == s[0]
  {
    if s != [] && KeyLe(s[0], x) {
      var rest := Insert(x, s[1..]);
      InsertSorted(x, s[1..]);
      assert Insert(x, s) == [s[0]] + rest;
    }
  }

  lemma {:induction false} InsertPermutes(x: Segment, s: seq<Segment>)
    ensures multiset(Insert(x, s)) == multiset(s) + multiset{x}
  {
    if s != [] && KeyLe(s[0], x) {
      InsertPermutes(x, s[1..]);
      assert s == [s[0]] + s[1..];
    }
  }

  lemma {:induction false} InsertTexts(x: Segment, s: seq<Segment>)
    ensures multiset(Texts(Insert(x, s))) == multiset(Texts(s)) + multiset{x.text}
  {
    if s == [] {
      assert Texts([x]) == [x.text];
    } else if !KeyLe(s[0], x) {
      assert Texts([x] + s) == [x.text] + Texts(s);
    } else {
      InsertTexts(x, s[1..]);
      var rest := Insert(x, s[1..]);
      assert Insert(x, s) == [s[0]] + rest;
      assert Texts(s) == [s[0].text] + Texts(s[1..]);
      assert Texts([s[0]] + rest) == [s[0].text] + Texts(rest);
    }
  }

  /** `segs.sort(key=lambda x: (x.start_ms, x.end_ms))`, as insertion of each element in turn. */
  function SortByTime(s: seq<Segment>): (r: seq<Segment>)
    ensures |r| == |s|
  {
    if s == [] then [] else Insert(s[|s| - 1], SortByTime(s[..|s| - 1]))
  }

  /** The sort orders by the key ... */
  lemma {:induction false} SortByTimeSorted(s: seq<Segment>)
    ensures SortedByKey(SortByTime(s))
  {
    if s != [] {
      SortByTimeSorted(s[..|s| - 1]);
      InsertSorted(s[|s| - 1], SortByTime(s[..|s| - 1]));
    }
  }

  /** ... and only rearranges: the cues, and so their texts, are a permutation of the input. */
  lemma {:induction false} SortByTimePermutes(s: seq<Segment>)
    ensures multiset(SortByTime(s)) == multiset(s)
  {
    if s != [] {
      var init := s[..|s| - 1];
      SortByTimePermutes(init);
      InsertPermutes(s[|s| - 1], SortByTime(init));
      assert s == init + [s[|s| - 1]];
    }
  }

  lemma {:induction false} SortByTimeTexts(s: seq<Segment>)
    ensures multiset(Texts(SortByTime(s))) == multiset(Texts(s))
  {
    if s != [] {
      var init := s[..|s| - 1];
      SortByTimeTexts(init);
      InsertTexts(s[|s| - 1], SortByTime(init));
      assert Texts(s) == Texts(init) + [s[|s| - 1].text];
    }
  }

  /** The second pass: each cue starts no earlier than the previous one ended, and a cue left
      with no duration gets up to `MinCueMs`, capped at the audio end. */
  function Sweep(s: seq<Segment>, lastEnd: int, audioMs: int): (r: seq<Segment>)
    ensures |r| == |s|
  {
    if s == [] then []
    else
      var st := if s[0].startMs < lastEnd then lastEnd else s[0].startMs;
      var ed := if s[0].endMs <= st then Min(st + MinCueMs, audioMs) else s[0].endMs;
      [Segment(st, ed, s[0].text)] + Sweep(s[1..], ed, audioMs)
  }

  /** The sweep changes times only. */
  lemma {:induction false} SweepTexts(s: seq<Segment>, lastEnd: int, audioMs: int)
    ensures Texts(Sweep(s, lastEnd, audioMs)) == Texts(s)
  {
    if s != [] {
      var r := Sweep(s, lastEnd, audioMs);
      SweepHead(s, lastEnd, audioMs);
      SweepTexts(s[1..], r[0].endMs, audioMs);
      forall k | 0 <= k < |s|
        ensures Texts(r)[k] == Texts(s)[k]
      {
        if k > 0 {
          assert r[k] == r[1..][k - 1];
          assert Texts(r[1..])[k - 1] == Texts(s[1..])[k - 1];
        }
      }
    }
  }

  /** The last step: when the last cue stops `TailGapMs` or more before the audio end, its end
      becomes the audio end. */
  function ExtendTail(s: seq<Segment>, audioMs: int): (r: seq<Segment>)
    ensures |r| == |s|
  {
    if s != [] && audioMs - s[|s| - 1].endMs >= TailGapMs then
      s[..|s| - 1] + [s[|s| - 1].(endMs := audioMs)]
    else s
  }

  /** Only the last cue's end can change, and exactly when the gap is `TailGapMs` or more. */
  lemma ExtendTailChanges(s: seq<Segment>, audioMs: int)
    ensures var r := ExtendTail(s, audioMs);
      (forall k :: 0 <= k < |s| - 1 ==> r[k] == s[k])
      && (s != [] ==> var n := |s| - 1;
          r[n].startMs == s[n].startMs && r[n].text == s[n].text
          && r[n].endMs == if audioMs - s[n].endMs >= TailGapMs then audioMs else s[n].endMs)
      && Texts(r) == Texts(s)
  {
  }

  /** `funasr_to_segments` as a function of the recogniser output and the audio length. */
  function BuildSegments(res: RecognizerOutput, audioMs: int): Result<seq<Segment>, BuildError> {
    match res
    case UnexpectedShape => Failure(UnexpectedFormat)
    case Output(info) =>
      if info.None? || info.value == [] then Failure(NoSentenceInfo)
      else
        var admitted := Admitted(info.value, audioMs);
        Success(ExtendTail(Sweep(SortByTime(admitted), 0, audioMs), audioMs))
  }

  /** A cue that starts inside the audio lasts a positive time. */
  predicate Durations(s: seq<Segment>, audioMs: int) {
    forall k :: 0 <= k < |s| ==> s[k].startMs < audioMs ==> s[k].startMs < s[k].endMs
  }

  /** Starts never decrease and no cue overlaps the next. */
  predicate Chained(s: seq<Segment>) {
    forall k :: 0 <= k < |s| - 1 ==>
      s[k].startMs <= s[k + 1].startMs && s[k].endMs <= s[k + 1].startMs
  }

  /** The cue-list invariants the builder establishes. */
  predicate WellFormedCues(s: seq<Segment>, audioMs: int) {
    CueTexts(s) && InAudio(s, audioMs) && Durations(s, audioMs) && Chained(s)
  }

  predicate SortedByStart(s: seq<Segment>) {
    forall k :: 0 <= k < |s| - 1 ==> s[k].startMs <= s[k + 1].startMs
  }

  /** The sweep keeps cues inside the audio and gives every cue that starts inside it a
      positive duration. */
  lemma {:induction false} SweepInAudio(s: seq<Segment>, lastEnd: int, audioMs: int)
    requires InAudio(s, audioMs)
    ensures InAudio(Sweep(s, lastEnd, audioMs), audioMs) && Durations(Sweep(s, lastEnd, audioMs), audioMs)
  {
    if s != [] {
      var r := Sweep(s, lastEnd, audioMs);
      SweepHead(s, lastEnd, audioMs);
      var rest := r[1..];
      assert InAudio(s[1..], audioMs);
      SweepInAudio(s[1..], r[0].endMs, audioMs);
      forall k | 1 <= k < |r|
        ensures 0 <= r[k].startMs && r[k].endMs <= audioMs
        ensures r[k].startMs < audioMs ==> r[k].startMs < r[k].endMs
      {
        assert r[k] == rest[k - 1];
      }
    }
  }

  /** One step of the sweep: the first cue is settled, the rest is swept from its end. */
  lemma SweepHead(s: seq<Segment>, lastEnd: int, audioMs: int)
    requires s != []
    ensures var st := if s[0].startMs < lastEnd then lastEnd else s[0].startMs;
      var ed := if s[0].endMs <= st then Min(st + MinCueMs, audioMs) else s[0].endMs;
      var r := Sweep(s, lastEnd, audioMs);
      r[0] == Segment(st, ed, s[0].text) && r[1..] == Sweep(s[1..], ed, audioMs)
  {
  }

  /** On a start-sorted list inside the audio the sweep leaves starts non-decreasing and no
      cue overlapping the next; its first cue starts at the later of its own start and
      `lastEnd`. */
  lemma {:induction false} SweepChains(s: seq<Segment>, lastEnd: int, audioMs: int)
    requires InAudio(s, audioMs) && SortedByStart(s)
    requires lastEnd <= audioMs || lastEnd <= 0
    ensures var r := Sweep(s, lastEnd, audioMs);
      Chained(r) && (s != [] ==> r[0].startMs == if s[0].startMs < lastEnd then lastEnd else s[0].startMs)
  {
    if s != [] {
      var r := Sweep(s, lastEnd, audioMs);
      SweepHead(s, lastEnd, audioMs);
      var st := r[0].startMs;
      var ed := r[0].endMs;
      var rest := r[1..];
      assert rest == Sweep(s[1..], ed, audioMs);
      if |s| > 1 {
        assert InAudio(s[1..], audioMs) && SortedByStart(s[1..]);
        SweepChains(s[1..], ed, audioMs);
        assert rest[0].startMs >= ed && rest[0].startMs >= s[1].startMs;
        assert st <= rest[0].startMs;
        forall k | 0 <= k < |r| - 1
          ensures r[k].startMs <= r[k + 1].startMs && r[k].endMs <= r[k + 1].startMs
        {
          if k > 0 {
            assert r[k] == rest[k - 1] && r[k + 1] == rest[k];
          }
        }
      }
    }
  }

  lemma ExtendTailKeepsTiming(s: seq<Segment>, audioMs: int)
    requires InAudio(s, audioMs) && Durations(s, audioMs) && Chained(s)
    ensures var r := ExtendTail(s, audioMs);
      InAudio(r, audioMs) && Durations(r, audioMs) && Chained(r)
  {
    ExtendTailChanges(s, audioMs);
  }

  /** Texts invariant under any rearrangement keep the property that every text is a cue text. */
  lemma CueTextsPermuted(a: seq<Segment>, b: seq<Segment>)
    requires CueTexts(a) && multiset(Texts(b)) == multiset(Texts(a))
    ensures CueTexts(b)
  {
    forall k | 0 <= k < |b|
      ensures CueText(b[k].text)
    {
      assert Texts(b)[k] == b[k].text;
      assert b[k].text in multiset(Texts(a));
      var j :| 0 <= j < |a| && Texts(a)[j] == b[k].text;
    }
  }

  lemma InAudioPermuted(a: seq<Segment>, b: seq<Segment>, audioMs: int)
    requires InAudio(a, audioMs) && multiset(b) == multiset(a)
    ensures InAudio(b, audioMs)
  {
    forall k | 0 <= k < |b|
      ensures 0 <= b[k].startMs && b[k].endMs <= audioMs
    {
      assert b[k] in multiset(a);
      var j :| 0 <= j < |a| && a[j] == b[k];
    }
  }

  /** Every successful build yields a well-formed cue list. */
  lemma BuildSegmentsWellFormed(res: RecognizerOutput, audioMs: int)
    requires BuildSegments(res, audioMs).Success?
    ensures WellFormedCues(BuildSegments(res, audioMs).value, audioMs)
  {
    var admitted := Admitted(res.sentenceInfo.value, audioMs);
    AdmittedCues(res.sentenceInfo.value, audioMs);
    var sorted := SortByTime(admitted);
    SortByTimePermutes(admitted);
    SortByTimeTexts(admitted);
    InAudioPermuted(admitted, sorted, audioMs);
    CueTextsPermuted(admitted, sorted);
    var swept := Sweep(sorted, 0, audioMs);
    SortByTimeSorted(admitted);
    SweepInAudio(sorted, 0, audioMs);
    SweepChains(sorted, 0, audioMs);
    SweepTexts(sorted, 0, audioMs);
    CueTextsPermuted(sorted, swept);
    ExtendTailKeepsTiming(swept, audioMs);
    ExtendTailChanges(swept, audioMs);
    CueTextsPermuted(swept, ExtendTail(swept, audioMs));
  }

  /** The cues carry exactly the cleaned texts of the admitted records, in some order. */
  lemma BuildSegmentsTexts(res: RecognizerOutput, audioMs: int)
    requires BuildSegments(res, audioMs).Success?
    ensures multiset(Texts(BuildSegments(res, audioMs).value))
         == multiset(Texts(Admitted(res.sentenceInfo.value, audioMs)))
  {
    var admitted := Admitted(res.sentenceInfo.value, audioMs);
    var sorted := SortByTime(admitted);
    SortByTimeTexts(admitted);
    SweepTexts(sorted, 0, audioMs);
    ExtendTailChanges(Sweep(sorted, 0, audioMs), audioMs);
  }

  lemma CleanSentenceFixes(t: string)
    requires Normalized(t) && t != [] && !IsTrailing(t[|t| - 1])
    ensures CleanSentence(t) == t
  {
    NormTextFixesNormalized(t);
    StripPuncUnique(t, t);
  }

  function AsSeq(o: Option<Segment>): seq<Segment> {
    if o.Some? then [o.value] else []
  }

  lemma AdmittedPair(r1: SentenceRecord, r2: SentenceRecord, audioMs: int)
    ensures Admitted([r1, r2], audioMs) == AsSeq(Admit(r1, audioMs)) + AsSeq(Admit(r2, audioMs))
  {
    assert [r1, r2][..1] == [r1];
    assert [r1][..0] == [];
  }

  lemma SortPair(a: Segment, b: Segment)
    requires KeyLe(a, b)
    ensures SortByTime([a, b]) == [a, b]
  {
    assert [a, b][..1] == [a];
    assert SortByTime([a]) == [a];
    assert [a][1..] == [];
    assert Insert(b, [a]) == [a] + Insert(b, []);
  }

  lemma SweepPair(a: Segment, b: Segment, audioMs: int)
    requires 0 <= a.startMs < a.endMs && a.endMs <= b.startMs < b.endMs
    ensures Sweep([a, b], 0, audioMs) == [a, b]
  {
    assert [a, b][1..] == [b];
    assert Sweep([b], a.endMs, audioMs) == [b];
  }

  /** A dict record whose text cleans to `text`, with both times present. */
  lemma AdmitSentence(t: string, st: int, ed: int, audioMs: int, text: string)
    requires CleanSentence(t) == text && text != []
    ensures var ed1 := if ed <= st then st + MinCueMs else ed;
      Admit(Sentence(Some(t), Some(st), Some(ed)), audioMs)
      == Some(Segment(if st < 0 then 0 else st, if ed1 > audioMs then audioMs else ed1, text))
  {
  }

  /** Building from two records that are both admitted, in key order. */
  lemma BuildPair(r1: SentenceRecord, r2: SentenceRecord, audioMs: int, a: Segment, b: Segment)
    requires Admit(r1, audioMs) == Some(a) && Admit(r2, audioMs) == Some(b) && KeyLe(a, b)
    ensures BuildSegments(Output(Some([r1, r2])), audioMs)
         == Success(ExtendTail(Sweep([a, b], 0, audioMs), audioMs))
  {
    AdmittedPair(r1, r2, audioMs);
    SortPair(a, b);
  }

  /** Two sentences within one second of audio; the gap after the last one is 100 ms, so it
      is not stretched, and the final mark of the first is removed. */
  lemma TwoSentenceExample()
    ensures BuildSegments(Output(Some([Sentence(Some("你好。"), Some(0), Some(500)),
                                       Sentence(Some("再见"), Some(500), Some(900))])), 1000)
         == Success([Segment(0, 500, "你好"), Segment(500, 900, "再见")])
  {
    var a, b := Segment(0, 500, "你好"), Segment(500, 900, "再见");
    AdmitNiHao();
    AdmitZaiJian();
    BuildPair(Sentence(Some("你好。"), Some(0), Some(500)), Sentence(Some("再见"), Some(500), Some(900)), 1000, a, b);
    SweepPair(a, b, 1000);
  }

  lemma AdmitNiHao()
    ensures Admit(Sentence(Some("你好。"), Some(0), Some(500)), 1000) == Some(Segment(0, 500, "你好"))
  {
    CleanNiHao();
    AdmitSentence("你好。", 0, 500, 1000, "你好");
  }

  lemma CleanNiHao()
    ensures CleanSentence("你好。") == "你好"
  {
    NormTextFixesNormalized("你好。");
    StripPuncExampleFullStop();
  }

  lemma AdmitZaiJian()
    ensures Admit(Sentence(Some("再见"), Some(500), Some(900)), 1000) == Some(Segment(500, 900, "再见"))
  {
    CleanSentenceFixes("再见");
    AdmitSentence("再见", 500, 900, 1000, "再见");
  }

  /** An overlap and a zero-length record: the second cue gets the 400 ms floor, is pushed to
      start where the first ends, and being last, 2100 ms before the audio end, is stretched
      to it. */
  lemma OverlapExample()
    ensures BuildSegments(Output(Some([Sentence(Some("A"), Some(0), Some(600)),
                                       Sentence(Some("B"), Some(500), Some(400))])), 3000)
         == Success([Segment(0, 600, "A"), Segment(600, 3000, "B")])
  {
    var a, b := Segment(0, 600, "A"), Segment(500, 900, "B");
    AdmitA();
    AdmitB();
    BuildPair(Sentence(Some("A"), Some(0), Some(600)), Sentence(Some("B"), Some(500), Some(400)), 3000, a, b);
    OverlapSweep(a, b);
    OverlapTail(a, Segment(600, 900, "B"));
  }

  lemma OverlapTail(a: Segment, c: Segment)
    requires c == Segment(600, 900, "B")
    ensures ExtendTail([a, c], 3000) == [a, Segment(600, 3000, "B")]
  {
    assert [a, c][..1] == [a];
  }

  lemma AdmitA()
    ensures Admit(Sentence(Some("A"), Some(0), Some(600)), 3000) == Some(Segment(0, 600, "A"))
  {
    CleanSentenceFixes("A");
    AdmitSentence("A", 0, 600, 3000, "A");
  }

  lemma AdmitB()
    ensures Admit(Sentence(Some("B"), Some(500), Some(400)), 3000) == Some(Segment(500, 900, "B"))
  {
    CleanSentenceFixes("B");
    AdmitSentence("B", 500, 400, 3000, "B");
  }

  lemma OverlapSweep(a: Segment, b: Segment)
    requires a == Segment(0, 600, "A") && b == Segment(500, 900, "B")
    ensures Sweep([a, b], 0, 3000) == [a, Segment(600, 900, "B")]
  {
    assert [a, b][1..] == [b];
    assert Sweep([b], 600, 3000) == [Segment(600, 900, "B")];
  }

  /** The first pass of `funasr_to_segments`. */
  method CollectSegments(sentences: seq<SentenceRecord>, audioMs: int) returns (segs: seq<Segment>)
    ensures segs == Admitted(sentences, audioMs)
  {
    segs := [];
    var i := 0;
    while i < |sentences|
      invariant 0 <= i <= |sentences|
      invariant segs == Admitted(sentences[..i], audioMs)
    {
      assert sentences[..i + 1][..i] == sentences[..i];
      var s := sentences[i];
      if s.NotADict? {
        i := i + 1;
        continue;
      }
      var text := StripTrailingPunc(NormText(s.text.GetOr("")));
      if text == [] {
        i := i + 1;
        continue;
      }
      var st := s.start.GetOr(0);
      var ed := s.end.GetOr(0);
      if ed <= st {
        ed := st + MinCueMs;
      }
      if st < 0 {
        st := 0;
      }
      if ed > audioMs {
        ed := audioMs;
      }
      assert Admit(s, audioMs) == Some(Segment(st, ed, text));
      segs := segs + [Segment(st, ed, text)];
      i := i + 1;
    }
    assert sentences[..i] == sentences;
  }

  /** The second pass of `funasr_to_segments`, over the sorted cues. */
  method SweepSegments(segs: seq<Segment>, audioMs: int) returns (fixed: seq<Segment>)
    ensures fixed == Sweep(segs, 0, audioMs)
  {
    fixed := [];
    var lastEnd := 0;
    var i := 0;
    while i < |segs|
      invariant 0 <= i <= |segs|
      invariant fixed + Sweep(segs[i..], lastEnd, audioMs) == Sweep(segs, 0, audioMs)
    {
      var seg := segs[i];
      if seg.startMs < lastEnd {
        seg := seg.(startMs := lastEnd);
      }
      if seg.endMs <= seg.startMs {
        seg := seg.(endMs := Min(seg.startMs + MinCueMs, audioMs));
      }
      SweepStep(segs, i, lastEnd, audioMs, seg);
      AppendAssoc(fixed, [seg], Sweep(segs[i + 1..], seg.endMs, audioMs));
      fixed := fixed + [seg];
      lastEnd := seg.endMs;
      i := i + 1;
    }
    assert fixed + [] == fixed;
  }

  lemma SweepStep(segs: seq<Segment>, i: nat, lastEnd: int, audioMs: int, seg: Segment)
    requires i < |segs|
    requires var st := if segs[i].startMs < lastEnd then lastEnd else segs[i].startMs;
      seg == Segment(st, if segs[i].endMs <= st then Min(st + MinCueMs, audioMs) else segs[i].endMs,
                     segs[i].text)
    ensures Sweep(segs[i..], lastEnd, audioMs) == [seg] + Sweep(segs[i + 1..], seg.endMs, audioMs)
  {
    assert segs[i..][1..] == segs[i + 1..];
  }

  /** main.py `funasr_to_segments`: the recogniser output and `round(duration * 1000)`. */
  method FunasrToSegments(res: RecognizerOutput, audioMs: int)
    returns (r: Result<seq<Segment>, BuildError>)
    ensures r == BuildSegments(res, audioMs)
    ensures r.Failure? <==>
      res.UnexpectedShape? || res.sentenceInfo.None? || res.sentenceInfo.value == []
    ensures r.Success? ==> WellFormedCues(r.value, audioMs)
  {
    if res.UnexpectedShape? {
      return Failure(UnexpectedFormat);
    }
    if res.sentenceInfo.None? || res.sentenceInfo.value == [] {
      return Failure(NoSentenceInfo);
    }
    var segs := CollectSegments(res.sentenceInfo.value, audioMs);
    segs := SortByTime(segs);
    var fixed := SweepSegments(segs, audioMs);
    if fixed != [] && audioMs - fixed[|fixed| - 1].endMs >= TailGapMs {
      fixed := fixed[..|fixed| - 1] + [fixed[|fixed| - 1].(endMs := audioMs)];
    }
    r := Success(fixed);
    BuildSegmentsWellFormed(res, audioMs);
  }

  /** The time-range line of a cue, `"start --> end"`. */
  function CueTiming(seg: Segment): string {
    SrtTime(seg.startMs) + " --> " + SrtTime(seg.endMs)
  }

  /** The four lines `write_srt` emits for cue number `n`. */
  function CueBlock(n: nat, seg: Segment): seq<string> {
    [NatToString(n), CueTiming(seg), seg.text, ""]
  }

  function CueBlocks(segs: seq<Segment>): (bs: seq<seq<string>>)
    ensures |bs| == |segs| && Quads(bs)
  {
    seq(|segs|, k requires 0 <= k < |segs| => CueBlock(k + 1, segs[k]))
  }

  /** The lines `write_srt` joins with "\n". */
  function SrtLines(segs: seq<Segment>): seq<string> {
    Concat(CueBlocks(segs))
  }

  /** Cue `k` (counted from 0) is written as lines `4k` to `4k + 3`: its number `k + 1`, its
      time range, its text and an empty line. */
  lemma SrtLinesLayout(segs: seq<Segment>, k: nat)
    requires k < |segs|
    ensures |SrtLines(segs)| == 4 * |segs|
    ensures SrtLines(segs)[4 * k..4 * k + 4] == CueBlock(k + 1, segs[k])
  {
    ConcatQuads(CueBlocks(segs), k);
  }

  /** main.py `write_srt` up to the file write: the lines, then the text it writes. */
  method WriteSrt(segs: seq<Segment>) returns (lines: seq<string>, content: string)
    ensures lines == SrtLines(segs)
    ensures content == Join(lines, "\n")
  {
    lines := [];
    var i := 0;
    while i < |segs|
      invariant 0 <= i <= |segs|
      invariant lines == Concat(CueBlocks(segs)[..i])
    {
      var seg := segs[i];
      ConcatStep(CueBlocks(segs), i);
      lines := lines + [NatToString(i + 1), CueTiming(seg), seg.text, ""];
      i := i + 1;
    }
    assert CueBlocks(segs)[..i] == CueBlocks(segs);
    content := Join(lines, "\n");
  }
}
