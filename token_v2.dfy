/**
  The second prototype (archived/main_v2.py): subtitle segments cut straight from the
  recogniser's text and its per-character time entries. Spaces are skipped; a closing mark
  ends the pending sentence; every other character takes the next time entry while there is
  one; a sentence longer than twenty characters is cut without a mark.
 */
module TokenV2 {
  import opened Wrappers
  import opened Strings
  import opened Decimal
  import opened Timestamp
  import opened TokenTimes

  /** `punc_list`: the marks that close a sentence. */
  predicate IsMark(c: char) {
    c == '。' || c == '？' || c == '！' || c == '，' || c == '；' || c == '?' || c == '!' || c == ','
  }

  /** A character that takes a time entry: neither the space nor a mark. */
  predicate Ordinary(c: char) { c != ' ' && !IsMark(c) }

  predicate AllOrdinary(t: string) { forall i :: 0 <= i < |t| ==> Ordinary(t[i]) }

  /** A sentence is cut once it holds more than this many characters. */
  const MaxSentence: nat := 20

  /** The loop's variables (`segments`, `current_sentence`, `start_time`, `ts_idx`), the
      segments kept with their entry ranges, and `from`, the first entry of the pending
      sentence, which the model adds. */
  datatype State = State(done: seq<Emitted>, current: string, startTime: int, tsIdx: nat, from: nat)

  /** The index never passes the entries, and the pending sentence used one entry per
      character. */
  predicate Sane(st: State, ts: seq<Span>) {
    st.from <= st.tsIdx <= |ts| && |st.current| == st.tsIdx - st.from
  }

  const Initial: State := State([], "", -1, 0, 0)

  /** One turn of the loop over the characters of `raw_text`. */
  function Step(st: State, c: char, ts: seq<Span>): (r: State)
    requires Sane(st, ts)
    ensures Sane(r, ts)
  {
    if c == ' ' then st
    else if IsMark(c) then
      if st.current != [] then
        var cue := Cue(st.current + [c], st.startTime, if st.tsIdx > 0 then ts[st.tsIdx - 1].endMs else 0);
        State(st.done + [Emitted(cue, st.from, st.tsIdx)], "", -1, st.tsIdx, st.tsIdx)
      else st
    else if st.tsIdx < |ts| then
      var start := if st.startTime == -1 then ts[st.tsIdx].startMs else st.startTime;
      var sentence := st.current + [c];
      if |sentence| > MaxSentence then
        var cue := Cue(sentence, start, ts[st.tsIdx].endMs);
        State(st.done + [Emitted(cue, st.from, st.tsIdx + 1)], "", -1, st.tsIdx + 1, st.tsIdx + 1)
      else State(st.done, sentence, start, st.tsIdx + 1, st.from)
    else st
  }

  /** The loop run over `text`. */
  function Run(text: string, ts: seq<Span>): (r: State)
    ensures Sane(r, ts)
  {
    if text == [] then Initial else Step(Run(text[..|text| - 1], ts), text[|text| - 1], ts)
  }

  /** A pending sentence left over at the end becomes a segment ending with the last entry. */
  function Finish(st: State, ts: seq<Span>): seq<Emitted>
    requires Sane(st, ts)
  {
    if st.current != [] then
      st.done + [Emitted(Cue(st.current, st.startTime, ts[|ts| - 1].endMs), st.from, st.tsIdx)]
    else st.done
  }

  function Segmented(text: string, ts: seq<Span>): seq<Emitted> {
    Finish(Run(text, ts), ts)
  }

  /** The `segments` list built from `raw_text` and `timestamps`. */
  function Segments(text: string, ts: seq<Span>): seq<Cue> {
    CuesOf(Segmented(text, ts))
  }

  /** The segmentation loop of `generate_srt`. */
  method SegmentText(rawText: string, timestamps: seq<Span>) returns (segments: seq<Cue>)
    ensures segments == Segments(rawText, timestamps)
  {
    segments := [];
    var currentSentence := "";
    var startTime := -1;
    var tsIdx := 0;
    for i := 0 to |rawText|
      invariant var st := Run(rawText[..i], timestamps);
        segments == CuesOf(st.done) && currentSentence == st.current
        && startTime == st.startTime && tsIdx == st.tsIdx
    {
      var c := rawText[i];
      ghost var st := Run(rawText[..i], timestamps);
      RunPush(rawText, i, timestamps);
      if c == ' ' {
        continue;
      }
      if IsMark(c) {
        if currentSentence != [] {
          var cue := Cue(currentSentence + [c], startTime, if tsIdx > 0 then timestamps[tsIdx - 1].endMs else 0);
          CuesOfPush(st.done, Emitted(cue, st.from, tsIdx));
          segments := segments + [cue];
          currentSentence := "";
          startTime := -1;
        }
        continue;
      }
      if tsIdx < |timestamps| {
        if startTime == -1 {
          startTime := timestamps[tsIdx].startMs;
        }
        currentSentence := currentSentence + [c];
        if |currentSentence| > MaxSentence {
          var cue := Cue(currentSentence, startTime, timestamps[tsIdx].endMs);
          CuesOfPush(st.done, Emitted(cue, st.from, tsIdx + 1));
          segments := segments + [cue];
          currentSentence := "";
          startTime := -1;
        }
        tsIdx := tsIdx + 1;
      }
    }
    assert rawText[..|rawText|] == rawText;
    ghost var st := Run(rawText, timestamps);
    if currentSentence != [] {
      assert 0 < tsIdx <= |timestamps|;
      var cue := Cue(currentSentence, startTime, timestamps[|timestamps| - 1].endMs);
      CuesOfPush(st.done, Emitted(cue, st.from, tsIdx));
      segments := segments + [cue];
    }
  }

  lemma RunPush(text: string, i: nat, ts: seq<Span>)
    requires i < |text|
    ensures Run(text[..i + 1], ts) == Step(Run(text[..i], ts), text[i], ts)
  {
    assert text[..i + 1][..i] == text[..i];
  }

  // ---------------------------------------------------------------------------------------
  // What the loop keeps true
  // ---------------------------------------------------------------------------------------

  /** The characters that take time entries, in order. */
  function Timed(p: string): string { Filter(Ordinary, p) }

  /** A sentence closed by a mark: ordinary characters, then the mark. */
  predicate Closed(t: string) {
    2 <= |t| <= MaxSentence + 1 && IsMark(t[|t| - 1]) && AllOrdinary(t[..|t| - 1])
  }

  /** A sentence cut for length: one more ordinary character than the limit. */
  predicate Full(t: string) { |t| == MaxSentence + 1 && AllOrdinary(t) }

  /** What is left at the end: a non-empty run of ordinary characters within the limit. */
  predicate Rest(t: string) { 1 <= |t| <= MaxSentence && AllOrdinary(t) }

  /** A segment used the entries `lo` to `hi - 1`, one per ordinary character, and starts at
      the first start among them that is set. */
  predicate Stamped(e: Emitted, ts: seq<Span>) {
    e.lo < e.hi <= |ts| && e.cue.startMs == FirstStart(ts, e.lo, e.hi)
    && |Timed(e.cue.text)| == e.hi - e.lo
  }

  /** A segment cut inside the loop ends where its last entry ends. */
  predicate CutSentence(e: Emitted, ts: seq<Span>) {
    (Closed(e.cue.text) || Full(e.cue.text)) && Stamped(e, ts) && e.cue.endMs == ts[e.hi - 1].endMs
  }

  /** The entries taken so far are those of the first ordinary characters, and the segments
      and the pending sentence hold exactly those characters. */
  predicate Counted(st: State, p: string, ts: seq<Span>) {
    st.tsIdx == Min(|Timed(p)|, |ts|) && Timed(AllText(st.done)) + st.current == Timed(p)[..st.tsIdx]
  }

  /** The pending sentence is ordinary characters within the limit, starting at the first
      set start of its entries. */
  predicate Pending(st: State, ts: seq<Span>)
    requires Sane(st, ts)
  {
    AllOrdinary(st.current) && |st.current| <= MaxSentence
    && st.startTime == FirstStart(ts, st.from, st.tsIdx)
  }

  predicate AllCut(done: seq<Emitted>, ts: seq<Span>) {
    forall k :: 0 <= k < |done| ==> CutSentence(done[k], ts)
  }

  /** What holds after every turn of the loop over the prefix `p`. */
  predicate Inv(st: State, p: string, ts: seq<Span>) {
    Sane(st, ts) && Counted(st, p, ts) && Pending(st, ts) && Tiled(st.done, st.from) && AllCut(st.done, ts)
  }

  lemma AllCutPush(done: seq<Emitted>, e: Emitted, ts: seq<Span>)
    requires AllCut(done, ts) && CutSentence(e, ts)
    ensures AllCut(done + [e], ts)
  {
    var r := done + [e];
    forall k | 0 <= k < |r| ensures CutSentence(r[k], ts) {
      if k < |done| { assert r[k] == done[k]; }
    }
  }

  lemma TimedPush(p: string, c: char)
    ensures Timed(p + [c]) == Timed(p) + (if Ordinary(c) then [c] else [])
  {
    assert (p + [c])[..|p|] == p;
  }

  lemma TimedOfOrdinary(t: string)
    requires AllOrdinary(t)
    ensures Timed(t) == t
  {
    FilterAll(Ordinary, t);
  }

  lemma StepSkips(st: State, p: string, c: char, ts: seq<Span>)
    requires Inv(st, p, ts) && !Ordinary(c) && (c == ' ' || st.current == [])
    ensures Step(st, c, ts) == st && Inv(st, p + [c], ts)
  {
    TimedPush(p, c);
  }

  /** Moving a finished sentence `e` into the segments, with nothing pending afterwards,
      keeps the invariant. */
  lemma Pushed(done: seq<Emitted>, e: Emitted, q: string, ts: seq<Span>, n: nat)
    requires Tiled(done, e.lo) && e.hi == n && n <= |ts| && n == Min(|Timed(q)|, |ts|)
    requires AllCut(done, ts) && CutSentence(e, ts)
    requires Timed(AllText(done)) + Timed(e.cue.text) == Timed(q)[..n]
    ensures Inv(State(done + [e], "", -1, n, n), q, ts)
  {
    AllTextPush(done, e);
    FilterAppend(Ordinary, AllText(done), e.cue.text);
    TiledPush(done, e.lo, e);
    AllCutPush(done, e, ts);
  }

  lemma StepCloses(st: State, p: string, c: char, ts: seq<Span>)
    requires Inv(st, p, ts) && IsMark(c) && st.current != []
    ensures Inv(State(st.done + [Emitted(Cue(st.current + [c], st.startTime, ts[st.tsIdx - 1].endMs), st.from, st.tsIdx)],
                      "", -1, st.tsIdx, st.tsIdx), p + [c], ts)
  {
    var t := st.current + [c];
    var e := Emitted(Cue(t, st.startTime, ts[st.tsIdx - 1].endMs), st.from, st.tsIdx);
    ClosedSentence(st, c, ts, e);
    TimedPush(p, c);
    Pushed(st.done, e, p + [c], ts, st.tsIdx);
  }

  lemma ClosedSentence(st: State, c: char, ts: seq<Span>, e: Emitted)
    requires Sane(st, ts) && AllOrdinary(st.current) && |st.current| <= MaxSentence
    requires st.startTime == FirstStart(ts, st.from, st.tsIdx)
    requires IsMark(c) && st.current != []
    requires e == Emitted(Cue(st.current + [c], st.startTime, ts[st.tsIdx - 1].endMs), st.from, st.tsIdx)
    ensures CutSentence(e, ts) && Timed(e.cue.text) == st.current
  {
    var t := st.current + [c];
    assert t[..|t| - 1] == st.current;
    TimedPush(st.current, c);
    TimedOfOrdinary(st.current);
  }

  /** Taking the next entry for `c`: the entries and the characters move on together. */
  lemma TakeOne(st: State, p: string, c: char, ts: seq<Span>)
    requires Inv(st, p, ts) && Ordinary(c) && st.tsIdx < |ts|
    ensures st.tsIdx + 1 == Min(|Timed(p + [c])|, |ts|)
    ensures Timed(AllText(st.done)) + (st.current + [c]) == Timed(p + [c])[..st.tsIdx + 1]
    ensures AllOrdinary(st.current + [c])
  {
    TimedPush(p, c);
    assert Timed(p + [c])[..st.tsIdx + 1] == Timed(p)[..st.tsIdx] + [c];
    AppendAssoc(Timed(AllText(st.done)), st.current, [c]);
    var t := st.current + [c];
    assert forall i :: 0 <= i < |st.current| ==> t[i] == st.current[i];
  }

  /** The character that makes the sentence too long closes it. */
  lemma StepCuts(st: State, p: string, c: char, ts: seq<Span>)
    requires Inv(st, p, ts) && Ordinary(c) && st.tsIdx < |ts| && |st.current| + 1 > MaxSentence
    ensures var start := if st.startTime == -1 then ts[st.tsIdx].startMs else st.startTime;
      Inv(State(st.done + [Emitted(Cue(st.current + [c], start, ts[st.tsIdx].endMs), st.from, st.tsIdx + 1)],
                "", -1, st.tsIdx + 1, st.tsIdx + 1), p + [c], ts)
  {
    TakeOne(st, p, c, ts);
    FirstStartExtend(ts, st.from, st.tsIdx);
    var start := if st.startTime == -1 then ts[st.tsIdx].startMs else st.startTime;
    var t := st.current + [c];
    var e := Emitted(Cue(t, start, ts[st.tsIdx].endMs), st.from, st.tsIdx + 1);
    TimedOfOrdinary(t);
    assert Full(t) && CutSentence(e, ts);
    Pushed(st.done, e, p + [c], ts, st.tsIdx + 1);
  }

  /** The invariant for a state with a sentence still pending. */
  lemma PendingInv(done: seq<Emitted>, t: string, start: int, n: nat, from: nat, q: string, ts: seq<Span>)
    requires from <= n <= |ts| && |t| == n - from && n == Min(|Timed(q)|, |ts|)
    requires Timed(AllText(done)) + t == Timed(q)[..n]
    requires AllOrdinary(t) && |t| <= MaxSentence && start == FirstStart(ts, from, n)
    requires Tiled(done, from) && AllCut(done, ts)
    ensures Inv(State(done, t, start, n, from), q, ts)
  {
  }

  /** Any other character that takes an entry joins the pending sentence. */
  lemma StepExtends(st: State, p: string, c: char, ts: seq<Span>)
    requires Inv(st, p, ts) && Ordinary(c) && st.tsIdx < |ts| && |st.current| + 1 <= MaxSentence
    ensures var start := if st.startTime == -1 then ts[st.tsIdx].startMs else st.startTime;
      Inv(State(st.done, st.current + [c], start, st.tsIdx + 1, st.from), p + [c], ts)
  {
    TakeOne(st, p, c, ts);
    FirstStartExtend(ts, st.from, st.tsIdx);
    var start := if st.startTime == -1 then ts[st.tsIdx].startMs else st.startTime;
    PendingInv(st.done, st.current + [c], start, st.tsIdx + 1, st.from, p + [c], ts);
  }

  lemma StepDrops(st: State, p: string, c: char, ts: seq<Span>)
    requires Inv(st, p, ts) && Ordinary(c) && st.tsIdx == |ts|
    ensures Step(st, c, ts) == st && Inv(st, p + [c], ts)
  {
    TimedPush(p, c);
    assert Timed(p + [c])[..st.tsIdx] == Timed(p)[..st.tsIdx];
  }

  // What one turn computes, branch by branch.

  lemma StepClosesTo(st: State, c: char, ts: seq<Span>)
    requires Sane(st, ts) && IsMark(c) && st.current != []
    ensures Step(st, c, ts) == State(st.done + [Emitted(Cue(st.current + [c], st.startTime, ts[st.tsIdx - 1].endMs), st.from, st.tsIdx)],
                                     "", -1, st.tsIdx, st.tsIdx)
  {
  }

  lemma StepCutsTo(st: State, c: char, ts: seq<Span>)
    requires Sane(st, ts) && Ordinary(c) && st.tsIdx < |ts| && |st.current| + 1 > MaxSentence
    ensures var start := if st.startTime == -1 then ts[st.tsIdx].startMs else st.startTime;
      Step(st, c, ts) == State(st.done + [Emitted(Cue(st.current + [c], start, ts[st.tsIdx].endMs), st.from, st.tsIdx + 1)],
                               "", -1, st.tsIdx + 1, st.tsIdx + 1)
  {
  }

  lemma StepExtendsTo(st: State, c: char, ts: seq<Span>)
    requires Sane(st, ts) && Ordinary(c) && st.tsIdx < |ts| && |st.current| + 1 <= MaxSentence
    ensures var start := if st.startTime == -1 then ts[st.tsIdx].startMs else st.startTime;
      Step(st, c, ts) == State(st.done, st.current + [c], start, st.tsIdx + 1, st.from)
  {
  }

  lemma StepKeeps(st: State, p: string, c: char, ts: seq<Span>)
    requires Inv(st, p, ts)
    ensures Inv(Step(st, c, ts), p + [c], ts)
  {
    if !Ordinary(c) && (c == ' ' || st.current == []) {
      StepSkips(st, p, c, ts);
    } else if IsMark(c) {
      StepClosesTo(st, c, ts);
      StepCloses(st, p, c, ts);
    } else if st.tsIdx < |ts| && |st.current| + 1 > MaxSentence {
      StepCutsTo(st, c, ts);
      StepCuts(st, p, c, ts);
    } else if st.tsIdx < |ts| {
      StepExtendsTo(st, c, ts);
      StepExtends(st, p, c, ts);
    } else {
      StepDrops(st, p, c, ts);
    }
  }

  lemma {:induction false} RunKeeps(p: string, ts: seq<Span>)
    ensures Inv(Run(p, ts), p, ts)
    decreases |p|
  {
    if p == [] {
      assert Timed(p) == [];
    } else {
      var q := p[..|p| - 1];
      RunKeeps(q, ts);
      StepKeeps(Run(q, ts), q, p[|p| - 1], ts);
      ButLastAppend(p);
    }
  }

  // ---------------------------------------------------------------------------------------
  // Properties of the segments
  // ---------------------------------------------------------------------------------------

  /** Every segment is a sentence closed by its mark, a sentence cut at twenty-one characters,
      or, last of all, what was pending at the end; so none is empty and none is longer than
      twenty-one characters. Each used the entries `lo` to `hi - 1`, one per ordinary
      character, and the ranges follow one another from the first entry up to the number of
      entries taken, which is the number of ordinary characters or the number of entries,
      whichever is smaller. */
  lemma SegmentedShape(text: string, ts: seq<Span>)
    ensures var es := Segmented(text, ts);
      && Tiled(es, Min(|Timed(text)|, |ts|))
      && forall k :: 0 <= k < |es| ==>
           && 1 <= |es[k].cue.text| <= MaxSentence + 1
           && Stamped(es[k], ts)
           && (CutSentence(es[k], ts)
               || (k == |es| - 1 && Rest(es[k].cue.text) && es[k].cue.endMs == ts[|ts| - 1].endMs))
  {
    var st := Run(text, ts);
    RunKeeps(text, ts);
    if st.current != [] {
      var e := Emitted(Cue(st.current, st.startTime, ts[|ts| - 1].endMs), st.from, st.tsIdx);
      TimedOfOrdinary(st.current);
      TiledPush(st.done, st.from, e);
    }
  }

  /** Leaving out the marks, the segment texts spell the characters that took an entry: the
      ordinary characters of the text, in order, up to the last entry; the rest is dropped. */
  lemma SegmentedChars(text: string, ts: seq<Span>)
    ensures Timed(AllText(Segmented(text, ts))) == Timed(text)[..Min(|Timed(text)|, |ts|)]
  {
    var st := Run(text, ts);
    RunKeeps(text, ts);
    if st.current != [] {
      var e := Emitted(Cue(st.current, st.startTime, ts[|ts| - 1].endMs), st.from, st.tsIdx);
      AllTextPush(st.done, e);
      FilterAppend(Ordinary, AllText(st.done), st.current);
      TimedOfOrdinary(st.current);
    }
  }

  /** Segment `k` holds exactly the ordinary characters `lo` to `hi - 1`, the ones its
      entries belong to. */
  lemma SegmentedPieces(text: string, ts: seq<Span>)
    ensures var es := Segmented(text, ts); var x := Timed(text)[..Min(|Timed(text)|, |ts|)];
      forall k :: 0 <= k < |es| ==>
        es[k].lo <= es[k].hi <= |x| && Timed(es[k].cue.text) == x[es[k].lo..es[k].hi]
  {
    var es := Segmented(text, ts);
    SegmentedShape(text, ts);
    SegmentedChars(text, ts);
    TiledPieces(Ordinary, es, Min(|Timed(text)|, |ts|), Timed(text)[..Min(|Timed(text)|, |ts|)]);
  }

  /** The text the segments spell, read off `raw_text` alone: `out` so far, the number of
      ordinary characters kept since the last mark or cut, and the number of entries used. */
  datatype Spell = Spell(out: string, pending: nat, used: nat)

  /** One character: a space is skipped; a mark is kept when an ordinary character was kept
      since the last mark or cut; an ordinary character is kept while entries remain, and the
      twenty-first in a row is a cut. */
  function SpellStep(sp: Spell, c: char, n: nat): Spell {
    if c == ' ' then sp
    else if IsMark(c) then
      if sp.pending == 0 then sp else Spell(sp.out + [c], 0, sp.used)
    else if sp.used < n then
      if sp.pending + 1 > MaxSentence then Spell(sp.out + [c], 0, sp.used + 1)
      else Spell(sp.out + [c], sp.pending + 1, sp.used + 1)
    else sp
  }

  function Spelling(text: string, n: nat): Spell {
    if text == [] then Spell("", 0, 0) else SpellStep(Spelling(text[..|text| - 1], n), text[|text| - 1], n)
  }

  /** The characters of `text` that end up in some segment, for `n` time entries. */
  function Spelled(text: string, n: nat): string { Spelling(text, n).out }

  /** The loop's state and the spelling agree: the kept text is the segments followed by the
      pending sentence. */
  predicate Agrees(st: State, sp: Spell) {
    AllText(st.done) + st.current == sp.out && |st.current| == sp.pending && st.tsIdx == sp.used
  }

  lemma PushedText(done: seq<Emitted>, t: string, c: char, e: Emitted)
    requires e.cue.text == t + [c]
    ensures AllText(done + [e]) + "" == AllText(done) + t + [c]
  {
    AllTextPush(done, e);
    AppendAssoc(AllText(done), t, [c]);
  }

  lemma StepSpells(st: State, sp: Spell, c: char, ts: seq<Span>)
    requires Sane(st, ts) && Agrees(st, sp)
    ensures Agrees(Step(st, c, ts), SpellStep(sp, c, |ts|))
  {
    if c == ' ' {
    } else if IsMark(c) {
      if st.current != [] {
        StepClosesTo(st, c, ts);
        var r := Step(st, c, ts);
        PushedText(st.done, st.current, c, r.done[|r.done| - 1]);
        assert r.done == st.done + [r.done[|r.done| - 1]];
      }
    } else if st.tsIdx < |ts| {
      var r := Step(st, c, ts);
      if |st.current| + 1 > MaxSentence {
        StepCutsTo(st, c, ts);
        PushedText(st.done, st.current, c, r.done[|r.done| - 1]);
        assert r.done == st.done + [r.done[|r.done| - 1]];
      } else {
        StepExtendsTo(st, c, ts);
        AppendAssoc(AllText(st.done), st.current, [c]);
      }
    }
  }

  lemma {:induction false} RunSpells(text: string, ts: seq<Span>)
    ensures Agrees(Run(text, ts), Spelling(text, |ts|))
  {
    if text != [] {
      var p := text[..|text| - 1];
      RunSpells(p, ts);
      StepSpells(Run(p, ts), Spelling(p, |ts|), text[|text| - 1], ts);
    } else {
      assert AllText([]) + "" == "";
    }
  }

  /** The segment texts, one after the other, are exactly the characters the spelling keeps:
      the ordinary characters that found an entry, and each mark that follows an ordinary
      character kept since the previous mark or length cut. */
  lemma SegmentedSpelled(text: string, ts: seq<Span>)
    ensures AllText(Segmented(text, ts)) == Spelled(text, |ts|)
  {
    var st := Run(text, ts);
    RunSpells(text, ts);
    if st.current != [] {
      var e := Emitted(Cue(st.current, st.startTime, ts[|ts| - 1].endMs), st.from, st.tsIdx);
      AllTextPush(st.done, e);
    } else {
      assert AllText(st.done) + "" == AllText(st.done);
    }
  }

  /** When no entry starts at -1, every segment starts where the entry of its first
      character starts, so none has the unset start that the writer skips. */
  lemma SegmentStartsSet(text: string, ts: seq<Span>)
    requires forall j :: 0 <= j < |ts| ==> ts[j].startMs != -1
    ensures var es := Segmented(text, ts);
      forall k :: 0 <= k < |es| ==> es[k].lo < |ts| && es[k].cue.startMs == ts[es[k].lo].startMs != -1
  {
    var es := Segmented(text, ts);
    SegmentedShape(text, ts);
    forall k | 0 <= k < |es| ensures es[k].cue.startMs == ts[es[k].lo].startMs {
      FirstStartPlain(ts, es[k].lo, es[k].hi);
    }
  }

  // ---------------------------------------------------------------------------------------
  // Writing the file
  // ---------------------------------------------------------------------------------------

  /** What is written for segment number `n`: the number, the timing line, the stripped text
      and a blank line. */
  function CueLines(n: nat, cue: Cue): string {
    NatToString(n) + "\n"
    + (FormatTimestampTimedelta(cue.startMs) + " --> " + FormatTimestampTimedelta(cue.endMs) + "\n")
    + (Strip(cue.text) + "\n\n")
  }

  /** The file: segments keep their position as number, and one whose start is still -1 is
      skipped. */
  function Written(cues: seq<Cue>): string {
    if cues == [] then "" else
      var last := cues[|cues| - 1];
      Written(cues[..|cues| - 1]) + (if last.startMs == -1 then "" else CueLines(|cues|, last))
  }

  /** Every segment, numbered from 1, with nothing skipped. */
  function AllCueLines(cues: seq<Cue>): string {
    if cues == [] then "" else AllCueLines(cues[..|cues| - 1]) + CueLines(|cues|, cues[|cues| - 1])
  }

  /** A skipped segment leaves no trace; without unset starts the file holds every segment. */
  lemma {:induction false} WrittenAll(cues: seq<Cue>)
    requires forall k :: 0 <= k < |cues| ==> cues[k].startMs != -1
    ensures Written(cues) == AllCueLines(cues)
    decreases |cues|
  {
    if cues != [] {
      WrittenAll(cues[..|cues| - 1]);
    }
  }

  /** The writing loop of `generate_srt`. */
  method WriteSegments(segments: seq<Cue>) returns (content: string)
    ensures content == Written(segments)
  {
    content := "";
    for i := 0 to |segments|
      invariant content == Written(segments[..i])
    {
      WrittenStep(segments, i);
      var seg := segments[i];
      if seg.startMs == -1 {
        continue;
      }
      var number := NatToString(i + 1) + "\n";
      var timing := FormatTimestampTimedelta(seg.startMs) + " --> " + FormatTimestampTimedelta(seg.endMs) + "\n";
      var text := Strip(seg.text) + "\n\n";
      AppendAssoc(content, number, timing);
      AppendAssoc(content, number + timing, text);
      content := content + number;
      content := content + timing;
      content := content + text;
    }
    assert segments[..|segments|] == segments;
  }

  lemma WrittenStep(segments: seq<Cue>, i: nat)
    requires i < |segments|
    ensures Written(segments[..i + 1]) == Written(segments[..i])
      + (if segments[i].startMs == -1 then "" else CueLines(i + 1, segments[i]))
  {
    assert segments[..i + 1][..i] == segments[..i];
  }

  /** `generate_srt` after recognition: printing `res[0].keys()` fails when there is no
      result; nothing is written when the result has no `timestamp`; reading its `text` then
      fails when it lacks that key; otherwise the file holds the segments of the text. */
  method GenerateSrt(res: seq<TokenResult>) returns (written: Result<Option<string>, Crash>)
    ensures res == [] <==> written == Failure(IndexError)
    ensures res != [] && res[0].timestamp.None? <==> written == Success(None)
    ensures res != [] && res[0].timestamp.Some? && res[0].text.None? <==> written == Failure(KeyError)
    ensures res != [] && res[0].timestamp.Some? && res[0].text.Some? ==>
      written == Success(Some(Written(Segments(res[0].text.value, res[0].timestamp.value))))
  {
    if res == [] {
      return Failure(IndexError);
    }
    if res[0].timestamp.None? {
      return Success(None);
    }
    if res[0].text.None? {
      return Failure(KeyError);
    }
    var segments := SegmentText(res[0].text.value, res[0].timestamp.value);
    var content := WriteSegments(segments);
    return Success(Some(content));
  }

  /** Recognised times are never -1, and then every segment is written, numbered from 1. */
  lemma GeneratedWritesAll(text: string, ts: seq<Span>)
    requires forall j :: 0 <= j < |ts| ==> ts[j].startMs != -1
    ensures Written(Segments(text, ts)) == AllCueLines(Segments(text, ts))
  {
    SegmentStartsSet(text, ts);
    WrittenAll(Segments(text, ts));
  }
}
