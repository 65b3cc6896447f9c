/**
  The fourth prototype (archived/main_v4.py): one subtitle block per sentence of the
  recogniser's `sentence_info`, numbered from 1, timed by the sentence's own timestamp and
  written with `clean_text` applied to its text.
 */
module SentenceV4 {
  import opened Wrappers
  import opened Strings
  import opened Decimal
  import opened Timestamp
  import opened Normalize
  import opened TokenTimes

  /** A sentence's `timestamp`: a list of `[start, end]` pairs, or a flat list of numbers. */
  datatype SentenceStamp = Nested(pairs: seq<Span>) | Flat(values: seq<int>)

  /** One entry of `sentence_info`: its `text` and its `timestamp`, each `None` when the
      dict lacks that key. */
  datatype SentenceInfo = SentenceInfo(text: Option<string>, timestamp: Option<SentenceStamp>)

  /** One recogniser result: its `sentence_info`, when the key is present. */
  datatype SentenceResult = SentenceResult(sentenceInfo: Option<seq<SentenceInfo>>)

  /** What the run leaves behind: no file when there is no result, the whole file, or the
      blocks written before a sentence could not be read. */
  datatype Outcome = NoFile | File(content: string) | Crashed(partial: string)

  /** The sentence's start and end: the start of the first pair and the end of the last one,
      or the first two numbers; `None` where the source reads past the end of the list. */
  function Bounds(ts: SentenceStamp): (r: Option<Span>)
    ensures r.None? <==> (ts.Nested? && ts.pairs == []) || (ts.Flat? && |ts.values| < 2)
  {
    match ts
    case Nested(pairs) => if pairs == [] then None else Some(Span(pairs[0].startMs, pairs[|pairs| - 1].endMs))
    case Flat(values) => if |values| < 2 then None else Some(Span(values[0], values[1]))
  }

  /** The block written for the sentence at position `i`, numbered `i + 1`. */
  function Block(i: nat, text: string, span: Span): string {
    NatToString(i + 1) + "\n"
    + (FormatTimestampDivmod(span.startMs) + " --> " + FormatTimestampDivmod(span.endMs) + "\n")
    + (CleanText(text) + "\n\n")
  }

  /** What the loop reads of a sentence, in the order it reads it: `seg['timestamp']`, its
      bounds, then `seg['text']`; `None` where one of these raises before the block is
      written. */
  function Fields(seg: SentenceInfo): (r: Option<(Span, string)>)
    ensures r.None? <==> seg.timestamp.None? || Bounds(seg.timestamp.value).None? || seg.text.None?
    ensures r.Some? ==> r.value == (Bounds(seg.timestamp.value).value, seg.text.value)
  {
    if seg.timestamp.None? then None
    else
      var b := Bounds(seg.timestamp.value);
      if b.None? || seg.text.None? then None else Some((b.value, seg.text.value))
  }

  /** Every sentence can be read. */
  predicate Readable(info: seq<SentenceInfo>) {
    forall k :: 0 <= k < |info| ==> Fields(info[k]).Some?
  }

  /** The text written for `info`, and whether every sentence was written. */
  function Render(info: seq<SentenceInfo>): (string, bool) {
    if info == [] then ("", true)
    else
      var (content, ok) := Render(info[..|info| - 1]);
      var f := Fields(info[|info| - 1]);
      if !ok || f.None? then (content, false)
      else (content + Block(|info| - 1, f.value.1, f.value.0), true)
  }

  lemma RenderPush(info: seq<SentenceInfo>, i: nat)
    requires i < |info|
    ensures var (content, ok) := Render(info[..i]);
      var f := Fields(info[i]);
      Render(info[..i + 1]) == if !ok || f.None? then (content, false) else (content + Block(i, f.value.1, f.value.0), true)
  {
    assert info[..i + 1][..i] == info[..i];
  }

  /** Once a sentence cannot be read, nothing more is written. */
  lemma {:induction false} RenderStops(info: seq<SentenceInfo>, i: nat)
    requires i <= |info| && !Render(info[..i]).1
    ensures Render(info) == Render(info[..i])
    decreases |info| - i
  {
    if i < |info| {
      RenderPush(info, i);
      RenderStops(info, i + 1);
    } else {
      assert info[..i] == info;
    }
  }

  /** The writing loop of `main`. */
  method WriteSentences(info: seq<SentenceInfo>) returns (content: string, ok: bool)
    ensures (content, ok) == Render(info)
  {
    content := "";
    for i := 0 to |info|
      invariant Render(info[..i]) == (content, true)
    {
      RenderPush(info, i);
      var seg := info[i];
      if seg.timestamp.None? {
        RenderStops(info, i + 1);
        return content, false;
      }
      var startEnd := Bounds(seg.timestamp.value);
      if startEnd.None? {
        RenderStops(info, i + 1);
        return content, false;
      }
      var startStr := FormatTimestampDivmod(startEnd.value.startMs);
      var endStr := FormatTimestampDivmod(startEnd.value.endMs);
      if seg.text.None? {
        RenderStops(info, i + 1);
        return content, false;
      }
      var text := CleanText(seg.text.value);
      var number := NatToString(i + 1) + "\n";
      var timing := startStr + " --> " + endStr + "\n";
      var body := text + "\n\n";
      AppendAssoc(content, number, timing);
      AppendAssoc(content, number + timing, body);
      content := content + number;
      content := content + timing;
      content := content + body;
    }
    assert info[..|info|] == info;
    return content, true;
  }

  /** `main` after recognition: no result means no file; otherwise the file is opened and
      the sentences of the first result (none when the key is missing) are written. */
  method WriteSrt(res: seq<SentenceResult>) returns (out: Outcome)
    ensures res == [] <==> out.NoFile?
    ensures res != [] ==> var r := Render(res[0].sentenceInfo.GetOr([]));
      out == if r.1 then File(r.0) else Crashed(r.0)
  {
    if res == [] {
      return NoFile;
    }
    var sentenceInfo := res[0].sentenceInfo.GetOr([]);
    var content, ok := WriteSentences(sentenceInfo);
    if ok {
      return File(content);
    }
    return Crashed(content);
  }

  // ---------------------------------------------------------------------------------------
  // Properties of the file
  // ---------------------------------------------------------------------------------------

  /** The blocks of the sentences, each numbered by its position. */
  function Blocks(info: seq<SentenceInfo>): (r: seq<string>)
    requires Readable(info)
    ensures |r| == |info|
  {
    seq(|info|, k requires 0 <= k < |info| => Block(k, Fields(info[k]).value.1, Fields(info[k]).value.0))
  }

  lemma ReadablePrefix(info: seq<SentenceInfo>, n: nat)
    requires n <= |info| && Readable(info)
    ensures Readable(info[..n])
  {
    forall k | 0 <= k < n ensures Fields(info[..n][k]).Some? {
      assert info[..n][k] == info[k];
    }
  }

  lemma BlocksPrefix(info: seq<SentenceInfo>, n: nat)
    requires n <= |info| && Readable(info)
    ensures Readable(info[..n]) && Blocks(info[..n]) == Blocks(info)[..n]
  {
    ReadablePrefix(info, n);
    var a := Blocks(info[..n]);
    var b := Blocks(info)[..n];
    forall k | 0 <= k < n ensures a[k] == b[k] {
      assert info[..n][k] == info[k];
    }
  }

  /** When every timestamp can be read, the file is block 1, block 2, ... for the sentences in
      order, none skipped. */
  lemma {:induction false} RenderAll(info: seq<SentenceInfo>)
    requires Readable(info)
    ensures Render(info) == (Concat(Blocks(info)), true)
    decreases |info|
  {
    if info != [] {
      var n := |info| - 1;
      BlocksPrefix(info, n);
      RenderAll(info[..n]);
      RenderPush(info, n);
      ConcatStep(Blocks(info), n);
      TakeAll(info);
      TakeAll(Blocks(info));
    }
  }

  /** A sentence that cannot be read stops the run: the output is the blocks of the
      sentences before the first such one. */
  lemma RenderCrash(info: seq<SentenceInfo>, i: nat)
    requires i < |info| && Readable(info[..i]) && Fields(info[i]).None?
    ensures Render(info) == (Concat(Blocks(info[..i])), false)
  {
    RenderAll(info[..i]);
    RenderPush(info, i);
    RenderStops(info, i + 1);
  }

  /** The run fails exactly when some sentence cannot be read. */
  lemma RenderOk(info: seq<SentenceInfo>)
    ensures Render(info).1 <==> Readable(info)
  {
    if Readable(info) {
      RenderAll(info);
    } else {
      var k :| 0 <= k < |info| && Fields(info[k]).None?;
      RenderPush(info, k);
      RenderStops(info, k + 1);
    }
  }

  /** An empty or missing `sentence_info` gives an empty file. */
  lemma NoSentencesEmptyFile(r: SentenceResult)
    requires r.sentenceInfo.None? || r.sentenceInfo == Some([])
    ensures Render(r.sentenceInfo.GetOr([])) == ("", true)
  {
  }

  /** The times of a block: nested pairs give the first start and the last end. */
  lemma NestedBounds(pairs: seq<Span>)
    requires pairs != []
    ensures Bounds(Nested(pairs)) == Some(Span(pairs[0].startMs, pairs[|pairs| - 1].endMs))
  {
  }

  /** A flat list gives its first two numbers, whatever follows. */
  lemma FlatBounds(values: seq<int>, rest: seq<int>)
    requires |values| == 2
    ensures Bounds(Flat(values + rest)) == Some(Span(values[0], values[1]))
  {
  }
}
