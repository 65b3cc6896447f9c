/**
  The two tools together: the file main.py's `write_srt` produces is read by optimize.py's
  `parse_srt` into exactly the cues it was written from, and writing it back without
  corrections reproduces it character for character.
 */
module Pipeline {
  import opened Strings
  import opened Decimal
  import opened Timestamp
  import opened Normalize
  import opened SentenceSegments
  import opened SrtCodec
  import opened Corrections

  /** The entries of a cue list as optimize.py sees them: cue `k` is entry number `k + 1`
      with its timing line and its text, read and to write. */
  function CueEntries(segs: seq<Segment>): (r: seq<Subtitle>)
    ensures |r| == |segs|
  {
    seq(|segs|, k requires 0 <= k < |segs| =>
      Subtitle(NatToString(k + 1), CueTiming(segs[k]), segs[k].text, segs[k].text))
  }

  /** Both writers lay out an entry the same way. */
  lemma SrtLinesAsEntries(segs: seq<Segment>)
    ensures SrtLines(segs) == OptimizedLines(CueEntries(segs))
  {
    assert CueBlocks(segs) == OptimizedBlocks(CueEntries(segs));
  }

  /** A timestamp is made of digits, colons and a comma: no whitespace at all. */
  lemma SrtTimeHasNoSpace(ms: int)
    ensures var s := SrtTime(ms); s != [] && forall i :: 0 <= i < |s| ==> !IsSpace(s[i])
  {
    SrtTimeShaped(ms);
    ShapeHasNoSpace(SrtTime(ms));
  }

  lemma ShapeHasNoSpace(s: string)
    requires SrtTimeShape(s)
    ensures s != [] && forall i :: 0 <= i < |s| ==> !IsSpace(s[i])
  {
    var n := |s|;
    forall i | 0 <= i < n ensures !IsSpace(s[i]) {
      if i < n - 10 {
        assert s[..n - 10][i] == s[i];
      } else if n - 10 < i < n - 7 {
        assert s[n - 9..n - 7][i - (n - 9)] == s[i];
      } else if n - 7 < i < n - 4 {
        assert s[n - 6..n - 4][i - (n - 6)] == s[i];
      } else if n - 4 < i {
        assert s[n - 3..][i - (n - 3)] == s[i];
      }
    }
  }

  lemma CueTimingOneLine(seg: Segment)
    ensures OneLine(CueTiming(seg))
  {
    var a := SrtTime(seg.startMs);
    var b := SrtTime(seg.endMs);
    SrtTimeHasNoSpace(seg.startMs);
    SrtTimeHasNoSpace(seg.endMs);
    var t := CueTiming(seg);
    assert t == a + " --> " + b;
    assert t[0] == a[0] && t[|t| - 1] == b[|b| - 1];
    forall i | 0 <= i < |t| ensures t[i] != '\n' {
      if i < |a| { assert t[i] == a[i]; }
      else if i >= |a| + 5 { assert t[i] == b[i - |a| - 5]; }
    }
  }

  lemma NumberOneLine(n: nat)
    ensures OneLine(NatToString(n))
  {
    NatToStringDigits(n);
    var s := NatToString(n);
    assert forall i :: 0 <= i < |s| ==> IsDigit(s[i]);
  }

  lemma CueEntriesWritable(segs: seq<Segment>)
    requires CueTexts(segs)
    ensures forall k :: 0 <= k < |segs| ==> Writable(CueEntries(segs)[k])
  {
    forall k | 0 <= k < |segs| ensures Writable(CueEntries(segs)[k]) {
      NumberOneLine(k + 1);
      CueTimingOneLine(segs[k]);
      assert CueText(segs[k].text);
      NormalizedHasNoNewline(segs[k].text);
    }
  }

  /** The content `write_srt` produces for cues with proper texts is parsed back into one
      entry per cue, numbered from 1, with its timing line and its text. */
  lemma SrtReadBack(segs: seq<Segment>)
    requires CueTexts(segs)
    ensures ParseSrtContent(Join(SrtLines(segs), "\n")) == CueEntries(segs)
  {
    SrtLinesAsEntries(segs);
    CueEntriesWritable(segs);
    ParseWriteRoundTrip(CueEntries(segs));
    assert Rereads(CueEntries(segs)) == CueEntries(segs);
  }

  /** Parsing main.py's file, applying no corrections and writing the result gives back the
      same file. */
  lemma UncorrectedRewriteIdentical(segs: seq<Segment>)
    requires CueTexts(segs)
    ensures var content := Join(SrtLines(segs), "\n");
      OptimizedContent(Corrected(ParseSrtContent(content), [])) == content
  {
    SrtReadBack(segs);
    var es := CueEntries(segs);
    assert Corrected(es, []) == es;
    SrtLinesAsEntries(segs);
  }

  /** Every successful run of `funasr_to_segments` yields cues whose file reads back. */
  lemma BuiltSegmentsReadBack(res: RecognizerOutput, audioMs: int)
    requires BuildSegments(res, audioMs).Success?
    ensures var segs := BuildSegments(res, audioMs).value;
      ParseSrtContent(Join(SrtLines(segs), "\n")) == CueEntries(segs)
  {
    BuildSegmentsWellFormed(res, audioMs);
    SrtReadBack(BuildSegments(res, audioMs).value);
  }
}
