/**
  The SRT reader and writer of optimize.py: `parse_srt` turns file content into entries
  (number, timing line, text, text), `write_optimized_srt` writes entries back with their
  corrected text, and `build_prompt` lists the entries as "number. text" lines.
 */
module SrtCodec {
  import opened Wrappers
  import opened Strings

  /** One entry: its number line, its timing line, the text as read and the text to write. */
  datatype Subtitle = Subtitle(idx: string, timestamp: string, original: string, corrected: string)

  // ---------------------------------------------------------------------------------------
  // Splitting content into blocks
  // ---------------------------------------------------------------------------------------

  /** Two newlines in a row start at position `i`. */
  predicate BlankRunAt(s: string, i: int) {
    0 <= i && i + 1 < |s| && s[i] == '\n' && s[i + 1] == '\n'
  }

  predicate NoBlankRun(s: string) {
    forall i :: 0 <= i < |s| ==> !BlankRunAt(s, i)
  }

  /** `s` with all its leading newlines removed. */
  function DropNewlines(s: string): (r: string)
    ensures |r| <= |s| && r == s[|s| - |r|..]
    ensures r == [] || r[0] != '\n'
    ensures s != [] && s[0] == '\n' ==> |r| < |s|
  {
    if s != [] && s[0] == '\n' then DropNewlines(s[1..]) else s
  }

  /** Python `re.split(r'\n\n+', s)`: the pieces between the maximal runs of two or more
      newlines, scanning from the left. */
  function SplitBlankRuns(s: string): (r: seq<string>)
    ensures |r| >= 1
    decreases |s|
  {
    if s == [] then [""]
    else if BlankRunAt(s, 0) then [""] + SplitBlankRuns(DropNewlines(s))
    else
      var rest := SplitBlankRuns(s[1..]);
      [[s[0]] + rest[0]] + rest[1..]
  }

  /** No piece of the split holds two newlines in a row. */
  lemma {:induction false} SplitBlankRunsPieces(s: string)
    ensures forall k :: 0 <= k < |SplitBlankRuns(s)| ==> NoBlankRun(SplitBlankRuns(s)[k])
    decreases |s|
  {
    if s == [] {
    } else if BlankRunAt(s, 0) {
      SplitBlankRunsPieces(DropNewlines(s));
      var r := SplitBlankRuns(s);
      forall k | 0 <= k < |r|
        ensures NoBlankRun(r[k])
      {
        if k > 0 { assert r[k] == SplitBlankRuns(DropNewlines(s))[k - 1]; }
      }
    } else {
      SplitBlankRunsPieces(s[1..]);
      var rest := SplitBlankRuns(s[1..]);
      var r := SplitBlankRuns(s);
      assert r == [[s[0]] + rest[0]] + rest[1..];
      forall k | 0 <= k < |r|
        ensures NoBlankRun(r[k])
      {
        if k == 0 {
          var p := [s[0]] + rest[0];
          assert NoBlankRun(rest[0]);
          forall i | 0 <= i < |p|
            ensures !BlankRunAt(p, i)
          {
            if i == 0 && |p| > 1 {
              // `s` does not start with a blank run, and `rest[0]` is a prefix of `s[1..]`.
              assert p[1] == rest[0][0];
              SplitBlankRunsHead(s[1..]);
              assert rest[0][0] == s[1];
            } else if i > 0 {
              assert !BlankRunAt(rest[0], i - 1);
            }
          }
        } else {
          assert r[k] == rest[k];
        }
      }
    }
  }

  /** The first piece is a prefix of the split string. */
  lemma {:induction false} SplitBlankRunsHead(s: string)
    ensures |SplitBlankRuns(s)[0]| <= |s|
    ensures SplitBlankRuns(s)[0] == s[..|SplitBlankRuns(s)[0]|]
    decreases |s|
  {
    if s != [] && !BlankRunAt(s, 0) {
      SplitBlankRunsHead(s[1..]);
    }
  }

  /** A piece without a blank run, and not ending in a newline, followed by exactly one
      blank separator, is split off as it is. */
  lemma {:induction false} SplitBlankRunsCons(b: string, rest: string)
    requires NoBlankRun(b) && (b == [] || b[|b| - 1] != '\n')
    requires rest == [] || rest[0] != '\n'
    ensures SplitBlankRuns(b + "\n\n" + rest) == [b] + SplitBlankRuns(rest)
    decreases |b|
  {
    var s := b + "\n\n" + rest;
    if b == [] {
      assert s == "\n\n" + rest;
      assert BlankRunAt(s, 0);
      assert DropNewlines(s) == DropNewlines(s[1..]);
      assert s[1..][1..] == rest;
      assert DropNewlines(s[1..]) == DropNewlines(rest);
    } else {
      assert !BlankRunAt(b, 0);
      assert !BlankRunAt(s, 0) by {
        if |b| == 1 { assert s[0] == b[0]; } else { assert s[1] == b[1]; }
      }
      var t := b[1..];
      assert NoBlankRun(t) by {
        forall i | 0 <= i < |t| ensures !BlankRunAt(t, i) { assert !BlankRunAt(b, i + 1); }
      }
      SplitBlankRunsCons(t, rest);
      assert s[1..] == t + "\n\n" + rest;
      assert [b[0]] + t == b;
    }
  }

  /** A string without a blank run is a single piece. */
  lemma {:induction false} SplitBlankRunsSingle(b: string)
    requires NoBlankRun(b)
    ensures SplitBlankRuns(b) == [b]
    decreases |b|
  {
    if b != [] {
      assert !BlankRunAt(b, 0);
      var t := b[1..];
      assert NoBlankRun(t) by {
        forall i | 0 <= i < |t| ensures !BlankRunAt(t, i) { assert !BlankRunAt(b, i + 1); }
      }
      SplitBlankRunsSingle(t);
      assert [b[0]] + t == b;
    }
  }

  /** A piece fit to stand between blank separators. */
  predicate Piece(b: string) {
    b != [] && NoBlankRun(b) && b[0] != '\n' && b[|b| - 1] != '\n'
  }

  /** Joining pieces with one blank line and splitting at blank runs gives the pieces back. */
  lemma {:induction false} SplitJoinBlankRuns(parts: seq<string>)
    requires |parts| >= 1
    requires forall k :: 0 <= k < |parts| ==> Piece(parts[k])
    ensures SplitBlankRuns(Join(parts, "\n\n")) == parts
    decreases |parts|
  {
    if |parts| == 1 {
      SplitBlankRunsSingle(parts[0]);
    } else {
      var tail := parts[1..];
      SplitJoinBlankRuns(tail);
      JoinHead(tail, "\n\n");
      SplitBlankRunsCons(parts[0], Join(tail, "\n\n"));
      assert [parts[0]] + tail == parts;
    }
  }

  /** A join whose first part is non-empty starts with that part's first character ... */
  lemma JoinHead(parts: seq<string>, sep: string)
    requires |parts| >= 1 && parts[0] != []
    ensures Join(parts, sep) != [] && Join(parts, sep)[0] == parts[0][0]
  {
  }

  /** ... and one whose last part is non-empty ends with that part's last character. */
  lemma {:induction false} JoinLast(parts: seq<string>, sep: string)
    requires |parts| >= 1 && parts[|parts| - 1] != []
    ensures var j := Join(parts, sep); j != [] && j[|j| - 1] == parts[|parts| - 1][|parts[|parts| - 1]| - 1]
    decreases |parts|
  {
    if |parts| > 1 {
      JoinLast(parts[1..], sep);
    }
  }

  /** Joining two non-empty lists puts one separator between their joins. */
  lemma {:induction false} JoinAppend(a: seq<string>, b: seq<string>, sep: string)
    requires |a| >= 1 && |b| >= 1
    ensures Join(a + b, sep) == Join(a, sep) + sep + Join(b, sep)
    decreases |a|
  {
    if |a| == 1 {
      assert (a + b)[1..] == b;
    } else {
      JoinAppend(a[1..], b, sep);
      assert (a + b)[1..] == a[1..] + b;
    }
  }

  // ---------------------------------------------------------------------------------------
  // parse_srt
  // ---------------------------------------------------------------------------------------

  /** One block: at least three lines after stripping, else nothing. The text is the lines
      from the third on, joined and stripped, stored twice. */
  function ParseBlock(block: string): Option<Subtitle> {
    var lines := SplitLines(Strip(block));
    if |lines| >= 3 then
      var text := Strip(Join(lines[2..], "\n"));
      Some(Subtitle(Strip(lines[0]), Strip(lines[1]), text, text))
    else None
  }

  /** An entry as the parser leaves it: every field stripped, number and timing on one line,
      and the text to write equal to the text read. */
  predicate Parsed(e: Subtitle) {
    NoEdgeSpace(e.idx) && NoEdgeSpace(e.timestamp) && NoEdgeSpace(e.original)
    && '\n' !in e.idx && '\n' !in e.timestamp && e.corrected == e.original
  }

  /** A block yields an entry exactly when it has at least three lines, and the entry is
      made of the first line, the second line and the rest. */
  lemma ParseBlockFields(block: string)
    ensures var lines := SplitLines(Strip(block));
      && (ParseBlock(block).Some? <==> |lines| >= 3)
      && (ParseBlock(block).Some? ==>
            var e := ParseBlock(block).value;
            Parsed(e) && e.idx == Strip(lines[0]) && e.timestamp == Strip(lines[1])
            && e.original == Strip(Join(lines[2..], "\n")))
  {
    var lines := SplitLines(Strip(block));
    if |lines| >= 3 {
      assert '\n' !in lines[0] && '\n' !in lines[1];
      StripSlice(lines[0]);
      StripSlice(lines[1]);
    }
  }

  /** A stripped string is a slice of the original, so it has no newline the original lacks. */
  lemma StripSlice(s: string)
    requires '\n' !in s
    ensures '\n' !in Strip(s)
  {
    var l := LStrip(s);
    assert forall c :: c in l ==> c in s;
    assert forall c :: c in RStrip(l) ==> c in l;
  }

  /** The values `f` gives for the elements of `xs`, in order, skipping those it rejects
      (a list built by a loop that appends only when a test passes). */
  function FilterMap<A, B>(f: A -> Option<B>, xs: seq<A>): (r: seq<B>)
    ensures |r| <= |xs|
  {
    if xs == [] then []
    else FilterMap(f, xs[..|xs| - 1]) + (if f(xs[|xs| - 1]).Some? then [f(xs[|xs| - 1]).value] else [])
  }

  lemma FilterMapStep<A, B>(f: A -> Option<B>, xs: seq<A>, i: nat)
    requires i < |xs|
    ensures FilterMap(f, xs[..i + 1])
      == FilterMap(f, xs[..i]) + (if f(xs[i]).Some? then [f(xs[i]).value] else [])
  {
    assert xs[..i + 1][..i] == xs[..i];
  }

  /** Filtering consecutive groups gives the results of one group after the other. */
  lemma {:induction false} FilterMapAppend<A, B>(f: A -> Option<B>, a: seq<A>, b: seq<A>)
    ensures FilterMap(f, a + b) == FilterMap(f, a) + FilterMap(f, b)
    decreases |b|
  {
    if b == [] {
      assert a + b == a;
    } else {
      var n := |b| - 1;
      FilterMapAppend(f, a, b[..n]);
      assert (a + b)[..|a + b| - 1] == a + b[..n];
      assert (a + b)[|a + b| - 1] == b[n];
    }
  }

  /** Every result is what `f` gives for some element. */
  lemma {:induction false} FilterMapFrom<A, B>(f: A -> Option<B>, xs: seq<A>)
    ensures forall k :: 0 <= k < |FilterMap(f, xs)| ==>
      exists j :: 0 <= j < |xs| && f(xs[j]) == Some(FilterMap(f, xs)[k])
    decreases |xs|
  {
    if xs != [] {
      var n := |xs| - 1;
      var p := FilterMap(f, xs[..n]);
      FilterMapFrom(f, xs[..n]);
      var r := FilterMap(f, xs);
      forall k | 0 <= k < |r|
        ensures exists j :: 0 <= j < |xs| && f(xs[j]) == Some(r[k])
      {
        if k < |p| {
          assert r[k] == p[k];
          var j :| 0 <= j < n && f(xs[..n][j]) == Some(p[k]);
          assert xs[..n][j] == xs[j];
          assert f(xs[j]) == Some(r[k]);
        } else {
          assert f(xs[n]) == Some(r[k]);
        }
      }
    } else {
      assert FilterMap(f, xs) == [];
    }
  }

  /** Mapping an always-accepting `f` keeps every element. */
  lemma {:induction false} FilterMapAll<A, B>(f: A -> Option<B>, xs: seq<A>, ys: seq<B>)
    requires |xs| == |ys|
    requires forall k :: 0 <= k < |xs| ==> f(xs[k]) == Some(ys[k])
    ensures FilterMap(f, xs) == ys
    decreases |xs|
  {
    if xs != [] {
      var n := |xs| - 1;
      FilterMapAll(f, xs[..n], ys[..n]);
      assert ys == ys[..n] + [ys[n]];
    }
  }

  /** The entries of a list of blocks, in the order of the blocks. */
  function ParsedBlocks(blocks: seq<string>): seq<Subtitle> {
    FilterMap(ParseBlock, blocks)
  }

  /** The entries of consecutive groups of blocks follow one another. */
  lemma ParsedBlocksAppend(a: seq<string>, b: seq<string>)
    ensures ParsedBlocks(a + b) == ParsedBlocks(a) + ParsedBlocks(b)
  {
    FilterMapAppend(ParseBlock, a, b);
  }

  /** Every entry the parser returns comes from some block and has the parsed form. */
  lemma ParsedBlocksFields(blocks: seq<string>)
    ensures forall k :: 0 <= k < |ParsedBlocks(blocks)| ==>
      Parsed(ParsedBlocks(blocks)[k])
      && exists j :: 0 <= j < |blocks| && ParseBlock(blocks[j]) == Some(ParsedBlocks(blocks)[k])
  {
    FilterMapFrom(ParseBlock, blocks);
    var r := ParsedBlocks(blocks);
    forall k | 0 <= k < |r|
      ensures Parsed(r[k])
    {
      var j :| 0 <= j < |blocks| && ParseBlock(blocks[j]) == Some(r[k]);
      ParseBlockFields(blocks[j]);
    }
  }

  /** `parse_srt` on the content of the file. */
  function ParseSrtContent(content: string): seq<Subtitle> {
    ParsedBlocks(SplitBlankRuns(Strip(content)))
  }

  /** optimize.py `parse_srt`, given the file content. */
  method ParseSrt(content: string) returns (subtitles: seq<Subtitle>)
    ensures subtitles == ParseSrtContent(content)
  {
    var blocks := SplitBlankRuns(Strip(content));
    subtitles := [];
    var i := 0;
    while i < |blocks|
      invariant 0 <= i <= |blocks|
      invariant subtitles == ParsedBlocks(blocks[..i])
    {
      FilterMapStep(ParseBlock, blocks, i);
      var lines := SplitLines(Strip(blocks[i]));
      if |lines| >= 3 {
        var index := Strip(lines[0]);
        var timestamp := Strip(lines[1]);
        var text := Strip(Join(lines[2..], "\n"));
        subtitles := subtitles + [Subtitle(index, timestamp, text, text)];
      }
      assert blocks[..i + 1][..i] == blocks[..i];
      i := i + 1;
    }
    assert blocks[..i] == blocks;
  }

  // ---------------------------------------------------------------------------------------
  // write_optimized_srt
  // ---------------------------------------------------------------------------------------

  /** The four lines written for an entry: number, timing, corrected text, blank. */
  function OptimizedBlock(e: Subtitle): seq<string> {
    [e.idx, e.timestamp, e.corrected, ""]
  }

  function OptimizedBlocks(subtitles: seq<Subtitle>): (bs: seq<seq<string>>)
    ensures |bs| == |subtitles| && Quads(bs)
  {
    seq(|subtitles|, k requires 0 <= k < |subtitles| => OptimizedBlock(subtitles[k]))
  }

  function OptimizedLines(subtitles: seq<Subtitle>): seq<string> {
    Concat(OptimizedBlocks(subtitles))
  }

  /** The file `write_optimized_srt` writes. */
  function OptimizedContent(subtitles: seq<Subtitle>): string {
    Join(OptimizedLines(subtitles), "\n")
  }

  /** Entry `k` occupies lines `4k` to `4k + 3`: number, timing, corrected text, blank;
      the original text is not written. */
  lemma OptimizedLinesLayout(subtitles: seq<Subtitle>, k: nat)
    requires k < |subtitles|
    ensures |OptimizedLines(subtitles)| == 4 * |subtitles|
    ensures OptimizedLines(subtitles)[4 * k..4 * k + 4]
      == [subtitles[k].idx, subtitles[k].timestamp, subtitles[k].corrected, ""]
  {
    ConcatQuads(OptimizedBlocks(subtitles), k);
  }

  /** optimize.py `write_optimized_srt`, returning the lines and the text written. */
  method WriteOptimizedSrt(subtitles: seq<Subtitle>) returns (lines: seq<string>, content: string)
    ensures lines == OptimizedLines(subtitles)
    ensures content == OptimizedContent(subtitles)
  {
    lines := [];
    var i := 0;
    while i < |subtitles|
      invariant 0 <= i <= |subtitles|
      invariant lines == Concat(OptimizedBlocks(subtitles)[..i])
    {
      var e := subtitles[i];
      ConcatStep(OptimizedBlocks(subtitles), i);
      lines := lines + [e.idx, e.timestamp, e.corrected, ""];
      i := i + 1;
    }
    assert OptimizedBlocks(subtitles)[..i] == OptimizedBlocks(subtitles);
    content := Join(lines, "\n");
  }

  // ---------------------------------------------------------------------------------------
  // Reading back what was written
  // ---------------------------------------------------------------------------------------

  /** A field that survives writing and reading: non-empty, stripped, on one line. */
  predicate OneLine(s: string) {
    s != [] && NoEdgeSpace(s) && '\n' !in s
  }

  predicate Writable(e: Subtitle) {
    OneLine(e.idx) && OneLine(e.timestamp) && OneLine(e.corrected)
  }

  /** What the parser makes of a written entry: the corrected text becomes both texts. */
  function Reread(e: Subtitle): Subtitle {
    Subtitle(e.idx, e.timestamp, e.corrected, e.corrected)
  }

  function Rereads(subtitles: seq<Subtitle>): (r: seq<Subtitle>)
    ensures |r| == |subtitles|
  {
    seq(|subtitles|, k requires 0 <= k < |subtitles| => Reread(subtitles[k]))
  }

  /** The three text lines of an entry, as one block. */
  function BlockText(e: Subtitle): string {
    Join([e.idx, e.timestamp, e.corrected], "\n")
  }

  function BlockTexts(subtitles: seq<Subtitle>): (r: seq<string>)
    ensures |r| == |subtitles|
  {
    seq(|subtitles|, k requires 0 <= k < |subtitles| => BlockText(subtitles[k]))
  }

  /** A written file is the blocks separated by one blank line, with a final newline. */
  lemma {:induction false} OptimizedContentBlocks(subtitles: seq<Subtitle>)
    requires |subtitles| >= 1
    ensures OptimizedContent(subtitles) == Join(BlockTexts(subtitles), "\n\n") + "\n"
    decreases |subtitles|
  {
    var n := |subtitles| - 1;
    var e := subtitles[n];
    var q := OptimizedBlock(e);
    JoinLines4(e.idx, e.timestamp, e.corrected, "");
    JoinLines3(e.idx, e.timestamp, e.corrected);
    var bs := OptimizedBlocks(subtitles);
    assert bs[..n] == OptimizedBlocks(subtitles[..n]);
    assert OptimizedLines(subtitles) == OptimizedLines(subtitles[..n]) + q;
    if n == 0 {
      assert OptimizedLines(subtitles[..n]) == [];
      assert OptimizedLines(subtitles) == q;
      assert BlockTexts(subtitles) == [BlockText(e)];
    } else {
      var pre := subtitles[..n];
      OptimizedContentBlocks(pre);
      var l := OptimizedLines(pre);
      ConcatQuads(OptimizedBlocks(pre), 0);
      JoinAppend(l, q, "\n");
      var ts := BlockTexts(pre);
      assert BlockTexts(subtitles) == ts + [BlockText(e)];
      JoinAppend(ts, [BlockText(e)], "\n\n");
      var jt := Join(ts, "\n\n");
      AppendAssoc(jt + "\n", "\n", BlockText(e) + "\n");
      AppendAssoc(jt, "\n", "\n" + (BlockText(e) + "\n"));
      AppendAssoc(jt + "\n\n", BlockText(e), "\n");
    }
  }

  /** A writable entry makes a block that reads back to it. */
  lemma WrittenBlock(e: Subtitle)
    requires Writable(e)
    ensures Piece(BlockText(e)) && NoEdgeSpace(BlockText(e))
    ensures ParseBlock(BlockText(e)) == Some(Reread(e))
  {
    var parts := [e.idx, e.timestamp, e.corrected];
    var b := BlockText(e);
    JoinLines3(e.idx, e.timestamp, e.corrected);
    NoNewlineNoRun(e.idx);
    NoNewlineNoRun(e.timestamp);
    NoNewlineNoRun(e.corrected);
    NoBlankRunJoin(e.timestamp, e.corrected);
    NoBlankRunJoin(e.idx, e.timestamp + "\n" + e.corrected);
    JoinHead(parts, "\n");
    JoinLast(parts, "\n");
    SplitJoinLines(parts);
    assert parts[2..] == [e.corrected];
  }

  lemma JoinLines3(a: string, b: string, c: string)
    ensures Join([a, b, c], "\n") == a + "\n" + (b + "\n" + c)
  {
    assert [a, b, c][1..] == [b, c];
    assert [b, c][1..] == [c];
    assert Join([c], "\n") == c;
    assert Join([b, c], "\n") == b + "\n" + c;
  }

  lemma JoinLines4(a: string, b: string, c: string, d: string)
    ensures Join([a, b, c, d], "\n") == Join([a, b, c], "\n") + "\n" + d
  {
    JoinAppend([a, b, c], [d], "\n");
    assert [a, b, c] + [d] == [a, b, c, d];
  }

  lemma NoNewlineNoRun(s: string)
    requires '\n' !in s
    ensures NoBlankRun(s)
  {
    forall i | 0 <= i < |s| ensures !BlankRunAt(s, i) { assert s[i] in s; }
  }

  /** Gluing two run-free strings with one newline creates no run, as long as neither side
      has a newline next to the glue. */
  lemma NoBlankRunJoin(a: string, b: string)
    requires NoBlankRun(a) && NoBlankRun(b)
    requires a != [] && a[|a| - 1] != '\n' && b != [] && b[0] != '\n'
    ensures NoBlankRun(a + "\n" + b)
  {
    var s := a + "\n" + b;
    forall i | 0 <= i < |s| ensures !BlankRunAt(s, i)
    {
      if i + 1 < |a| {
        assert !BlankRunAt(a, i);
      } else if i > |a| {
        assert !BlankRunAt(b, i - |a| - 1);
      }
    }
  }

  /** The entries of blocks, each of which reads back to its entry. */
  lemma ParsedWrittenBlocks(subtitles: seq<Subtitle>)
    requires forall k :: 0 <= k < |subtitles| ==> Writable(subtitles[k])
    ensures ParsedBlocks(BlockTexts(subtitles)) == Rereads(subtitles)
  {
    var bt := BlockTexts(subtitles);
    var rr := Rereads(subtitles);
    forall k | 0 <= k < |bt| ensures ParseBlock(bt[k]) == Some(rr[k]) {
      WrittenBlock(subtitles[k]);
    }
    FilterMapAll(ParseBlock, bt, rr);
  }

  /** Reading a written file gives back every entry, in order, with its corrected text as
      both texts, as long as number, timing and text are non-empty, stripped single lines. */
  lemma ParseWriteRoundTrip(subtitles: seq<Subtitle>)
    requires forall k :: 0 <= k < |subtitles| ==> Writable(subtitles[k])
    ensures ParseSrtContent(OptimizedContent(subtitles)) == Rereads(subtitles)
  {
    if subtitles == [] {
      assert OptimizedContent(subtitles) == "";
      assert ParseSrtContent("") == ParsedBlocks([""]);
      assert ParseBlock("") == None;
      FilterMapStep(ParseBlock, [""], 0);
      assert [""][..0] == [] && [""][..1] == [""];
    } else {
      var bt := BlockTexts(subtitles);
      forall k | 0 <= k < |bt| ensures Piece(bt[k]) && NoEdgeSpace(bt[k]) {
        WrittenBlock(subtitles[k]);
      }
      OptimizedContentBlocks(subtitles);
      var j := Join(bt, "\n\n");
      JoinHead(bt, "\n\n");
      JoinLast(bt, "\n\n");
      StripFinalNewline(j);
      SplitJoinBlankRuns(bt);
      ParsedWrittenBlocks(subtitles);
    }
  }

  /** Stripping a stripped non-empty string followed by a newline gives the string back. */
  lemma StripFinalNewline(j: string)
    requires j != [] && NoEdgeSpace(j)
    ensures Strip(j + "\n") == j
  {
    assert LStrip(j + "\n") == j + "\n";
    StripTrailingSpace(j, '\n');
  }

  // ---------------------------------------------------------------------------------------
  // The listing of build_prompt
  // ---------------------------------------------------------------------------------------

  /** The line `build_prompt` lists for an entry: its number, ". ", the text as read. */
  function ListingLine(e: Subtitle): string {
    e.idx + ". " + e.original
  }

  function ListingLines(subtitles: seq<Subtitle>): (r: seq<string>)
    ensures |r| == |subtitles|
  {
    seq(|subtitles|, k requires 0 <= k < |subtitles| => ListingLine(subtitles[k]))
  }

  /** The text `build_prompt` places into its template. */
  function Listing(subtitles: seq<Subtitle>): string {
    Join(ListingLines(subtitles), "\n")
  }

  /** When number and text are single lines, line `k` of the listing is entry `k`'s. */
  lemma ListingSplits(subtitles: seq<Subtitle>)
    requires |subtitles| >= 1
    requires forall k :: 0 <= k < |subtitles| ==>
      '\n' !in subtitles[k].idx && '\n' !in subtitles[k].original
    ensures SplitLines(Listing(subtitles)) == ListingLines(subtitles)
    ensures forall k :: 0 <= k < |subtitles| ==>
      SplitLines(Listing(subtitles))[k] == subtitles[k].idx + ". " + subtitles[k].original
  {
    var ls := ListingLines(subtitles);
    forall k | 0 <= k < |ls| ensures '\n' !in ls[k] {
      assert ls[k] == subtitles[k].idx + ". " + subtitles[k].original;
    }
    SplitJoinLines(ls);
  }
}
