/**
  Text clean-up applied to recognised sentences: main.py's `norm_text` (trim, then one space
  per whitespace run) and `strip_trailing_punc` (peel sentence-final punctuation off the end),
  and `clean_text` of the fourth prototype (trim, then drop at most one final mark).
 */
module Normalize {
  import opened Strings

  /** No whitespace character other than ' ', and never two whitespace characters in a row. */
  predicate SingleSpaced(s: string) {
    && (forall i :: 0 <= i < |s| && IsSpace(s[i]) ==> s[i] == ' ')
    && (forall i :: 0 <= i < |s| - 1 && IsSpace(s[i]) ==> !IsSpace(s[i + 1]))
  }

  /** What `norm_text` promises of its result. */
  predicate Normalized(s: string) {
    NoEdgeSpace(s) && SingleSpaced(s)
  }

  /** `re.sub(r"\s+", " ", s)`: every maximal whitespace run becomes a single space. */
  function CollapseSpaces(s: string): (r: string)
    ensures SingleSpaced(r)
    ensures r == [] <==> s == []
    ensures r != [] ==> (IsSpace(r[0]) <==> IsSpace(s[0]))
    ensures r != [] ==> (IsSpace(r[|r| - 1]) <==> IsSpace(s[|s| - 1]))
    decreases |s|
  {
    if s == [] then []
    else if IsSpace(s[0]) then
      " " + CollapseSpaces(LStrip(s))
    else [s[0]] + CollapseSpaces(s[1..])
  }

  /** main.py `norm_text` (a missing text is the empty string). */
  function NormText(s: string): (r: string)
    ensures Normalized(r)
  {
    CollapseSpaces(Strip(s))
  }

  /** Collapsing leaves a single-spaced string as it is. */
  lemma {:induction false} CollapseSingleSpaced(s: string)
    requires SingleSpaced(s)
    ensures CollapseSpaces(s) == s
  {
    if s == [] {
    } else if IsSpace(s[0]) {
      assert s[0] == ' ';
      assert LStrip(s) == s[1..] by {
        assert s[1..] == [] || !IsSpace(s[1]);
        assert LStrip(s) == LStrip(s[1..]);
      }
      CollapseSingleSpaced(s[1..]);
      assert " " + s[1..] == s;
    } else {
      CollapseSingleSpaced(s[1..]);
      assert [s[0]] + s[1..] == s;
    }
  }

  /** `norm_text` leaves normalised text unchanged ... */
  lemma NormTextFixesNormalized(s: string)
    requires Normalized(s)
    ensures NormText(s) == s
  {
    CollapseSingleSpaced(s);
  }

  /** ... so applying it twice is the same as applying it once. */
  lemma NormTextIdempotent(s: string)
    ensures NormText(NormText(s)) == NormText(s)
  {
    NormTextFixesNormalized(NormText(s));
  }

  /** Normalised text holds no line break. */
  lemma NormalizedHasNoNewline(s: string)
    requires Normalized(s)
    ensures '\n' !in s
  {
    if '\n' in s {
      var i :| 0 <= i < |s| && s[i] == '\n';
      assert IsSpace(s[i]);
    }
  }

  /** The longest prefix of `s` holding no whitespace. */
  function WordAt(s: string): (r: string)
    ensures |r| <= |s|
    ensures s != [] && !IsSpace(s[0]) ==> r != []
  {
    if s == [] || IsSpace(s[0]) then [] else [s[0]] + WordAt(s[1..])
  }

  /** Python's `s.split()`: the maximal runs of non-whitespace characters, in order. */
  function Words(s: string): (r: seq<string>)
    decreases |s|
  {
    var t := LStrip(s);
    if t == [] then [] else var w := WordAt(t); [w] + Words(t[|w|..])
  }

  /** A word ends before whitespace, whatever follows. */
  lemma {:induction false} WordAtAppend(a: string, b: string)
    requires b == [] || IsSpace(b[0])
    ensures WordAt(a + b) == WordAt(a)
  {
    if a != [] && !IsSpace(a[0]) {
      assert (a + b)[1..] == a[1..] + b;
      WordAtAppend(a[1..], b);
    } else if a == [] {
      assert a + b == b;
    }
  }

  lemma {:induction false} LStripAppend(a: string, b: string)
    ensures LStrip(a + b) == if LStrip(a) == [] then LStrip(b) else LStrip(a) + b
  {
    if a == [] {
      assert a + b == b;
    } else if IsSpace(a[0]) {
      assert (a + b)[1..] == a[1..] + b;
      LStripAppend(a[1..], b);
    }
  }

  /** Trailing whitespace adds no word. */
  lemma {:induction false} WordsTrailing(a: string, b: string)
    requires forall i :: 0 <= i < |b| ==> IsSpace(b[i])
    ensures Words(a + b) == Words(a)
    decreases |a|
  {
    var t := LStrip(a);
    LStripAppend(a, b);
    WordsSkipSpace(a + b);
    WordsSkipSpace(a);
    if t != [] {
      var w := WordAt(t);
      WordsTrailing(t[|w|..], b);
      WordsTrailingStep(t, b);
    } else {
      LStripAllSpace(b);
    }
  }

  lemma WordsTrailingStep(t: string, b: string)
    requires t != [] && !IsSpace(t[0]) && (b == [] || IsSpace(b[0]))
    requires Words(t[|WordAt(t)|..] + b) == Words(t[|WordAt(t)|..])
    ensures Words(t + b) == Words(t)
  {
    var w := WordAt(t);
    var tb := t + b;
    WordAtAppend(t, b);
    assert WordAt(tb) == w;
    assert tb[|w|..] == t[|w|..] + b;
    WordsOfWord(tb);
    assert Words(tb) == [w] + Words(t[|w|..] + b);
    WordsOfWord(t);
  }

  lemma LStripAllSpace(b: string)
    requires forall i :: 0 <= i < |b| ==> IsSpace(b[i])
    ensures LStrip(b) == []
  {
  }

  /** Trailing whitespace adds no word. */
  lemma WordsRStrip(l: string)
    ensures Words(RStrip(l)) == Words(l)
  {
    var r := RStrip(l);
    var d := l[|r|..];
    assert l == r + d;
    forall i | 0 <= i < |d| ensures IsSpace(d[i]) {
      assert d[i] == l[|r| + i];
    }
    WordsTrailing(r, d);
  }

  /** Leading and trailing whitespace add no word. */
  lemma WordsStrip(s: string)
    ensures Words(Strip(s)) == Words(s)
  {
    WordsRStrip(LStrip(s));
    WordsSkipSpace(s);
  }

  /** A word followed by the rest collapses to the word followed by the collapsed rest. */
  lemma {:induction false} CollapseWord(s: string)
    ensures CollapseSpaces(s) == WordAt(s) + CollapseSpaces(s[|WordAt(s)|..])
    decreases |s|
  {
    if s != [] && !IsSpace(s[0]) {
      var w := WordAt(s[1..]);
      var rest := s[1..][|w|..];
      CollapseWord(s[1..]);
      assert WordAt(s) == [s[0]] + w;
      assert rest == s[|WordAt(s)|..];
      assert CollapseSpaces(s) == [s[0]] + (w + CollapseSpaces(rest));
      AppendAssoc([s[0]], w, CollapseSpaces(rest));
    } else {
      assert WordAt(s) == [];
      assert s[0..] == s;
    }
  }

  /** A word is a whitespace-free prefix, cut at the first whitespace character. */
  lemma {:induction false} WordAtSplits(s: string)
    ensures WordAt(s) == s[..|WordAt(s)|]
    ensures forall i :: 0 <= i < |WordAt(s)| ==> !IsSpace(WordAt(s)[i])
    ensures |WordAt(s)| < |s| ==> IsSpace(s[|WordAt(s)|])
  {
    if s != [] && !IsSpace(s[0]) {
      WordAtSplits(s[1..]);
      assert WordAt(s) == [s[0]] + WordAt(s[1..]);
    }
  }

  /** Every word is non-empty and free of whitespace. */
  lemma {:induction false} WordsAreWords(s: string, k: nat)
    requires k < |Words(s)|
    ensures Words(s)[k] != []
    ensures forall i :: 0 <= i < |Words(s)[k]| ==> !IsSpace(Words(s)[k][i])
    decreases |s|
  {
    var t := LStrip(s);
    assert t != [];
    var w := WordAt(t);
    var ws := Words(t[|w|..]);
    assert Words(s) == [w] + ws;
    if k > 0 {
      WordsAreWords(t[|w|..], k - 1);
      assert Words(s)[k] == ws[k - 1];
    } else {
      WordAtSplits(t);
      assert Words(s)[k] == w;
    }
  }

  lemma WordsOfWord(s: string)
    requires s != [] && !IsSpace(s[0])
    ensures Words(s) == [WordAt(s)] + Words(s[|WordAt(s)|..])
  {
    assert LStrip(s) == s;
  }

  lemma WordsSkipSpace(s: string)
    ensures Words(s) == Words(LStrip(s))
  {
    var t := LStrip(s);
    assert LStrip(t) == t;
  }

  lemma JoinCons(w: string, ws: seq<string>)
    requires ws != []
    ensures Join([w] + ws, " ") == w + " " + Join(ws, " ")
  {
    assert ([w] + ws)[1..] == ws;
  }

  lemma CollapseRun(s: string)
    requires s != [] && IsSpace(s[0])
    ensures CollapseSpaces(s) == " " + CollapseSpaces(LStrip(s))
  {
  }

  /** On text without edge whitespace, collapsing joins the words with single spaces. */
  lemma {:induction false} CollapseJoinsWords(s: string)
    requires NoEdgeSpace(s)
    ensures CollapseSpaces(s) == Join(Words(s), " ")
    decreases |s|
  {
    if s != [] {
      var w := WordAt(s);
      var rest := s[|w|..];
      WordsOfWord(s);
      CollapseWord(s);
      if rest != [] {
        WordAtSplits(s);
        var t := LStrip(rest);
        CollapseRun(rest);
        assert rest[|rest| - 1] == s[|s| - 1];
        assert t != [] && NoEdgeSpace(t);
        CollapseJoinsWords(t);
        WordsSkipSpace(rest);
        WordsOfWord(t);
        JoinCons(w, Words(t));
        AppendAssoc(w, " ", CollapseSpaces(t));
      } else {
        assert Words(rest) == [];
        assert CollapseSpaces(rest) == [];
        assert w + [] == w;
      }
    }
  }

  /** `norm_text(s)` is `" ".join(s.split())`. */
  lemma NormTextJoinsWords(s: string)
    ensures NormText(s) == Join(Words(s), " ")
  {
    CollapseJoinsWords(Strip(s));
    WordsStrip(s);
  }

  /** Collapsing rewrites whitespace only: the other characters survive, in order. */
  lemma {:induction false} CollapseKeepsNonSpace(s: string)
    ensures Filter(NotSpace, CollapseSpaces(s)) == Filter(NotSpace, s)
    decreases |s|
  {
    if s != [] {
      if IsSpace(s[0]) {
        var c := CollapseSpaces(LStrip(s));
        CollapseRun(s);
        CollapseKeepsNonSpace(LStrip(s));
        FilterAppend(NotSpace, " ", c);
        FilterNone(NotSpace, " ");
        LStripKeepsNonSpace(s);
      } else {
        CollapseKeepsNonSpace(s[1..]);
        CollapseChar(s);
        KeptHead(s, CollapseSpaces(s), CollapseSpaces(s[1..]));
      }
    }
  }

  lemma KeptHead(s: string, x: string, c: string)
    requires s != [] && !IsSpace(s[0]) && x == [s[0]] + c
    requires Filter(NotSpace, c) == Filter(NotSpace, s[1..])
    ensures Filter(NotSpace, x) == Filter(NotSpace, s)
  {
    FilterConsKept(NotSpace, s[0], c);
    FilterConsKept(NotSpace, s[0], s[1..]);
    assert [s[0]] + s[1..] == s;
  }

  lemma CollapseChar(s: string)
    requires s != [] && !IsSpace(s[0])
    ensures CollapseSpaces(s) == [s[0]] + CollapseSpaces(s[1..])
  {
  }

  /** `norm_text` keeps every non-whitespace character, in order. */
  lemma NormTextKeepsNonSpace(s: string)
    ensures Filter(NotSpace, NormText(s)) == Filter(NotSpace, s)
  {
    CollapseKeepsNonSpace(Strip(s));
    StripKeepsNonSpace(s);
  }

  /** The closing marks `strip_trailing_punc` removes: CJK and Latin terminators, dashes,
      quotes and closing brackets. */
  const Trailing: string := "，。！？；：、,.!?;:~…—-·\"'）)】]》>》"

  predicate IsTrailing(c: char) {
    c == '，' || c == '。' || c == '！' || c == '？' || c == '；' || c == '：' || c == '、'
    || c == ',' || c == '.' || c == '!' || c == '?' || c == ';' || c == ':' || c == '~'
    || c == '…' || c == '—' || c == '-' || c == '·' || c == '"' || c == '\'' || c == '）'
    || c == ')' || c == '】' || c == ']' || c == '》' || c == '>'
  }

  /** The predicate is exactly membership in the mark list. */
  lemma IsTrailingMatchesList(c: char)
    ensures IsTrailing(c) <==> c in Trailing
  {
  }

  /** What `strip_trailing_punc` computes: whitespace and marks peeled off the end. */
  function StripPunc(t: string): (r: string)
    ensures |r| <= |t| && r == t[..|r|]
    ensures r == [] || (!IsSpace(r[|r| - 1]) && !IsTrailing(r[|r| - 1]))
    ensures forall i :: |r| <= i < |t| ==> IsSpace(t[i]) || IsTrailing(t[i])
    decreases |t|
  {
    var u := RStrip(t);
    if u != [] && IsTrailing(u[|u| - 1]) then
      var r := StripPunc(u[..|u| - 1]);
      PeeledTail(t, u, u[..|u| - 1], r);
      r
    else u
  }

  /** Peeling one mark off the stripped text and then the rest keeps the prefix shape. */
  lemma PeeledTail(t: string, u: string, v: string, r: string)
    requires |u| <= |t| && u == t[..|u|] && u != [] && IsTrailing(u[|u| - 1]) && v == u[..|u| - 1]
    requires forall i :: |u| <= i < |t| ==> IsSpace(t[i])
    requires |r| <= |v| && r == v[..|r|]
    requires forall i :: |r| <= i < |v| ==> IsSpace(v[i]) || IsTrailing(v[i])
    ensures |r| <= |t| && r == t[..|r|]
    ensures forall i :: |r| <= i < |t| ==> IsSpace(t[i]) || IsTrailing(t[i])
  {
    forall i | |r| <= i < |t| ensures IsSpace(t[i]) || IsTrailing(t[i]) {
      if i < |v| {
        assert v[i] == t[i];
      } else if i == |u| - 1 {
        assert u[i] == t[i];
      }
    }
  }

  /** The three properties above pin the result down: it is the only prefix ending in a
      character that is neither whitespace nor a mark, with only those removed after it. */
  lemma StripPuncUnique(t: string, p: string)
    requires |p| <= |t| && p == t[..|p|]
    requires p == [] || (!IsSpace(p[|p| - 1]) && !IsTrailing(p[|p| - 1]))
    requires forall i :: |p| <= i < |t| ==> IsSpace(t[i]) || IsTrailing(t[i])
    ensures p == StripPunc(t)
  {
  }

  /** main.py `strip_trailing_punc`: rstrip, then drop a final mark and rstrip again while
      one remains. */
  method StripTrailingPunc(text: string) returns (t: string)
    ensures t == StripPunc(text)
    ensures |t| <= |text| && t == text[..|t|]
    ensures t == [] || (!IsSpace(t[|t| - 1]) && !IsTrailing(t[|t| - 1]))
  {
    if text == [] {
      return text;
    }
    t := RStrip(text);
    StripPuncAfterRStrip(text);
    while t != [] && IsTrailing(t[|t| - 1])
      invariant t == [] || !IsSpace(t[|t| - 1])
      invariant StripPunc(t) == StripPunc(text)
      decreases |t|
    {
      ghost var before := t;
      t := RStrip(t[..|t| - 1]);
      StripPuncAfterRStrip(before[..|before| - 1]);
      StripPuncPeel(before);
    }
    RStripFixed(t);
  }

  lemma RStripFixed(t: string)
    requires t == [] || !IsSpace(t[|t| - 1])
    ensures RStrip(t) == t
  {
  }

  /** `strip_trailing_punc` starts by rstripping; doing it first changes nothing. */
  lemma StripPuncAfterRStrip(t: string)
    ensures StripPunc(RStrip(t)) == StripPunc(t)
  {
    RStripFixed(RStrip(t));
  }

  lemma StripPuncPeel(t: string)
    requires t != [] && !IsSpace(t[|t| - 1]) && IsTrailing(t[|t| - 1])
    ensures StripPunc(t) == StripPunc(t[..|t| - 1])
  {
    RStripFixed(t);
  }

  /** Stripping twice is stripping once. */
  lemma StripPuncIdempotent(t: string)
    ensures StripPunc(StripPunc(t)) == StripPunc(t)
  {
    var r := StripPunc(t);
    StripPuncUnique(r, r);
  }

  /** The examples of the doc comment of `strip_trailing_punc`, one lemma each. */
  lemma StripPuncExampleFullStop()
    ensures StripPunc("你好。") == "你好"
  {
    StripPuncUnique("你好。", "你好");
  }

  lemma StripPuncExampleBang()
    ensures StripPunc("OK!") == "OK"
  {
    StripPuncUnique("OK!", "OK");
  }

  lemma StripPuncExampleMixed()
    ensures StripPunc("真的吗？！") == "真的吗"
  {
    StripPuncUnique("真的吗？！", "真的吗");
  }

  lemma StripPuncExampleDots()
    ensures StripPunc("test...") == "test"
  {
    StripPuncUnique("test...", "test");
  }

  /** The marks the fourth prototype's `clean_text` removes, one at most. */
  const CleanMarks: string := "。，、？!！.,?~"

  predicate IsCleanMark(c: char) {
    c == '。' || c == '，' || c == '、' || c == '？' || c == '!' || c == '！' || c == '.'
    || c == ',' || c == '?' || c == '~'
  }

  lemma IsCleanMarkMatchesList(c: char)
    ensures IsCleanMark(c) <==> c in CleanMarks
  {
  }

  /** Fourth prototype `clean_text`: strip, then delete one final mark if there is one. */
  function CleanText(text: string): (r: string)
    ensures var t := Strip(text);
      |r| <= |t| <= |r| + 1 && r == t[..|r|]
      && (|r| < |t| <==> t != [] && IsCleanMark(t[|t| - 1]))
  {
    var t := Strip(text);
    if t != [] && IsCleanMark(t[|t| - 1]) then t[..|t| - 1] else t
  }

  /** Unlike main.py's stripper, `clean_text` removes a single mark. */
  lemma CleanTextRemovesOneMark()
    ensures CleanText("test...") == "test.."
    ensures StripPunc("test...") == "test"
  {
    var t := "test...";
    assert NoEdgeSpace(t);
    assert Strip(t) == t;
    assert t[..6] == "test..";
    StripPuncUnique(t, "test");
  }

  /** Every mark `clean_text` knows is one `strip_trailing_punc` knows, so main.py's stripper
      applied after `clean_text` gives what it gives on the stripped text. */
  lemma StripPuncAfterCleanText(text: string)
    ensures StripPunc(CleanText(text)) == StripPunc(Strip(text))
  {
    var t := Strip(text);
    if t != [] && IsCleanMark(t[|t| - 1]) {
      assert IsTrailing(t[|t| - 1]);
      assert RStrip(t) == t;
    }
  }
}
