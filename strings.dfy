/**
  String helpers shared by the subtitle tools: one fixed whitespace predicate (standing for
  Python's `str.isspace`, which `strip`, `rstrip` and the regex class `\s` all follow), the
  strip family, `sep.join(parts)`, `s.split('\n')` and character filters.
 */
module Strings {

  /** The whitespace characters of the model: ASCII whitespace, NO-BREAK SPACE and
      IDEOGRAPHIC SPACE (the one that occurs in Chinese transcripts). */
  predicate IsSpace(c: char) {
    c == ' ' || c == '\t' || c == '\n' || c == '\r' || c == '\U{000B}' || c == '\U{000C}'
    || c == '\U{00A0}' || c == '\U{3000}'
  }

  predicate NotSpace(c: char) { !IsSpace(c) }

  /** Neither the first nor the last character is whitespace (what `s.strip() == s` means). */
  predicate NoEdgeSpace(s: string) {
    s == [] || (!IsSpace(s[0]) && !IsSpace(s[|s| - 1]))
  }

  /** Python `s.lstrip()`. */
  function LStrip(s: string): (r: string)
    ensures |r| <= |s| && r == s[|s| - |r|..]
    ensures r == [] || !IsSpace(r[0])
    ensures forall i :: 0 <= i < |s| - |r| ==> IsSpace(s[i])
  {
    if s != [] && IsSpace(s[0]) then LStrip(s[1..]) else s
  }

  /** Python `s.rstrip()`. */
  function RStrip(s: string): (r: string)
    ensures |r| <= |s| && r == s[..|r|]
    ensures r == [] || !IsSpace(r[|r| - 1])
    ensures forall i :: |r| <= i < |s| ==> IsSpace(s[i])
  {
    if s != [] && IsSpace(s[|s| - 1]) then RStrip(s[..|s| - 1]) else s
  }

  /** Python `s.strip()`: the longest slice of `s` without whitespace at either end. */
  function Strip(s: string): (r: string)
    ensures NoEdgeSpace(r)
    ensures |r| <= |s|
    ensures NoEdgeSpace(s) ==> r == s
  {
    RStrip(LStrip(s))
  }

  lemma RStripKeepsLeadingChar(s: string)
    requires s == [] || !IsSpace(s[0])
    ensures RStrip(s) == [] || !IsSpace(RStrip(s)[0])
  {
  }

  /** Appending whitespace does not change what `strip` keeps. */
  lemma {:induction false} StripTrailingSpace(s: string, c: char)
    requires IsSpace(c)
    ensures RStrip(s + [c]) == RStrip(s)
  {
    assert (s + [c])[..|s|] == s;
  }

  /** Python `sep.join(parts)`. */
  function Join(parts: seq<string>, sep: string): (r: string)
    decreases |parts|
  {
    if |parts| == 0 then ""
    else if |parts| == 1 then parts[0]
    else parts[0] + sep + Join(parts[1..], sep)
  }

  /** Python `s.split('\n')`: never empty; a string without newline splits into itself. */
  function SplitLines(s: string): (r: seq<string>)
    ensures |r| >= 1
    ensures forall k :: 0 <= k < |r| ==> '\n' !in r[k]
  {
    if s == [] then [""]
    else if s[0] == '\n' then [""] + SplitLines(s[1..])
    else
      var rest := SplitLines(s[1..]);
      [[s[0]] + rest[0]] + rest[1..]
  }

  /** Splitting a line without newline in front of "\n" peels that line off. */
  lemma {:induction false} SplitLinesCons(a: string, rest: string)
    requires '\n' !in a
    ensures SplitLines(a + "\n" + rest) == [a] + SplitLines(rest)
  {
    if a == [] {
      assert a + "\n" + rest == "\n" + rest;
      assert ("\n" + rest)[1..] == rest;
    } else {
      SplitLinesCons(a[1..], rest);
      assert (a + "\n" + rest)[1..] == a[1..] + "\n" + rest;
      assert [a[0]] + a[1..] == a;
    }
  }

  lemma {:induction false} SplitLinesSingle(a: string)
    requires '\n' !in a
    ensures SplitLines(a) == [a]
  {
    if a != [] {
      SplitLinesSingle(a[1..]);
      assert [a[0]] + a[1..] == a;
    }
  }

  /** `"\n".join` and `split('\n')` are inverse on lines that hold no newline. */
  lemma {:induction false} SplitJoinLines(parts: seq<string>)
    requires |parts| >= 1
    requires forall k :: 0 <= k < |parts| ==> '\n' !in parts[k]
    ensures SplitLines(Join(parts, "\n")) == parts
  {
    if |parts| == 1 {
      SplitLinesSingle(parts[0]);
    } else {
      SplitJoinLines(parts[1..]);
      SplitLinesCons(parts[0], Join(parts[1..], "\n"));
      assert [parts[0]] + parts[1..] == parts;
    }
  }

  /** ... and in the other direction on every string. */
  lemma {:induction false} JoinSplitLines(s: string)
    ensures Join(SplitLines(s), "\n") == s
  {
    if s == [] {
    } else if s[0] == '\n' {
      JoinSplitLines(s[1..]);
      var r := SplitLines(s[1..]);
      assert SplitLines(s) == [""] + r;
      assert ([""] + r)[1..] == r;
      assert [s[0]] + s[1..] == s;
    } else {
      JoinSplitLines(s[1..]);
      var rest := SplitLines(s[1..]);
      var r := [[s[0]] + rest[0]] + rest[1..];
      assert SplitLines(s) == r;
      assert r[1..] == rest[1..];
      if |rest| == 1 {
        assert s == [s[0]] + s[1..];
      } else {
        assert Join(rest, "\n") == rest[0] + "\n" + Join(rest[1..], "\n");
        assert Join(r, "\n") == r[0] + "\n" + Join(rest[1..], "\n");
        assert s == [s[0]] + s[1..];
      }
    }
  }

  /** The characters of `s` that satisfy `keep`, in order. */
  function Filter(keep: char -> bool, s: string): (r: string)
    ensures |r| <= |s|
    ensures forall i :: 0 <= i < |r| ==> keep(r[i])
  {
    if s == [] then [] else Filter(keep, s[..|s| - 1]) + (if keep(s[|s| - 1]) then [s[|s| - 1]] else [])
  }

  lemma {:induction false} FilterAppend(keep: char -> bool, a: string, b: string)
    ensures Filter(keep, a + b) == Filter(keep, a) + Filter(keep, b)
  {
    if b == [] {
      assert a + b == a;
    } else {
      FilterAppend(keep, a, b[..|b| - 1]);
      assert (a + b)[..|a + b| - 1] == a + b[..|b| - 1];
    }
  }

  lemma FilterPush(keep: char -> bool, s: string, c: char)
    ensures keep(c) ==> Filter(keep, s + [c]) == Filter(keep, s) + [c]
    ensures !keep(c) ==> Filter(keep, s + [c]) == Filter(keep, s)
  {
    assert (s + [c])[..|s|] == s;
    assert Filter(keep, s) + [] == Filter(keep, s);
  }

  /** Filtering first by a weaker test changes nothing. */
  lemma {:induction false} FilterOfFilter(weak: char -> bool, strong: char -> bool, s: string)
    requires forall c :: strong(c) ==> weak(c)
    ensures Filter(strong, Filter(weak, s)) == Filter(strong, s)
  {
    if s != [] {
      var pre := s[..|s| - 1];
      var c := s[|s| - 1];
      FilterOfFilter(weak, strong, pre);
      assert pre + [c] == s;
      FilterPush(weak, pre, c);
      FilterPush(strong, pre, c);
      if weak(c) {
        FilterPush(strong, Filter(weak, pre), c);
      } else {
        assert !strong(c);
      }
    }
  }

  lemma FilterConsKept(keep: char -> bool, c: char, s: string)
    requires keep(c)
    ensures Filter(keep, [c] + s) == [c] + Filter(keep, s)
  {
    FilterAppend(keep, [c], s);
    assert Filter(keep, [c]) == Filter(keep, []) + [c];
  }

  lemma {:induction false} FilterAll(keep: char -> bool, s: string)
    requires forall i :: 0 <= i < |s| ==> keep(s[i])
    ensures Filter(keep, s) == s
  {
    if s != [] {
      FilterAll(keep, s[..|s| - 1]);
    }
  }

  lemma {:induction false} FilterNone(keep: char -> bool, s: string)
    requires forall i :: 0 <= i < |s| ==> !keep(s[i])
    ensures Filter(keep, s) == []
  {
    if s != [] {
      FilterNone(keep, s[..|s| - 1]);
    }
  }

  /** Stripping removes whitespace only: the non-whitespace characters survive, in order. */
  lemma StripKeepsNonSpace(s: string)
    ensures Filter(NotSpace, Strip(s)) == Filter(NotSpace, s)
  {
    LStripKeepsNonSpace(s);
    RStripKeepsNonSpace(LStrip(s));
  }

  lemma LStripKeepsNonSpace(s: string)
    ensures Filter(NotSpace, LStrip(s)) == Filter(NotSpace, s)
  {
    var l := LStrip(s);
    var d := s[..|s| - |l|];
    assert s == d + l;
    FilterAppend(NotSpace, d, l);
    FilterNone(NotSpace, d);
  }

  lemma RStripKeepsNonSpace(s: string)
    ensures Filter(NotSpace, RStrip(s)) == Filter(NotSpace, s)
  {
    var r := RStrip(s);
    var d := s[|r|..];
    assert s == r + d;
    FilterAppend(NotSpace, r, d);
    FilterNone(NotSpace, d);
  }

  /** The lines of consecutive blocks, one block after the other. */
  function Concat<T>(bs: seq<seq<T>>): seq<T> {
    if bs == [] then [] else Concat(bs[..|bs| - 1]) + bs[|bs| - 1]
  }

  predicate Quads<T>(bs: seq<seq<T>>) { forall j :: 0 <= j < |bs| ==> |bs[j]| == 4 }

  /** Block `k` of four-line blocks occupies lines `4k` to `4k + 3`. */
  lemma {:induction false} ConcatQuads<T>(bs: seq<seq<T>>, k: nat)
    requires Quads(bs) && k < |bs|
    ensures |Concat(bs)| == 4 * |bs|
    ensures Concat(bs)[4 * k..4 * k + 4] == bs[k]
  {
    var n := |bs| - 1;
    var p := Concat(bs[..n]);
    if k < n {
      ConcatQuads(bs[..n], k);
      assert (p + bs[n])[4 * k..4 * k + 4] == p[4 * k..4 * k + 4];
    } else if n > 0 {
      ConcatQuads(bs[..n], 0);
      assert (p + bs[n])[4 * n..4 * n + 4] == bs[n];
    } else {
      assert bs[..n] == [];
      assert Concat(bs) == [] + bs[0];
    }
  }

  lemma ConcatStep<T>(bs: seq<seq<T>>, i: nat)
    requires i < |bs|
    ensures Concat(bs[..i + 1]) == Concat(bs[..i]) + bs[i]
  {
    assert bs[..i + 1][..i] == bs[..i];
  }

  // The three sequence facts below are ones the verifier knows; stating them as
  // separate lemmas lets the large step proofs call them instead of rediscovering
  // sequence extensionality in a big context, which keeps those proofs cheap.

  lemma ButLastAppend<T>(s: seq<T>)
    requires s != []
    ensures s[..|s| - 1] + [s[|s| - 1]] == s
  {
  }

  lemma TakeAll<T>(s: seq<T>)
    ensures s[..|s|] == s
  {
  }

  lemma AppendAssoc<T>(a: seq<T>, b: seq<T>, c: seq<T>)
    ensures a + (b + c) == (a + b) + c
  {
  }
}
