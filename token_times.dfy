/**
  What the character-level segmenters of the second and third prototypes share: the
  recogniser's per-character time entries, the segments they emit, and the bookkeeping the
  model keeps beside each segment (which entries its characters used).
 */
module TokenTimes {
  import opened Wrappers
  import opened Strings

  /** One `[start, end]` entry of `res[0]['timestamp']`, in milliseconds. */
  datatype Span = Span(startMs: int, endMs: int)

  /** One segment dict `{"text", "start", "end"}`. */
  datatype Cue = Cue(text: string, startMs: int, endMs: int)

  /** A segment together with the range `[lo, hi)` of time entries its characters used. */
  datatype Emitted = Emitted(cue: Cue, lo: nat, hi: nat)

  /** One recogniser result `res[0]`: its `text` and its `timestamp` entries, each `None`
      when the dict lacks that key. */
  datatype TokenResult = TokenResult(text: Option<string>, timestamp: Option<seq<Span>>)

  /** The Python exceptions the prototypes stop with: indexing an empty result list, and
      reading a key the result dict lacks. */
  datatype Crash = IndexError | KeyError

  function Min(a: int, b: int): int { if a <= b then a else b }

  function CuesOf(es: seq<Emitted>): (r: seq<Cue>)
    ensures |r| == |es|
  {
    seq(|es|, k requires 0 <= k < |es| => es[k].cue)
  }

  lemma CuesOfPush(es: seq<Emitted>, e: Emitted)
    ensures CuesOf(es + [e]) == CuesOf(es) + [e.cue]
  {
  }

  /** The texts of the segments, one after the other. */
  function AllText(es: seq<Emitted>): string {
    if es == [] then "" else AllText(es[..|es| - 1]) + es[|es| - 1].cue.text
  }

  lemma AllTextPush(es: seq<Emitted>, e: Emitted)
    ensures AllText(es + [e]) == AllText(es) + e.cue.text
  {
    assert (es + [e])[..|es|] == es;
  }

  /** The start the segmenters settle on for entries `lo` to `hi - 1`: the first start that is
      not the "unset" value -1, or -1 when there is none. */
  function FirstStart(ts: seq<Span>, lo: nat, hi: nat): int
    requires lo <= hi <= |ts|
    decreases hi - lo
  {
    if lo == hi then -1
    else if ts[lo].startMs != -1 then ts[lo].startMs
    else FirstStart(ts, lo + 1, hi)
  }

  /** Taking one more entry sets the start only while it is still unset. */
  lemma {:induction false} FirstStartExtend(ts: seq<Span>, lo: nat, hi: nat)
    requires lo <= hi < |ts|
    ensures FirstStart(ts, lo, hi + 1)
      == if FirstStart(ts, lo, hi) == -1 then ts[hi].startMs else FirstStart(ts, lo, hi)
    decreases hi - lo
  {
    if lo < hi && ts[lo].startMs == -1 {
      FirstStartExtend(ts, lo + 1, hi);
    }
  }

  /** With no entry starting at -1, a segment starts where its first entry starts. */
  lemma FirstStartPlain(ts: seq<Span>, lo: nat, hi: nat)
    requires lo < hi <= |ts|
    requires forall j :: 0 <= j < |ts| ==> ts[j].startMs != -1
    ensures FirstStart(ts, lo, hi) == ts[lo].startMs
  {
  }

  /** The entry ranges of the segments follow one another from entry 0 up to entry `n`. */
  predicate Tiled(es: seq<Emitted>, n: nat) {
    && (es == [] ==> n == 0)
    && (es != [] ==> es[0].lo == 0 && es[|es| - 1].hi == n)
    && (forall k :: 0 <= k < |es| ==> es[k].lo <= es[k].hi)
    && (forall k :: 0 <= k < |es| - 1 ==> es[k].hi == es[k + 1].lo)
  }

  lemma TiledPush(es: seq<Emitted>, n: nat, e: Emitted)
    requires Tiled(es, n) && e.lo == n && n <= e.hi
    ensures Tiled(es + [e], e.hi)
  {
    var r := es + [e];
    forall k | 0 <= k < |r| - 1 ensures r[k].hi == r[k + 1].lo {
      if k < |es| - 1 { assert r[k] == es[k] && r[k + 1] == es[k + 1]; }
    }
  }

  /** Every range lies below the end of the tiling. */
  lemma {:induction false} TiledBelow(es: seq<Emitted>, n: nat, k: nat)
    requires Tiled(es, n) && k < |es|
    ensures es[k].hi <= n
    decreases |es| - k
  {
    if k < |es| - 1 {
      TiledBelow(es, n, k + 1);
    }
  }

  /** Dropping the last segment leaves a tiling up to where that segment began. */
  lemma TiledPrefix(es: seq<Emitted>, n: nat)
    requires Tiled(es, n) && es != []
    ensures Tiled(es[..|es| - 1], es[|es| - 1].lo)
  {
    var m := |es| - 1;
    var pre := es[..m];
    forall k | 0 <= k < |pre| - 1 ensures pre[k].hi == pre[k + 1].lo {
      assert pre[k] == es[k] && pre[k + 1] == es[k + 1];
    }
    if m > 0 { assert pre[m - 1] == es[m - 1]; }
  }

  /** When each segment keeps as many characters of some kind as it used entries, and the
      kept characters of all texts are `x`, segment `k` keeps exactly `x[lo..hi]`. */
  lemma {:induction false} TiledPieces(keep: char -> bool, es: seq<Emitted>, n: nat, x: string)
    requires Tiled(es, n)
    requires forall k :: 0 <= k < |es| ==> |Filter(keep, es[k].cue.text)| == es[k].hi - es[k].lo
    requires Filter(keep, AllText(es)) == x
    ensures |x| == n
    ensures forall k :: 0 <= k < |es| ==> es[k].hi <= n && Filter(keep, es[k].cue.text) == x[es[k].lo..es[k].hi]
    decreases |es|
  {
    if es != [] {
      var m := |es| - 1;
      var pre := es[..m];
      var e := es[m];
      var z := Filter(keep, e.cue.text);
      FilterAppend(keep, AllText(pre), e.cue.text);
      var y := Filter(keep, AllText(pre));
      assert x == y + z;
      TiledPrefix(es, n);
      TiledPieces(keep, pre, e.lo, y);
      assert |y| == e.lo;
      assert |z| == e.hi - e.lo && e.hi == n;
      TailOfAppend(x, y, z, e.lo, e.hi);
      forall k | 0 <= k < |es|
        ensures es[k].hi <= n && Filter(keep, es[k].cue.text) == x[es[k].lo..es[k].hi]
      {
        if k < m {
          var f := pre[k];
          assert f == es[k];
          assert f.hi <= e.lo && Filter(keep, f.cue.text) == y[f.lo..f.hi];
          SliceOfAppend(x, y, z, f.lo, f.hi);
        }
      }
    }
  }

  // TailOfAppend and SliceOfAppend are facts the verifier knows; naming them keeps the
  // tiling proofs from rediscovering sequence extensionality, which keeps them cheap.

  lemma TailOfAppend(x: string, y: string, z: string, lo: nat, hi: nat)
    requires x == y + z && lo == |y| && hi == |x|
    ensures x[lo..hi] == z
  {
  }

  lemma SliceOfAppend(x: string, y: string, z: string, lo: nat, hi: nat)
    requires x == y + z && lo <= hi <= |y|
    ensures x[lo..hi] == y[lo..hi]
  {
  }
}
