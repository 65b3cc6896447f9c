/**
  optimize.py `apply_corrections`: the corrections the language model returns are indexed by
  entry number, and every entry takes the corrected text of the correction for its number, or
  keeps its own text when there is none.
 */
module Corrections {
  import opened SrtCodec

  /** One item of the returned `corrections` list: the entry number it names (`index`) and the
      text it proposes (`corrected`). Its other keys are never read. */
  datatype Correction = Correction(index: string, corrected: string)

  /** `{c['index']: c for c in corrections}`: a later item with the same number replaces an
      earlier one. */
  function CorrectionMap(cs: seq<Correction>): map<string, Correction> {
    if cs == [] then map[]
    else CorrectionMap(cs[..|cs| - 1])[cs[|cs| - 1].index := cs[|cs| - 1]]
  }

  /** Item `j` is the last one naming `key`. */
  predicate LastFor(cs: seq<Correction>, key: string, j: int) {
    0 <= j < |cs| && cs[j].index == key && forall i :: j < i < |cs| ==> cs[i].index != key
  }

  /** A number is a key exactly when some item names it, and then the map holds the last item
      that names it. */
  lemma {:induction false} CorrectionMapLastWins(cs: seq<Correction>, key: string)
    ensures key in CorrectionMap(cs) <==> exists j :: 0 <= j < |cs| && cs[j].index == key
    ensures forall j :: LastFor(cs, key, j) ==> CorrectionMap(cs)[key] == cs[j]
    decreases |cs|
  {
    if cs != [] {
      var n := |cs| - 1;
      var pre := cs[..n];
      CorrectionMapLastWins(pre, key);
      if cs[n].index != key {
        forall j | LastFor(cs, key, j) ensures LastFor(pre, key, j) {
          assert j != n;
        }
        if exists j :: 0 <= j < |cs| && cs[j].index == key {
          var j :| 0 <= j < |cs| && cs[j].index == key;
          assert pre[j] == cs[j];
        }
      } else {
        forall j | LastFor(cs, key, j) ensures j == n { }
      }
    }
  }

  /** What one entry becomes: number, timing and recognised text are carried over; the text to
      write is the correction's when there is one for the number, the recognised text otherwise. */
  function Correct(e: Subtitle, m: map<string, Correction>): Subtitle {
    if e.idx in m then Subtitle(e.idx, e.timestamp, e.original, m[e.idx].corrected)
    else Subtitle(e.idx, e.timestamp, e.original, e.original)
  }

  function Corrected(subtitles: seq<Subtitle>, cs: seq<Correction>): (r: seq<Subtitle>)
    ensures |r| == |subtitles|
  {
    var m := CorrectionMap(cs);
    seq(|subtitles|, k requires 0 <= k < |subtitles| => Correct(subtitles[k], m))
  }

  /** optimize.py `apply_corrections`. */
  method ApplyCorrections(subtitles: seq<Subtitle>, corrections: seq<Correction>)
    returns (result: seq<Subtitle>)
    ensures result == Corrected(subtitles, corrections)
  {
    var correctionMap := map[];
    var j := 0;
    while j < |corrections|
      invariant 0 <= j <= |corrections|
      invariant correctionMap == CorrectionMap(corrections[..j])
    {
      assert corrections[..j + 1][..j] == corrections[..j];
      correctionMap := correctionMap[corrections[j].index := corrections[j]];
      j := j + 1;
    }
    assert corrections[..j] == corrections;
    result := [];
    var i := 0;
    while i < |subtitles|
      invariant 0 <= i <= |subtitles|
      invariant result == Corrected(subtitles, corrections)[..i]
    {
      var e := subtitles[i];
      if e.idx in correctionMap {
        var corrected := correctionMap[e.idx].corrected;
        result := result + [Subtitle(e.idx, e.timestamp, e.original, corrected)];
      } else {
        result := result + [Subtitle(e.idx, e.timestamp, e.original, e.original)];
      }
      i := i + 1;
    }
  }

  /** Entry by entry: the same number, timing and recognised text, in the same order; the text
      to write is that of the last item naming the entry's number, or the recognised text when no
      item names it. Numbers are compared as they are, character for character. */
  lemma CorrectedEntries(subtitles: seq<Subtitle>, cs: seq<Correction>, k: nat)
    requires k < |subtitles|
    ensures var e := subtitles[k]; var r := Corrected(subtitles, cs)[k];
      && r.idx == e.idx && r.timestamp == e.timestamp && r.original == e.original
      && ((forall j :: 0 <= j < |cs| ==> cs[j].index != e.idx) ==> r.corrected == e.original)
      && (forall j :: LastFor(cs, e.idx, j) ==> r.corrected == cs[j].corrected)
  {
    CorrectionMapLastWins(cs, subtitles[k].idx);
  }

  /** An item naming a number no entry has changes nothing. */
  lemma UnknownIndexIgnored(subtitles: seq<Subtitle>, cs: seq<Correction>, c: Correction)
    requires forall k :: 0 <= k < |subtitles| ==> subtitles[k].idx != c.index
    ensures Corrected(subtitles, cs + [c]) == Corrected(subtitles, cs)
  {
    assert (cs + [c])[..|cs|] == cs;
    var a := Corrected(subtitles, cs + [c]);
    var b := Corrected(subtitles, cs);
    forall k | 0 <= k < |subtitles| ensures a[k] == b[k] {
      assert subtitles[k].idx != c.index;
    }
  }

  /** With no corrections every entry is written with its recognised text. */
  lemma NoCorrections(subtitles: seq<Subtitle>)
    ensures forall k :: 0 <= k < |subtitles| ==>
      Corrected(subtitles, [])[k] == Subtitle(subtitles[k].idx, subtitles[k].timestamp,
                                              subtitles[k].original, subtitles[k].original)
  {
  }
}
