/**
  The source-side choice two of the playlist updaters share
  (`pull_channels_and_update.py` and `update_dazn_pt.py`): the candidates of
  a channel are the source pairs with a URL whose `#EXTINF` matches one of
  the channel's patterns, each candidate gets a score from its `#EXTINF`
  text, and `sorted(cands, key=score, reverse=True)[0]` picks the highest
  score, the earliest candidate among equals since Python's sort is stable.
*/
module Picking {
  import opened Wrappers
  import opened Text
  import opened M3u

  // ---------------------------------------------------------------------
  // Score terms

  /** The quality markers both scores look for. */
  const QualityMarkers: seq<string> := [" uhd", " 4k", " fhd", " hd"]

  /** `any(q in ext for q in (" uhd", " 4k", " fhd", " hd"))`. */
  predicate HasQuality(s: string) {
    exists k :: 0 <= k < |QualityMarkers| && Contains(s, QualityMarkers[k])
  }

  /** A regex word character, restricted to ASCII: a letter, a digit or `_`. */
  predicate IsWordChar(c: char) {
    'a' <= c <= 'z' || 'A' <= c <= 'Z' || '0' <= c <= '9' || c == '_'
  }

  /** `\bw\b` matches at position `p` of `s`. */
  predicate WordAt(s: string, p: nat, w: string) {
    && p + |w| <= |s| && s[p..p + |w|] == w
    && (p == 0 || !IsWordChar(s[p - 1]))
    && (p + |w| == |s| || !IsWordChar(s[p + |w|]))
  }

  /** `re.search(r"\b(en|english)\b", s)`. */
  predicate EnglishTag(s: string) {
    exists p :: 0 <= p <= |s| && (WordAt(s, p, "en") || WordAt(s, p, "english"))
  }

  /** `en` as a word; `entertainment` is no English tag, `en` at the end is. */
  lemma EnglishExamples()
    ensures EnglishTag("bbc en")
    ensures !WordAt("entertainment", 0, "en")
  {
    assert WordAt("bbc en", 4, "en");
    assert "entertainment"[2] == 't';
  }

  /** The quality and language part of a score on the lowercased `#EXTINF`:
      2 for a quality marker plus 1 for the word `en` or `english`. This is
      the whole `score` of `update_dazn_pt.py`. */
  function QualityScore(extinf: string): (sc: nat)
    ensures sc <= 3
    ensures sc >= 2 <==> HasQuality(Lower(extinf))
    ensures sc % 2 == 1 <==> EnglishTag(Lower(extinf))
  {
    var ext := Lower(extinf);
    (if HasQuality(ext) then 2 else 0) + (if EnglishTag(ext) then 1 else 0)
  }

  // ---------------------------------------------------------------------
  // Candidates

  /** A candidate of a channel: the source `#EXTINF` and its URL. */
  datatype Candidate = Candidate(extinf: string, url: string)

  /** A source pair may supply the channel: it has a URL and one of the
      channel's patterns finds a match in its `#EXTINF`. */
  predicate Eligible(p: Pair, pats: seq<Pattern>) {
    Truthy(p.url) && AnyMatch(pats, p.extinf)
  }

  /** The candidate list of a channel: the eligible source pairs in source
      order. */
  function Candidates(pairs: seq<Pair>, pats: seq<Pattern>): seq<Candidate>
    decreases |pairs|
  {
    if pairs == [] then []
    else
      var last := pairs[|pairs| - 1];
      Candidates(pairs[..|pairs| - 1], pats)
        + (if Eligible(last, pats) then [Candidate(last.extinf, last.url.value)] else [])
  }

  /** The candidates are exactly the eligible source pairs. */
  lemma {:induction false} CandidatesAreEligible(pairs: seq<Pair>, pats: seq<Pattern>)
    ensures forall c :: c in Candidates(pairs, pats) <==>
      exists k :: 0 <= k < |pairs| && Eligible(pairs[k], pats) && c == Candidate(pairs[k].extinf, pairs[k].url.value)
    decreases |pairs|
  {
    if pairs != [] {
      var init := pairs[..|pairs| - 1];
      CandidatesAreEligible(init, pats);
      forall k | 0 <= k < |init| ensures init[k] == pairs[k] { }
    }
  }

  /** A channel has a candidate exactly when some source pair is eligible. */
  lemma HasCandidateIffEligible(pairs: seq<Pair>, pats: seq<Pattern>)
    ensures Candidates(pairs, pats) != [] <==> exists k :: 0 <= k < |pairs| && Eligible(pairs[k], pats)
  {
    var c := Candidates(pairs, pats);
    CandidatesAreEligible(pairs, pats);
    if c != [] {
      assert c[0] in c;
    }
    if k :| 0 <= k < |pairs| && Eligible(pairs[k], pats) {
      assert Candidate(pairs[k].extinf, pairs[k].url.value) in c;
    }
  }

  // ---------------------------------------------------------------------
  // Best candidate

  /** The scores of a candidate list. */
  function Scores(c: seq<Candidate>, score: string -> nat): (r: seq<int>)
    ensures |r| == |c|
  {
    if c == [] then [] else Scores(c[..|c| - 1], score) + [score(c[|c| - 1].extinf)]
  }

  lemma {:induction false} ScoresAt(c: seq<Candidate>, score: string -> nat, u: nat)
    requires u < |c|
    ensures Scores(c, score)[u] == score(c[u].extinf)
    decreases |c|
  {
    if u < |c| - 1 {
      ScoresAt(c[..|c| - 1], score, u);
      assert c[..|c| - 1][u] == c[u];
    }
  }

  /** `t` indexes a highest score, and no earlier score is as high. */
  predicate IsBest(scores: seq<int>, t: int) {
    && 0 <= t < |scores|
    && (forall u :: 0 <= u < |scores| ==> scores[u] <= scores[t])
    && (forall u :: 0 <= u < t ==> scores[u] < scores[t])
  }

  /** The index `sorted(cands, key=score, reverse=True)[0]` takes. */
  function Best(c: seq<Candidate>, score: string -> nat): (t: nat)
    requires c != []
    ensures IsBest(Scores(c, score), t)
  {
    FirstMaxIndex(Scores(c, score))
  }

  /** Only one index is best. */
  lemma BestUnique(scores: seq<int>, t: int, t': int)
    requires IsBest(scores, t) && IsBest(scores, t')
    ensures t == t'
  {
    assert scores[t] == scores[t'];
  }

  /** The URL picked for a channel with these source patterns: that of its
      best candidate, if it has any. */
  function PickFor(pairs: seq<Pair>, pats: seq<Pattern>, score: string -> nat): Option<string> {
    var c := Candidates(pairs, pats);
    if c == [] then None else Some(c[Best(c, score)].url)
  }

  /** A channel gets a URL exactly when some source pair is eligible. */
  lemma PickForSomeIffEligible(pairs: seq<Pair>, pats: seq<Pattern>, score: string -> nat)
    ensures PickFor(pairs, pats, score).Some? <==> exists k :: 0 <= k < |pairs| && Eligible(pairs[k], pats)
  {
    HasCandidateIffEligible(pairs, pats);
  }

  /** A picked URL is the URL of the channel's best candidate. */
  lemma PickForBest(pairs: seq<Pair>, pats: seq<Pattern>, score: string -> nat)
    requires PickFor(pairs, pats, score).Some?
    ensures exists t :: && IsBest(Scores(Candidates(pairs, pats), score), t)
                        && Candidates(pairs, pats)[t].url == PickFor(pairs, pats, score).value
  {
    var t := Best(Candidates(pairs, pats), score);
  }

  /** A picked URL is the URL of an eligible source pair, so a URL line when
      every source URL is one. */
  lemma PickForFromSource(pairs: seq<Pair>, pats: seq<Pattern>, score: string -> nat)
    requires PickFor(pairs, pats, score).Some?
    ensures exists k :: && 0 <= k < |pairs| && Eligible(pairs[k], pats)
                        && pairs[k].url == PickFor(pairs, pats, score)
  {
    var c := Candidates(pairs, pats);
    var t := Best(c, score);
    CandidatesAreEligible(pairs, pats);
    assert c[t] in c;
  }

  /** `picked` records the pick `o` for channel `n`. */
  predicate Holds(picked: map<string, string>, n: string, o: Option<string>) {
    (n in picked <==> o.Some?) && (n in picked ==> picked[n] == o.value)
  }

  /** `any(p.search(extinf) for p in pats)`: the compiled patterns of a
      channel tried in order, stopping at the first that finds a match. */
  method SearchAny(pats: seq<Pattern>, extinf: string) returns (b: bool)
    ensures b == AnyMatch(pats, extinf)
  {
    var k := 0;
    while k < |pats|
      invariant 0 <= k <= |pats|
      invariant forall m :: 0 <= m < k ==> !pats[m](extinf)
    {
      if pats[k](extinf) {
        return true;
      }
      k := k + 1;
    }
    return false;
  }
}
