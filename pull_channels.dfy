/**
  `pull_channels_and_update.py`: picks, for four wanted channels, the best
  scoring URL from a source playlist and writes it into a destination
  playlist, replacing or inserting only the URL line after each matching
  `#EXTINF`; no channel is ever added.

  The channel regexes are abstract: `srcPats(name)` is the list
  `SOURCE_PATTERNS.get(name, [])` tried on a source `#EXTINF` line, and
  `destPats(name)` is `DEST_EXTINF_PATTERNS[name]` tried on a destination
  line.
*/
module PullChannels {
  import opened Wrappers
  import opened Text
  import opened M3u
  import opened Picking

  /** `WANTED_CHANNELS`, in the order both dictionaries are iterated. */
  const Wanted: seq<string> :=
    ["TNT 1", "TNT 2", "Sky Sports Main Event UK", "Sky Sports Premier League UK"]

  lemma WantedDistinct()
    ensures forall a, b :: 0 <= a < b < |Wanted| ==> Wanted[a] != Wanted[b]
  {
    assert |Wanted[0]| == 5 && |Wanted[1]| == 5 && |Wanted[2]| == 24 && |Wanted[3]| == 28;
    assert Wanted[0][4] == '1' && Wanted[1][4] == '2';
  }

  // ---------------------------------------------------------------------
  // score

  /** The flag emoji 🇬🇧, two regional-indicator code points. */
  const Flag: string := "\U{1F1EC}\U{1F1E7}"

  /** `UK_MARKERS`. */
  const UkMarkers: seq<string> := [" uk", "(uk", "[uk", " united kingdom", Flag]

  /** `has_uk_tag(s)`: a UK marker in the lowercased text, or the flag. */
  predicate HasUkTag(s: string) {
    (exists k :: 0 <= k < |UkMarkers| && Contains(Lower(s), UkMarkers[k])) || Contains(s, Flag)
  }

  /** The flag disjunct of `has_uk_tag` adds nothing: lowercasing keeps the
      flag, which is itself one of the markers. */
  lemma FlagIsMarker(s: string)
    ensures HasUkTag(s) <==> exists k :: 0 <= k < |UkMarkers| && Contains(Lower(s), UkMarkers[k])
  {
    if Contains(s, Flag) {
      LowerKeepsFlag(s);
      assert UkMarkers[4] == Flag;
    }
  }

  lemma {:induction false} LowerKeepsFlag(s: string)
    requires Contains(s, Flag)
    ensures Contains(Lower(s), Flag)
    decreases |s|
  {
    if StartsWith(s, Flag) {
      assert Lower(s)[..2] == Flag by {
        assert Lower(s)[0] == LowerChar(s[0]) == s[0];
        assert Lower(s)[1] == LowerChar(s[1]) == s[1];
      }
    } else {
      LowerKeepsFlag(s[1..]);
      assert Lower(s)[1..] == Lower(s[1..]);
    }
  }

  /** `score(item)` on the `#EXTINF` text of a candidate. */
  function Score(extinf: string): (sc: nat)
    ensures sc <= 8
    ensures sc >= 5 <==> HasUkTag(Lower(extinf))
  {
    (if HasUkTag(Lower(extinf)) then 5 else 0) + QualityScore(extinf)
  }

  /** A UK marker outweighs quality and language together. */
  lemma UkOutscores(a: string, b: string)
    requires HasUkTag(Lower(a)) && !HasUkTag(Lower(b))
    ensures Score(a) > Score(b)
  { }

  /** Without a UK marker the score is 2 for quality plus 1 for English. */
  lemma ScoreWithoutUk(extinf: string)
    requires !HasUkTag(Lower(extinf))
    ensures Score(extinf) == QualityScore(extinf)
  { }

  // ---------------------------------------------------------------------
  // pick_wanted

  /** What `pick_wanted` returns. */
  function PickedBest(pairs: seq<Pair>, srcPats: string -> seq<Pattern>): map<string, string> {
    map n | n in Wanted && PickFor(pairs, srcPats(n), Score).Some? :: PickFor(pairs, srcPats(n), Score).value
  }

  /** `pick_wanted` picks only wanted channels, and picks one exactly when
      some source pair with a URL matches it. */
  lemma PickedBestKeys(pairs: seq<Pair>, srcPats: string -> seq<Pattern>)
    ensures var r := PickedBest(pairs, srcPats);
      && (forall n :: n in r ==> n in Wanted)
      && (forall n :: n in Wanted ==>
           (n in r <==> exists k :: 0 <= k < |pairs| && Eligible(pairs[k], srcPats(n))))
  {
    forall n | n in Wanted
      ensures PickFor(pairs, srcPats(n), Score).Some? <==> exists k :: 0 <= k < |pairs| && Eligible(pairs[k], srcPats(n))
    {
      PickForSomeIffEligible(pairs, srcPats(n), Score);
    }
  }

  /** The URL picked for a channel is that of its best candidate. */
  lemma PickedBestValues(pairs: seq<Pair>, srcPats: string -> seq<Pattern>, n: string)
    requires n in PickedBest(pairs, srcPats)
    ensures exists t :: && IsBest(Scores(Candidates(pairs, srcPats(n)), Score), t)
                        && Candidates(pairs, srcPats(n))[t].url == PickedBest(pairs, srcPats)[n]
  {
    PickForBest(pairs, srcPats(n), Score);
  }

  /** `candidates` holds, for every wanted channel, its candidates among the
      first `i` source pairs. */
  ghost predicate CandidatesUpTo(cands: map<string, seq<Candidate>>, pairs: seq<Pair>,
                                 srcPats: string -> seq<Pattern>, n: string, i: nat)
    requires i <= |pairs|
  {
    n in cands && cands[n] == Candidates(pairs[..i], srcPats(n))
  }

  /** The inner loop of the first loop of `pick_wanted`, for the pair
      `pairs[i]`, which has a URL. */
  method AddCandidate(cands: map<string, seq<Candidate>>, pairs: seq<Pair>, srcPats: string -> seq<Pattern>, i: nat)
    returns (next: map<string, seq<Candidate>>)
    requires i < |pairs| && Truthy(pairs[i].url)
    requires forall t :: 0 <= t < |Wanted| ==> CandidatesUpTo(cands, pairs, srcPats, Wanted[t], i)
    ensures forall t :: 0 <= t < |Wanted| ==> CandidatesUpTo(next, pairs, srcPats, Wanted[t], i + 1)
  {
    WantedDistinct();
    assert pairs[..i + 1][..i] == pairs[..i];
    next := cands;
    var j := 0;
    while j < |Wanted|
      invariant 0 <= j <= |Wanted|
      invariant forall t :: 0 <= t < j ==> CandidatesUpTo(next, pairs, srcPats, Wanted[t], i + 1)
      invariant forall t :: j <= t < |Wanted| ==> CandidatesUpTo(next, pairs, srcPats, Wanted[t], i)
    {
      var name := Wanted[j];
      ghost var prev := next;
      var matches := SearchAny(srcPats(name), pairs[i].extinf);
      if matches {
        next := next[name := next[name] + [Candidate(pairs[i].extinf, pairs[i].url.value)]];
      }
      assert CandidatesUpTo(next, pairs, srcPats, name, i + 1);
      forall t | 0 <= t < |Wanted| && t != j
        ensures name !in prev || Wanted[t] == name || (Wanted[t] in next <==> Wanted[t] in prev)
        ensures Wanted[t] in prev ==> Wanted[t] in next && next[Wanted[t]] == prev[Wanted[t]]
      {
        assert Wanted[t] != name;
      }
      j := j + 1;
    }
  }

  /** `pick_wanted`: collect the candidates, then take the best of each
      non-empty list. */
  method PickWanted(pairs: seq<Pair>, srcPats: string -> seq<Pattern>) returns (picked: map<string, string>)
    ensures picked == PickedBest(pairs, srcPats)
  {
    var cands := CollectCandidates(pairs, srcPats);
    WantedDistinct();
    picked := PickEach(cands, Wanted, pairs, srcPats);
    HoldsEverywhere(picked, pairs, srcPats);
  }

  /** The second loop of `pick_wanted`, over the distinct `names`: the best
      candidate of every channel that has one. */
  method PickEach(cands: map<string, seq<Candidate>>, names: seq<string>, pairs: seq<Pair>,
                  srcPats: string -> seq<Pattern>)
    returns (picked: map<string, string>)
    requires forall a, b :: 0 <= a < b < |names| ==> names[a] != names[b]
    requires forall t :: 0 <= t < |names| ==> names[t] in cands && cands[names[t]] == Candidates(pairs, srcPats(names[t]))
    ensures forall n :: n in picked ==> n in names
    ensures forall t :: 0 <= t < |names| ==> Holds(picked, names[t], PickFor(pairs, srcPats(names[t]), Score))
  {
    picked := map[];
    var j := 0;
    while j < |names|
      invariant 0 <= j <= |names|
      invariant forall n :: n in picked ==> n in names[..j]
      invariant forall t :: 0 <= t < j ==> Holds(picked, names[t], PickFor(pairs, srcPats(names[t]), Score))
    {
      picked := PickStep(cands, names, pairs, srcPats, j, picked);
      j := j + 1;
    }
    assert names[..|names|] == names;
  }

  /** One iteration of the second loop of `pick_wanted`: stores the best
      candidate of `names[j]`, if it has any, keeping the earlier picks. */
  method PickStep(cands: map<string, seq<Candidate>>, names: seq<string>, pairs: seq<Pair>,
                  srcPats: string -> seq<Pattern>, j: nat, picked: map<string, string>)
    returns (picked': map<string, string>)
    requires j < |names| && forall t :: 0 <= t < j ==> names[t] != names[j]
    requires names[j] in cands && cands[names[j]] == Candidates(pairs, srcPats(names[j]))
    requires forall n :: n in picked ==> n in names[..j]
    requires forall t :: 0 <= t < j ==> Holds(picked, names[t], PickFor(pairs, srcPats(names[t]), Score))
    ensures forall n :: n in picked' ==> n in names[..j + 1]
    ensures forall t :: 0 <= t < j + 1 ==> Holds(picked', names[t], PickFor(pairs, srcPats(names[t]), Score))
  {
    var name := names[j];
    var lst := cands[name];
    picked' := picked;
    if lst != [] {
      var best := lst[Best(lst, Score)];
      picked' := picked[name := best.url];
    }
    assert Holds(picked', name, PickFor(pairs, srcPats(name), Score));
    assert names[..j + 1] == names[..j] + [name];
    forall t | 0 <= t < j ensures Holds(picked', names[t], PickFor(pairs, srcPats(names[t]), Score)) {
      assert names[t] != name;
      assert Holds(picked, names[t], PickFor(pairs, srcPats(names[t]), Score));
    }
  }

  /** The first loop of `pick_wanted`: the candidates of every wanted
      channel. */
  method CollectCandidates(pairs: seq<Pair>, srcPats: string -> seq<Pattern>)
    returns (cands: map<string, seq<Candidate>>)
    ensures forall t :: 0 <= t < |Wanted| ==>
      Wanted[t] in cands && cands[Wanted[t]] == Candidates(pairs, srcPats(Wanted[t]))
  {
    cands := map n | n in Wanted :: [];
    assert pairs[..0] == [];
    var i := 0;
    while i < |pairs|
      invariant 0 <= i <= |pairs|
      invariant forall t :: 0 <= t < |Wanted| ==> CandidatesUpTo(cands, pairs, srcPats, Wanted[t], i)
    {
      if Truthy(pairs[i].url) {
        cands := AddCandidate(cands, pairs, srcPats, i);
      } else {
        assert pairs[..i + 1][..i] == pairs[..i];
        assert forall t :: 0 <= t < |Wanted| ==> CandidatesUpTo(cands, pairs, srcPats, Wanted[t], i + 1);
      }
      i := i + 1;
    }
    assert pairs[..|pairs|] == pairs;
  }

  lemma HoldsEverywhere(picked: map<string, string>, pairs: seq<Pair>, srcPats: string -> seq<Pattern>)
    requires forall n :: n in picked ==> n in Wanted
    requires forall t :: 0 <= t < |Wanted| ==> Holds(picked, Wanted[t], PickFor(pairs, srcPats(Wanted[t]), Score))
    ensures picked == PickedBest(pairs, srcPats)
  {
    var spec := PickedBest(pairs, srcPats);
    forall n | n in Wanted ensures (n in picked <==> n in spec) && (n in picked ==> picked[n] == spec[n]) {
      var t :| 0 <= t < |Wanted| && Wanted[t] == n;
      assert Holds(picked, Wanted[t], PickFor(pairs, srcPats(Wanted[t]), Score));
    }
  }

  // ---------------------------------------------------------------------
  // update_dest_urls_only

  /** `matched_name`: the first wanted channel, in `DEST_EXTINF_PATTERNS`
      order, whose destination pattern matches the line. */
  function DestMatch(ln: string, destPats: string -> Pattern): Option<nat> {
    FirstWhere(Wanted, n => destPats(n)(ln))
  }

  /** The URL `update_dest_urls_only` writes after the line `ln`, if any: `ln`
      is an `#EXTINF` line whose channel matched and was picked. */
  function NewUrl(ln: string, picked: map<string, string>, destPats: string -> Pattern): (r: Option<string>)
    ensures r.Some? ==> IsHeaderLine(ln) && exists n :: n in picked && r.value == picked[n]
  {
    if IsHeaderLine(ln) then
      match DestMatch(ln, destPats)
      case Some(k) => if Wanted[k] in picked then Some(picked[Wanted[k]]) else None
      case None => None
    else None
  }

  /** `NewUrl` for every line. */
  function NewUrls(lines: seq<string>, picked: map<string, string>, destPats: string -> Pattern): (r: seq<Option<string>>)
    ensures |r| == |lines|
  {
    if lines == [] then []
    else NewUrls(lines[..|lines| - 1], picked, destPats) + [NewUrl(lines[|lines| - 1], picked, destPats)]
  }

  lemma {:induction false} NewUrlsAt(lines: seq<string>, picked: map<string, string>, destPats: string -> Pattern, k: nat)
    requires k < |lines|
    ensures NewUrls(lines, picked, destPats)[k] == NewUrl(lines[k], picked, destPats)
    decreases |lines|
  {
    if k < |lines| - 1 {
      NewUrlsAt(lines[..|lines| - 1], picked, destPats, k);
      assert lines[..|lines| - 1][k] == lines[k];
    }
  }

  /** The rewrite `update_dest_urls_only` performs on the header-fixed lines. */
  function DestRewrite(destText: string, picked: map<string, string>, destPats: string -> Pattern): Rewrite {
    var lines := HeaderedLines(destText);
    ReplaceUrls(lines, NewUrls(lines, picked, destPats))
  }

  /** The inner loop of `update_dest_urls_only`: the destination patterns are
      tried in order and the first match names the channel. */
  method MatchDest(ln: string, destPats: string -> Pattern) returns (r: Option<string>)
    ensures r.None? <==> DestMatch(ln, destPats).None?
    ensures r.Some? ==> r.value == Wanted[DestMatch(ln, destPats).value]
  {
    var j := 0;
    while j < |Wanted|
      invariant 0 <= j <= |Wanted|
      invariant forall t :: 0 <= t < j ==> !destPats(Wanted[t])(ln)
    {
      if destPats(Wanted[j])(ln) {
        return Some(Wanted[j]);
      }
      j := j + 1;
    }
    return None;
  }

  /** One iteration of the loop of `update_dest_urls_only` at line `i`: the
      lines written, the lines consumed and the updates counted. */
  method RewriteLine(lines: seq<string>, ghost nu: seq<Option<string>>, i: nat, picked: map<string, string>,
                     destPats: string -> Pattern)
    returns (emit: seq<string>, skip: nat, inc: nat)
    requires i < |lines| && nu == NewUrls(lines, picked, destPats)
    ensures emit == StepLines(lines, nu, i) && skip == StepSkip(lines, nu, i) && inc == StepUpdates(lines, nu, i)
  {
    NewUrlsAt(lines, picked, destPats, i);
    var ln := lines[i];
    if IsHeaderLine(ln) {
      var matched := MatchDest(ln, destPats);
      if matched.Some? && matched.value in picked {
        var newUrl := picked[matched.value];
        if i + 1 < |lines| && IsUrlLine(lines[i + 1]) {
          var oldUrl := lines[i + 1];
          return [ln, newUrl], 2, if oldUrl != newUrl then 1 else 0;
        } else {
          return [ln, newUrl], 1, 1;
        }
      }
    }
    return [ln], 1, 0;
  }

  /** `update_dest_urls_only(dest_text, picked_urls)`. */
  method UpdateDestUrlsOnly(destText: string, picked: map<string, string>, destPats: string -> Pattern)
    returns (text: string, updates: nat)
    ensures text == FinishText(DestRewrite(destText, picked, destPats).lines)
    ensures updates == DestRewrite(destText, picked, destPats).updates
  {
    var lines := SplitLines(destText);
    if lines == [] || !HasM3uHeader(lines[0]) {
      lines := ["#EXTM3U"] + lines;
    }
    assert lines == HeaderedLines(destText);
    var out;
    out, updates := RewriteLines(lines, picked, destPats);
    text := FinishText(out);
  }

  /** The loop of `update_dest_urls_only` over the header-fixed lines. */
  method RewriteLines(lines: seq<string>, picked: map<string, string>, destPats: string -> Pattern)
    returns (out: seq<string>, updates: nat)
    ensures Rewrite(out, updates) == ReplaceUrls(lines, NewUrls(lines, picked, destPats))
  {
    ghost var nu := NewUrls(lines, picked, destPats);
    ghost var whole := ReplaceAt(lines, nu, 0);
    out := [];
    var i := 0;
    updates := 0;
    while i < |lines|
      invariant 0 <= i <= |lines|
      invariant out + ReplaceAt(lines, nu, i).lines == whole.lines
      invariant updates + ReplaceAt(lines, nu, i).updates == whole.updates
    {
      out, updates, i := RewriteStep(lines, nu, i, picked, destPats, out, updates, whole);
    }
  }

  /** One pass of the loop of `update_dest_urls_only`: line `i` is
      rewritten and the loop's invariant carries over to the next line. */
  method RewriteStep(lines: seq<string>, ghost nu: seq<Option<string>>, i: nat, picked: map<string, string>,
                     destPats: string -> Pattern, out: seq<string>, updates: nat, ghost whole: Rewrite)
    returns (out': seq<string>, updates': nat, i': nat)
    requires i < |lines| && nu == NewUrls(lines, picked, destPats)
    requires out + ReplaceAt(lines, nu, i).lines == whole.lines
    requires updates + ReplaceAt(lines, nu, i).updates == whole.updates
    ensures i < i' <= |lines|
    ensures out' + ReplaceAt(lines, nu, i').lines == whole.lines
    ensures updates' + ReplaceAt(lines, nu, i').updates == whole.updates
  {
    var emit, skip, inc := RewriteLine(lines, nu, i, picked, destPats);
    ReplaceLoopStep(lines, nu, i, out, updates, emit, skip, inc, whole);
    out', updates', i' := out + emit, updates + inc, i + skip;
  }

  // ---------------------------------------------------------------------
  // Properties of the whole update

  /** Every URL `pick_wanted` returns is a URL of the source, so a stripped
      URL line when the pairs come from `parse_m3u_pairs`. */
  lemma PickedAreSourceUrls(pairs: seq<Pair>, srcPats: string -> seq<Pattern>)
    requires forall k :: 0 <= k < |pairs| && pairs[k].url.Some? ==> IsUrlLine(pairs[k].url.value)
    ensures forall n :: n in PickedBest(pairs, srcPats) ==> IsUrlLine(PickedBest(pairs, srcPats)[n])
  {
    forall n | n in PickedBest(pairs, srcPats) ensures IsUrlLine(PickedBest(pairs, srcPats)[n]) {
      PickForFromSource(pairs, srcPats(n), Score);
    }
  }

  /** The first output line is the (possibly inserted) `#EXTM3U` header. */
  lemma DestKeepsHeader(destText: string, picked: map<string, string>, destPats: string -> Pattern)
    ensures var out := DestRewrite(destText, picked, destPats).lines;
      out != [] && out[0] == HeaderedLines(destText)[0] && HasM3uHeader(out[0])
  { }

  /** When every picked URL is a URL line, no channel is added and no other
      line is touched: the lines that are not URL lines, among them every
      `#EXTINF`, are those of the header-fixed destination, in order. */
  lemma DestKeepsNonUrlLines(destText: string, picked: map<string, string>, destPats: string -> Pattern)
    requires forall n :: n in picked ==> IsUrlLine(picked[n])
    ensures NonUrlLines(DestRewrite(destText, picked, destPats).lines) == NonUrlLines(HeaderedLines(destText))
  {
    var lines := HeaderedLines(destText);
    var nu := NewUrls(lines, picked, destPats);
    forall j | 0 <= j < |nu| && nu[j].Some? ensures IsUrlLine(nu[j].value) {
      NewUrlsAt(lines, picked, destPats, j);
    }
    ReplaceKeepsNonUrlLines(lines, nu, 0);
    assert lines[0..] == lines;
  }

  /** The returned count is zero exactly when the header-fixed destination
      comes out unchanged. */
  lemma DestNoUpdatesIffUnchanged(destText: string, picked: map<string, string>, destPats: string -> Pattern)
    ensures DestRewrite(destText, picked, destPats).updates == 0
      <==> DestRewrite(destText, picked, destPats).lines == HeaderedLines(destText)
  {
    var lines := HeaderedLines(destText);
    NoUpdatesIffUnchanged(lines, NewUrls(lines, picked, destPats), 0);
    assert lines[0..] == lines;
  }

  /** With nothing picked the destination is only given its header. */
  lemma DestNothingPicked(destText: string, destPats: string -> Pattern)
    ensures DestRewrite(destText, map[], destPats) == Rewrite(HeaderedLines(destText), 0)
  {
    var lines := HeaderedLines(destText);
    var nu := NewUrls(lines, map[], destPats);
    forall j | 0 <= j < |nu| ensures nu[j].None? {
      NewUrlsAt(lines, map[], destPats, j);
    }
    ReplaceNothingPicked(lines, nu, 0);
    assert lines[0..] == lines;
  }
}
