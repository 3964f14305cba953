/**
  `update_dazn_pt.py`: picks, for the three Portuguese DAZN ELEVEN channels,
  the best scoring URL from a source playlist and writes it into the
  destination playlist after each `#EXTINF` named `DAZN 1`, `DAZN 2` or
  `DAZN 3`, replacing or inserting only the URL line; no channel is ever
  added and `DAZN 4` to `DAZN 6` are left alone.

  The source regexes are abstract: `srcPats(num)` is
  `source_patterns_for(num)`. The destination regex, which has a fixed
  shape, is modelled concretely.
*/
module DaznPt {
  import opened Wrappers
  import opened Text
  import opened M3u
  import opened Picking

  /** The keys of `WANTED`, in dictionary order. */
  const Wanted: seq<string> := ["DAZN ELEVEN 1 PORTUGAL", "DAZN ELEVEN 2 PORTUGAL", "DAZN ELEVEN 3 PORTUGAL"]

  /** `WANTED[name]`: the channel number of a wanted source name. */
  const WantedNum: map<string, nat> :=
    map["DAZN ELEVEN 1 PORTUGAL" := 1, "DAZN ELEVEN 2 PORTUGAL" := 2, "DAZN ELEVEN 3 PORTUGAL" := 3]

  /** `f"DAZN ELEVEN {num} PORTUGAL"`, the `wanted_by_num` entry of `num`. */
  function WantedKey(num: nat): string {
    "DAZN ELEVEN " + Decimal(num) + " PORTUGAL"
  }

  /** `wanted_by_num` inverts `WANTED`: the destination channel `DAZN n` is
      fed from the `n`-th wanted source channel. */
  lemma WantedByNum()
    ensures forall k :: 0 <= k < |Wanted| ==> Wanted[k] in WantedNum && WantedNum[Wanted[k]] == k + 1
    ensures forall k :: 0 <= k < |Wanted| ==> WantedKey(k + 1) == Wanted[k]
    ensures forall a, b :: 0 <= a < b < |Wanted| ==> Wanted[a] != Wanted[b]
  {
    assert Decimal(1) == "1" && Decimal(2) == "2" && Decimal(3) == "3";
    assert Wanted[0][12] == '1' && Wanted[1][12] == '2' && Wanted[2][12] == '3';
  }

  // ---------------------------------------------------------------------
  // pick_from_source

  /** What `pick_from_source` returns: for every wanted channel with a
      candidate, the URL of its best candidate under the quality and
      language score. */
  function PickedFromSource(pairs: seq<Pair>, srcPats: nat -> seq<Pattern>): map<string, string> {
    map n | n in Wanted && PickFor(pairs, srcPats(WantedNum[n]), QualityScore).Some?
      :: PickFor(pairs, srcPats(WantedNum[n]), QualityScore).value
  }

  /** Only wanted channels are picked, and a channel is picked exactly when
      some source pair with a URL matches one of its patterns. */
  lemma PickedFromSourceKeys(pairs: seq<Pair>, srcPats: nat -> seq<Pattern>)
    ensures var r := PickedFromSource(pairs, srcPats);
      && (forall n :: n in r ==> n in Wanted)
      && (forall n :: n in Wanted ==>
           (n in r <==> exists k :: 0 <= k < |pairs| && Eligible(pairs[k], srcPats(WantedNum[n]))))
  {
    forall n | n in Wanted
      ensures PickFor(pairs, srcPats(WantedNum[n]), QualityScore).Some?
        <==> exists k :: 0 <= k < |pairs| && Eligible(pairs[k], srcPats(WantedNum[n]))
    {
      PickForSomeIffEligible(pairs, srcPats(WantedNum[n]), QualityScore);
    }
  }

  /** The URL picked for a channel is that of its best candidate. */
  lemma PickedFromSourceValues(pairs: seq<Pair>, srcPats: nat -> seq<Pattern>, n: string)
    requires n in PickedFromSource(pairs, srcPats)
    ensures exists t :: && IsBest(Scores(Candidates(pairs, srcPats(WantedNum[n])), QualityScore), t)
                        && Candidates(pairs, srcPats(WantedNum[n]))[t].url == PickedFromSource(pairs, srcPats)[n]
  {
    PickForBest(pairs, srcPats(WantedNum[n]), QualityScore);
  }

  /** The inner loop of `pick_from_source`: the candidates of one channel. */
  method CollectFor(pairs: seq<Pair>, pats: seq<Pattern>) returns (cands: seq<Candidate>)
    ensures cands == Candidates(pairs, pats)
  {
    cands := [];
    var i := 0;
    while i < |pairs|
      invariant 0 <= i <= |pairs|
      invariant cands == Candidates(pairs[..i], pats)
    {
      assert pairs[..i + 1][..i] == pairs[..i];
      var extinf, url := pairs[i].extinf, pairs[i].url;
      if Truthy(url) {
        var matches := SearchAny(pats, extinf);
        if matches {
          cands := cands + [Candidate(extinf, url.value)];
        }
      }
      i := i + 1;
    }
    assert pairs[..|pairs|] == pairs;
  }

  /** `pick_from_source(pairs)`. */
  method PickFromSource(pairs: seq<Pair>, srcPats: nat -> seq<Pattern>) returns (picked: map<string, string>)
    ensures picked == PickedFromSource(pairs, srcPats)
  {
    WantedByNum();
    picked := PickNames(pairs, srcPats, Wanted);
    forall n | n in Wanted
      ensures Holds(picked, n, PickFor(pairs, srcPats(WantedNum[n]), QualityScore))
    {
      var t :| 0 <= t < |Wanted| && Wanted[t] == n;
    }
  }

  /** The loop of `pick_from_source` over the distinct wanted `names`. */
  method PickNames(pairs: seq<Pair>, srcPats: nat -> seq<Pattern>, names: seq<string>)
    returns (picked: map<string, string>)
    requires forall a, b :: 0 <= a < b < |names| ==> names[a] != names[b]
    requires forall t :: 0 <= t < |names| ==> names[t] in WantedNum
    ensures forall n :: n in picked ==> n in names
    ensures forall t :: 0 <= t < |names| ==>
      Holds(picked, names[t], PickFor(pairs, srcPats(WantedNum[names[t]]), QualityScore))
  {
    picked := map[];
    var j := 0;
    while j < |names|
      invariant 0 <= j <= |names|
      invariant forall n :: n in picked ==> n in names[..j]
      invariant forall t :: 0 <= t < j ==>
        Holds(picked, names[t], PickFor(pairs, srcPats(WantedNum[names[t]]), QualityScore))
    {
      picked := PickOne(pairs, srcPats, names, j, picked);
      j := j + 1;
    }
    assert names[..|names|] == names;
  }

  /** One iteration of the loop of `pick_from_source`: stores the best
      candidate of `names[j]`, if it has any, keeping the earlier picks. */
  method PickOne(pairs: seq<Pair>, srcPats: nat -> seq<Pattern>, names: seq<string>, j: nat,
                 picked: map<string, string>)
    returns (picked': map<string, string>)
    requires forall a, b :: 0 <= a < b < |names| ==> names[a] != names[b]
    requires forall t :: 0 <= t < |names| ==> names[t] in WantedNum
    requires j < |names|
    requires forall n :: n in picked ==> n in names[..j]
    requires forall t :: 0 <= t < j ==>
      Holds(picked, names[t], PickFor(pairs, srcPats(WantedNum[names[t]]), QualityScore))
    ensures forall n :: n in picked' ==> n in names[..j + 1]
    ensures forall t :: 0 <= t < j + 1 ==>
      Holds(picked', names[t], PickFor(pairs, srcPats(WantedNum[names[t]]), QualityScore))
  {
    var name := names[j];
    var cands := CollectFor(pairs, srcPats(WantedNum[name]));
    picked' := picked;
    if cands != [] {
      var best := cands[Best(cands, QualityScore)];
      picked' := picked[name := best.url];
    }
    assert Holds(picked', name, PickFor(pairs, srcPats(WantedNum[name]), QualityScore));
    assert names[..j + 1] == names[..j] + [name];
    PickedKept(picked, picked', names, j, pairs, srcPats);
  }

  /** Storing the pick of `names[j]` leaves the picks of the earlier
      names in place. */
  lemma PickedKept(prev: map<string, string>, picked: map<string, string>, names: seq<string>, j: nat,
                   pairs: seq<Pair>, srcPats: nat -> seq<Pattern>)
    requires j < |names| && forall a, b :: 0 <= a < b < |names| ==> names[a] != names[b]
    requires forall t :: 0 <= t < |names| ==> names[t] in WantedNum
    requires forall n :: n != names[j] ==> (n in picked <==> n in prev) && (n in prev ==> picked[n] == prev[n])
    requires forall t :: 0 <= t < j ==>
      Holds(prev, names[t], PickFor(pairs, srcPats(WantedNum[names[t]]), QualityScore))
    ensures forall t :: 0 <= t < j ==>
      Holds(picked, names[t], PickFor(pairs, srcPats(WantedNum[names[t]]), QualityScore))
  {
    forall t | 0 <= t < j
      ensures Holds(picked, names[t], PickFor(pairs, srcPats(WantedNum[names[t]]), QualityScore))
    {
      assert names[t] != names[j];
    }
  }

  // ---------------------------------------------------------------------
  // dest_regex_for

  /** The character the number of `dest_regex_for` is compared with: the
      line begins with `#EXTINF` in any case, and after its first comma and
      any whitespace comes `DAZN` in any case, any whitespace, and then this
      character, which is the last of the line or followed by a non-word
      character. */
  function DestDigit(ln: string): Option<char> {
    if |ln| < 7 || Upper(ln[..7]) != "#EXTINF" then None
    else
      match CommaRest(ln[7..])
      case None => None
      case Some(name) =>
        var a := LStrip(name);
        if |a| < 4 || Upper(a[..4]) != "DAZN" then None
        else
          var b := LStrip(a[4..]);
          if |b| >= 1 && (|b| == 1 || !IsWordChar(b[1])) then Some(b[0]) else None
  }

  /** `dest_regex_for(num).search(ln)` for a one-digit `num`, that is
      `^#EXTINF[^,]*,\s*DAZN\s*{num}\b.*$` without case. */
  predicate DestPattern(ln: string, num: nat)
    requires num < 10
  {
    DestDigit(ln) == Some(DigitChar(num))
  }

  /** The first of `dest_pats` (numbers 1, 2, 3 in order) whose pattern
      matches the line. */
  function DestNum(ln: string): (r: Option<nat>)
    ensures r.Some? ==> 1 <= r.value <= 3 && DestPattern(ln, r.value)
    ensures r.None? <==> !DestPattern(ln, 1) && !DestPattern(ln, 2) && !DestPattern(ln, 3)
  {
    if DestPattern(ln, 1) then Some(1)
    else if DestPattern(ln, 2) then Some(2)
    else if DestPattern(ln, 3) then Some(3)
    else None
  }

  /** One line matches the pattern of one number at most, so the order in
      which `dest_pats` is tried does not matter. */
  lemma DestPatternExclusive(ln: string, m: nat, n: nat)
    requires m < 10 && n < 10 && DestPattern(ln, m) && DestPattern(ln, n)
    ensures m == n
  { }

  /** `DAZN 4` to `DAZN 9`, and `DAZN 0`, are never touched. */
  lemma OtherNumbersUntouched(ln: string, m: nat)
    requires m < 10 && DestPattern(ln, m) && !(1 <= m <= 3)
    ensures DestNum(ln).None?
  { }

  /** The shape the source's own examples have: `#EXTINF:-1,DAZN n`. */
  lemma DestDigitPlain(n: char)
    requires !IsSpace(n)
    ensures DestDigit("#EXTINF:-1,DAZN " + [n]) == Some(n)
  {
    var ln := "#EXTINF:-1,DAZN " + [n];
    assert ln[..7] == "#EXTINF";
    assert Upper("#EXTINF") == "#EXTINF";
    assert ln[7..] == ":-1,DAZN " + [n];
    var s := ":-1,DAZN " + [n];
    assert s[..3] == ":-1";
    IndexOfAfter(s, ',', 3);
    assert s[3..][0] == ',';
    assert IndexOf(s[3..], ',') == 0;
    assert IndexOf(s, ',') == 3;
    assert s[4..] == "DAZN " + [n];
    assert CommaRest(ln[7..]) == Some("DAZN " + [n]);
    assert LStrip("DAZN " + [n]) == "DAZN " + [n];
    assert ("DAZN " + [n])[..4] == "DAZN";
    assert Upper("DAZN") == "DAZN";
    assert ("DAZN " + [n])[4..] == " " + [n];
    assert (" " + [n])[1..] == [n];
    assert LStrip(" " + [n]) == LStrip([n]) == [n];
  }

  /** `#EXTINF:-1,DAZN 1` is `DAZN 1`. */
  lemma DestExampleOne()
    ensures DestNum("#EXTINF:-1,DAZN 1") == Some(1)
  {
    DestDigitPlain('1');
    assert "#EXTINF:-1,DAZN " + ['1'] == "#EXTINF:-1,DAZN 1";
  }

  /** `#EXTINF:-1,DAZN 4` is left alone. */
  lemma DestExampleFour()
    ensures DestNum("#EXTINF:-1,DAZN 4").None?
  {
    DestDigitPlain('4');
    assert "#EXTINF:-1,DAZN " + ['4'] == "#EXTINF:-1,DAZN 4";
  }

  // ---------------------------------------------------------------------
  // update_dest_urls_only

  /** The URL `update_dest_urls_only` writes after the line `ln`, if any: `ln`
      is an `#EXTINF` line of `DAZN n` for n in 1..3 and the source channel
      of `n` was picked. */
  function NewUrl(ln: string, picked: map<string, string>): (r: Option<string>)
    ensures r.Some? ==> && IsHeaderLine(ln) && DestNum(ln).Some? && WantedKey(DestNum(ln).value) in picked
                        && r.value == picked[WantedKey(DestNum(ln).value)]
  {
    if IsHeaderLine(ln) then
      match DestNum(ln)
      case Some(num) => if WantedKey(num) in picked then Some(picked[WantedKey(num)]) else None
      case None => None
    else None
  }

  /** `NewUrl` for every line. */
  function NewUrls(lines: seq<string>, picked: map<string, string>): (r: seq<Option<string>>)
    ensures |r| == |lines|
  {
    if lines == [] then []
    else NewUrls(lines[..|lines| - 1], picked) + [NewUrl(lines[|lines| - 1], picked)]
  }

  lemma {:induction false} NewUrlsAt(lines: seq<string>, picked: map<string, string>, k: nat)
    requires k < |lines|
    ensures NewUrls(lines, picked)[k] == NewUrl(lines[k], picked)
    decreases |lines|
  {
    if k < |lines| - 1 {
      NewUrlsAt(lines[..|lines| - 1], picked, k);
      assert lines[..|lines| - 1][k] == lines[k];
    }
  }

  /** The rewrite `update_dest_urls_only` performs on the header-fixed lines. */
  function DestRewrite(destText: string, picked: map<string, string>): Rewrite {
    var lines := HeaderedLines(destText);
    ReplaceUrls(lines, NewUrls(lines, picked))
  }

  /** The inner loop of `update_dest_urls_only` over `dest_pats`. */
  method MatchDestNum(ln: string) returns (r: Option<nat>)
    ensures r == DestNum(ln)
  {
    var num := 1;
    while num <= 3
      invariant 1 <= num <= 4
      invariant forall m :: 1 <= m < num ==> !DestPattern(ln, m)
    {
      if DestPattern(ln, num) {
        return Some(num);
      }
      num := num + 1;
    }
    return None;
  }

  /** One iteration of the loop of `update_dest_urls_only` at line `i`: the
      lines written, the lines consumed and the updates counted. */
  method RewriteLine(lines: seq<string>, ghost nu: seq<Option<string>>, i: nat, picked: map<string, string>)
    returns (emit: seq<string>, skip: nat, inc: nat)
    requires i < |lines| && nu == NewUrls(lines, picked)
    ensures emit == StepLines(lines, nu, i) && skip == StepSkip(lines, nu, i) && inc == StepUpdates(lines, nu, i)
  {
    NewUrlsAt(lines, picked, i);
    var ln := lines[i];
    if IsHeaderLine(ln) {
      var matched := MatchDestNum(ln);
      if matched.Some? {
        var wantedKey := WantedKey(matched.value);
        if wantedKey in picked {
          var newUrl := picked[wantedKey];
          if i + 1 < |lines| && IsUrlLine(lines[i + 1]) {
            var oldUrl := lines[i + 1];
            return [ln, newUrl], 2, if oldUrl != newUrl then 1 else 0;
          } else {
            return [ln, newUrl], 1, 1;
          }
        }
      }
    }
    return [ln], 1, 0;
  }

  /** The loop of `update_dest_urls_only` over the header-fixed lines. */
  method RewriteLines(lines: seq<string>, picked: map<string, string>) returns (out: seq<string>, updates: nat)
    ensures Rewrite(out, updates) == ReplaceUrls(lines, NewUrls(lines, picked))
  {
    ghost var nu := NewUrls(lines, picked);
    ghost var whole := ReplaceAt(lines, nu, 0);
    out := [];
    var i := 0;
    updates := 0;
    while i < |lines|
      invariant 0 <= i <= |lines|
      invariant out + ReplaceAt(lines, nu, i).lines == whole.lines
      invariant updates + ReplaceAt(lines, nu, i).updates == whole.updates
    {
      out, updates, i := RewriteStep(lines, nu, i, picked, out, updates, whole);
    }
  }

  /** One pass of the loop of `update_dest_urls_only`: line `i` is
      rewritten and the loop's invariant carries over to the next line. */
  method RewriteStep(lines: seq<string>, ghost nu: seq<Option<string>>, i: nat, picked: map<string, string>,
                     out: seq<string>, updates: nat, ghost whole: Rewrite)
    returns (out': seq<string>, updates': nat, i': nat)
    requires i < |lines| && nu == NewUrls(lines, picked)
    requires out + ReplaceAt(lines, nu, i).lines == whole.lines
    requires updates + ReplaceAt(lines, nu, i).updates == whole.updates
    ensures i < i' <= |lines|
    ensures out' + ReplaceAt(lines, nu, i').lines == whole.lines
    ensures updates' + ReplaceAt(lines, nu, i').updates == whole.updates
  {
    var emit, skip, inc := RewriteLine(lines, nu, i, picked);
    ReplaceLoopStep(lines, nu, i, out, updates, emit, skip, inc, whole);
    out', updates', i' := out + emit, updates + inc, i + skip;
  }

  /** `update_dest_urls_only(dest_text, picked)`. */
  method UpdateDestUrlsOnly(destText: string, picked: map<string, string>) returns (text: string, updates: nat)
    ensures text == FinishText(DestRewrite(destText, picked).lines)
    ensures updates == DestRewrite(destText, picked).updates
  {
    var lines := SplitLines(destText);
    if lines == [] || !HasM3uHeader(lines[0]) {
      lines := ["#EXTM3U"] + lines;
    }
    assert lines == HeaderedLines(destText);
    var out;
    out, updates := RewriteLines(lines, picked);
    text := FinishText(out);
  }

  // ---------------------------------------------------------------------
  // Properties of the whole update

  /** Only the URL after an `#EXTINF` of `DAZN 1`, `DAZN 2` or `DAZN 3` whose
      source channel was picked is written. */
  lemma OnlyDaznOneToThree(destText: string, picked: map<string, string>, i: nat)
    requires i < |HeaderedLines(destText)|
    requires NewUrls(HeaderedLines(destText), picked)[i].Some?
    ensures var ln := HeaderedLines(destText)[i];
      IsHeaderLine(ln) && DestNum(ln).Some? && WantedKey(DestNum(ln).value) in picked
  {
    NewUrlsAt(HeaderedLines(destText), picked, i);
  }

  /** When every picked URL is a URL line, no channel is added and no other
      line is touched: the lines that are not URL lines, every `#EXTINF`
      among them, are those of the header-fixed destination, in order. */
  lemma DestKeepsNonUrlLines(destText: string, picked: map<string, string>)
    requires forall n :: n in picked ==> IsUrlLine(picked[n])
    ensures NonUrlLines(DestRewrite(destText, picked).lines) == NonUrlLines(HeaderedLines(destText))
  {
    var lines := HeaderedLines(destText);
    var nu := NewUrls(lines, picked);
    forall j | 0 <= j < |nu| && nu[j].Some? ensures IsUrlLine(nu[j].value) {
      NewUrlsAt(lines, picked, j);
    }
    ReplaceKeepsNonUrlLines(lines, nu, 0);
    assert lines[0..] == lines;
  }

  /** The returned count is zero exactly when the header-fixed destination
      comes out unchanged. */
  lemma DestNoUpdatesIffUnchanged(destText: string, picked: map<string, string>)
    ensures DestRewrite(destText, picked).updates == 0
      <==> DestRewrite(destText, picked).lines == HeaderedLines(destText)
  {
    var lines := HeaderedLines(destText);
    NoUpdatesIffUnchanged(lines, NewUrls(lines, picked), 0);
    assert lines[0..] == lines;
  }

  /** When none of the three source channels was picked, every `DAZN n`
      entry passes through unchanged. */
  lemma DestNothingPicked(destText: string, picked: map<string, string>)
    requires forall k :: 0 <= k < |Wanted| ==> Wanted[k] !in picked
    ensures DestRewrite(destText, picked) == Rewrite(HeaderedLines(destText), 0)
  {
    var lines := HeaderedLines(destText);
    var nu := NewUrls(lines, picked);
    forall j | 0 <= j < |nu| ensures nu[j].None? {
      NewUrlsAt(lines, picked, j);
      NothingToWrite(lines[j], picked);
    }
    ReplaceNothingPicked(lines, nu, 0);
    assert lines[0..] == lines;
  }

  lemma NothingToWrite(ln: string, picked: map<string, string>)
    requires forall k :: 0 <= k < |Wanted| ==> Wanted[k] !in picked
    ensures NewUrl(ln, picked).None?
  {
    WantedByNum();
    if IsHeaderLine(ln) && DestNum(ln).Some? {
      var num := DestNum(ln).value;
      assert WantedKey(num) == Wanted[num - 1];
    }
  }

  /** The first output line is the (possibly inserted) `#EXTM3U` header. */
  lemma DestKeepsHeader(destText: string, picked: map<string, string>)
    ensures var out := DestRewrite(destText, picked).lines;
      out != [] && out[0] == HeaderedLines(destText)[0] && HasM3uHeader(out[0])
  { }
}
