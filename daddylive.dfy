/**
  `pull_match_football_from_daddylive.py`: picks the three MATCH! FOOTBALL
  channels out of a daddylive source playlist and rewrites a destination
  playlist with clean two-line entries (`#EXTINF:-1,<official name>` and the
  URL), replacing recognised entries in place and appending the missing
  ones in a fixed order.

  The channel alias regexes are abstract: `aliases(name)` is the list
  `ALIASES.get(name, [])`; every wanted name has an entry in the source.
*/
module Daddylive {
  import opened Wrappers
  import opened Text
  import opened M3u

  /** `WANTED_CHANNELS`, in the order used for matching and appending. */
  const Wanted: seq<string> :=
    ["MATCH! FOOTBALL 1 RUSSIA", "MATCH! FOOTBALL 2 RUSSIA", "MATCH! FOOTBALL 3 RUSSIA"]

  lemma WantedDistinct()
    ensures forall a, b :: 0 <= a < b < |Wanted| ==> Wanted[a] != Wanted[b]
  {
    assert Wanted[0][16] == '1' && Wanted[1][16] == '2' && Wanted[2][16] == '3';
  }

  // ---------------------------------------------------------------------
  // The name regex  #EXTINF[^,]*,(.*)$  (case-insensitive, searched)

  /** A case-insensitive `#EXTINF` starts at position `p`. */
  predicate ExtinfAt(s: string, p: nat) {
    p + 7 <= |s| && Lower(s[p..p + 7]) == "#extinf"
  }

  /** The leftmost match at or after `p`: an `#EXTINF` with a comma somewhere
      after it; group 1 is everything after the first such comma. In Python
      `.` and `$` do not cross a line break, so on a string holding `\n` the
      group would stop there; the model takes the whole rest, which agrees
      because every string searched is one line of `splitlines()`. */
  function GroupFrom(s: string, p: nat): (r: Option<string>)
    decreases |s| - p
  {
    if p + 7 > |s| then None
    else if ExtinfAt(s, p) && ',' in s[p + 7..] then
      var j := IndexOf(s[p + 7..], ',');
      assert s[p + 7..][..|s[p + 7..]|] == s[p + 7..];
      Some(s[p + 7 + j + 1..])
    else GroupFrom(s, p + 1)
  }

  /** `m.group(1)` of `re.search(r"#EXTINF[^,]*,(.*)$", s, flags=re.I)`, or
      none when the search fails. */
  function ExtinfGroup(s: string): Option<string> {
    GroupFrom(s, 0)
  }

  lemma {:induction false} GroupSkipsSpaces(s: string, p: nat, q: nat)
    requires p <= q <= |s| && AllSpace(s[p..q])
    ensures GroupFrom(s, p) == GroupFrom(s, q)
    decreases q - p
  {
    if p < q {
      assert s[p..q][0] == s[p];
      if p + 7 <= |s| {
        assert Lower(s[p..p + 7])[0] == LowerChar(s[p]) == s[p];
      }
      assert s[p + 1..q] == s[p..q][1..];
      GroupSkipsSpaces(s, p + 1, q);
    }
  }

  lemma {:induction false} GroupWithoutComma(s: string, p: nat)
    requires p <= |s| && ',' !in s[p..]
    ensures GroupFrom(s, p) == None
    decreases |s| - p
  {
    if p + 7 <= |s| {
      assert forall c :: c in s[p + 7..] ==> c in s[p..] by {
        forall c | c in s[p + 7..] ensures c in s[p..] {
          var i :| 0 <= i < |s[p + 7..]| && s[p + 7..][i] == c;
          assert s[p..][i + 7] == c;
        }
      }
      assert forall c :: c in s[p + 1..] ==> c in s[p..] by {
        forall c | c in s[p + 1..] ensures c in s[p..] {
          var i :| 0 <= i < |s[p + 1..]| && s[p + 1..][i] == c;
          assert s[p..][i + 1] == c;
        }
      }
      GroupWithoutComma(s, p + 1);
    }
  }

  /** An `#EXTINF` line is whitespace followed by `#EXTINF`. */
  lemma HeaderOffset(s: string) returns (q: nat)
    requires IsHeaderLine(s)
    ensures q + 7 <= |s| && s[q..q + 7] == "#EXTINF" && AllSpace(s[..q])
  {
    var l := LStrip(s);
    q := |s| - |l|;
    LStripSuffix(s);
    LStripRemovesSpace(s);
    RStripPrefix(l);
    assert Strip(s) == RStrip(l);
    assert l[..7] == RStrip(l)[..7];
    assert s[q..q + 7] == l[..7];
  }

  lemma LowerExtinf()
    ensures Lower("#EXTINF") == "#extinf"
  {
    var low := Lower("#EXTINF");
    assert low[0] == '#' && low[1] == 'e' && low[2] == 'x' && low[3] == 't';
    assert low[4] == 'i' && low[5] == 'n' && low[6] == 'f';
  }

  lemma NoCommaBeforeName(s: string, q: nat)
    requires q + 7 <= |s| && s[q..q + 7] == "#EXTINF" && AllSpace(s[..q])
    ensures ',' !in s[..q + 7]
  {
    forall i | 0 <= i < q + 7 ensures s[i] != ',' {
      if i < q { assert IsSpace(s[..q][i]); }
      else { assert s[i] == s[q..q + 7][i - q]; }
    }
  }

  /** On an `#EXTINF` line (possibly indented) the regex captures exactly the
      text after the first comma, and fails when there is no comma. */
  lemma ExtinfGroupOnHeader(s: string)
    requires IsHeaderLine(s)
    ensures ExtinfGroup(s) == CommaRest(s)
  {
    var q := HeaderOffset(s);
    assert s[..q] == s[0..q];
    GroupSkipsSpaces(s, 0, q);
    LowerExtinf();
    NoCommaBeforeName(s, q);
    if ',' in s[q + 7..] {
      GroupWithComma(s, q);
    } else {
      GroupNoComma(s, q);
    }
  }

  lemma GroupWithComma(s: string, q: nat)
    requires q + 7 <= |s| && ExtinfAt(s, q) && ',' !in s[..q + 7] && ',' in s[q + 7..]
    ensures GroupFrom(s, q) == CommaRest(s)
  {
    IndexOfAfter(s, ',', q + 7);
  }

  lemma GroupNoComma(s: string, q: nat)
    requires q + 7 <= |s| && ',' !in s[..q + 7] && ',' !in s[q + 7..]
    ensures GroupFrom(s, q) == None && CommaRest(s) == None
  {
    assert s == s[..q + 7] + s[q + 7..];
    assert s[q..] == s[q..q + 7] + s[q + 7..];
    var w := s[q..q + 7];
    assert ',' !in w by {
      forall i | 0 <= i < 7 ensures w[i] != ',' {
        assert w[i] == s[..q + 7][q + i];
      }
    }
    GroupWithoutComma(s, q);
  }

  // ---------------------------------------------------------------------
  // find_first_match

  /** The text the alias patterns are tried on: the regex group when the
      name regex finds one, otherwise the whole line. */
  function MatchText(extinf: string): string {
    match ExtinfGroup(extinf)
    case Some(g) => g
    case None => extinf
  }

  /** `find_first_match(extinf, pats)`. */
  predicate Matches(extinf: string, pats: seq<Pattern>) {
    AnyMatch(pats, MatchText(extinf))
  }

  /** For an `#EXTINF` line the patterns see the text after the first comma
      when there is a comma, and the whole line otherwise. */
  lemma MatchTextOnHeader(extinf: string)
    requires IsHeaderLine(extinf)
    ensures ',' in extinf ==> MatchText(extinf) == extinf[IndexOf(extinf, ',') + 1..]
    ensures ',' !in extinf ==> MatchText(extinf) == extinf
  {
    ExtinfGroupOnHeader(extinf);
  }

  /** `find_first_match`: the patterns are tried in order and the first hit
      answers. */
  method FindFirstMatch(extinf: string, patterns: seq<Pattern>) returns (b: bool)
    ensures b == Matches(extinf, patterns)
  {
    var txt := extinf;
    var m := ExtinfGroup(extinf);
    if m.Some? {
      txt := m.value;
    }
    var j := 0;
    while j < |patterns|
      invariant 0 <= j <= |patterns|
      invariant forall k :: 0 <= k < j ==> !patterns[k](txt)
    {
      if patterns[j](txt) {
        return true;
      }
      j := j + 1;
    }
    return false;
  }

  // ---------------------------------------------------------------------
  // pick_wanted_clean

  /** The clean header written for a channel. */
  function Clean(name: string): string {
    "#EXTINF:-1," + name
  }

  /** A source pair that can supply a channel with these aliases. */
  predicate Qualifies(p: Pair, pats: seq<Pattern>) {
    Truthy(p.url) && Matches(p.extinf, pats)
  }

  /** The index of the first source pair that supplies the channel. */
  function FirstSupplier(pairs: seq<Pair>, pats: seq<Pattern>): Option<nat> {
    FirstWhere(pairs, p => Qualifies(p, pats))
  }

  /** What `pick_wanted_clean` returns: for each wanted channel some source
      pair supplies, the clean header and the URL of the first such pair. */
  function PickedClean(pairs: seq<Pair>, aliases: string -> seq<Pattern>): map<string, Pair> {
    map n | n in Wanted && FirstSupplier(pairs, aliases(n)).Some?
      :: Pair(Clean(n), pairs[FirstSupplier(pairs, aliases(n)).value].url)
  }

  /** `pick_wanted_clean` only picks wanted channels, always with the clean
      header and a URL; it picks a channel exactly when some source pair with
      a URL matches it, and then takes the URL of the first such pair. */
  lemma PickedCleanMeaning(pairs: seq<Pair>, aliases: string -> seq<Pattern>)
    ensures var r := PickedClean(pairs, aliases);
      && (forall n :: n in r ==> n in Wanted && r[n].extinf == Clean(n) && Truthy(r[n].url))
      && (forall n :: n in Wanted ==>
           (n in r <==> exists k :: 0 <= k < |pairs| && Qualifies(pairs[k], aliases(n))))
      && (forall n :: n in r ==> exists k :: (0 <= k < |pairs| && Qualifies(pairs[k], aliases(n))
           && r[n].url == pairs[k].url && forall j :: 0 <= j < k ==> !Qualifies(pairs[j], aliases(n))))
  {
    var r := PickedClean(pairs, aliases);
    forall n | n in r
      ensures exists k :: (0 <= k < |pairs| && Qualifies(pairs[k], aliases(n))
           && r[n].url == pairs[k].url && forall j :: 0 <= j < k ==> !Qualifies(pairs[j], aliases(n)))
    {
      var k := FirstSupplier(pairs, aliases(n)).value;
      assert Qualifies(pairs[k], aliases(n));
    }
  }

  /** `picked` agrees with `PickedClean` on channel `n` for the first `k` pairs. */
  ghost predicate AgreesOn(picked: map<string, Pair>, pairs: seq<Pair>, aliases: string -> seq<Pattern>,
                           n: string, k: nat)
    requires k <= |pairs|
  {
    var f := FirstSupplier(pairs[..k], aliases(n));
    && (n in picked <==> f.Some?)
    && (n in picked ==> f.Some? && picked[n] == Pair(Clean(n), pairs[..k][f.value].url))
  }

  /** A pair without a URL changes no channel's first supplier. */
  lemma SkipPairWithoutUrl(picked: map<string, Pair>, pairs: seq<Pair>, aliases: string -> seq<Pattern>, i: nat)
    requires i < |pairs| && !Truthy(pairs[i].url)
    requires forall t :: 0 <= t < |Wanted| ==> AgreesOn(picked, pairs, aliases, Wanted[t], i)
    ensures forall t :: 0 <= t < |Wanted| ==> AgreesOn(picked, pairs, aliases, Wanted[t], i + 1)
  {
    assert pairs[..i + 1][..i] == pairs[..i];
    forall t | 0 <= t < |Wanted| ensures AgreesOn(picked, pairs, aliases, Wanted[t], i + 1) {
      FirstWhereSnoc(pairs, i, p => Qualifies(p, aliases(Wanted[t])));
    }
  }

  /** The inner loop of `pick_wanted_clean` for the pair `pairs[i]`, which has
      a URL: every wanted channel not yet picked that the pair matches is
      picked from it. */
  method PickFromPair(picked: map<string, Pair>, pairs: seq<Pair>, aliases: string -> seq<Pattern>, i: nat)
    returns (next: map<string, Pair>)
    requires i < |pairs| && Truthy(pairs[i].url)
    requires forall n :: n in picked ==> n in Wanted
    requires forall t :: 0 <= t < |Wanted| ==> AgreesOn(picked, pairs, aliases, Wanted[t], i)
    ensures forall n :: n in next ==> n in Wanted
    ensures forall t :: 0 <= t < |Wanted| ==> AgreesOn(next, pairs, aliases, Wanted[t], i + 1)
  {
    WantedDistinct();
    next := picked;
    var j := 0;
    while j < |Wanted|
      invariant 0 <= j <= |Wanted|
      invariant forall n :: n in next ==> n in Wanted
      invariant forall t :: 0 <= t < j ==> AgreesOn(next, pairs, aliases, Wanted[t], i + 1)
      invariant forall t :: j <= t < |Wanted| ==> AgreesOn(next, pairs, aliases, Wanted[t], i)
    {
      var name := Wanted[j];
      ghost var prev := next;
      if name !in next {
        var hit := FindFirstMatch(pairs[i].extinf, aliases(name));
        if hit {
          next := next[name := Pair(Clean(name), pairs[i].url)];
        }
      }
      AgreeStep(prev, next, pairs, aliases, i, name);
      forall t | j < t < |Wanted| ensures AgreesOn(next, pairs, aliases, Wanted[t], i) {
        assert Wanted[t] != name;
        AgreesOnFrame(prev, next, pairs, aliases, Wanted[t], i);
      }
      forall t | 0 <= t < j + 1 ensures AgreesOn(next, pairs, aliases, Wanted[t], i + 1) {
        if t < j {
          assert Wanted[t] != name;
          AgreesOnFrame(prev, next, pairs, aliases, Wanted[t], i + 1);
        }
      }
      j := j + 1;
    }
  }

  /** Trying one channel against the pair `pairs[i]` extends the agreement
      for that channel by one pair. */
  lemma AgreeStep(prev: map<string, Pair>, next: map<string, Pair>, pairs: seq<Pair>,
                  aliases: string -> seq<Pattern>, i: nat, n: string)
    requires i < |pairs| && Truthy(pairs[i].url)
    requires AgreesOn(prev, pairs, aliases, n, i)
    requires next == if n !in prev && Matches(pairs[i].extinf, aliases(n))
      then prev[n := Pair(Clean(n), pairs[i].url)] else prev
    ensures AgreesOn(next, pairs, aliases, n, i + 1)
  {
    assert pairs[..i + 1][..i] == pairs[..i];
    FirstWhereSnoc(pairs, i, p => Qualifies(p, aliases(n)));
  }

  /** Agreement on a channel depends only on that channel's entry. */
  lemma AgreesOnFrame(a: map<string, Pair>, b: map<string, Pair>, pairs: seq<Pair>,
                      aliases: string -> seq<Pattern>, n: string, k: nat)
    requires k <= |pairs| && (n in a <==> n in b) && (n in a ==> a[n] == b[n])
    ensures AgreesOn(a, pairs, aliases, n, k) == AgreesOn(b, pairs, aliases, n, k)
  { }

  /** `pick_wanted_clean`: one pass over the source pairs, trying every wanted
      channel not yet picked against each pair with a URL. */
  method PickWantedClean(pairs: seq<Pair>, aliases: string -> seq<Pattern>) returns (picked: map<string, Pair>)
    ensures picked == PickedClean(pairs, aliases)
  {
    picked := map[];
    var i := 0;
    while i < |pairs|
      invariant 0 <= i <= |pairs|
      invariant forall n :: n in picked ==> n in Wanted
      invariant forall t :: 0 <= t < |Wanted| ==> AgreesOn(picked, pairs, aliases, Wanted[t], i)
    {
      if !Truthy(pairs[i].url) {
        SkipPairWithoutUrl(picked, pairs, aliases, i);
      } else {
        picked := PickFromPair(picked, pairs, aliases, i);
      }
      i := i + 1;
    }
    AgreesEverywhere(picked, pairs, aliases);
  }

  lemma AgreesEverywhere(picked: map<string, Pair>, pairs: seq<Pair>, aliases: string -> seq<Pattern>)
    requires forall n :: n in picked ==> n in Wanted
    requires forall t :: 0 <= t < |Wanted| ==> AgreesOn(picked, pairs, aliases, Wanted[t], |pairs|)
    ensures picked == PickedClean(pairs, aliases)
  {
    assert pairs[..|pairs|] == pairs;
    var spec := PickedClean(pairs, aliases);
    forall n | n in Wanted ensures (n in picked <==> n in spec) && (n in picked ==> picked[n] == spec[n]) {
      var t :| 0 <= t < |Wanted| && Wanted[t] == n;
      assert AgreesOn(picked, pairs, aliases, Wanted[t], |pairs|);
    }
  }

  // ---------------------------------------------------------------------
  // render_updated: recognising destination entries

  /** The display name of a destination `#EXTINF`: the stripped regex group,
      or the whole line when the regex fails. */
  function DisplayName(ln: string): string {
    match ExtinfGroup(ln)
    case Some(g) => Strip(g)
    case None => ln
  }

  /** A channel's aliases hit the display name or, as a fallback, the line. */
  predicate Hits(name: string, ln: string, aliases: string -> seq<Pattern>) {
    AnyMatch(aliases(name), DisplayName(ln)) || AnyMatch(aliases(name), ln)
  }

  /** The index of the first of `names` whose aliases hit the line. */
  function FirstHit(names: seq<string>, ln: string, aliases: string -> seq<Pattern>): (r: Option<nat>)
    ensures r.None? <==> forall k :: 0 <= k < |names| ==> !Hits(names[k], ln, aliases)
    ensures r.Some? ==> (r.value < |names| && Hits(names[r.value], ln, aliases)
      && forall j :: 0 <= j < r.value ==> !Hits(names[j], ln, aliases))
    decreases |names|
  {
    if names == [] then None
    else if Hits(names[0], ln, aliases) then Some(0)
    else
      match FirstHit(names[1..], ln, aliases)
      case None => None
      case Some(k) => Some(k + 1)
  }

  /** `idx_to_official[i]` for the line `ln`: an `#EXTINF` line is assigned
      the first wanted channel whose aliases hit it. */
  function Recognised(ln: string, aliases: string -> seq<Pattern>): (r: Option<string>)
    ensures r.Some? ==> IsHeaderLine(ln) && r.value in Wanted
  {
    if IsHeaderLine(ln) then
      match FirstHit(Wanted, ln, aliases)
      case None => None
      case Some(k) => Some(Wanted[k])
    else None
  }

  /** The inner loop of the first loop of `render_updated`: the wanted
      channels are tried in order and the first hit is taken. */
  method RecogniseHeader(ln: string, aliases: string -> seq<Pattern>) returns (r: Option<string>)
    requires IsHeaderLine(ln)
    ensures r == Recognised(ln, aliases)
  {
    var display := DisplayName(ln);
    var j := 0;
    while j < |Wanted|
      invariant 0 <= j <= |Wanted|
      invariant forall k :: 0 <= k < j ==> !Hits(Wanted[k], ln, aliases)
    {
      var pats := aliases(Wanted[j]);
      if AnyMatch(pats, display) || AnyMatch(pats, ln) {
        assert FirstHit(Wanted, ln, aliases) == Some(j);
        return Some(Wanted[j]);
      }
      j := j + 1;
    }
    return None;
  }

  /** The channel recognised on each line, as `idx_to_official` records it. */
  function Classify(lines: seq<string>, aliases: string -> seq<Pattern>): (r: seq<Option<string>>)
    ensures |r| == |lines|
  {
    if lines == [] then []
    else Classify(lines[..|lines| - 1], aliases) + [Recognised(lines[|lines| - 1], aliases)]
  }

  lemma {:induction false} ClassifyAt(lines: seq<string>, aliases: string -> seq<Pattern>, k: nat)
    requires k < |lines|
    ensures Classify(lines, aliases)[k] == Recognised(lines[k], aliases)
    decreases |lines|
  {
    if k < |lines| - 1 {
      ClassifyAt(lines[..|lines| - 1], aliases, k);
      assert lines[..|lines| - 1][k] == lines[k];
    }
  }

  /** A classification that only assigns channels to `#EXTINF` lines. */
  predicate OnHeaders(lines: seq<string>, rec: seq<Option<string>>) {
    |rec| == |lines| && forall k :: 0 <= k < |rec| && rec[k].Some? ==> IsHeaderLine(lines[k])
  }

  lemma ClassifyOnHeaders(lines: seq<string>, aliases: string -> seq<Pattern>)
    ensures OnHeaders(lines, Classify(lines, aliases))
  {
    var rec := Classify(lines, aliases);
    forall k | 0 <= k < |rec| && rec[k].Some? ensures IsHeaderLine(lines[k]) {
      ClassifyAt(lines, aliases, k);
    }
  }

  /** One pass of the first loop of `render_updated`: line `i` enters
      `idx_to_official` when it is a recognised `#EXTINF` line. */
  method IndexStep(lines: seq<string>, aliases: string -> seq<Pattern>, idx: map<int, string>, i: nat)
    returns (idx': map<int, string>)
    requires i < |lines|
    requires forall k :: k in idx <==> 0 <= k < i && Classify(lines, aliases)[k].Some?
    requires forall k :: k in idx ==> idx[k] == Classify(lines, aliases)[k].value
    ensures forall k :: k in idx' <==> 0 <= k < i + 1 && Classify(lines, aliases)[k].Some?
    ensures forall k :: k in idx' ==> idx'[k] == Classify(lines, aliases)[k].value
  {
    ghost var rec := Classify(lines, aliases);
    var ln := lines[i];
    ClassifyAt(lines, aliases, i);
    idx' := idx;
    if IsHeaderLine(ln) {
      var r := RecogniseHeader(ln, aliases);
      if r.Some? {
        idx' := idx[i := r.value];
      }
    } else {
      assert rec[i].None?;
    }
  }

  /** The first loop of `render_updated`, filling `idx_to_official`. */
  method BuildIndex(lines: seq<string>, aliases: string -> seq<Pattern>) returns (idx: map<int, string>)
    ensures forall i :: i in idx <==> 0 <= i < |lines| && Classify(lines, aliases)[i].Some?
    ensures forall i :: i in idx ==> idx[i] == Classify(lines, aliases)[i].value
  {
    idx := map[];
    var i := 0;
    while i < |lines|
      invariant 0 <= i <= |lines|
      invariant forall k :: k in idx <==> 0 <= k < i && Classify(lines, aliases)[k].Some?
      invariant forall k :: k in idx ==> idx[k] == Classify(lines, aliases)[k].value
    {
      idx := IndexStep(lines, aliases, idx, i);
      i := i + 1;
    }
  }

  // ---------------------------------------------------------------------
  // render_updated: the rewrite, the appended channels and the clean-up

  /** The rewritten lines and the set `used` of channels written in place. */
  datatype Rendered = Rendered(out: seq<string>, used: set<string>)

  /** The lines written for a picked channel: its header, then its URL when
      it has one. */
  function Emit(pair: Pair): (r: seq<string>)
    ensures 1 <= |r| <= 2 && r[0] == pair.extinf
  {
    [pair.extinf] + (if Truthy(pair.url) then [pair.url.value] else [])
  }

  /** The second loop of `render_updated` from line `i` on: a recognised
      `#EXTINF` whose channel was picked becomes the picked entry and swallows
      the old URL line after it (non-blank, not `#`); every other line is
      copied. */
  function RenderAt(lines: seq<string>, rec: seq<Option<string>>, i: nat, picked: map<string, Pair>): (r: Rendered)
    requires |rec| == |lines|
    ensures forall o :: o in r.used ==> o in picked
    decreases |lines| - i
  {
    if i >= |lines| then Rendered([], {})
    else
      var o := rec[i];
      if o.Some? && o.value in picked then
        var skip := if i + 1 < |lines| && IsUrlLine(lines[i + 1]) then 2 else 1;
        var t := RenderAt(lines, rec, i + skip, picked);
        Rendered(Emit(picked[o.value]) + t.out, {o.value} + t.used)
      else
        var t := RenderAt(lines, rec, i + 1, picked);
        Rendered([lines[i]] + t.out, t.used)
  }

  predicate Blank(ln: string) {
    Strip(ln) == ""
  }

  /** One step of the append loop: a picked channel not written in place is
      appended after a blank separator (unless the output already ends in a
      blank line or is empty) and a `# --- <name> ---` marker. */
  function AppendOne(out: seq<string>, name: string, used: set<string>, picked: map<string, Pair>): seq<string> {
    if name in used || name !in picked then out
    else
      var sep := if out != [] && !Blank(out[|out| - 1]) then [""] else [];
      out + sep + [Marker(name)] + Emit(picked[name])
  }

  /** The append loop over `names`. */
  function AppendFrom(out: seq<string>, names: seq<string>, used: set<string>, picked: map<string, Pair>): seq<string>
    decreases |names|
  {
    if names == [] then out
    else AppendFrom(AppendOne(out, names[0], used, picked), names[1..], used, picked)
  }

  /** Appending keeps what was already written as a prefix. */
  lemma {:induction false} AppendFromExtends(out: seq<string>, names: seq<string>, used: set<string>, picked: map<string, Pair>)
    ensures var r := AppendFrom(out, names, used, picked); |out| <= |r| && r[..|out|] == out
    decreases |names|
  {
    if names != [] {
      var o := AppendOne(out, names[0], used, picked);
      AppendFromExtends(o, names[1..], used, picked);
      var r := AppendFrom(o, names[1..], used, picked);
      assert o[..|out|] == out;
      assert r[..|out|] == r[..|o|][..|out|];
    }
  }

  /** `while out and not out[-1].strip(): out.pop()`. */
  function DropTrailingBlank(out: seq<string>): (r: seq<string>)
    ensures |r| <= |out|
    ensures r == [] || !Blank(r[|r| - 1])
    decreases |out|
  {
    if out != [] && Blank(out[|out| - 1]) then DropTrailingBlank(out[..|out| - 1]) else out
  }

  /** Only blank lines are removed, and only from the end. */
  lemma {:induction false} DropTrailingBlankPrefix(out: seq<string>)
    ensures var r := DropTrailingBlank(out);
      r == out[..|r|] && forall k :: |r| <= k < |out| ==> Blank(out[k])
    decreases |out|
  {
    if out != [] && Blank(out[|out| - 1]) {
      var init := out[..|out| - 1];
      DropTrailingBlankPrefix(init);
      var r := DropTrailingBlank(init);
      assert r == init[..|r|] == out[..|r|];
      forall k | |r| <= k < |out| ensures Blank(out[k]) {
        if k < |out| - 1 { assert out[k] == init[k]; }
      }
    }
  }

  /** The final lines of `render_updated`. */
  function RenderLines(destText: string, picked: map<string, Pair>, aliases: string -> seq<Pattern>): seq<string> {
    var lines := WithHeader(SplitLines(destText));
    var r := RenderAt(lines, Classify(lines, aliases), 0, picked);
    DropTrailingBlank(AppendFrom(r.out, Wanted, r.used, picked))
  }

  /** The second loop of `render_updated`, over the header-fixed lines. */
  method RewriteInPlace(lines: seq<string>, idx: map<int, string>, picked: map<string, Pair>,
                        aliases: string -> seq<Pattern>)
    returns (out: seq<string>, used: set<string>)
    requires forall i :: i in idx <==> 0 <= i < |lines| && Classify(lines, aliases)[i].Some?
    requires forall i :: i in idx ==> idx[i] == Classify(lines, aliases)[i].value
    ensures Rendered(out, used) == RenderAt(lines, Classify(lines, aliases), 0, picked)
  {
    ghost var rec := Classify(lines, aliases);
    used := {};
    out := [];
    var i := 0;
    ghost var whole := RenderAt(lines, rec, 0, picked);
    while i < |lines|
      invariant 0 <= i <= |lines|
      invariant out + RenderAt(lines, rec, i, picked).out == whole.out
      invariant used + RenderAt(lines, rec, i, picked).used == whole.used
    {
      ghost var before := out;
      ghost var start := i;
      if i in idx && idx[i] in picked {
        var official := idx[i];
        var pair := picked[official];
        out := out + [pair.extinf];
        if Truthy(pair.url) {
          out := out + [pair.url.value];
        }
        assert out == before + Emit(pair);
        used := used + {official};
        if i + 1 < |lines| && IsUrlLine(lines[i + 1]) {
          i := i + 2;
        } else {
          i := i + 1;
        }
        ConcatAssoc(before, Emit(pair), RenderAt(lines, rec, i, picked).out);
      } else {
        out := out + [lines[i]];
        i := i + 1;
        ConcatAssoc(before, [lines[start]], RenderAt(lines, rec, i, picked).out);
      }
    }
  }

  /** The third loop of `render_updated`: the picked channels not written in
      place, appended in `WANTED_CHANNELS` order. */
  method AppendMissing(out0: seq<string>, names: seq<string>, used: set<string>, picked: map<string, Pair>) returns (out: seq<string>)
    ensures out == AppendFrom(out0, names, used, picked)
  {
    out := out0;
    var j := 0;
    while j < |names|
      invariant 0 <= j <= |names|
      invariant AppendFrom(out, names[j..], used, picked) == AppendFrom(out0, names, used, picked)
    {
      var name := names[j];
      assert names[j..][0] == name && names[j..][1..] == names[j + 1..];
      ghost var before := out;
      if name !in used && name in picked {
        var pair := picked[name];
        if out != [] && !Blank(out[|out| - 1]) {
          out := out + [""];
        }
        out := out + ["# --- " + name + " ---"];
        out := out + [pair.extinf];
        if Truthy(pair.url) {
          out := out + [pair.url.value];
        }
      }
      assert out == AppendOne(before, name, used, picked);
      assert AppendFrom(before, names[j..], used, picked) == AppendFrom(out, names[j + 1..], used, picked);
      j := j + 1;
    }
    assert names[|names|..] == [];
  }

  /** `render_updated(dest_text, picked)`. */
  method RenderUpdated(destText: string, picked: map<string, Pair>, aliases: string -> seq<Pattern>)
    returns (text: string)
    ensures text == JoinLines(RenderLines(destText, picked, aliases))
  {
    var lines := SplitLines(destText);
    if lines == [] || !HasM3uHeader(lines[0]) {
      lines := ["#EXTM3U"] + lines;
    }
    assert lines == WithHeader(SplitLines(destText));
    var idx := BuildIndex(lines, aliases);
    var out, used := RewriteInPlace(lines, idx, picked, aliases);
    out := AppendMissing(out, Wanted, used, picked);
    while out != [] && Blank(out[|out| - 1])
      invariant DropTrailingBlank(out) == RenderLines(destText, picked, aliases)
      decreases |out|
    {
      out := out[..|out| - 1];
    }
    text := Join(out, "\n") + "\n";
  }

  // ---------------------------------------------------------------------
  // Properties of render_updated

  lemma DropKeepsNonBlank(out: seq<string>, k: nat)
    requires k < |out| && !Blank(out[k])
    ensures k < |DropTrailingBlank(out)| && DropTrailingBlank(out)[k] == out[k]
  {
    DropTrailingBlankPrefix(out);
  }

  /** The output starts with an `#EXTM3U` header and has no trailing blank
      line. */
  lemma RenderStartsWithHeader(destText: string, picked: map<string, Pair>, aliases: string -> seq<Pattern>)
    ensures var r := RenderLines(destText, picked, aliases);
      |r| > 0 && HasM3uHeader(r[0]) && !Blank(r[|r| - 1])
  {
    var lines := WithHeader(SplitLines(destText));
    ClassifyOnHeaders(lines, aliases);
    RenderKeepsFirstLine(lines, Classify(lines, aliases), picked);
  }

  /** A first line that is not an `#EXTINF` line survives the rewrite, the
      appends and the clean-up. */
  lemma RenderKeepsFirstLine(lines: seq<string>, rec: seq<Option<string>>, picked: map<string, Pair>)
    requires OnHeaders(lines, rec) && |lines| > 0 && HasM3uHeader(lines[0])
    ensures var t := RenderAt(lines, rec, 0, picked);
      var r := DropTrailingBlank(AppendFrom(t.out, Wanted, t.used, picked));
      |r| > 0 && r[0] == lines[0]
  {
    M3uHeaderKind(lines[0]);
    assert rec[0].None?;
    var t := RenderAt(lines, rec, 0, picked);
    assert t.out[0] == lines[0];
    var a := AppendFrom(t.out, Wanted, t.used, picked);
    AppendFromExtends(t.out, Wanted, t.used, picked);
    assert a[0] == a[..|t.out|][0];
    DropKeepsNonBlank(a, 0);
  }

  /** Lines that are neither `#EXTINF` nor URL lines: comments, directives
      and blank lines. */
  predicate Plain(ln: string) {
    !IsHeaderLine(ln) && !IsUrlLine(ln)
  }

  function PlainLines(lines: seq<string>): seq<string> {
    if lines == [] then [] else (if Plain(lines[0]) then [lines[0]] else []) + PlainLines(lines[1..])
  }

  lemma {:induction false} PlainLinesAppend(a: seq<string>, b: seq<string>)
    ensures PlainLines(a + b) == PlainLines(a) + PlainLines(b)
    decreases |a|
  {
    if a == [] {
      assert a + b == b;
    } else {
      assert (a + b)[0] == a[0];
      assert (a + b)[1..] == a[1..] + b;
      PlainLinesAppend(a[1..], b);
      ConcatAssoc(if Plain(a[0]) then [a[0]] else [], PlainLines(a[1..]), PlainLines(b));
    }
  }

  /** Picked entries whose header is an `#EXTINF` line and whose URL, when
      written, is a URL line, as `pick_wanted_clean` produces. */
  predicate WellFormedPicks(picked: map<string, Pair>) {
    forall n :: n in picked ==> (IsHeaderLine(picked[n].extinf)
      && (Truthy(picked[n].url) ==> IsUrlLine(picked[n].url.value)))
  }

  /** The lines written for a well-formed pick contain no plain line. */
  lemma EmitHasNoPlainLine(pair: Pair)
    requires IsHeaderLine(pair.extinf) && (Truthy(pair.url) ==> IsUrlLine(pair.url.value))
    ensures PlainLines(Emit(pair)) == []
  {
    var e := Emit(pair);
    assert !Plain(e[0]);
    if |e| == 2 {
      assert !Plain(e[1]);
      assert e[1..][1..] == [];
    }
    assert PlainLines(e) == PlainLines(e[1..]);
  }

  /** The in-place rewrite copies every comment, directive and blank line
      unchanged and in order, and adds none. */
  lemma {:induction false} RenderKeepsPlainLines(lines: seq<string>, rec: seq<Option<string>>, i: nat,
                                                 picked: map<string, Pair>)
    requires i <= |lines| && OnHeaders(lines, rec) && WellFormedPicks(picked)
    ensures PlainLines(RenderAt(lines, rec, i, picked).out) == PlainLines(lines[i..])
    decreases |lines| - i
  {
    if i < |lines| {
      assert lines[i..] == [lines[i]] + lines[i + 1..];
      PlainLinesAppend([lines[i]], lines[i + 1..]);
      if rec[i].Some? && rec[i].value in picked {
        var j := if i + 1 < |lines| && IsUrlLine(lines[i + 1]) then i + 2 else i + 1;
        RenderKeepsPlainLines(lines, rec, j, picked);
        ReplacedEntryKeepsPlainLines(lines, rec, i, j, picked);
      } else {
        RenderKeepsPlainLines(lines, rec, i + 1, picked);
        PlainLinesAppend([lines[i]], RenderAt(lines, rec, i + 1, picked).out);
      }
    }
  }

  /** One replaced entry: the old header and URL line leave no plain line
      behind, and neither does the picked entry written instead. */
  lemma ReplacedEntryKeepsPlainLines(lines: seq<string>, rec: seq<Option<string>>, i: nat, j: nat,
                                     picked: map<string, Pair>)
    requires i < |lines| && OnHeaders(lines, rec) && WellFormedPicks(picked)
    requires rec[i].Some? && rec[i].value in picked
    requires j == if i + 1 < |lines| && IsUrlLine(lines[i + 1]) then i + 2 else i + 1
    requires PlainLines(RenderAt(lines, rec, j, picked).out) == PlainLines(lines[j..])
    ensures PlainLines(RenderAt(lines, rec, i, picked).out) == PlainLines(lines[i..])
  {
    var e := Emit(picked[rec[i].value]);
    assert RenderAt(lines, rec, i, picked).out == e + RenderAt(lines, rec, j, picked).out;
    EmitHasNoPlainLine(picked[rec[i].value]);
    PlainLinesAppend(e, RenderAt(lines, rec, j, picked).out);
    OldEntryHasNoPlainLine(lines, i, j);
  }

  /** An `#EXTINF` line and the URL line after it are not plain lines. */
  lemma OldEntryHasNoPlainLine(lines: seq<string>, i: nat, j: nat)
    requires i < |lines| && IsHeaderLine(lines[i])
    requires j == if i + 1 < |lines| && IsUrlLine(lines[i + 1]) then i + 2 else i + 1
    ensures PlainLines(lines[i..]) == PlainLines(lines[j..])
  {
    HeaderIsNotUrl(lines[i]);
    assert lines[i..][0] == lines[i] && lines[i..][1..] == lines[i + 1..];
    if j == i + 2 {
      assert lines[i + 1..][0] == lines[i + 1] && lines[i + 1..][1..] == lines[i + 2..];
    }
  }

  /** Without a recognised picked entry the rewrite copies every line and
      uses no channel. */
  lemma {:induction false} RenderUntouched(lines: seq<string>, rec: seq<Option<string>>, i: nat,
                                           picked: map<string, Pair>)
    requires i <= |lines| == |rec|
    requires forall k :: i <= k < |lines| ==> rec[k].None? || rec[k].value !in picked
    ensures RenderAt(lines, rec, i, picked) == Rendered(lines[i..], {})
    decreases |lines| - i
  {
    if i < |lines| {
      RenderUntouched(lines, rec, i + 1, picked);
      assert lines[i..] == [lines[i]] + lines[i + 1..];
    }
  }

  lemma {:induction false} AppendNothing(out: seq<string>, names: seq<string>, used: set<string>, picked: map<string, Pair>)
    requires forall k :: 0 <= k < |names| ==> names[k] in used || names[k] !in picked
    ensures AppendFrom(out, names, used, picked) == out
    decreases |names|
  {
    if names != [] {
      assert forall k :: 0 <= k < |names[1..]| ==> names[1..][k] == names[k + 1];
      AppendNothing(out, names[1..], used, picked);
    }
  }

  /** With nothing picked the destination is only given its header and
      stripped of trailing blank lines. */
  lemma RenderNothingPicked(destText: string, aliases: string -> seq<Pattern>)
    ensures RenderLines(destText, map[], aliases) == DropTrailingBlank(WithHeader(SplitLines(destText)))
  {
    var lines := WithHeader(SplitLines(destText));
    RenderUntouched(lines, Classify(lines, aliases), 0, map[]);
    assert lines[0..] == lines;
    AppendNothing(lines, Wanted, {}, map[]);
  }

  /** Every channel written in place appears, with its clean header, in the
      rewritten lines. */
  lemma {:induction false} UsedAreWritten(lines: seq<string>, rec: seq<Option<string>>, i: nat,
                                          picked: map<string, Pair>)
    requires |rec| == |lines|
    ensures var r := RenderAt(lines, rec, i, picked);
      forall o :: o in r.used ==> picked[o].extinf in r.out
    decreases |lines| - i
  {
    if i < |lines| {
      var o := rec[i];
      if o.Some? && o.value in picked {
        var skip := if i + 1 < |lines| && IsUrlLine(lines[i + 1]) then 2 else 1;
        UsedAreWritten(lines, rec, i + skip, picked);
        var t := RenderAt(lines, rec, i + skip, picked);
        var e := Emit(picked[o.value]);
        forall x | x in t.used ensures picked[x].extinf in e + t.out {
          assert picked[x].extinf in t.out;
        }
        assert (e + t.out)[0] == picked[o.value].extinf;
      } else {
        UsedAreWritten(lines, rec, i + 1, picked);
        var t := RenderAt(lines, rec, i + 1, picked);
        forall x | x in t.used ensures picked[x].extinf in [lines[i]] + t.out {
          assert picked[x].extinf in t.out;
        }
      }
    }
  }

  /** The append loop writes every picked channel in `names` not already
      used. */
  lemma {:induction false} AppendWritesMissing(out: seq<string>, names: seq<string>, used: set<string>,
                                               picked: map<string, Pair>, n: string)
    requires n in names && n !in used && n in picked
    ensures picked[n].extinf in AppendFrom(out, names, used, picked)
    decreases |names|
  {
    var o := AppendOne(out, names[0], used, picked);
    var r := AppendFrom(o, names[1..], used, picked);
    AppendFromExtends(o, names[1..], used, picked);
    if names[0] == n {
      var e := Emit(picked[n]);
      assert o[|o| - |e|] == picked[n].extinf;
      assert r[..|o|][|o| - |e|] == picked[n].extinf;
    } else {
      assert n in names[1..];
      AppendWritesMissing(o, names[1..], used, picked, n);
    }
  }

  /** A picked wanted channel with a non-blank header is written, in place
      or appended, and survives the clean-up. */
  lemma WrittenSomewhere(lines: seq<string>, rec: seq<Option<string>>, picked: map<string, Pair>, n: string)
    requires |rec| == |lines| && n in picked && n in Wanted && !Blank(picked[n].extinf)
    ensures var t := RenderAt(lines, rec, 0, picked);
      picked[n].extinf in DropTrailingBlank(AppendFrom(t.out, Wanted, t.used, picked))
  {
    var t := RenderAt(lines, rec, 0, picked);
    var a := AppendFrom(t.out, Wanted, t.used, picked);
    var k: nat;
    if n in t.used {
      UsedAreWritten(lines, rec, 0, picked);
      k :| 0 <= k < |t.out| && t.out[k] == picked[n].extinf;
      AppendFromExtends(t.out, Wanted, t.used, picked);
      assert a[..|t.out|][k] == picked[n].extinf;
    } else {
      AppendWritesMissing(t.out, Wanted, t.used, picked, n);
      k :| 0 <= k < |a| && a[k] == picked[n].extinf;
    }
    DropKeepsNonBlank(a, k);
  }

  /** Every channel `pick_wanted_clean` found in the source ends up in the
      rendered destination under its clean header. */
  lemma RenderContainsPicked(destText: string, pairs: seq<Pair>, aliases: string -> seq<Pattern>, n: string)
    requires n in PickedClean(pairs, aliases)
    ensures Clean(n) in RenderLines(destText, PickedClean(pairs, aliases), aliases)
  {
    var picked := PickedClean(pairs, aliases);
    var lines := WithHeader(SplitLines(destText));
    assert picked[n].extinf == Clean(n);
    assert !Blank(Clean(n)) by {
      StripEmptyIffAllSpace(Clean(n));
      assert Clean(n)[0] == '#';
    }
    WrittenSomewhere(lines, Classify(lines, aliases), picked, n);
  }

  // ---------------------------------------------------------------------
  // render_updated line by line

  /** Line `k` is the old URL line right after an `#EXTINF` whose channel was
      picked; the rewrite drops it. */
  predicate Swallowed(lines: seq<string>, rec: seq<Option<string>>, picked: map<string, Pair>, k: nat)
    requires |rec| == |lines|
  {
    1 <= k < |lines| && rec[k - 1].Some? && rec[k - 1].value in picked && IsUrlLine(lines[k])
  }

  /** What the rewrite writes for line `k`: the picked entry in place of a
      recognised `#EXTINF` whose channel was picked, nothing for the URL line
      it swallows, and the line itself for every other line. */
  function Piece(lines: seq<string>, rec: seq<Option<string>>, picked: map<string, Pair>, k: nat): seq<string>
    requires |rec| == |lines| && k < |lines|
  {
    if Swallowed(lines, rec, picked, k) then []
    else if rec[k].Some? && rec[k].value in picked then Emit(picked[rec[k].value])
    else [lines[k]]
  }

  /** The pieces of all lines. */
  function PieceList(lines: seq<string>, rec: seq<Option<string>>, picked: map<string, Pair>): (r: seq<seq<string>>)
    requires |rec| == |lines|
    ensures |r| == |lines| && forall k :: 0 <= k < |lines| ==> r[k] == Piece(lines, rec, picked, k)
  {
    seq(|lines|, k requires 0 <= k < |lines| => Piece(lines, rec, picked, k))
  }

  /** The pieces of the first `n` lines, in line order. */
  function Pieces(lines: seq<string>, rec: seq<Option<string>>, picked: map<string, Pair>, n: nat): seq<string>
    requires |rec| == |lines| && n <= |lines|
  {
    Flat(PieceList(lines, rec, picked), n)
  }

  /** The first `n` of the sequences `ss`, one after the other. */
  function Flat<T>(ss: seq<seq<T>>, n: nat): seq<T>
    requires n <= |ss|
  {
    if n == 0 then [] else Flat(ss, n - 1) + ss[n - 1]
  }

  lemma {:induction false} FlatPrefix<T>(ss: seq<seq<T>>, k: nat, m: nat)
    requires k <= m <= |ss|
    ensures |Flat(ss, k)| <= |Flat(ss, m)| && Flat(ss, m)[..|Flat(ss, k)|] == Flat(ss, k)
    decreases m - k
  {
    if k < m {
      FlatPrefix(ss, k, m - 1);
      var a := Flat(ss, k);
      var c := Flat(ss, m - 1);
      var b := Flat(ss, m);
      assert b[..|c|] == c;
      assert b[..|a|] == c[..|a|];
    }
  }

  /** `ss[k]` sits at `|Flat(ss, k)|` in the whole. */
  lemma {:induction false} FlatAt<T>(ss: seq<seq<T>>, k: nat)
    requires k < |ss|
    ensures var all := Flat(ss, |ss|); var p := |Flat(ss, k)|;
      p + |ss[k]| <= |all| && all[p..p + |ss[k]|] == ss[k]
  {
    var all := Flat(ss, |ss|);
    var a := Flat(ss, k);
    var b := Flat(ss, k + 1);
    FlatPrefix(ss, k + 1, |ss|);
    assert b == a + ss[k];
    assert all[|a|..|a| + |ss[k]|] == ss[k] by {
      assert all[|a|..|a| + |ss[k]|] == all[..|b|][|a|..];
      assert b[|a|..] == ss[k];
    }
  }

  /** The number of lines the rewrite consumes at a scan position. */
  /** Flattening one more part, and an empty one after it. */
  lemma {:induction false} FlatStep<T>(ss: seq<seq<T>>, i: nat, j: nat)
    requires i < j <= |ss| && (j == i + 1 || (j == i + 2 && ss[i + 1] == []))
    ensures Flat(ss, j) == Flat(ss, i) + ss[i]
  {
    assert Flat(ss, i + 1) == Flat(ss, i) + ss[i];
    if j == i + 2 {
      assert Flat(ss, i + 2) == Flat(ss, i + 1) + [];
    }
  }

  function Advance(lines: seq<string>, rec: seq<Option<string>>, picked: map<string, Pair>, i: nat): nat
    requires |rec| == |lines| && i < |lines|
  {
    if rec[i].Some? && rec[i].value in picked && i + 1 < |lines| && IsUrlLine(lines[i + 1]) then 2 else 1
  }

  /** One step of the rewrite from a scan position writes the pieces of the
      lines it consumes and stops at the next scan position. */
  lemma {:induction false} RenderStep(lines: seq<string>, rec: seq<Option<string>>, i: nat, picked: map<string, Pair>)
    requires OnHeaders(lines, rec) && i < |lines| && !Swallowed(lines, rec, picked, i)
    ensures var j := i + Advance(lines, rec, picked, i);
      && !Swallowed(lines, rec, picked, j)
      && Pieces(lines, rec, picked, i) + RenderAt(lines, rec, i, picked).out
         == Pieces(lines, rec, picked, j) + RenderAt(lines, rec, j, picked).out
  {
    var j := i + Advance(lines, rec, picked, i);
    NextScan(lines, rec, i, picked);
    var ss := PieceList(lines, rec, picked);
    var pi := ss[i];
    var rest := RenderAt(lines, rec, j, picked).out;
    var whole := RenderAt(lines, rec, i, picked).out;
    var before := Pieces(lines, rec, picked, i);
    var after := Pieces(lines, rec, picked, j);
    assert whole == pi + rest;
    assert after == before + pi by {
      assert before == Flat(ss, i) && after == Flat(ss, j);
      if j == i + 2 {
        if rec[i + 1].Some? {
          HeaderIsNotUrl(lines[i + 1]);
        }
        assert ss[i + 1] == [];
      }
      FlatStep(ss, i, j);
    }
    assert before + whole == after + rest by {
      ConcatAssoc(before, pi, rest);
    }
  }

  /** The rewrite's next scan position is not a swallowed line either. */
  lemma {:induction false} NextScan(lines: seq<string>, rec: seq<Option<string>>, i: nat, picked: map<string, Pair>)
    requires OnHeaders(lines, rec) && i < |lines|
    ensures !Swallowed(lines, rec, picked, i + Advance(lines, rec, picked, i))
  {
    if Advance(lines, rec, picked, i) == 2 && rec[i + 1].Some? {
      HeaderIsNotUrl(lines[i + 1]);
    }
  }

  /** One step of the rewrite adds the channel of a picked `#EXTINF` to
      `used`. */
  lemma {:induction false} UsedStep(lines: seq<string>, rec: seq<Option<string>>, i: nat, picked: map<string, Pair>)
    requires |rec| == |lines| && i < |lines|
    ensures RenderAt(lines, rec, i, picked).used
      == (if rec[i].Some? && rec[i].value in picked then {rec[i].value} else {})
         + RenderAt(lines, rec, i + Advance(lines, rec, picked, i), picked).used
  { }

  /** From a scan position on, the rewrite writes the pieces of the remaining
      lines. */
  lemma {:induction false} RenderPieces(lines: seq<string>, rec: seq<Option<string>>, i: nat, picked: map<string, Pair>)
    requires OnHeaders(lines, rec) && i <= |lines| && !Swallowed(lines, rec, picked, i)
    ensures Pieces(lines, rec, picked, i) + RenderAt(lines, rec, i, picked).out == Pieces(lines, rec, picked, |lines|)
    decreases |lines| - i
  {
    if i < |lines| {
      RenderStep(lines, rec, i, picked);
      RenderPieces(lines, rec, i + Advance(lines, rec, picked, i), picked);
    } else {
      assert RenderAt(lines, rec, i, picked).out == [];
    }
  }

  /** The in-place rewrite is the concatenation, in line order, of every
      line's piece. */
  lemma {:induction false} RenderIsPieces(lines: seq<string>, rec: seq<Option<string>>, picked: map<string, Pair>)
    requires OnHeaders(lines, rec)
    ensures RenderAt(lines, rec, 0, picked).out == Pieces(lines, rec, picked, |lines|)
  {
    RenderPieces(lines, rec, 0, picked);
  }

  /** Line `k`'s piece sits at `|Pieces(lines, rec, picked, k)|` in the
      rewrite. */
  lemma {:induction false} PieceAt(lines: seq<string>, rec: seq<Option<string>>, picked: map<string, Pair>, k: nat)
    requires |rec| == |lines| && k < |lines|
    ensures var all := Pieces(lines, rec, picked, |lines|);
      var p := |Pieces(lines, rec, picked, k)|; var piece := Piece(lines, rec, picked, k);
      && p + |piece| <= |all|
      && all[p..p + |piece|] == piece
  {
    FlatAt(PieceList(lines, rec, picked), k);
  }

  /** The pieces of later lines start after line `k`'s piece ends, so the
      kept lines keep their order. */
  lemma {:induction false} PiecesOrder(lines: seq<string>, rec: seq<Option<string>>, picked: map<string, Pair>, k: nat, m: nat)
    requires |rec| == |lines| && k < m <= |lines|
    ensures |Pieces(lines, rec, picked, k)| + |Piece(lines, rec, picked, k)| <= |Pieces(lines, rec, picked, m)|
  {
    var ss := PieceList(lines, rec, picked);
    FlatPrefix(ss, k + 1, m);
    assert Flat(ss, k + 1) == Flat(ss, k) + ss[k];
  }

  /** A line that is neither a picked channel's `#EXTINF` nor the URL line it
      swallows (an unrecognised `#EXTINF`, one whose channel was not picked,
      its URL line, any other line) is copied unchanged to its place. */
  lemma {:induction false} RenderKeepsLine(lines: seq<string>, rec: seq<Option<string>>, picked: map<string, Pair>, k: nat)
    requires OnHeaders(lines, rec) && k < |lines| && !Swallowed(lines, rec, picked, k)
    requires rec[k].None? || rec[k].value !in picked
    ensures var out := RenderAt(lines, rec, 0, picked).out; var p := |Pieces(lines, rec, picked, k)|;
      p < |out| && out[p] == lines[k]
  {
    RenderIsPieces(lines, rec, picked);
    PieceAt(lines, rec, picked, k);
  }

  /** The kept lines keep their order: two kept lines `k < m` land at
      positions `p < q` of the rewritten lines, holding `lines[k]` and
      `lines[m]`. */
  lemma {:induction false} RenderKeepsOrder(lines: seq<string>, rec: seq<Option<string>>, picked: map<string, Pair>, k: nat, m: nat)
    requires OnHeaders(lines, rec) && k < m < |lines|
    requires !Swallowed(lines, rec, picked, k) && (rec[k].None? || rec[k].value !in picked)
    requires !Swallowed(lines, rec, picked, m) && (rec[m].None? || rec[m].value !in picked)
    ensures var out := RenderAt(lines, rec, 0, picked).out;
      var p := |Pieces(lines, rec, picked, k)|; var q := |Pieces(lines, rec, picked, m)|;
      p < q < |out| && out[p] == lines[k] && out[q] == lines[m]
  {
    RenderKeepsLine(lines, rec, picked, k);
    RenderKeepsLine(lines, rec, picked, m);
    PiecesOrder(lines, rec, picked, k, m);
    assert Piece(lines, rec, picked, k) == [lines[k]];
  }

  /** A recognised `#EXTINF` whose channel was picked is replaced, at its own
      place, by the picked entry. */
  lemma {:induction false} RenderPlacesPick(lines: seq<string>, rec: seq<Option<string>>, picked: map<string, Pair>, k: nat)
    requires OnHeaders(lines, rec) && k < |lines| && rec[k].Some? && rec[k].value in picked
    ensures var out := RenderAt(lines, rec, 0, picked).out; var p := |Pieces(lines, rec, picked, k)|;
      var e := Emit(picked[rec[k].value]);
      p + |e| <= |out| && out[p..p + |e|] == e
  {
    HeaderIsNotUrl(lines[k]);
    assert !Swallowed(lines, rec, picked, k);
    RenderIsPieces(lines, rec, picked);
    PieceAt(lines, rec, picked, k);
  }

  /** Every picked channel of a recognised `#EXTINF` line is written in
      place. */
  lemma {:induction false} UsedComplete(lines: seq<string>, rec: seq<Option<string>>, i: nat, picked: map<string, Pair>, k: nat)
    requires OnHeaders(lines, rec) && i <= k < |lines| && !Swallowed(lines, rec, picked, i)
    requires rec[k].Some? && rec[k].value in picked
    ensures rec[k].value in RenderAt(lines, rec, i, picked).used
    decreases |lines| - i
  {
    UsedStep(lines, rec, i, picked);
    if i < k {
      NextScan(lines, rec, i, picked);
      var j := i + Advance(lines, rec, picked, i);
      if j == i + 2 && k == i + 1 {
        HeaderIsNotUrl(lines[k]);
      } else {
        UsedComplete(lines, rec, j, picked, k);
      }
    }
  }

  /** Every channel written in place is the picked channel of a recognised
      `#EXTINF` line at or after `i`. */
  lemma {:induction false} UsedWitness(lines: seq<string>, rec: seq<Option<string>>, i: nat, picked: map<string, Pair>, o: string)
    returns (k: nat)
    requires OnHeaders(lines, rec) && i <= |lines| && !Swallowed(lines, rec, picked, i)
    requires o in RenderAt(lines, rec, i, picked).used
    ensures i <= k < |lines| && rec[k] == Some(o) && o in picked
    decreases |lines| - i
  {
    if i == |lines| {
      assert false;
    }
    UsedStep(lines, rec, i, picked);
    NextScan(lines, rec, i, picked);
    var j := i + Advance(lines, rec, picked, i);
    if rec[i] == Some(o) && o in picked {
      k := i;
    } else {
      k := UsedWitness(lines, rec, j, picked, o);
    }
  }

  /** The channels written in place are exactly the picked channels of the
      recognised `#EXTINF` lines. */
  lemma {:induction false} UsedMeaning(lines: seq<string>, rec: seq<Option<string>>, picked: map<string, Pair>, o: string)
    requires OnHeaders(lines, rec)
    ensures o in RenderAt(lines, rec, 0, picked).used <==>
      o in picked && exists k :: 0 <= k < |lines| && rec[k] == Some(o)
  {
    if o in RenderAt(lines, rec, 0, picked).used {
      var k := UsedWitness(lines, rec, 0, picked, o);
    }
    if o in picked && exists k :: 0 <= k < |lines| && rec[k] == Some(o) {
      var k :| 0 <= k < |lines| && rec[k] == Some(o);
      UsedComplete(lines, rec, 0, picked, k);
    }
  }

  /** The channels the append loop writes: those in `names`, in order, that
      were picked and not written in place. */
  function Missing(names: seq<string>, used: set<string>, picked: map<string, Pair>): (r: seq<string>)
    ensures forall k :: 0 <= k < |r| ==> r[k] in picked && r[k] !in used && r[k] in names
    decreases |names|
  {
    if names == [] then []
    else (if names[0] !in used && names[0] in picked then [names[0]] else []) + Missing(names[1..], used, picked)
  }

  /** The appended block: for each channel a blank separator, the
      `# --- <name> ---` marker and the picked entry. */
  function Blocks(ns: seq<string>, picked: map<string, Pair>): seq<string>
    requires forall k :: 0 <= k < |ns| ==> ns[k] in picked
    decreases |ns|
  {
    if ns == [] then []
    else ["", Marker(ns[0])] + Emit(picked[ns[0]]) + Blocks(ns[1..], picked)
  }

  /** The `# --- <name> ---` line written before an appended channel. */
  function Marker(name: string): string {
    "# --- " + name + " ---"
  }

  lemma BlockAlgebra<T>(out: seq<T>, x: T, y: T, e: seq<T>, b: seq<T>)
    requires e != []
    ensures (out + [x] + [y] + e) + b == out + ([x, y] + e + b)
    ensures (out + [y] + e) + b == out + ([x, y] + e + b)[1..]
    ensures (out + [x] + [y] + e)[|out + [x] + [y] + e| - 1] == e[|e| - 1]
    ensures (out + [y] + e)[|out + [y] + e| - 1] == e[|e| - 1]
  {
    assert ([x, y] + e + b)[1..] == [y] + e + b;
  }

  /** A header line and a URL line are not blank. */
  lemma {:induction false} EmitEndsNonBlank(pair: Pair)
    requires IsHeaderLine(pair.extinf) && (Truthy(pair.url) ==> IsUrlLine(pair.url.value))
    ensures !Blank(Emit(pair)[|Emit(pair)| - 1])
  { }

  /** A non-empty block ends with the last appended entry's last line. */
  lemma {:induction false} BlocksEnd(ns: seq<string>, picked: map<string, Pair>)
    requires WellFormedPicks(picked) && ns != [] && forall k :: 0 <= k < |ns| ==> ns[k] in picked
    ensures var b := Blocks(ns, picked); |b| >= 2 && !Blank(b[|b| - 1])
  {
    BlocksLast(ns, picked);
    EmitEndsNonBlank(picked[ns[|ns| - 1]]);
  }

  /** A non-empty block ends with the last line of its last channel's entry. */
  lemma {:induction false} BlocksLast(ns: seq<string>, picked: map<string, Pair>)
    requires ns != [] && forall k :: 0 <= k < |ns| ==> ns[k] in picked
    ensures var b := Blocks(ns, picked); var e := Emit(picked[ns[|ns| - 1]]);
      |b| >= 2 && b[|b| - 1] == e[|e| - 1]
    decreases |ns|
  {
    var e := Emit(picked[ns[0]]);
    var head := ["", Marker(ns[0])] + e;
    var rest := Blocks(ns[1..], picked);
    assert Blocks(ns, picked) == head + rest;
    if ns[1..] != [] {
      BlocksLast(ns[1..], picked);
      assert ns[1..][|ns[1..]| - 1] == ns[|ns| - 1];
    } else {
      assert head + [] == head;
    }
  }

  /** `out` followed by the block `b`, whose leading blank separator is left
      out when `out` is empty or already ends in a blank line. */
  function Adjoin(out: seq<string>, b: seq<string>): seq<string> {
    out + (if b != [] && (out == [] || Blank(out[|out| - 1])) then b[1..] else b)
  }

  /** Appending one missing channel and then a block is adjoining the
      channel's own block followed by that block. */
  lemma {:induction false} AdjoinOne(out: seq<string>, n: string, used: set<string>, picked: map<string, Pair>, b: seq<string>)
    requires WellFormedPicks(picked) && n !in used && n in picked
    ensures Adjoin(AppendOne(out, n, used, picked), b) == Adjoin(out, ["", Marker(n)] + Emit(picked[n]) + b)
  {
    var e := Emit(picked[n]);
    var o := AppendOne(out, n, used, picked);
    var whole := ["", Marker(n)] + e + b;
    EmitEndsNonBlank(picked[n]);
    BlockAlgebra(out, "", Marker(n), e, b);
    if out != [] && !Blank(out[|out| - 1]) {
      assert o == out + [""] + [Marker(n)] + e;
      assert Adjoin(out, whole) == out + whole;
    } else {
      assert o == out + [Marker(n)] + e;
      assert Adjoin(out, whole) == out + whole[1..];
    }
    AdjoinAfterNonBlank(o, b);
  }

  /** After a non-blank line a block keeps its leading separator. */
  lemma {:induction false} AdjoinAfterNonBlank(o: seq<string>, b: seq<string>)
    requires o != [] && !Blank(o[|o| - 1])
    ensures Adjoin(o, b) == o + b
  { }

  /** The append loop adds the block of the missing channels, in `names`
      order, leaving out the first blank separator when the output is empty
      or already ends in a blank line. */
  lemma {:induction false} AppendBlocks(out: seq<string>, names: seq<string>, used: set<string>, picked: map<string, Pair>)
    requires WellFormedPicks(picked)
    ensures AppendFrom(out, names, used, picked) == Adjoin(out, Blocks(Missing(names, used, picked), picked))
    decreases |names|
  {
    if names == [] {
      assert out + [] == out;
    } else {
      var n := names[0];
      var o := AppendOne(out, n, used, picked);
      AppendBlocks(o, names[1..], used, picked);
      var m' := Missing(names[1..], used, picked);
      var b' := Blocks(m', picked);
      assert AppendFrom(out, names, used, picked) == Adjoin(o, b');
      if n !in used && n in picked {
        assert Missing(names, used, picked) == [n] + m';
        assert ([n] + m')[1..] == m';
        assert Blocks([n] + m', picked) == ["", Marker(n)] + Emit(picked[n]) + b';
        AdjoinOne(out, n, used, picked, b');
      } else {
        assert Missing(names, used, picked) == m';
      }
    }
  }

  /** A block ending in a non-blank line leaves a non-blank last line,
      whatever it is adjoined to. */
  lemma {:induction false} AdjoinEnds(out: seq<string>, b: seq<string>)
    requires |b| >= 2 && !Blank(b[|b| - 1])
    ensures var r := Adjoin(out, b); r != [] && !Blank(r[|r| - 1]) && DropTrailingBlank(r) == r
  {
    var r := Adjoin(out, b);
    assert r[|r| - 1] == b[|b| - 1];
  }

  /** The layout of the rendering, for any recognised lines. */
  lemma {:induction false} LayoutOf(lines: seq<string>, rec: seq<Option<string>>, picked: map<string, Pair>)
    requires OnHeaders(lines, rec) && WellFormedPicks(picked)
    ensures var t := RenderAt(lines, rec, 0, picked);
      var body := Pieces(lines, rec, picked, |lines|);
      var b := Blocks(Missing(Wanted, t.used, picked), picked);
      DropTrailingBlank(AppendFrom(t.out, Wanted, t.used, picked))
        == if b == [] then DropTrailingBlank(body) else Adjoin(body, b)
  {
    var t := RenderAt(lines, rec, 0, picked);
    var body := Pieces(lines, rec, picked, |lines|);
    var m := Missing(Wanted, t.used, picked);
    var b := Blocks(m, picked);
    RenderIsPieces(lines, rec, picked);
    AppendBlocks(body, Wanted, t.used, picked);
    if b == [] {
      assert Adjoin(body, b) == body;
    } else {
      assert m != [];
      BlocksEnd(m, picked);
      AdjoinEnds(body, b);
    }
  }

  /** The rendered destination, whole: the pieces of the header-fixed lines
      in line order, then, when some picked channel was not written in place,
      the block of those channels in `WANTED_CHANNELS` order (its first
      separator dropped after a blank line); with nothing to append, the
      pieces with their trailing blank lines removed. */
  lemma {:induction false} RenderLinesLayout(destText: string, picked: map<string, Pair>, aliases: string -> seq<Pattern>)
    requires WellFormedPicks(picked)
    ensures var lines := WithHeader(SplitLines(destText)); var rec := Classify(lines, aliases);
      var body := Pieces(lines, rec, picked, |lines|);
      var b := Blocks(Missing(Wanted, RenderAt(lines, rec, 0, picked).used, picked), picked);
      RenderLines(destText, picked, aliases) == if b == [] then DropTrailingBlank(body) else Adjoin(body, b)
  {
    var lines := WithHeader(SplitLines(destText));
    ClassifyOnHeaders(lines, aliases);
    LayoutOf(lines, Classify(lines, aliases), picked);
  }

  /** Every non-blank line the rewrite keeps stays at its place in the final
      text. */
  lemma {:induction false} RenderLinesKeepsLine(destText: string, picked: map<string, Pair>, aliases: string -> seq<Pattern>, k: nat)
    requires var lines := WithHeader(SplitLines(destText)); var rec := Classify(lines, aliases);
      && k < |lines| && !Swallowed(lines, rec, picked, k) && (rec[k].None? || rec[k].value !in picked)
      && !Blank(lines[k])
    ensures var lines := WithHeader(SplitLines(destText)); var rec := Classify(lines, aliases);
      var r := RenderLines(destText, picked, aliases); var p := |Pieces(lines, rec, picked, k)|;
      p < |r| && r[p] == lines[k]
  {
    var lines := WithHeader(SplitLines(destText));
    var rec := Classify(lines, aliases);
    ClassifyOnHeaders(lines, aliases);
    RenderKeepsLine(lines, rec, picked, k);
    var t := RenderAt(lines, rec, 0, picked);
    var a := AppendFrom(t.out, Wanted, t.used, picked);
    AppendFromExtends(t.out, Wanted, t.used, picked);
    var p := |Pieces(lines, rec, picked, k)|;
    assert a[p] == a[..|t.out|][p];
    DropKeepsNonBlank(a, p);
  }

  /** The clean header of a wanted channel is an `#EXTINF` line. */
  lemma {:induction false} CleanIsHeader(n: string)
    requires n in Wanted
    ensures IsHeaderLine(Clean(n))
  {
    var c := Clean(n);
    StripUnchanged(c);
    assert c[..7] == "#EXTINF";
  }

  /** Picks taken from pairs whose URLs are URL lines, as the parser yields
      them, are well formed. */
  lemma {:induction false} PickedCleanWellFormed(pairs: seq<Pair>, aliases: string -> seq<Pattern>)
    requires forall k :: 0 <= k < |pairs| && pairs[k].url.Some? ==> IsUrlLine(pairs[k].url.value)
    ensures WellFormedPicks(PickedClean(pairs, aliases))
  {
    var r := PickedClean(pairs, aliases);
    forall n | n in r ensures IsHeaderLine(r[n].extinf) && (Truthy(r[n].url) ==> IsUrlLine(r[n].url.value)) {
      CleanIsHeader(n);
    }
  }
}
