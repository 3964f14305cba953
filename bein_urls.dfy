/**
  `update_bein_urls.py`: takes, for `beIN SPORTS 6` to `beIN SPORTS 9`, the
  URL of the first source `#EXTINF` that a channel's regex finds a match in,
  and replaces the URL line after each destination `#EXTINF` naming that
  channel.

  The source regexes `BEIN\s+SPORTS.*n` are abstract: `srcPat(name)` is
  `MAP[name]`. Unlike the other updaters this one enforces no `#EXTM3U`
  header, keeps a pick whose URL is missing, and fails in the final join
  when such a pick is written.
*/
module BeinUrls {
  import opened Wrappers
  import opened Text
  import opened M3u

  /** The keys of `MAP`, in dictionary order. */
  const Names: seq<string> := ["beIN SPORTS 6", "beIN SPORTS 7", "beIN SPORTS 8", "beIN SPORTS 9"]

  lemma NamesDistinct()
    ensures forall a, b :: 0 <= a < b < |Names| ==> Names[a] != Names[b]
  {
    assert Names[0][12] == '6' && Names[1][12] == '7' && Names[2][12] == '8' && Names[3][12] == '9';
  }

  // ---------------------------------------------------------------------
  // parse_pairs

  /** `[ln.strip() for ln in lines if ln.strip()]`. */
  function Compact(lines: seq<string>): (r: seq<string>)
    ensures |r| <= |lines|
  {
    if lines == [] then []
    else
      var last := Strip(lines[|lines| - 1]);
      Compact(lines[..|lines| - 1]) + (if last != "" then [last] else [])
  }

  /** The compacted lines are exactly the stripped non-blank input lines, and
      each of them is non-empty and has nothing left to strip. */
  lemma {:induction false} CompactMeaning(lines: seq<string>)
    ensures forall x :: x in Compact(lines) <==> exists k :: 0 <= k < |lines| && Strip(lines[k]) != "" && x == Strip(lines[k])
    ensures forall k :: 0 <= k < |Compact(lines)| ==> Compact(lines)[k] != "" && Strip(Compact(lines)[k]) == Compact(lines)[k]
    decreases |lines|
  {
    if lines != [] {
      var init := lines[..|lines| - 1];
      CompactMeaning(init);
      forall k | 0 <= k < |init| ensures init[k] == lines[k] { }
      StripIdempotent(lines[|lines| - 1]);
    }
  }

  /** On compacted lines the header and URL tests of the shared parser are
      the plain prefix tests this script performs. */
  lemma CompactTests(line: string)
    requires line != "" && Strip(line) == line
    ensures IsHeaderLine(line) <==> StartsWith(line, "#EXTINF")
    ensures IsUrlLine(line) <==> !StartsWith(line, "#")
  { }

  /** Every compacted line is non-empty and stripped. */
  lemma CompactStripped(lines: seq<string>)
    ensures forall k :: 0 <= k < |Compact(lines)| ==> Compact(lines)[k] != "" && Strip(Compact(lines)[k]) == Compact(lines)[k]
  {
    CompactMeaning(lines);
  }

  /** `parse_pairs(m3u)`: the shared pair scan, with stripped headers, run
      over the compacted lines. */
  method ParsePairs(text: string) returns (out: seq<Pair>)
    ensures out == Pairs(Compact(SplitLines(text)), true)
  {
    var lines := Compact(SplitLines(text));
    CompactStripped(SplitLines(text));
    out := [];
    var i := 0;
    while i < |lines|
      invariant 0 <= i <= |lines| + 1
      invariant out + Pairs(Drop(lines, i), true) == Pairs(lines, true)
    {
      var emit, skip := PairAt(lines, i);
      ConcatAssoc(out, emit, Pairs(Drop(lines, i + skip), true));
      out := out + emit;
      i := i + skip;
    }
    assert Pairs(Drop(lines, i), true) == [];
    assert out + [] == out;
  }

  /** One iteration of the loop of `parse_pairs` at line `i` of the
      compacted lines: the pair read there, if any, and the number of lines
      consumed. */
  method PairAt(lines: seq<string>, i: nat) returns (emit: seq<Pair>, skip: nat)
    requires i < |lines|
    requires forall k :: 0 <= k < |lines| ==> lines[k] != "" && Strip(lines[k]) == lines[k]
    ensures skip == 1 || skip == 2
    ensures Pairs(Drop(lines, i), true) == emit + Pairs(Drop(lines, i + skip), true)
  {
    ghost var rest := lines[i..];
    assert Drop(lines, i) == rest && rest[0] == lines[i];
    CompactTests(lines[i]);
    if StartsWith(lines[i], "#EXTINF") {
      var url: Option<string> := None;
      if i + 1 < |lines| && !StartsWith(lines[i + 1], "#") {
        url := Some(lines[i + 1]);
      }
      if i + 1 < |lines| {
        CompactTests(lines[i + 1]);
      }
      assert url == UrlAfter(rest);
      assert Drop(rest, 2) == Drop(lines, i + 2);
      emit := [Pair(lines[i], url)];
      skip := 2;
    } else {
      assert rest[1..] == Drop(lines, i + 1);
      emit := [];
      skip := 1;
    }
  }

  /** Every pair holds an `#EXTINF` line without surrounding whitespace, and
      its URL, when there is one, is a non-empty line not starting with `#`. */
  lemma ParsedPairsOk(text: string)
    ensures forall k :: 0 <= k < |Pairs(Compact(SplitLines(text)), true)| ==>
      var p := Pairs(Compact(SplitLines(text)), true)[k];
      && StartsWith(p.extinf, "#EXTINF")
      && (p.url.Some? ==> p.url.value != "" && !StartsWith(p.url.value, "#"))
  {
    PairsOk(Compact(SplitLines(text)), true);
  }

  // ---------------------------------------------------------------------
  // pick_urls

  /** The `#EXTINF` texts of the pairs. */
  function Extinfs(pairs: seq<Pair>): (r: seq<string>)
    ensures |r| == |pairs| && forall k :: 0 <= k < |pairs| ==> r[k] == pairs[k].extinf
  {
    seq(|pairs|, k requires 0 <= k < |pairs| => pairs[k].extinf)
  }

  /** What `pick_urls` returns for the parsed pairs: every channel whose
      regex finds a match in some `#EXTINF` gets the URL of the first such
      pair, a missing URL included. */
  function PickedUrls(pairs: seq<Pair>, srcPat: string -> Pattern): map<string, Option<string>> {
    map n | n in Names && FirstWhere(Extinfs(pairs), srcPat(n)).Some?
      :: pairs[FirstWhere(Extinfs(pairs), srcPat(n)).value].url
  }

  /** The picks are keyed by channel names, a channel is picked exactly when
      its regex matches some `#EXTINF`, and the pick is the URL of the first
      pair it matches. */
  lemma PickedUrlsMeaning(pairs: seq<Pair>, srcPat: string -> Pattern)
    ensures var r := PickedUrls(pairs, srcPat);
      && (forall n :: n in r ==> n in Names)
      && (forall n :: n in Names ==> (n in r <==> exists k :: 0 <= k < |pairs| && srcPat(n)(pairs[k].extinf)))
      && (forall n :: n in r ==>
            exists k :: && 0 <= k < |pairs| && srcPat(n)(pairs[k].extinf) && r[n] == pairs[k].url
                        && forall j :: 0 <= j < k ==> !srcPat(n)(pairs[j].extinf))
  { }

  /** `picked` agrees with the picks taken from the first `i` pairs on the
      channel `n`. */
  ghost predicate PickedUpTo(picked: map<string, Option<string>>, pairs: seq<Pair>, srcPat: string -> Pattern,
                             n: string, i: nat)
    requires i <= |pairs|
  {
    var f := FirstWhere(Extinfs(pairs)[..i], srcPat(n));
    (n in picked <==> f.Some?) && (n in picked ==> f.value < |pairs| && picked[n] == pairs[f.value].url)
  }

  /** The inner loop of `pick_urls` for the pair `pairs[i]`, over the
      distinct channel `names`. */
  method PickStep(picked: map<string, Option<string>>, pairs: seq<Pair>, srcPat: string -> Pattern, i: nat,
                  names: seq<string>)
    returns (next: map<string, Option<string>>)
    requires i < |pairs|
    requires forall a, b :: 0 <= a < b < |names| ==> names[a] != names[b]
    requires forall t :: 0 <= t < |names| ==> PickedUpTo(picked, pairs, srcPat, names[t], i)
    requires forall n :: n in picked ==> n in names
    ensures forall t :: 0 <= t < |names| ==> PickedUpTo(next, pairs, srcPat, names[t], i + 1)
    ensures forall n :: n in next ==> n in names
  {
    next := picked;
    var j := 0;
    while j < |names|
      invariant 0 <= j <= |names|
      invariant forall t :: 0 <= t < j ==> PickedUpTo(next, pairs, srcPat, names[t], i + 1)
      invariant forall t :: j <= t < |names| ==> PickedUpTo(next, pairs, srcPat, names[t], i)
      invariant forall n :: n in next ==> n in names
    {
      var name := names[j];
      ghost var prev := next;
      FirstWhereSnoc(Extinfs(pairs), i, srcPat(name));
      if name !in next && srcPat(name)(pairs[i].extinf) {
        next := next[name := pairs[i].url];
      }
      assert PickedUpTo(next, pairs, srcPat, name, i + 1);
      forall t | 0 <= t < |names| && t != j
        ensures names[t] in next <==> names[t] in prev
        ensures names[t] in prev ==> next[names[t]] == prev[names[t]]
      {
        assert names[t] != name;
      }
      j := j + 1;
    }
  }

  /** `pick_urls(src_text)`. */
  method PickUrls(srcText: string, srcPat: string -> Pattern) returns (picked: map<string, Option<string>>)
    ensures picked == PickedUrls(Pairs(Compact(SplitLines(srcText)), true), srcPat)
  {
    var pairs := ParsePairs(srcText);
    NamesDistinct();
    picked := map[];
    var i := 0;
    while i < |pairs|
      invariant 0 <= i <= |pairs|
      invariant forall t :: 0 <= t < |Names| ==> PickedUpTo(picked, pairs, srcPat, Names[t], i)
      invariant forall n :: n in picked ==> n in Names
    {
      picked := PickStep(picked, pairs, srcPat, i, Names);
      i := i + 1;
    }
    PickedAll(picked, pairs, srcPat);
  }

  lemma PickedAll(picked: map<string, Option<string>>, pairs: seq<Pair>, srcPat: string -> Pattern)
    requires forall t :: 0 <= t < |Names| ==> PickedUpTo(picked, pairs, srcPat, Names[t], |pairs|)
    requires forall n :: n in picked ==> n in Names
    ensures picked == PickedUrls(pairs, srcPat)
  {
    assert Extinfs(pairs)[..|pairs|] == Extinfs(pairs);
    var spec := PickedUrls(pairs, srcPat);
    forall n | n in Names ensures (n in picked <==> n in spec) && (n in picked ==> picked[n] == spec[n]) {
      var t :| 0 <= t < |Names| && Names[t] == n;
      assert PickedUpTo(picked, pairs, srcPat, Names[t], |pairs|);
    }
  }

  // ---------------------------------------------------------------------
  // update_dest

  /** The first channel name, in `MAP` order, that occurs in the line. */
  function ChannelOf(line: string): Option<nat> {
    FirstWhere(Names, n => Contains(line, n))
  }

  /** The condition of `update_dest`: a line that begins with `#EXTINF`, as it
      stands, and contains one of the channel names, case-sensitively. */
  predicate Named(line: string) {
    StartsWith(line, "#EXTINF") && ChannelOf(line).Some?
  }

  /** The lines consumed at line `i`: two for a named `#EXTINF` followed by a
      line not starting with `#`, one otherwise. */
  function Skip(lines: seq<string>, i: nat): (k: nat)
    requires i < |lines|
    ensures 1 <= k <= 2 && i + k <= |lines|
  {
    if Named(lines[i]) && i + 1 < |lines| && !StartsWith(lines[i + 1], "#") then 2 else 1
  }

  /** The entries appended to `out` at line `i` by the code as written: a
      named `#EXTINF` with a URL line keeps the `#EXTINF` and takes the picked
      URL (possibly missing) or the old line; a named `#EXTINF` without one
      falls through to the final append and is written twice. */
  function Emit(lines: seq<string>, urls: map<string, Option<string>>, i: nat): seq<Option<string>>
    requires i < |lines|
  {
    if Skip(lines, i) == 2 then
      var ch := Names[ChannelOf(lines[i]).value];
      [Some(lines[i]), if ch in urls then urls[ch] else Some(lines[i + 1])]
    else if Named(lines[i]) then [Some(lines[i]), Some(lines[i])]
    else [Some(lines[i])]
  }

  /** The entries of `out` from line `i` on. */
  function OutAt(lines: seq<string>, urls: map<string, Option<string>>, i: nat): seq<Option<string>>
    decreases |lines| - i
  {
    if i >= |lines| then [] else Emit(lines, urls, i) + OutAt(lines, urls, i + Skip(lines, i))
  }

  /** The entries with nothing missing, if none is missing. */
  function Unwrap(out: seq<Option<string>>): (r: Option<seq<string>>)
    ensures r.Some? ==> |r.value| == |out|
  {
    if out == [] then Some([])
    else
      match Unwrap(out[..|out| - 1])
      case None => None
      case Some(init) => if out[|out| - 1].Some? then Some(init + [out[|out| - 1].value]) else None
  }

  lemma {:induction false} UnwrapMeaning(out: seq<Option<string>>)
    ensures Unwrap(out).Some? <==> forall k :: 0 <= k < |out| ==> out[k].Some?
    ensures Unwrap(out).Some? ==> forall k :: 0 <= k < |out| ==> Unwrap(out).value[k] == out[k].value
    decreases |out|
  {
    if out != [] {
      var init := out[..|out| - 1];
      UnwrapMeaning(init);
      forall k | 0 <= k < |init| ensures init[k] == out[k] { }
    }
  }

  /** What `"\n".join(out) + "\n"` does: the text, or the `TypeError` that a
      missing URL causes. */
  function Finish(out: seq<Option<string>>): Result<string, string> {
    match Unwrap(out)
    case Some(ls) => Success(JoinLines(ls))
    case None => Failure("sequence item: expected str instance, NoneType found")
  }

  /** The first channel name in the line, as the `for name in MAP` loop with
      its `break` finds it. */
  method MatchChannel(line: string) returns (r: Option<string>)
    ensures r.None? <==> ChannelOf(line).None?
    ensures r.Some? ==> r.value == Names[ChannelOf(line).value]
  {
    var j := 0;
    while j < |Names|
      invariant 0 <= j <= |Names|
      invariant forall t :: 0 <= t < j ==> !Contains(line, Names[t])
    {
      if Contains(line, Names[j]) {
        return Some(Names[j]);
      }
      j := j + 1;
    }
    return None;
  }

  /** One iteration of the loop of `update_dest` at line `i`. */
  method DestLine(lines: seq<string>, urls: map<string, Option<string>>, i: nat)
    returns (emit: seq<Option<string>>, skip: nat)
    requires i < |lines|
    ensures emit == Emit(lines, urls, i) && skip == Skip(lines, i)
  {
    var line := lines[i];
    var named := MatchChannel(line);
    if StartsWith(line, "#EXTINF") && named.Some? {
      emit := [Some(line)];
      if i + 1 < |lines| && !StartsWith(lines[i + 1], "#") {
        var channel := MatchChannel(line);
        if channel.Some? && channel.value in urls {
          emit := emit + [urls[channel.value]];
        } else {
          emit := emit + [Some(lines[i + 1])];
        }
        return emit, 2;
      }
      return emit + [Some(line)], 1;
    }
    return [Some(line)], 1;
  }

  /** `update_dest(dest_text, urls)`. */
  method UpdateDest(destText: string, urls: map<string, Option<string>>) returns (r: Result<string, string>)
    ensures r == Finish(OutAt(SplitLines(destText), urls, 0))
    ensures r == Finish(WrittenFrom(SplitLines(destText), urls, 0))
  {
    var out := DestLines(SplitLines(destText), urls);
    AsWrittenLineByLine(SplitLines(destText), urls, 0);
    r := Finish(out);
  }

  /** The loop of `update_dest`. */
  method DestLines(lines: seq<string>, urls: map<string, Option<string>>) returns (out: seq<Option<string>>)
    ensures out == OutAt(lines, urls, 0)
  {
    ghost var whole := OutAt(lines, urls, 0);
    out := [];
    var i := 0;
    while i < |lines|
      invariant 0 <= i <= |lines|
      invariant out + OutAt(lines, urls, i) == whole
    {
      out, i := DestStep(lines, urls, i, out, whole);
    }
    assert out + [] == out;
  }

  /** One pass of the loop of `update_dest`: line `i` is handled and the
      loop's invariant carries over to the next line. */
  method DestStep(lines: seq<string>, urls: map<string, Option<string>>, i: nat,
                  out: seq<Option<string>>, ghost whole: seq<Option<string>>)
    returns (out': seq<Option<string>>, i': nat)
    requires i < |lines| && out + OutAt(lines, urls, i) == whole
    ensures i < i' <= |lines| && out' + OutAt(lines, urls, i') == whole
  {
    var emit, skip := DestLine(lines, urls, i);
    OutAtStep(lines, urls, i);
    ConcatAssoc(out, emit, OutAt(lines, urls, i + skip));
    out', i' := out + emit, i + skip;
  }

  lemma {:induction false} OutAtStep(lines: seq<string>, urls: map<string, Option<string>>, i: nat)
    requires i < |lines|
    ensures OutAt(lines, urls, i) == Emit(lines, urls, i) + OutAt(lines, urls, i + Skip(lines, i))
  { }

  // ---------------------------------------------------------------------
  // Properties of update_dest

  /** Every line present, in order. */
  function Somes(lines: seq<string>): (r: seq<Option<string>>)
    ensures |r| == |lines| && forall k :: 0 <= k < |lines| ==> r[k] == Some(lines[k])
  {
    seq(|lines|, k requires 0 <= k < |lines| => Some(lines[k]))
  }

  lemma SomesSplit(lines: seq<string>, i: nat, k: nat)
    requires i <= k <= |lines|
    ensures Somes(lines[i..]) == Somes(lines[i..k]) + Somes(lines[k..])
  {
    assert lines[i..] == lines[i..k] + lines[k..];
  }

  /** A destination without named `#EXTINF` lines is copied unchanged and in
      order. */
  lemma {:induction false} NoNamedLinesCopied(lines: seq<string>, urls: map<string, Option<string>>, i: nat)
    requires i <= |lines|
    requires forall k :: 0 <= k < |lines| ==> !Named(lines[k])
    ensures OutAt(lines, urls, i) == Somes(lines[i..])
    decreases |lines| - i
  {
    if i < |lines| {
      NoNamedLinesCopied(lines, urls, i + 1);
      SomesSplit(lines, i, i + 1);
    }
  }

  /** When every pick has a URL the join succeeds. */
  lemma {:induction false} NoMissingUrlNoFailure(lines: seq<string>, urls: map<string, Option<string>>, i: nat)
    requires i <= |lines|
    requires forall n :: n in urls ==> urls[n].Some?
    ensures forall k :: 0 <= k < |OutAt(lines, urls, i)| ==> OutAt(lines, urls, i)[k].Some?
    decreases |lines| - i
  {
    if i < |lines| {
      NoMissingUrlNoFailure(lines, urls, i + Skip(lines, i));
    }
  }

  /** A pick without a URL that reaches the destination makes the update
      fail. */
  lemma MissingUrlFails()
    ensures Finish(OutAt(["#EXTINF:-1,beIN SPORTS 6", "http://old"], map["beIN SPORTS 6" := None], 0)).Failure?
  {
    var lines := ["#EXTINF:-1,beIN SPORTS 6", "http://old"];
    NamedSix();
    assert !StartsWith(lines[1], "#") by {
      assert lines[1][..1] == "h";
    }
    assert Skip(lines, 0) == 2;
    var out := OutAt(lines, map["beIN SPORTS 6" := None], 0);
    assert out[1].None?;
    UnwrapMeaning(out);
  }

  /** The example line names `beIN SPORTS 6`. */
  lemma NamedSix()
    ensures Named("#EXTINF:-1,beIN SPORTS 6") && ChannelOf("#EXTINF:-1,beIN SPORTS 6") == Some(0)
  {
    var line := "#EXTINF:-1,beIN SPORTS 6";
    assert line[..7] == "#EXTINF";
    ContainsAt(line, Names[0], 11);
    assert line[11..][..13] == Names[0];
  }

  // ---------------------------------------------------------------------
  // The duplicated header

  /** As written, a named `#EXTINF` that is the last line is written twice,
      so an update with nothing picked changes the playlist. */
  lemma DuplicatedHeader()
    ensures OutAt(["#EXTINF:-1,beIN SPORTS 6"], map[], 0)
         == [Some("#EXTINF:-1,beIN SPORTS 6"), Some("#EXTINF:-1,beIN SPORTS 6")]
  {
    NamedSix();
  }

  /** The entries the evidently intended code appends at line `i`: the named
      `#EXTINF` without a URL line is written once. */
  function EmitFixed(lines: seq<string>, urls: map<string, Option<string>>, i: nat): seq<Option<string>>
    requires i < |lines|
  {
    if Skip(lines, i) == 2 then Emit(lines, urls, i) else [Some(lines[i])]
  }

  function OutFixedAt(lines: seq<string>, urls: map<string, Option<string>>, i: nat): seq<Option<string>>
    decreases |lines| - i
  {
    if i >= |lines| then [] else EmitFixed(lines, urls, i) + OutFixedAt(lines, urls, i + Skip(lines, i))
  }

  /** With the fix, an update with nothing picked leaves every line as it
      is. */
  lemma {:induction false} FixedNothingPicked(lines: seq<string>, i: nat)
    requires i <= |lines|
    ensures OutFixedAt(lines, map[], i) == Somes(lines[i..])
    decreases |lines| - i
  {
    if i < |lines| {
      var k := i + Skip(lines, i);
      FixedNothingPicked(lines, k);
      SomesSplit(lines, i, k);
      if k == i + 2 {
        assert lines[i..k] == [lines[i], lines[i + 1]];
      } else {
        assert lines[i..k] == [lines[i]];
      }
    }
  }

  /** The fix touches only the duplicated case: when every named `#EXTINF`
      is followed by a line not starting with `#`, both versions agree. */
  lemma {:induction false} FixedAgreesOtherwise(lines: seq<string>, urls: map<string, Option<string>>, i: nat)
    requires i <= |lines|
    requires forall k :: 0 <= k < |lines| && Named(lines[k]) ==>
      k + 1 < |lines| && !StartsWith(lines[k + 1], "#")
    ensures OutFixedAt(lines, urls, i) == OutAt(lines, urls, i)
    decreases |lines| - i
  {
    if i < |lines| {
      var j := i + Skip(lines, i);
      FixedAgreesOtherwise(lines, urls, j);
      SkipTwoWhenNamed(lines, i);
      assert EmitFixed(lines, urls, i) == Emit(lines, urls, i);
      assert OutFixedAt(lines, urls, i) == EmitFixed(lines, urls, i) + OutFixedAt(lines, urls, j);
      assert OutAt(lines, urls, i) == Emit(lines, urls, i) + OutAt(lines, urls, j);
    }
  }

  /** A named `#EXTINF` followed by a line not starting with `#` makes the
      scan take two lines. */
  lemma SkipTwoWhenNamed(lines: seq<string>, i: nat)
    requires i < |lines| && (Named(lines[i]) ==> i + 1 < |lines| && !StartsWith(lines[i + 1], "#"))
    ensures Named(lines[i]) ==> Skip(lines, i) == 2
  { }

  // ---------------------------------------------------------------------
  // Line by line

  /** Line `k` is the URL line taken by the named `#EXTINF` before it: a line
      starting with `#` never is, so the scan always stops at the line before
      it. */
  predicate Consumed(lines: seq<string>, k: nat) {
    1 <= k < |lines| && Named(lines[k - 1]) && !StartsWith(lines[k], "#")
  }

  /** What becomes of line `k`: a consumed URL line whose channel has a pick
      is replaced by the pick (possibly missing); every other line, the
      `#EXTINF` lines included, is kept as it is. */
  function NewEntry(lines: seq<string>, urls: map<string, Option<string>>, k: nat): Option<string>
    requires k < |lines|
  {
    if Consumed(lines, k) && Names[ChannelOf(lines[k - 1]).value] in urls
    then urls[Names[ChannelOf(lines[k - 1]).value]]
    else Some(lines[k])
  }

  /** A named `#EXTINF` that is the last line or is followed by a `#` line. */
  predicate Dangling(lines: seq<string>, k: nat)
    requires k < |lines|
  {
    Named(lines[k]) && !Consumed(lines, k + 1)
  }

  /** The entries written for lines `i..` as the code stands, line by line:
      each line's entry, and once more the line itself after a dangling
      named `#EXTINF`. */
  function WrittenFrom(lines: seq<string>, urls: map<string, Option<string>>, i: nat): seq<Option<string>>
    decreases |lines| - i
  {
    if i >= |lines| then []
    else
      var again := if Dangling(lines, i) then [Some(lines[i])] else [];
      [NewEntry(lines, urls, i)] + again + WrittenFrom(lines, urls, i + 1)
  }

  /** A scan position is never a consumed line, and the scan consumes two
      lines exactly when the second is a consumed URL line. */
  lemma {:induction false} SkipConsumes(lines: seq<string>, i: nat)
    requires i < |lines|
    ensures Skip(lines, i) == 2 <==> Consumed(lines, i + 1)
    ensures Skip(lines, i) == 2 ==> !Consumed(lines, i + 2)
  {
    if Skip(lines, i) == 2 && i + 2 < |lines| {
      ExtinfIsHashLine(lines[i + 1]);
    }
  }

  lemma {:induction false} ExtinfIsHashLine(line: string)
    ensures StartsWith(line, "#EXTINF") ==> StartsWith(line, "#")
  {
    if StartsWith(line, "#EXTINF") {
      assert line[..1] == line[..7][..1];
    }
  }

  /** The corrected loop writes one entry per line: entry `k` of the output
      is `NewEntry(lines, urls, k)`. So every `#` line and every line that is
      not a picked channel's URL line comes out unchanged and in place. */
  lemma {:induction false} FixedEntrywise(lines: seq<string>, urls: map<string, Option<string>>, i: nat)
    requires i <= |lines| && !Consumed(lines, i)
    ensures |OutFixedAt(lines, urls, i)| == |lines| - i
    ensures forall k :: i <= k < |lines| ==> OutFixedAt(lines, urls, i)[k - i] == NewEntry(lines, urls, k)
    decreases |lines| - i
  {
    if i < |lines| {
      SkipConsumes(lines, i);
      var j := i + Skip(lines, i);
      FixedEntrywise(lines, urls, j);
      var e := EmitFixed(lines, urls, i);
      var rest := OutFixedAt(lines, urls, j);
      assert OutFixedAt(lines, urls, i) == e + rest;
      assert |e| == j - i;
      assert e[0] == NewEntry(lines, urls, i);
      assert j == i + 2 ==> e[1] == NewEntry(lines, urls, i + 1);
      forall k | i <= k < |lines| ensures (e + rest)[k - i] == NewEntry(lines, urls, k) {
        if k >= j {
          assert (e + rest)[k - i] == rest[k - j];
        }
      }
    }
  }

  /** The code as written writes the same entries, except that a dangling
      named `#EXTINF` is written a second time right after itself. So for
      any picks every other line passes through unchanged and in order. */
  lemma {:induction false} AsWrittenLineByLine(lines: seq<string>, urls: map<string, Option<string>>, i: nat)
    requires i <= |lines| && !Consumed(lines, i)
    ensures OutAt(lines, urls, i) == WrittenFrom(lines, urls, i)
    decreases |lines| - i
  {
    if i < |lines| {
      SkipConsumes(lines, i);
      var j := i + Skip(lines, i);
      AsWrittenLineByLine(lines, urls, j);
      AsWrittenStep(lines, urls, i);
    }
  }

  /** One scan step writes what the line-by-line description gives for the
      lines it consumes. */
  lemma {:induction false} AsWrittenStep(lines: seq<string>, urls: map<string, Option<string>>, i: nat)
    requires i < |lines| && !Consumed(lines, i)
    ensures Emit(lines, urls, i) + WrittenFrom(lines, urls, i + Skip(lines, i)) == WrittenFrom(lines, urls, i)
  {
    SkipConsumes(lines, i);
    var a := NewEntry(lines, urls, i);
    if Skip(lines, i) == 2 {
      var b := NewEntry(lines, urls, i + 1);
      var rest := WrittenFrom(lines, urls, i + 2);
      EmitTwo(lines, urls, i);
      WrittenUnfold(lines, urls, i);
      WrittenUnfold(lines, urls, i + 1);
      assert !Dangling(lines, i);
      assert !Dangling(lines, i + 1) by {
        ExtinfIsHashLine(lines[i + 1]);
      }
      ConcatAssoc([a], [b], rest);
    } else {
      EmitOne(lines, urls, i);
      WrittenUnfold(lines, urls, i);
    }
  }

  /** The entries of one line in the line-by-line description. */
  lemma {:induction false} WrittenUnfold(lines: seq<string>, urls: map<string, Option<string>>, i: nat)
    requires i < |lines|
    ensures WrittenFrom(lines, urls, i)
      == [NewEntry(lines, urls, i)] + (if Dangling(lines, i) then [Some(lines[i])] else []) + WrittenFrom(lines, urls, i + 1)
  { }

  /** A scan step over a named `#EXTINF` and its URL line writes the two
      lines' entries. */
  lemma {:induction false} EmitTwo(lines: seq<string>, urls: map<string, Option<string>>, i: nat)
    requires i < |lines| && !Consumed(lines, i) && Skip(lines, i) == 2
    ensures Emit(lines, urls, i) == [NewEntry(lines, urls, i), NewEntry(lines, urls, i + 1)]
  {
    assert Consumed(lines, i + 1);
  }

  /** A scan step over one line writes its entry, twice for a dangling named
      `#EXTINF`. */
  lemma {:induction false} EmitOne(lines: seq<string>, urls: map<string, Option<string>>, i: nat)
    requires i < |lines| && !Consumed(lines, i) && Skip(lines, i) == 1
    ensures Emit(lines, urls, i) == [NewEntry(lines, urls, i)] + (if Dangling(lines, i) then [Some(lines[i])] else [])
  {
    SkipConsumes(lines, i);
  }

  /** The entries of the corrected loop, one per line. */
  function FixedEntries(lines: seq<string>, urls: map<string, Option<string>>): (r: seq<Option<string>>)
    ensures |r| == |lines| && forall k :: 0 <= k < |lines| ==> r[k] == NewEntry(lines, urls, k)
  {
    seq(|lines|, k requires 0 <= k < |lines| => NewEntry(lines, urls, k))
  }

  /** A list with every line present unwraps to the lines. */
  lemma UnwrapSomes(lines: seq<string>)
    ensures Unwrap(Somes(lines)) == Some(lines)
  {
    var out := Somes(lines);
    assert forall k :: 0 <= k < |out| ==> out[k] == Some(lines[k]);
    UnwrapMeaning(out);
    assert Unwrap(out).Some?;
    var u := Unwrap(out).value;
    assert |u| == |lines|;
    assert forall k :: 0 <= k < |u| ==> u[k] == lines[k];
    assert u == lines;
  }

  /** For any picks, the evidently intended loop copies every `#` line,
      every line that is not a consumed URL line, and every consumed URL line
      whose channel has no pick, unchanged and in its own position. */
  lemma FixedCopies(lines: seq<string>, urls: map<string, Option<string>>, k: nat)
    requires k < |lines|
    requires StartsWith(lines[k], "#") || !Consumed(lines, k) || Names[ChannelOf(lines[k - 1]).value] !in urls
    ensures |OutFixedAt(lines, urls, 0)| == |lines| && OutFixedAt(lines, urls, 0)[k] == Some(lines[k])
  {
    FixedEntrywise(lines, urls, 0);
    assert OutFixedAt(lines, urls, 0)[k - 0] == NewEntry(lines, urls, k);
  }

  /** Without a dangling named `#EXTINF` the code as written already writes
      one entry per line, `NewEntry(lines, urls, k)` for line `k`. */
  lemma {:induction false} AsWrittenWithoutDangling(lines: seq<string>, urls: map<string, Option<string>>)
    requires forall k :: 0 <= k < |lines| ==> !Dangling(lines, k)
    ensures OutAt(lines, urls, 0) == FixedEntries(lines, urls)
  {
    forall k | 0 <= k < |lines| && Named(lines[k])
      ensures k + 1 < |lines| && !StartsWith(lines[k + 1], "#")
    {
      assert !Dangling(lines, k);
    }
    FixedAgreesOtherwise(lines, urls, 0);
    FixedEntrywise(lines, urls, 0);
  }

  /** `update_dest` as evidently intended: a named `#EXTINF` without a URL
      line is written once. Line `k` of the result is `NewEntry(lines, urls,
      k)`; the join fails exactly when a picked channel without a URL reaches
      a URL line, and with nothing picked the playlist is written back line
      for line. */
  function UpdateDestFixed(destText: string, urls: map<string, Option<string>>): (r: Result<string, string>)
    ensures r == Finish(FixedEntries(SplitLines(destText), urls))
    ensures r.Success? <==> forall k :: 0 <= k < |SplitLines(destText)| ==> NewEntry(SplitLines(destText), urls, k).Some?
    ensures urls == map[] ==> r == Success(JoinLines(SplitLines(destText)))
  {
    var lines := SplitLines(destText);
    FixedEntrywise(lines, urls, 0);
    assert OutFixedAt(lines, urls, 0) == FixedEntries(lines, urls);
    UnwrapMeaning(FixedEntries(lines, urls));
    FixedNothingPicked(lines, 0);
    assert lines[0..] == lines;
    UnwrapSomes(lines);
    Finish(OutFixedAt(lines, urls, 0))
  }
}
