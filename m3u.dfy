/**
  The line-level vocabulary of the IPTV dialect of Extended M3U that the
  playlist-updating scripts share: `#EXTINF` header lines and URL lines,
  the `(#EXTINF line, URL-or-None)` pairs read from a source playlist, the
  `#EXTM3U` header that destination playlists are given, the final text
  assembly, and the "replace only the URL line" rewrite that two of the
  updaters perform.
*/
module M3u {
  import opened Wrappers
  import opened Text

  /** A compiled channel regex, abstracted: `p(s)` holds when `p.search(s)`
      finds a match in `s`. */
  type Pattern = string -> bool

  /** Python `any(p.search(s) for p in pats)`. */
  predicate AnyMatch(pats: seq<Pattern>, s: string) {
    exists k :: 0 <= k < |pats| && pats[k](s)
  }

  /** `line.strip().startswith("#EXTINF")`. */
  predicate IsHeaderLine(line: string) {
    StartsWith(Strip(line), "#EXTINF")
  }

  /** `line.strip() and not line.strip().startswith("#")`: a non-blank line
      that is not a directive or comment. */
  predicate IsUrlLine(line: string) {
    Strip(line) != "" && !StartsWith(Strip(line), "#")
  }

  /** Python truthiness of an optional string: present and non-empty. */
  predicate Truthy(u: Option<string>) {
    u.Some? && u.value != ""
  }

  /** No line is both a header line and a URL line. */
  lemma HeaderIsNotUrl(line: string)
    requires IsHeaderLine(line)
    ensures !IsUrlLine(line)
  {
    assert Strip(line)[..1] == "#";
  }

  // ---------------------------------------------------------------------
  // Source pairs

  /** One `#EXTINF` of a source playlist with the URL line that follows it. */
  datatype Pair = Pair(extinf: string, url: Option<string>)

  /** The URL paired with the header `lines[0]`: the next line, stripped,
      when it is a URL line; otherwise none. */
  function UrlAfter(lines: seq<string>): (u: Option<string>)
    ensures u.Some? ==> |lines| > 1 && IsUrlLine(lines[1]) && u.value == Strip(lines[1])
    ensures u.None? ==> |lines| <= 1 || !IsUrlLine(lines[1])
  {
    if |lines| > 1 && IsUrlLine(lines[1]) then Some(Strip(lines[1])) else None
  }

  /** The header text a pair records: stripped or as it stands in the file. */
  function HeaderText(line: string, stripHeader: bool): string {
    if stripHeader then Strip(line) else line
  }

  /** What every pair satisfies: its header text is an `#EXTINF` line (verbatim
      `#EXTINF` prefix when stripped) and its URL, when there is one, is a
      stripped URL line, so non-empty and not `#`-prefixed. */
  predicate PairOk(p: Pair, stripHeader: bool) {
    && IsHeaderLine(p.extinf)
    && (stripHeader ==> StartsWith(p.extinf, "#EXTINF"))
    && (p.url.Some? ==> IsUrlLine(p.url.value) && Strip(p.url.value) == p.url.value)
  }

  /** The lines left after skipping `k` of them; a skip past the end leaves none. */
  function Drop(lines: seq<string>, k: nat): seq<string> {
    if k <= |lines| then lines[k..] else []
  }

  /** The pairs read from `lines` by the scan that visits a line, and after
      an `#EXTINF` jumps over the line after it. */
  function Pairs(lines: seq<string>, stripHeader: bool): (r: seq<Pair>)
    ensures |r| <= |lines|
    decreases |lines|
  {
    if lines == [] then []
    else if IsHeaderLine(lines[0]) then
      [Pair(HeaderText(lines[0], stripHeader), UrlAfter(lines))] + Pairs(Drop(lines, 2), stripHeader)
    else Pairs(lines[1..], stripHeader)
  }

  /** `parse_m3u_pairs` / `parse_pairs`: the index loop over the lines of a
      playlist collecting one pair per visited `#EXTINF`. */
  method ParsePairs(text: string, stripHeader: bool) returns (out: seq<Pair>)
    ensures out == Pairs(SplitLines(text), stripHeader)
  {
    var lines := SplitLines(text);
    out := [];
    var i := 0;
    while i < |lines|
      invariant 0 <= i <= |lines| + 1
      invariant out + Pairs(Drop(lines, i), stripHeader) == Pairs(lines, stripHeader)
    {
      var emit, skip := PairAt(lines, i, stripHeader);
      ghost var before := out;
      ghost var rest := Pairs(Drop(lines, i + skip), stripHeader);
      out := out + emit;
      i := i + skip;
      ConcatAssoc(before, emit, rest);
    }
    assert Pairs(Drop(lines, i), stripHeader) == [];
    assert out + [] == out;
  }

  /** One iteration of the loop at line `i`: the pair read there, if any,
      and the number of lines consumed. */
  method PairAt(lines: seq<string>, i: nat, stripHeader: bool) returns (emit: seq<Pair>, skip: nat)
    requires i < |lines|
    ensures skip == 1 || skip == 2
    ensures Pairs(Drop(lines, i), stripHeader) == emit + Pairs(Drop(lines, i + skip), stripHeader)
  {
    ghost var rest := lines[i..];
    assert Drop(lines, i) == rest && rest[0] == lines[i];
    var ln := Strip(lines[i]);
    if StartsWith(ln, "#EXTINF") {
      var url: Option<string> := None;
      if i + 1 < |lines| {
        var nxt := Strip(lines[i + 1]);
        if nxt != "" && !StartsWith(nxt, "#") {
          url := Some(nxt);
        }
      }
      assert url == UrlAfter(rest);
      assert Drop(rest, 2) == Drop(lines, i + 2);
      emit := [Pair(if stripHeader then ln else lines[i], url)];
      skip := 2;
    } else {
      assert rest[1..] == Drop(lines, i + 1);
      emit := [];
      skip := 1;
    }
  }

  /** The scan jumps two lines at every `#EXTINF`, so at most one pair is
      read per two lines (the last header may stand alone). */
  lemma {:induction false} PairsBound(lines: seq<string>, stripHeader: bool)
    ensures 2 * |Pairs(lines, stripHeader)| <= |lines| + 1
    decreases |lines|
  {
    if lines != [] {
      if IsHeaderLine(lines[0]) { PairsBound(Drop(lines, 2), stripHeader); }
      else { PairsBound(lines[1..], stripHeader); }
    }
  }

  /** An `#EXTINF` directly after another is never read as a header: the first
      gets no URL and the scan resumes after the second. */
  lemma HeaderAfterHeaderSkipped(h1: string, h2: string, rest: seq<string>, stripHeader: bool)
    requires IsHeaderLine(h1) && IsHeaderLine(h2)
    ensures Pairs([h1, h2] + rest, stripHeader)
         == [Pair(HeaderText(h1, stripHeader), None)] + Pairs(rest, stripHeader)
  {
    HeaderIsNotUrl(h2);
    assert Drop([h1, h2] + rest, 2) == rest;
  }

  /** `p` is the pair the header at `lines[i]` gives. */
  predicate PairOfHeaderAt(lines: seq<string>, i: int, p: Pair, stripHeader: bool) {
    0 <= i < |lines| && IsHeaderLine(lines[i])
    && p == Pair(HeaderText(lines[i], stripHeader), UrlAfter(lines[i..]))
  }

  lemma PairOfHeaderShift(lines: seq<string>, d: nat, j: int, p: Pair, stripHeader: bool)
    requires d <= |lines| && PairOfHeaderAt(lines[d..], j, p, stripHeader)
    ensures PairOfHeaderAt(lines, j + d, p, stripHeader)
  {
    assert lines[d..][j] == lines[j + d];
    assert lines[d..][j..] == lines[j + d..];
  }

  /** Every pair comes from a header line of the input together with the
      line after it. */
  lemma {:induction false} PairsComeFromHeaders(lines: seq<string>, stripHeader: bool, k: nat)
    requires k < |Pairs(lines, stripHeader)|
    ensures exists i :: PairOfHeaderAt(lines, i, Pairs(lines, stripHeader)[k], stripHeader)
    decreases |lines|
  {
    var ps := Pairs(lines, stripHeader);
    if IsHeaderLine(lines[0]) {
      if k == 0 {
        assert lines[0..] == lines;
        assert PairOfHeaderAt(lines, 0, ps[0], stripHeader);
      } else {
        var rest := Drop(lines, 2);
        assert |lines| >= 2;
        assert ps[k] == Pairs(rest, stripHeader)[k - 1];
        PairsComeFromHeaders(rest, stripHeader, k - 1);
        var j :| PairOfHeaderAt(rest, j, Pairs(rest, stripHeader)[k - 1], stripHeader);
        PairOfHeaderShift(lines, 2, j, ps[k], stripHeader);
      }
    } else {
      var rest := lines[1..];
      assert ps == Pairs(rest, stripHeader);
      PairsComeFromHeaders(rest, stripHeader, k);
      var j :| PairOfHeaderAt(rest, j, Pairs(rest, stripHeader)[k], stripHeader);
      PairOfHeaderShift(lines, 1, j, ps[k], stripHeader);
    }
  }

  /** The pair a header gives is well formed. */
  lemma PairOfHeaderOk(lines: seq<string>, i: int, p: Pair, stripHeader: bool)
    requires PairOfHeaderAt(lines, i, p, stripHeader)
    ensures PairOk(p, stripHeader)
  {
    StripIdempotent(lines[i]);
    if p.url.Some? {
      StripIdempotent(lines[i + 1]);
    }
  }

  /** Every pair read is well formed. */
  lemma PairsOk(lines: seq<string>, stripHeader: bool)
    ensures forall k :: 0 <= k < |Pairs(lines, stripHeader)| ==> PairOk(Pairs(lines, stripHeader)[k], stripHeader)
  {
    forall k | 0 <= k < |Pairs(lines, stripHeader)| ensures PairOk(Pairs(lines, stripHeader)[k], stripHeader) {
      PairsComeFromHeaders(lines, stripHeader, k);
      var i :| PairOfHeaderAt(lines, i, Pairs(lines, stripHeader)[k], stripHeader);
      PairOfHeaderOk(lines, i, Pairs(lines, stripHeader)[k], stripHeader);
    }
  }

  /** A playlist without `#EXTINF` lines yields no pairs. */
  lemma {:induction false} NoHeadersNoPairs(lines: seq<string>, stripHeader: bool)
    requires forall i :: 0 <= i < |lines| ==> !IsHeaderLine(lines[i])
    ensures Pairs(lines, stripHeader) == []
    decreases |lines|
  {
    if lines != [] { NoHeadersNoPairs(lines[1..], stripHeader); }
  }

  // ---------------------------------------------------------------------
  // Destination header and final text

  /** `line.strip().upper().startswith("#EXTM3U")`. */
  predicate HasM3uHeader(line: string) {
    StartsWith(Upper(Strip(line)), "#EXTM3U")
  }

  /** The literal header the scripts insert is recognised as a header. */
  lemma LiteralHeader()
    ensures HasM3uHeader("#EXTM3U")
  {
    assert LStrip("#EXTM3U") == "#EXTM3U";
    assert RStrip("#EXTM3U") == "#EXTM3U";
    var u := Upper("#EXTM3U");
    assert u == "#EXTM3U" by {
      assert u[0] == '#' && u[1] == 'E' && u[2] == 'X' && u[3] == 'T';
      assert u[4] == 'M' && u[5] == '3' && u[6] == 'U';
    }
  }

  /** The destination lines with `#EXTM3U` prepended unless the first line
      already is such a header. */
  function WithHeader(lines: seq<string>): (r: seq<string>)
    ensures |r| > 0 && HasM3uHeader(r[0])
    ensures r == lines <==> lines != [] && HasM3uHeader(lines[0])
    ensures r != lines ==> r == ["#EXTM3U"] + lines
  {
    if lines == [] || !HasM3uHeader(lines[0]) then
      LiteralHeader();
      assert |["#EXTM3U"] + lines| != |lines|;
      ["#EXTM3U"] + lines
    else lines
  }

  /** The lines of a destination playlist, given the `#EXTM3U` header when
      they lack one. */
  function HeaderedLines(text: string): (r: seq<string>)
    ensures |r| > 0 && HasM3uHeader(r[0])
  {
    WithHeader(SplitLines(text))
  }

  /** An `#EXTM3U` header is neither an `#EXTINF` line nor a URL line, and it
      is not blank. */
  lemma M3uHeaderKind(line: string)
    requires HasM3uHeader(line)
    ensures !IsHeaderLine(line) && !IsUrlLine(line) && Strip(line) != ""
  {
    var s := Strip(line);
    assert Upper(s)[0] == '#' && UpperChar(s[0]) == '#';
    assert Upper(s)[4] == 'M' && UpperChar(s[4]) == 'M';
    assert s[4] != 'I';
    assert "#EXTINF"[4] == 'I';
    assert s[..1] == "#";
  }

  /** `"\n".join(out).rstrip() + "\n"`: the output ends in exactly one line
      feed with no whitespace in front of it. */
  function FinishText(out: seq<string>): (text: string)
    ensures |text| >= 1 && text[|text| - 1] == '\n'
    ensures |text| >= 2 ==> !IsSpace(text[|text| - 2])
  {
    RStrip(Join(out, "\n")) + "\n"
  }

  /** `"\n".join(out) + "\n"`. */
  function JoinLines(out: seq<string>): (text: string)
    ensures |text| >= 1 && text[|text| - 1] == '\n'
  {
    Join(out, "\n") + "\n"
  }

  /** The text after the first comma, when there is a comma. */
  function CommaRest(s: string): (r: Option<string>)
    ensures r.None? <==> ',' !in s
    ensures r.Some? ==> exists k :: 0 <= k < |s| && s[k] == ',' && ',' !in s[..k] && r.value == s[k + 1..]
  {
    var k := IndexOf(s, ',');
    if k < |s| then Some(s[k + 1..])
    else
      assert s[..k] == s;
      None
  }

  // ---------------------------------------------------------------------
  // Picking the first match

  /** The index of the first element satisfying `q`, if any. */
  function FirstWhere<T>(ps: seq<T>, q: T -> bool): (r: Option<nat>)
    ensures r.Some? ==> r.value < |ps| && q(ps[r.value])
    ensures r.Some? ==> forall j :: 0 <= j < r.value ==> !q(ps[j])
    ensures r.None? ==> forall j :: 0 <= j < |ps| ==> !q(ps[j])
    decreases |ps|
  {
    if ps == [] then None
    else
      var f := FirstWhere(ps[..|ps| - 1], q);
      if f.Some? then
        assert ps[..|ps| - 1][f.value] == ps[f.value];
        f
      else if q(ps[|ps| - 1]) then Some(|ps| - 1)
      else None
  }

  /** Extending the list by one element can only supply a first match that
      was missing. */
  lemma FirstWhereSnoc<T>(ps: seq<T>, k: nat, q: T -> bool)
    requires k < |ps|
    ensures FirstWhere(ps[..k + 1], q)
         == if FirstWhere(ps[..k], q).Some? then FirstWhere(ps[..k], q)
            else if q(ps[k]) then Some(k) else None
  {
    assert ps[..k + 1][..k] == ps[..k];
  }

  // ---------------------------------------------------------------------
  // Picking the best candidate

  /** The index of the element `sorted(xs, key=score, reverse=True)[0]`
      selects: the first index holding the largest score (the sort is stable,
      so ties go to the earliest element). */
  function FirstMaxIndex(scores: seq<int>): (k: nat)
    requires |scores| > 0
    ensures k < |scores|
    ensures forall j :: 0 <= j < |scores| ==> scores[j] <= scores[k]
    ensures forall j :: 0 <= j < k ==> scores[j] < scores[k]
    decreases |scores|
  {
    if |scores| == 1 then 0
    else
      var k := 1 + FirstMaxIndex(scores[1..]);
      if scores[0] >= scores[k] then 0 else k
  }

  // ---------------------------------------------------------------------
  // Replacing the URL line after matched headers

  /** The rewritten destination lines and the number of updates counted. */
  datatype Rewrite = Rewrite(lines: seq<string>, updates: nat)

  /** How many lines the rewrite consumes at line `i`: the header and its URL
      line when a URL is written and the next line is a URL line, otherwise
      one. */
  function StepSkip(lines: seq<string>, newUrls: seq<Option<string>>, i: nat): (k: nat)
    requires |newUrls| == |lines| && i < |lines|
    ensures 1 <= k <= 2 && i + k <= |lines|
  {
    if newUrls[i].Some? && i + 1 < |lines| && IsUrlLine(lines[i + 1]) then 2 else 1
  }

  /** The lines the rewrite writes for line `i`: the line itself, then the
      new URL when there is one. */
  function StepLines(lines: seq<string>, newUrls: seq<Option<string>>, i: nat): (r: seq<string>)
    requires |newUrls| == |lines| && i < |lines|
    ensures |r| >= 1 && r[0] == lines[i]
  {
    if newUrls[i].Some? then [lines[i], newUrls[i].value] else [lines[i]]
  }

  /** The updates the rewrite counts for line `i`: an insertion, or a
      replacement by a different URL. */
  function StepUpdates(lines: seq<string>, newUrls: seq<Option<string>>, i: nat): nat
    requires |newUrls| == |lines| && i < |lines|
  {
    if newUrls[i].Some? && (StepSkip(lines, newUrls, i) == 1 || lines[i + 1] != newUrls[i].value) then 1 else 0
  }

  /** The rewrite of `update_dest_urls_only` from line `i` on: `newUrls[i]` is
      the picked URL when `lines[i]` is a matched `#EXTINF` whose channel was
      picked. Such a header is kept verbatim and followed by the picked URL,
      which replaces the next line when that is a URL line (an update only if
      it differs) and is inserted otherwise (always an update). Every other
      line is copied. */
  function ReplaceAt(lines: seq<string>, newUrls: seq<Option<string>>, i: nat): (r: Rewrite)
    requires |newUrls| == |lines|
    ensures |r.lines| >= |lines| - i
    decreases |lines| - i
  {
    if i >= |lines| then Rewrite([], 0)
    else
      var t := ReplaceAt(lines, newUrls, i + StepSkip(lines, newUrls, i));
      Rewrite(StepLines(lines, newUrls, i) + t.lines, StepUpdates(lines, newUrls, i) + t.updates)
  }

  function ReplaceUrls(lines: seq<string>, newUrls: seq<Option<string>>): Rewrite
    requires |newUrls| == |lines|
  {
    ReplaceAt(lines, newUrls, 0)
  }

  /** One iteration of a loop that builds `ReplaceAt` line by line keeps
      the loop's invariant: what was written so far followed by the rewrite
      of the rest is the whole rewrite. */
  lemma ReplaceLoopStep(lines: seq<string>, newUrls: seq<Option<string>>, i: nat,
                        out: seq<string>, updates: nat, emit: seq<string>, skip: nat, inc: nat, whole: Rewrite)
    requires |newUrls| == |lines| && i < |lines|
    requires emit == StepLines(lines, newUrls, i) && skip == StepSkip(lines, newUrls, i)
    requires inc == StepUpdates(lines, newUrls, i)
    requires out + ReplaceAt(lines, newUrls, i).lines == whole.lines
    requires updates + ReplaceAt(lines, newUrls, i).updates == whole.updates
    ensures (out + emit) + ReplaceAt(lines, newUrls, i + skip).lines == whole.lines
    ensures (updates + inc) + ReplaceAt(lines, newUrls, i + skip).updates == whole.updates
  {
    var rest := ReplaceAt(lines, newUrls, i + skip);
    assert ReplaceAt(lines, newUrls, i).lines == emit + rest.lines;
    ConcatAssoc(out, emit, rest.lines);
  }

  /** The update counter is zero exactly when the rewrite changed nothing:
      identical replacements are not counted, and every changed URL and every
      insertion is. */
  lemma {:induction false} NoUpdatesIffUnchanged(lines: seq<string>, newUrls: seq<Option<string>>, i: nat)
    requires |newUrls| == |lines| && i <= |lines|
    ensures ReplaceAt(lines, newUrls, i).updates == 0 <==> ReplaceAt(lines, newUrls, i).lines == lines[i..]
    decreases |lines| - i
  {
    if i < |lines| {
      var k := i + StepSkip(lines, newUrls, i);
      NoUpdatesIffUnchanged(lines, newUrls, k);
      UnchangedStep(lines, newUrls, i);
    }
  }

  /** One step of the rewrite leaves the lines unchanged exactly when it
      counts no update and the rest is unchanged. */
  lemma UnchangedStep(lines: seq<string>, newUrls: seq<Option<string>>, i: nat)
    requires |newUrls| == |lines| && i < |lines|
    ensures var k := i + StepSkip(lines, newUrls, i);
      var t := ReplaceAt(lines, newUrls, k);
      (StepLines(lines, newUrls, i) + t.lines == lines[i..])
        <==> (StepUpdates(lines, newUrls, i) == 0 && t.lines == lines[k..])
  {
    var k := i + StepSkip(lines, newUrls, i);
    var t := ReplaceAt(lines, newUrls, k);
    var w := StepLines(lines, newUrls, i);
    assert lines[i..] == lines[i..k] + lines[k..];
    if newUrls[i].Some? && k == i + 1 {
      assert |w + t.lines| > |lines[i..]|;
    } else {
      assert (w == lines[i..k]) <==> (StepUpdates(lines, newUrls, i) == 0);
      ConcatEqIff(w, t.lines, lines[i..k], lines[k..]);
    }
  }

  /** Two concatenations whose first parts have the same length are equal
      exactly when their parts are. */
  lemma ConcatEqIff<T>(a: seq<T>, b: seq<T>, c: seq<T>, d: seq<T>)
    requires |a| == |c|
    ensures a + b == c + d <==> a == c && b == d
  {
    if a + b == c + d {
      assert (a + b)[..|a|] == a && (c + d)[..|c|] == c;
      assert (a + b)[|a|..] == b && (c + d)[|c|..] == d;
    }
  }

  /** The lines that are not URL lines, in order. */
  function NonUrlLines(lines: seq<string>): seq<string> {
    if lines == [] then []
    else (if IsUrlLine(lines[0]) then [] else [lines[0]]) + NonUrlLines(lines[1..])
  }

  lemma {:induction false} NonUrlLinesAppend(a: seq<string>, b: seq<string>)
    ensures NonUrlLines(a + b) == NonUrlLines(a) + NonUrlLines(b)
    decreases |a|
  {
    if a == [] {
      assert a + b == b;
    } else {
      assert (a + b)[0] == a[0];
      assert (a + b)[1..] == a[1..] + b;
      NonUrlLinesAppend(a[1..], b);
    }
  }

  /** When every picked URL is a URL line, the rewrite only touches URL lines:
      every `#EXTINF`, comment and blank line is copied unchanged and in
      order, and no other non-URL line is added. */
  lemma {:induction false} ReplaceKeepsNonUrlLines(lines: seq<string>, newUrls: seq<Option<string>>, i: nat)
    requires |newUrls| == |lines| && i <= |lines|
    requires forall j :: 0 <= j < |newUrls| && newUrls[j].Some? ==> IsUrlLine(newUrls[j].value)
    ensures NonUrlLines(ReplaceAt(lines, newUrls, i).lines) == NonUrlLines(lines[i..])
    decreases |lines| - i
  {
    if i < |lines| {
      var k := i + StepSkip(lines, newUrls, i);
      ReplaceKeepsNonUrlLines(lines, newUrls, k);
      var t := ReplaceAt(lines, newUrls, k);
      NonUrlLinesAppend(StepLines(lines, newUrls, i), t.lines);
      NonUrlLinesAppend(lines[i..k], lines[k..]);
      assert lines[i..] == lines[i..k] + lines[k..];
      WrittenLikeConsumed(lines, newUrls, i);
    }
  }

  /** The lines written for line `i` have the same non-URL lines as the lines
      consumed. */
  lemma WrittenLikeConsumed(lines: seq<string>, newUrls: seq<Option<string>>, i: nat)
    requires |newUrls| == |lines| && i < |lines|
    requires newUrls[i].Some? ==> IsUrlLine(newUrls[i].value)
    ensures NonUrlLines(StepLines(lines, newUrls, i)) == NonUrlLines(lines[i..i + StepSkip(lines, newUrls, i)])
  {
    if newUrls[i].Some? {
      NonUrlLinesAfterUrl(lines[i], newUrls[i].value);
    }
    if StepSkip(lines, newUrls, i) == 2 {
      assert lines[i..i + 2] == [lines[i], lines[i + 1]];
      NonUrlLinesAfterUrl(lines[i], lines[i + 1]);
    } else {
      assert lines[i..i + 1] == [lines[i]];
    }
  }

  lemma NonUrlLinesAfterUrl(a: string, b: string)
    requires IsUrlLine(b)
    ensures NonUrlLines([a, b]) == NonUrlLines([a])
  {
    assert [a, b][1..] == [b];
    assert [a][1..] == [b][1..];
  }

  /** Without any picked URL the rewrite is the identity. */
  lemma {:induction false} ReplaceNothingPicked(lines: seq<string>, newUrls: seq<Option<string>>, i: nat)
    requires |newUrls| == |lines| && i <= |lines|
    requires forall j :: 0 <= j < |newUrls| ==> newUrls[j].None?
    ensures ReplaceAt(lines, newUrls, i) == Rewrite(lines[i..], 0)
    decreases |lines| - i
  {
    if i < |lines| {
      ReplaceNothingPicked(lines, newUrls, i + 1);
      assert lines[i..] == [lines[i]] + lines[i + 1..];
    }
  }
}
