/**
  `www/app.js`, `parseM3U`: the web client's playlist reader. The text is
  split at `\r\n` or `\n` and every line is trimmed. A `#EXTINF:` line
  yields one channel when the next line, trimmed, is a URL (non-empty and
  not a `#` line) and the text after its last comma, trimmed, is
  non-empty; the channel's logo is the `tvg-logo` attribute when that is
  non-empty and a placeholder image otherwise.
*/
module WwwApp {
  import opened Wrappers
  import opened Text

  /** One entry of the channel list: `{ name, logo, url }`. */
  datatype Channel = Channel(name: string, logo: string, url: string)

  const PlaceholderLogo: string := "https://via.placeholder.com/60?text=N/A"

  /** The fixed start of the logo attribute, up to its opening quote. */
  const LogoOpen: string := "tvg-logo=\""

  // ---------------------------------------------------------------------
  // The logo attribute

  /** `tvg-logo="([^"]*)"` can match at position `p`: the attribute opens
      there and a closing quote follows somewhere after it. */
  predicate LogoAt(s: string, p: nat) {
    p + |LogoOpen| <= |s| && s[p..p + |LogoOpen|] == LogoOpen && '"' in s[p + |LogoOpen|..]
  }

  /** The capture group of the match at `p`: everything up to the first
      closing quote. */
  function Capture(s: string, p: nat): (v: string)
    requires LogoAt(s, p)
    ensures p + |LogoOpen| + |v| < |s|
    ensures v == s[p + |LogoOpen|..p + |LogoOpen| + |v|] && '"' !in v
    ensures s[p + |LogoOpen| + |v|] == '"'
  {
    var rest := s[p + |LogoOpen|..];
    var k := IndexOf(rest, '"');
    assert rest[k] == s[p + |LogoOpen| + k];
    rest[..k]
  }

  /** `line.match(/tvg-logo="([^"]*)"/)`: the capture of the leftmost match,
      if any. */
  function LogoCapture(s: string): Option<string>
    decreases |s|
  {
    if |s| < |LogoOpen| then None
    else if LogoAt(s, 0) then Some(Capture(s, 0))
    else LogoCapture(s[1..])
  }

  /** A match at `p + 1` in `s` is a match at `p` in `s[1..]`, with the
      same capture. */
  lemma LogoAtShift(s: string, p: nat)
    requires s != []
    ensures LogoAt(s[1..], p) <==> LogoAt(s, p + 1)
    ensures LogoAt(s, p + 1) ==> Capture(s[1..], p) == Capture(s, p + 1)
  {
    if p + 1 + |LogoOpen| <= |s| {
      assert s[1..][p..p + |LogoOpen|] == s[p + 1..p + 1 + |LogoOpen|];
      assert s[1..][p + |LogoOpen|..] == s[p + 1 + |LogoOpen|..];
    }
  }

  /** The regex finds a match exactly when the attribute occurs with a
      closing quote, and its capture is that of the leftmost such
      occurrence. */
  lemma {:induction false} LogoCaptureLeftmost(s: string)
    ensures LogoCapture(s).Some? <==> exists p :: 0 <= p <= |s| && LogoAt(s, p)
    ensures LogoCapture(s).Some? ==>
      exists p :: && 0 <= p <= |s| && LogoAt(s, p)
                  && (forall q :: 0 <= q < p ==> !LogoAt(s, q))
                  && LogoCapture(s).value == Capture(s, p)
    decreases |s|
  {
    if |s| >= |LogoOpen| && !LogoAt(s, 0) {
      LogoCaptureLeftmost(s[1..]);
      assert LogoCapture(s) == LogoCapture(s[1..]);
      LogoFoundShift(s);
      if LogoCapture(s).Some? {
        var p :| && 0 <= p <= |s| - 1 && LogoAt(s[1..], p)
                 && (forall q :: 0 <= q < p ==> !LogoAt(s[1..], q))
                 && LogoCapture(s[1..]).value == Capture(s[1..], p);
        LogoFirstShift(s, p);
      }
    }
  }

  /** Without a match at the start, `s` has a match exactly when `s[1..]`
      has one. */
  lemma LogoFoundShift(s: string)
    requires s != [] && !LogoAt(s, 0)
    ensures (exists p :: 0 <= p <= |s| && LogoAt(s, p)) <==>
            (exists p :: 0 <= p <= |s| - 1 && LogoAt(s[1..], p))
  {
    if p :| 0 <= p <= |s| && LogoAt(s, p) {
      LogoAtShift(s, p - 1);
    }
    if p :| 0 <= p <= |s| - 1 && LogoAt(s[1..], p) {
      LogoAtShift(s, p);
    }
  }

  /** Without a match at the start, a leftmost match of `s[1..]` at `p` is a
      leftmost match of `s` at `p + 1`, with the same capture. */
  lemma LogoFirstShift(s: string, p: nat)
    requires s != [] && !LogoAt(s, 0)
    requires p <= |s| - 1 && LogoAt(s[1..], p) && forall q :: 0 <= q < p ==> !LogoAt(s[1..], q)
    ensures LogoAt(s, p + 1) && Capture(s, p + 1) == Capture(s[1..], p)
    ensures forall q :: 0 <= q < p + 1 ==> !LogoAt(s, q)
  {
    LogoAtShift(s, p);
    forall q | 0 <= q < p + 1 ensures !LogoAt(s, q) {
      if q > 0 { LogoAtShift(s, q - 1); }
    }
  }

  /** `if (logoMatch && logoMatch[1]) logo = logoMatch[1]`. */
  function Logo(line: string): string {
    match LogoCapture(line)
    case Some(v) => if v != "" then v else PlaceholderLogo
    case None => PlaceholderLogo
  }

  /** The logo is the placeholder unless the line carries a non-empty
      `tvg-logo` value, and then it is the leftmost such value. */
  lemma LogoChoice(line: string)
    ensures (forall p :: 0 <= p <= |line| ==> !LogoAt(line, p)) ==> Logo(line) == PlaceholderLogo
    ensures Logo(line) != PlaceholderLogo ==>
      exists p :: && 0 <= p <= |line| && LogoAt(line, p)
                  && (forall q :: 0 <= q < p ==> !LogoAt(line, q))
                  && Logo(line) == Capture(line, p) != ""
  {
    LogoCaptureLeftmost(line);
  }

  /** The attribute alone: its value is read out, and an empty value
      gives the placeholder. */
  lemma LogoExamples()
    ensures Logo("tvg-logo=\"L\"") == "L"
    ensures Logo("tvg-logo=\"\"") == PlaceholderLogo
  {
    assert LogoAt("tvg-logo=\"L\"", 0);
    assert LogoAt("tvg-logo=\"\"", 0);
  }

  // ---------------------------------------------------------------------
  // One line

  /** `lines[i + 1] ? lines[i + 1].trim() : ''`. */
  function NextTrimmed(lines: seq<string>, i: nat): string {
    if i + 1 < |lines| then Strip(lines[i + 1]) else ""
  }

  /** `line.substring(line.lastIndexOf(',') + 1).trim()`. */
  function NameAfterLastComma(line: string): (name: string)
    requires ',' in line
    ensures ',' !in name
  {
    var c := LastIndexOf(line, ',');
    var name := Strip(line[c + 1..]);
    StripChars(line[c + 1..]);
    name
  }

  /** The channel the loop pushes at line `i`, if any. */
  function ChannelAt(lines: seq<string>, i: nat): Option<Channel>
    requires i < |lines|
  {
    var line := Strip(lines[i]);
    var next := NextTrimmed(lines, i);
    if !StartsWith(line, "#EXTINF:") || next == "" || StartsWith(next, "#") || ',' !in line then None
    else
      var name := NameAfterLastComma(line);
      if name == "" then None else Some(Channel(name, Logo(line), next))
  }

  /** What a pushed channel is made of: line `i` trimmed is an `#EXTINF:`
      line with a comma, its name is the trimmed text after the last comma
      and contains none, the URL is the next line trimmed and is not a
      `#` line, and the logo is the placeholder or the line's attribute. */
  lemma ChannelAtMeaning(lines: seq<string>, i: nat)
    requires i < |lines|
    ensures ChannelAt(lines, i).Some? <==>
      && StartsWith(Strip(lines[i]), "#EXTINF:") && i + 1 < |lines|
      && Strip(lines[i + 1]) != "" && Strip(lines[i + 1])[0] != '#'
      && ',' in Strip(lines[i]) && NameAfterLastComma(Strip(lines[i])) != ""
    ensures ChannelAt(lines, i).Some? ==>
      var c := ChannelAt(lines, i).value;
      && c.name != "" && ',' !in c.name && Strip(c.name) == c.name
      && c.url == Strip(lines[i + 1]) && Strip(c.url) == c.url
      && c.logo == Logo(Strip(lines[i]))
  {
    if ChannelAt(lines, i).Some? {
      var line := Strip(lines[i]);
      StripIdempotent(line[LastIndexOf(line, ',') + 1..]);
      StripIdempotent(lines[i + 1]);
    }
  }

  /** Only a line beginning `#EXTINF:` with its colon yields a channel. */
  lemma ColonRequired()
    ensures ChannelAt(["#EXTINF-1,A", "http://u"], 0) == None
    ensures ChannelAt(["#EXTINF:-1,A", "http://u"], 0).Some?
  {
    var a := "#EXTINF-1,A";
    StripUnchanged(a);
    assert a[..8] != "#EXTINF:" by { assert a[7] == '-'; }
    var b := "#EXTINF:-1,A";
    StripUnchanged(b);
    StripUnchanged("http://u");
    assert b[10] == ',';
    assert b[..8] == "#EXTINF:";
    assert LastIndexOf(b, ',') == 10;
    assert b[11..] == "A";
    StripUnchanged("A");
  }

  /** The name is taken after the last comma. */
  lemma LastCommaExample()
    ensures NameAfterLastComma("#EXTINF:-1,A,B") == "B"
  {
    var s := "#EXTINF:-1,A,B";
    assert LastIndexOf(s, ',') == 12;
    assert s[13..] == "B";
    StripUnchanged("B");
  }

  // ---------------------------------------------------------------------
  // The whole list

  /** What each of the first `n` lines yields. */
  function SlotsUpTo(lines: seq<string>, n: nat): (r: seq<Option<Channel>>)
    requires n <= |lines|
    ensures |r| == n
  {
    if n == 0 then [] else SlotsUpTo(lines, n - 1) + [ChannelAt(lines, n - 1)]
  }

  /** What each line yields, line by line. */
  function Slots(lines: seq<string>): (r: seq<Option<Channel>>)
    ensures |r| == |lines|
  {
    SlotsUpTo(lines, |lines|)
  }

  lemma {:induction false} SlotsUpToAt(lines: seq<string>, n: nat, i: nat)
    requires i < n <= |lines|
    ensures SlotsUpTo(lines, n)[i] == ChannelAt(lines, i)
  {
    if i < n - 1 {
      SlotsUpToAt(lines, n - 1, i);
    }
  }

  lemma SlotsAt(lines: seq<string>)
    ensures forall i :: 0 <= i < |lines| ==> Slots(lines)[i] == ChannelAt(lines, i)
  {
    forall i | 0 <= i < |lines| ensures Slots(lines)[i] == ChannelAt(lines, i) {
      SlotsUpToAt(lines, |lines|, i);
    }
  }

  /** The channels pushed while visiting the first `n` slots. */
  function Pushed(slots: seq<Option<Channel>>, n: nat): seq<Channel>
    requires n <= |slots|
  {
    if n == 0 then []
    else Pushed(slots, n - 1) + (if slots[n - 1].Some? then [slots[n - 1].value] else [])
  }

  /** The channel list of a playlist split into lines. */
  function Channels(lines: seq<string>): seq<Channel> {
    Pushed(Slots(lines), |lines|)
  }

  /** The indices among the first `n` slots that hold a channel. */
  function Origins(slots: seq<Option<Channel>>, n: nat): seq<nat>
    requires n <= |slots|
  {
    if n == 0 then []
    else Origins(slots, n - 1) + (if slots[n - 1].Some? then [n - 1] else [])
  }

  /** Channel `k` comes from slot `Origins[k]`, the origins increase
      strictly, and every slot holding a channel is an origin. */
  lemma {:induction false} PushedFromOrigins(slots: seq<Option<Channel>>, n: nat)
    requires n <= |slots|
    ensures var o := Origins(slots, n); var cs := Pushed(slots, n);
      && |o| == |cs|
      && (forall k :: 0 <= k < |o| ==> o[k] < n && slots[o[k]] == Some(cs[k]))
      && (forall k, m :: 0 <= k < m < |o| ==> o[k] < o[m])
      && (forall i :: 0 <= i < n ==> (i in o <==> slots[i].Some?))
  {
    if n > 0 {
      PushedFromOrigins(slots, n - 1);
    }
  }

  /** At most one channel per `#EXTINF`, in `#EXTINF` order: channel `k`
      is what line `Origins[k]` yields, the origins increase strictly, and
      every line that yields a channel is an origin. */
  lemma ChannelsFromOrigins(lines: seq<string>)
    ensures var o := Origins(Slots(lines), |lines|); var cs := Channels(lines);
      && |o| == |cs|
      && (forall k :: 0 <= k < |o| ==> o[k] < |lines| && ChannelAt(lines, o[k]) == Some(cs[k]))
      && (forall k, m :: 0 <= k < m < |o| ==> o[k] < o[m])
      && (forall i :: 0 <= i < |lines| ==> (i in o <==> ChannelAt(lines, i).Some?))
  {
    PushedFromOrigins(Slots(lines), |lines|);
    SlotsAt(lines);
  }

  /** A channel as the list promises it: a non-empty name without a comma,
      a non-empty URL that is not a `#` line, and a logo. */
  predicate WellFormed(c: Channel) {
    c.name != "" && ',' !in c.name && c.url != "" && c.url[0] != '#' && c.logo != ""
  }

  lemma PushedWellFormed(lines: seq<string>, i: nat, c: Channel)
    requires i < |lines| && ChannelAt(lines, i) == Some(c)
    ensures WellFormed(c)
  {
    ChannelAtMeaning(lines, i);
  }

  /** Every channel of the list is well formed. */
  lemma ChannelsWellFormed(lines: seq<string>)
    ensures forall c :: c in Channels(lines) ==> WellFormed(c)
  {
    ChannelsFromOrigins(lines);
    var o := Origins(Slots(lines), |lines|);
    var cs := Channels(lines);
    forall c | c in cs ensures WellFormed(c) {
      var k :| 0 <= k < |cs| && cs[k] == c;
      PushedWellFormed(lines, o[k], c);
    }
  }

  /** Slots without a channel add nothing. */
  lemma {:induction false} NothingPushed(slots: seq<Option<Channel>>, n: nat)
    requires n <= |slots| && forall i :: 0 <= i < n ==> slots[i] == None
    ensures Pushed(slots, n) == []
  {
    if n > 0 {
      NothingPushed(slots, n - 1);
    }
  }

  /** A playlist without an `#EXTINF:` line yields no channel. */
  lemma NoHeaderNoChannel(lines: seq<string>)
    requires forall i :: 0 <= i < |lines| ==> !StartsWith(Strip(lines[i]), "#EXTINF:")
    ensures Channels(lines) == []
  {
    SlotsAt(lines);
    NothingPushed(Slots(lines), |lines|);
  }

  /** The body of the loop for line `i`: the channel it pushes, if any. */
  method LineChannel(lines: seq<string>, i: nat) returns (r: Option<Channel>)
    requires i < |lines|
    ensures r == Slots(lines)[i]
  {
    SlotsUpToAt(lines, |lines|, i);
    var line := Strip(lines[i]);
    if !StartsWith(line, "#EXTINF:") {
      return None;
    }
    var nextLine := if i + 1 < |lines| && lines[i + 1] != "" then Strip(lines[i + 1]) else "";
    assert nextLine == NextTrimmed(lines, i);
    if nextLine == "" || StartsWith(nextLine, "#") {
      return None;
    }
    var commaIndex := LastIndexOf(line, ',');
    if commaIndex == -1 {
      assert ',' !in line;
      return None;
    }
    assert ',' in line;
    var name := Strip(line[commaIndex + 1..]);
    assert name == NameAfterLastComma(line);
    var logo := PlaceholderLogo;
    var logoMatch := LogoCapture(line);
    if logoMatch.Some? && logoMatch.value != "" {
      logo := logoMatch.value;
    }
    assert logo == Logo(line);
    if name != "" {
      assert ChannelAt(lines, i) == Some(Channel(name, logo, nextLine));
      return Some(Channel(name, logo, nextLine));
    }
    return None;
  }

  /** The `for` loop of `parseM3U` over the split lines. */
  method PushAll(lines: seq<string>) returns (channels: seq<Channel>)
    ensures channels == Channels(lines)
  {
    channels := [];
    ghost var slots := Slots(lines);
    assert |slots| == |lines|;
    for i := 0 to |lines|
      invariant channels == Pushed(slots, i)
    {
      channels := PushLine(lines, i, channels, slots);
    }
  }

  /** One pass of the loop of `parseM3U`: the channel of line `i`, if any,
      is pushed. */
  method PushLine(lines: seq<string>, i: nat, channels: seq<Channel>, ghost slots: seq<Option<Channel>>)
    returns (channels': seq<Channel>)
    requires i < |lines| && slots == Slots(lines) && channels == Pushed(slots, i)
    ensures channels' == Pushed(slots, i + 1)
  {
    var c := LineChannel(lines, i);
    assert Pushed(slots, i + 1) == Pushed(slots, i) + (if c.Some? then [c.value] else []);
    channels' := channels;
    if c.Some? {
      channels' := channels + [c.value];
    }
  }

  /** `parseM3U(m3uContent)`. */
  method ParseM3U(m3uContent: string) returns (channels: seq<Channel>)
    ensures channels == Channels(SplitCrLf(m3uContent))
  {
    var lines := SplitCrLf(m3uContent);
    channels := PushAll(lines);
  }
}
