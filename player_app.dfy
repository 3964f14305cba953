/**
  `app.js`, `parseM3U8`: the player's playlist reader. The text is split at
  `\n` only and every line is trimmed. An `#EXTINF` line sets the name of
  the channel being built, a later one overwriting an earlier one; every
  other non-empty line that is not a `#` line is a URL and pushes the
  channel being built with that URL, after which a fresh channel without a
  name is started.
*/
module PlayerApp {
  import opened Wrappers
  import opened Text

  /** A pushed channel object. Its `name` is unset when no `#EXTINF` came
      since the previous URL line. */
  datatype Channel = Channel(name: Option<string>, url: string)

  const UnknownChannel: string := "Unknown Channel"

  // ---------------------------------------------------------------------
  // The name

  /** The characters JavaScript's `.` does not match. */
  predicate IsLineTerminator(c: char) {
    c == '\n' || c == '\r' || c == '\U{2028}' || c == '\U{2029}'
  }

  predicate NoTerminator(s: string) {
    forall i :: 0 <= i < |s| ==> !IsLineTerminator(s[i])
  }

  /** The capture of `line.match(/,(.*)$/)`: the text after the leftmost
      comma from which `.*` reaches the end of the line. */
  function CommaTail(s: string): Option<string>
    decreases |s|
  {
    if s == [] then None
    else if s[0] == ',' && NoTerminator(s[1..]) then Some(s[1..])
    else CommaTail(s[1..])
  }

  /** In a line without line terminators the capture is the text after the
      first comma, and there is none without a comma. */
  lemma {:induction false} CommaTailFirstComma(s: string)
    requires NoTerminator(s)
    ensures ',' in s ==> CommaTail(s) == Some(s[IndexOf(s, ',') + 1..])
    ensures ',' !in s ==> CommaTail(s) == None
    decreases |s|
  {
    if s != [] {
      assert NoTerminator(s[1..]);
      CommaTailFirstComma(s[1..]);
      if s[0] != ',' {
        IndexOfAfter(s, ',', 1);
        assert ',' in s <==> ',' in s[1..] by {
          assert s == [s[0]] + s[1..];
        }
      }
    }
  }

  /** `nameMatch ? nameMatch[1].trim() : 'Unknown Channel'`. */
  function NameOf(line: string): string {
    match CommaTail(line)
    case Some(t) => Strip(t)
    case None => UnknownChannel
  }

  /** The name is the trimmed text after the first comma, unlike the web
      client, and a line without a comma gets the placeholder name. */
  lemma NameAfterFirstComma(line: string)
    requires NoTerminator(line)
    ensures ',' in line ==> NameOf(line) == Strip(line[IndexOf(line, ',') + 1..])
    ensures ',' !in line ==> NameOf(line) == UnknownChannel
  {
    CommaTailFirstComma(line);
  }

  lemma FirstCommaExample()
    ensures NameOf("a,b,c") == "b,c"
  {
    assert NoTerminator("b,c");
    StripUnchanged("b,c");
  }

  // ---------------------------------------------------------------------
  // The scan

  /** `line.startsWith('#EXTINF')` on the trimmed line, no colon needed. */
  predicate IsExtinf(line: string) {
    StartsWith(Strip(line), "#EXTINF")
  }

  /** `line && !line.startsWith('#')` on the trimmed line. */
  predicate IsUrl(line: string) {
    var l := Strip(line);
    l != "" && !StartsWith(l, "#")
  }

  /** An `#EXTINF` line is no URL line. */
  lemma ExtinfIsNotUrl(line: string)
    requires IsExtinf(line)
    ensures !IsUrl(line)
  {
    assert Strip(line)[..1] == "#";
  }

  /** The pushed channels and the name of the channel being built. */
  datatype Scan = Scan(channels: seq<Channel>, name: Option<string>)

  /** One iteration of the loop. */
  function Step(st: Scan, line: string): Scan {
    if IsExtinf(line) then Scan(st.channels, Some(NameOf(Strip(line))))
    else if IsUrl(line) then Scan(st.channels + [Channel(st.name, Strip(line))], None)
    else st
  }

  /** The state after the first `n` lines. */
  function ScanUpTo(lines: seq<string>, n: nat): Scan
    requires n <= |lines|
  {
    if n == 0 then Scan([], None) else Step(ScanUpTo(lines, n - 1), lines[n - 1])
  }

  /** The channel list of a playlist split into lines. */
  function Channels(lines: seq<string>): seq<Channel> {
    ScanUpTo(lines, |lines|).channels
  }

  /** The number of URL lines among the first `n`. */
  function UrlCount(lines: seq<string>, n: nat): nat
    requires n <= |lines|
  {
    if n == 0 then 0 else UrlCount(lines, n - 1) + (if IsUrl(lines[n - 1]) then 1 else 0)
  }

  // ---------------------------------------------------------------------
  // Properties

  /** One channel per URL line: the first `n` lines push as many channels
      as they hold URL lines. */
  lemma {:induction false} ChannelCount(lines: seq<string>, n: nat)
    requires n <= |lines|
    ensures |ScanUpTo(lines, n).channels| == UrlCount(lines, n)
  {
    if n > 0 {
      ChannelCount(lines, n - 1);
      if IsExtinf(lines[n - 1]) {
        ExtinfIsNotUrl(lines[n - 1]);
      }
    }
  }

  /** Channels once pushed stay in place. */
  lemma {:induction false} PushedStay(lines: seq<string>, n: nat, m: nat)
    requires n <= m <= |lines|
    ensures var a := ScanUpTo(lines, n).channels; var b := ScanUpTo(lines, m).channels;
      |a| <= |b| && b[..|a|] == a
    decreases m - n
  {
    if n < m {
      PushedStay(lines, n, m - 1);
      var a := ScanUpTo(lines, n).channels;
      var b := ScanUpTo(lines, m - 1).channels;
      assert ScanUpTo(lines, m).channels[..|b|] == b;
    }
  }

  /** The URL line at `j` pushes channel number `UrlCount(lines, j)` of the
      list: its URL is the trimmed line and its name is the one being built
      when the line is reached. */
  lemma UrlLineChannel(lines: seq<string>, j: nat)
    requires j < |lines| && IsUrl(lines[j])
    ensures UrlCount(lines, j) < |Channels(lines)|
    ensures Channels(lines)[UrlCount(lines, j)] == Channel(ScanUpTo(lines, j).name, Strip(lines[j]))
  {
    ChannelCount(lines, j);
    PushedStay(lines, j + 1, |lines|);
    var a := ScanUpTo(lines, j + 1).channels;
    assert a[UrlCount(lines, j)] == Channel(ScanUpTo(lines, j).name, Strip(lines[j]));
    assert Channels(lines)[..|a|] == a;
  }

  /** Lines that are neither `#EXTINF` nor URL lines leave the name being
      built alone. */
  lemma {:induction false} NameKept(lines: seq<string>, a: nat, b: nat)
    requires a <= b <= |lines|
    requires forall m :: a <= m < b ==> !IsExtinf(lines[m]) && !IsUrl(lines[m])
    ensures ScanUpTo(lines, b).name == ScanUpTo(lines, a).name
    decreases b - a
  {
    if a < b {
      NameKept(lines, a, b - 1);
    }
  }

  /** Without an `#EXTINF` the name stays unset once it is. */
  lemma {:induction false} NameStaysUnset(lines: seq<string>, a: nat, b: nat)
    requires a <= b <= |lines| && ScanUpTo(lines, a).name == None
    requires forall m :: a <= m < b ==> !IsExtinf(lines[m])
    ensures ScanUpTo(lines, b).name == None
    decreases b - a
  {
    if a < b {
      NameStaysUnset(lines, a, b - 1);
    }
  }

  /** A URL line takes its name from the latest `#EXTINF` before it, provided
      no URL line comes in between: later `#EXTINF` lines overwrite earlier
      ones. */
  lemma LatestExtinfNames(lines: seq<string>, e: nat, j: nat)
    requires e < j < |lines| && IsExtinf(lines[e]) && IsUrl(lines[j])
    requires forall m :: e < m < j ==> !IsExtinf(lines[m]) && !IsUrl(lines[m])
    ensures UrlCount(lines, j) < |Channels(lines)|
    ensures Channels(lines)[UrlCount(lines, j)] == Channel(Some(NameOf(Strip(lines[e]))), Strip(lines[j]))
  {
    ExtinfSetsName(lines, e);
    NameKept(lines, e + 1, j);
    UrlLineChannel(lines, j);
  }

  lemma ExtinfSetsName(lines: seq<string>, e: nat)
    requires e < |lines| && IsExtinf(lines[e])
    ensures ScanUpTo(lines, e + 1).name == Some(NameOf(Strip(lines[e])))
  {
  }

  /** A URL line with no `#EXTINF` since the start or since the previous URL
      line `q` yields a channel without a name. */
  lemma UnnamedChannel(lines: seq<string>, q: int, j: nat)
    requires -1 <= q < j < |lines| && IsUrl(lines[j])
    requires q >= 0 ==> IsUrl(lines[q])
    requires forall m :: q < m < j ==> !IsExtinf(lines[m])
    ensures UrlCount(lines, j) < |Channels(lines)|
    ensures Channels(lines)[UrlCount(lines, j)] == Channel(None, Strip(lines[j]))
  {
    if q >= 0 {
      assert !IsExtinf(lines[q]);
    }
    NameStaysUnset(lines, q + 1, j);
    UrlLineChannel(lines, j);
  }

  /** Every pushed URL is a trimmed, non-empty line that is not a `#` line. */
  lemma {:induction false} PushedUrls(lines: seq<string>, n: nat)
    requires n <= |lines|
    ensures forall c :: c in ScanUpTo(lines, n).channels ==>
      c.url != "" && c.url[0] != '#' && Strip(c.url) == c.url
  {
    if n > 0 {
      PushedUrls(lines, n - 1);
      if !IsExtinf(lines[n - 1]) && IsUrl(lines[n - 1]) {
        StripIdempotent(lines[n - 1]);
        assert Strip(lines[n - 1])[..1] == [Strip(lines[n - 1])[0]];
      }
    }
  }

  // ---------------------------------------------------------------------
  // The loop

  /** `parseM3U8(content)`. */
  method ParseM3U8(content: string) returns (channels: seq<Channel>)
    ensures channels == Channels(SplitOn(content, '\n'))
  {
    var lines := SplitOn(content, '\n');
    channels := ScanLines(lines);
  }

  /** The `for` loop of `parseM3U8`; `name` is the `name` field of
      `currentChannel`. */
  method ScanLines(lines: seq<string>) returns (channels: seq<Channel>)
    ensures channels == Channels(lines)
  {
    channels := [];
    var name: Option<string> := None;
    for i := 0 to |lines|
      invariant Scan(channels, name) == ScanUpTo(lines, i)
    {
      var line := Strip(lines[i]);
      if StartsWith(line, "#EXTINF") {
        var nameMatch := CommaTail(line);
        name := Some(if nameMatch.Some? then Strip(nameMatch.value) else UnknownChannel);
      } else if line != "" && !StartsWith(line, "#") {
        channels := channels + [Channel(name, line)];
        name := None;
      }
    }
  }
}
