/**
  What the two match scrapers share: the match record they write to
  `matches/today.json`, the record identifier built from the team names and
  the date, and the ISO form of a calendar date.
*/
module Fixtures {
  import opened Wrappers
  import opened Text

  /** One entry of the `matches` list, its keys in the order the scripts
      write them. */
  datatype Match = Match(
    id: string,
    home: string,
    away: string,
    homeLogo: string,
    awayLogo: string,
    timeBaghdad: string,
    status: string,
    statusText: string,
    resultText: string,
    channel: Option<string>,
    commentator: Option<string>,
    competition: Option<string>,
    source: string)

  /** The JSON object written by both scripts. */
  datatype Output = Output(date: string, sourceUrl: string, matches: seq<Match>)

  // ---------------------------------------------------------------------
  // Dates

  /** A calendar date as Python's `datetime.date` holds it. */
  datatype Date = Date(year: nat, month: nat, day: nat)

  /** The ranges `datetime.date` accepts; the day is bounded by 31 whatever
      the month. */
  predicate ValidDate(d: Date) {
    1 <= d.year <= 9999 && 1 <= d.month <= 12 && 1 <= d.day <= 31
  }

  function Pow10(k: nat): (r: nat)
    ensures r >= 1
  {
    if k == 0 then 1 else 10 * Pow10(k - 1)
  }

  /** A number below `10^w` takes at most `w` digits. */
  lemma {:induction false} DecimalWidth(n: nat, w: nat)
    requires w >= 1 && n < Pow10(w)
    ensures |Decimal(n)| <= w
  {
    if n >= 10 {
      assert Pow10(w) == 10 * Pow10(w - 1);
      DecimalWidth(n / 10, w - 1);
    }
  }

  /** A number below `10^w` padded to width `w` takes exactly `w` digits. */
  lemma ZeroPadWidth(n: nat, w: nat)
    requires w >= 1 && n < Pow10(w)
    ensures |ZeroPad(n, w)| == w
  {
    DecimalWidth(n, w);
  }

  /** `date.isoformat()`: `YYYY-MM-DD`. */
  function IsoDate(d: Date): (r: string)
    requires ValidDate(d)
    ensures |r| == 10 && r[4] == '-' && r[7] == '-'
    ensures AllDigits(r[..4]) && AllDigits(r[5..7]) && AllDigits(r[8..])
  {
    assert Pow10(4) == 10000 && Pow10(2) == 100;
    ZeroPadWidth(d.year, 4);
    ZeroPadWidth(d.month, 2);
    ZeroPadWidth(d.day, 2);
    var r := ZeroPad(d.year, 4) + "-" + ZeroPad(d.month, 2) + "-" + ZeroPad(d.day, 2);
    assert r[..4] == ZeroPad(d.year, 4);
    assert r[5..7] == ZeroPad(d.month, 2);
    assert r[8..] == ZeroPad(d.day, 2);
    r
  }

  /** Reads a `YYYY-MM-DD` text back into a date. */
  function ParseIsoDate(s: string): Option<Date> {
    if |s| == 10 && s[4] == '-' && s[7] == '-'
      && AllDigits(s[..4]) && AllDigits(s[5..7]) && AllDigits(s[8..])
    then Some(Date(DigitsValue(s[..4]), DigitsValue(s[5..7]), DigitsValue(s[8..])))
    else None
  }

  /** The ISO form names its date: reading it back gives the date. */
  lemma IsoDateRoundTrip(d: Date)
    requires ValidDate(d)
    ensures ParseIsoDate(IsoDate(d)) == Some(d)
  {
    var r := IsoDate(d);
    assert Pow10(4) == 10000 && Pow10(2) == 100;
    ZeroPadWidth(d.year, 4);
    ZeroPadWidth(d.month, 2);
    ZeroPadWidth(d.day, 2);
    assert r[..4] == ZeroPad(d.year, 4);
    assert r[5..7] == ZeroPad(d.month, 2);
    assert r[8..] == ZeroPad(d.day, 2);
    ZeroPadRoundTrip(d.year, 4);
    ZeroPadRoundTrip(d.month, 2);
    ZeroPadRoundTrip(d.day, 2);
  }

  /** Different dates have different ISO forms. */
  lemma IsoDateInjective(d: Date, e: Date)
    requires ValidDate(d) && ValidDate(e) && IsoDate(d) == IsoDate(e)
    ensures d == e
  {
    IsoDateRoundTrip(d);
    IsoDateRoundTrip(e);
  }

  // ---------------------------------------------------------------------
  // The record identifier

  /** Python `s[:n]`: the first `n` characters, or all of a shorter text. */
  function Take(s: string, n: nat): (r: string)
    ensures |r| == if |s| < n then |s| else n
    ensures StartsWith(s, r)
  {
    if |s| <= n then s else s[..n]
  }

  /** Python `s.replace(" ", "")`: `s` with every space character removed;
      other whitespace stays. */
  function RemoveSpaces(s: string): (r: string)
    ensures ' ' !in r && |r| <= |s|
    ensures forall c :: c in r ==> c in s
    decreases |s|
  {
    if s == [] then ""
    else (if s[0] == ' ' then "" else [s[0]]) + RemoveSpaces(s[1..])
  }

  /** Removing the spaces keeps every other character, in order: it leaves
      a space-free text alone and works piece by piece on a concatenation. */
  lemma {:induction false} RemoveSpacesFree(s: string)
    requires ' ' !in s
    ensures RemoveSpaces(s) == s
  {
    if s != [] {
      RemoveSpacesFree(s[1..]);
    }
  }

  lemma {:induction false} RemoveSpacesConcat(a: string, b: string)
    ensures RemoveSpaces(a + b) == RemoveSpaces(a) + RemoveSpaces(b)
    decreases |a|
  {
    if a != [] {
      var h := if a[0] == ' ' then "" else [a[0]];
      assert (a + b)[0] == a[0] && (a + b)[1..] == a[1..] + b;
      assert RemoveSpaces(a + b) == h + RemoveSpaces(a[1..] + b);
      RemoveSpacesConcat(a[1..], b);
      ConcatAssoc(h, RemoveSpaces(a[1..]), RemoveSpaces(b));
    } else {
      assert a + b == b;
    }
  }

  /** The `id` of a record: `f"{home[:12]}-{away[:12]}-{date}".replace(" ", "")`. */
  function MatchId(home: string, away: string, date: string): string {
    RemoveSpaces(Take(home, 12) + "-" + Take(away, 12) + "-" + date)
  }

  /** The identifier holds no space, and it is the spaceless truncated home
      name, a dash, the spaceless truncated away name, a dash and the date. */
  lemma MatchIdParts(home: string, away: string, date: string)
    requires ' ' !in date
    ensures ' ' !in MatchId(home, away, date)
    ensures MatchId(home, away, date)
      == RemoveSpaces(Take(home, 12)) + "-" + RemoveSpaces(Take(away, 12)) + "-" + date
  {
    var h := Take(home, 12);
    var a := Take(away, 12);
    RemoveSpacesConcat(h + "-" + a + "-", date);
    RemoveSpacesConcat(h + "-" + a, "-");
    RemoveSpacesConcat(h + "-", a);
    RemoveSpacesConcat(h, "-");
    RemoveSpacesFree("-");
    RemoveSpacesFree(date);
  }

  /** Only the first twelve characters of a team name enter the identifier:
      two fixtures whose names agree there get the same identifier. */
  lemma MatchIdTruncates(home: string, home': string, away: string, away': string, date: string)
    requires Take(home, 12) == Take(home', 12) && Take(away, 12) == Take(away', 12)
    ensures MatchId(home, away, date) == MatchId(home', away', date)
  {
  }

  /** Short space-free names enter the identifier whole. */
  lemma MatchIdShortNames(home: string, away: string, date: string)
    requires |home| <= 12 && |away| <= 12
    requires ' ' !in home && ' ' !in away && ' ' !in date
    ensures MatchId(home, away, date) == home + "-" + away + "-" + date
  {
    MatchIdParts(home, away, date);
    RemoveSpacesFree(home);
    RemoveSpacesFree(away);
  }

  /** The identifier of a fixture on an ISO date ends with that date. */
  lemma MatchIdEndsWithDate(home: string, away: string, d: Date)
    requires ValidDate(d)
    ensures var id := MatchId(home, away, IsoDate(d));
      |id| >= 11 && id[|id| - 10..] == IsoDate(d) && id[|id| - 11] == '-'
  {
    var iso := IsoDate(d);
    assert ' ' !in iso by {
      forall i | 0 <= i < 10 ensures iso[i] != ' ' {
        if i < 4 { assert iso[..4][i] == iso[i]; }
        else if 5 <= i < 7 { assert iso[5..7][i - 5] == iso[i]; }
        else if 8 <= i { assert iso[8..][i - 8] == iso[i]; }
      }
    }
    MatchIdParts(home, away, iso);
  }
}
