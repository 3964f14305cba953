/**
  `match/scripts/scrape_yallashoot_to_json.py`: the Yalla Shoot scraper.
  The match cards the page script collects are turned into records, the
  status normalised from the Arabic status text, and written with today's
  Baghdad date and the page address. The browser and the page script are
  left out: the cards are an input, and so are the date and the
  `FORCE_URL` environment variable.
*/
module Yallashoot {
  import opened Wrappers
  import opened Text
  import opened Fixtures

  const DefaultUrl: string := "https://www.yalla-shoot.info/matches-today/"
  const SourceName: string := "yalla1shoot"

  /** The Arabic words of the status test: "ended" and the same without its
      first letter, "live", "half" (of the game), "not" and "starts". */
  const Ended: string := "\U{0627}\U{0646}\U{062A}\U{0647}\U{062A}"
  const EndedStem: string := "\U{0646}\U{062A}\U{0647}\U{062A}"
  const Live: string := "\U{0645}\U{0628}\U{0627}\U{0634}\U{0631}"
  const Half: string := "\U{0627}\U{0644}\U{0634}\U{0648}\U{0637}"
  const NotYet: string := "\U{0644}\U{0645}"
  const Starts: string := "\U{062A}\U{0628}\U{062F}\U{0623}"

  /** `os.environ.get("FORCE_URL") or DEFAULT_URL`: an unset or empty
      variable gives the default page. */
  function SourceUrl(forceUrl: Option<string>): (r: string)
    ensures forceUrl.Some? && forceUrl.value != "" ==> r == forceUrl.value
    ensures forceUrl.None? || forceUrl.value == "" ==> r == DefaultUrl
  {
    match forceUrl
    case Some(u) => if u != "" then u else DefaultUrl
    case None => DefaultUrl
  }

  // ---------------------------------------------------------------------
  // The status

  /** `(ar_text or "").strip()`. */
  function StatusWords(arText: Option<string>): string {
    match arText
    case Some(s) => Strip(s)
    case None => ""
  }

  /** `normalize_status(ar_text)`. */
  function NormalizeStatus(arText: Option<string>): (r: string)
    ensures r == "NS" || r == "FT" || r == "LIVE"
  {
    var t := StatusWords(arText);
    if t == "" then "NS"
    else if Contains(t, Ended) || Contains(t, EndedStem) then "FT"
    else if Contains(t, Live) || Contains(t, Half) then "LIVE"
    else if Contains(t, NotYet) && Contains(t, Starts) then "NS"
    else "NS"
  }

  /** The first word of the finished test adds nothing: text containing
      "ended" contains its stem. */
  lemma EndedHasStem(t: string)
    requires Contains(t, Ended)
    ensures Contains(t, EndedStem)
  {
    assert Ended[1..] == EndedStem;
    ContainsSuffix(t, Ended, 1);
  }

  /** The status is finished exactly when the stripped text contains the
      stem of "ended", live exactly when it does not but contains "live" or
      "half", and not started in every other case, whether or not the text
      says "not ... starts". */
  lemma StatusCases(arText: Option<string>)
    ensures var t := StatusWords(arText);
      && (NormalizeStatus(arText) == "FT" <==> Contains(t, EndedStem))
      && (NormalizeStatus(arText) == "LIVE" <==>
            !Contains(t, EndedStem) && (Contains(t, Live) || Contains(t, Half)))
      && (NormalizeStatus(arText) == "NS" <==>
            !Contains(t, EndedStem) && !Contains(t, Live) && !Contains(t, Half))
  {
    var t := StatusWords(arText);
    if Contains(t, Ended) {
      EndedHasStem(t);
    }
    if t == "" {
      assert !StartsWith(t, EndedStem) && !StartsWith(t, Live) && !StartsWith(t, Half);
    }
  }

  /** No text, an empty text and a blank text all mean not started. */
  lemma BlankIsNotStarted(arText: Option<string>)
    requires arText.None? || AllSpace(arText.value)
    ensures NormalizeStatus(arText) == "NS"
  {
    if arText.Some? {
      StripEmptyIffAllSpace(arText.value);
    }
  }

  /** The finished test comes first: a text that says both "ended" and
      "live" is finished. */
  lemma EndedBeforeLive(arText: Option<string>)
    requires Contains(StatusWords(arText), Ended)
    ensures NormalizeStatus(arText) == "FT"
  {
    StatusCases(arText);
    EndedHasStem(StatusWords(arText));
  }

  // ---------------------------------------------------------------------
  // The records

  /** A card as the page script returns it: every field a trimmed text,
      empty when the element is missing. */
  datatype Card = Card(
    home: string,
    away: string,
    homeLogo: string,
    awayLogo: string,
    timeLocal: string,
    resultText: string,
    statusText: string,
    channel: string,
    commentator: string,
    competition: string)

  /** Python `s or None` on a text. */
  function OrNone(s: string): (r: Option<string>)
    ensures r == None <==> s == ""
    ensures r.Some? ==> r.value == s
  {
    if s == "" then None else Some(s)
  }

  /** The record of a card. */
  function CardRecord(c: Card, today: string): Match {
    Match(MatchId(c.home, c.away, today), c.home, c.away, c.homeLogo, c.awayLogo,
      c.timeLocal, NormalizeStatus(Some(c.statusText)), c.statusText, c.resultText,
      OrNone(c.channel), OrNone(c.commentator), OrNone(c.competition), SourceName)
  }

  /** The loop over the cards, appending one record per card. */
  method BuildMatches(cards: seq<Card>, today: string) returns (matches: seq<Match>)
    ensures |matches| == |cards|
    ensures forall k :: 0 <= k < |cards| ==> matches[k] == CardRecord(cards[k], today)
  {
    matches := [];
    for i := 0 to |cards|
      invariant |matches| == i
      invariant forall k :: 0 <= k < i ==> matches[k] == CardRecord(cards[k], today)
    {
      var c := cards[i];
      var mid := MatchId(c.home, c.away, today);
      matches := matches + [Match(mid, c.home, c.away, c.homeLogo, c.awayLogo,
        c.timeLocal, NormalizeStatus(Some(c.statusText)), c.statusText, c.resultText,
        OrNone(c.channel), OrNone(c.commentator), OrNone(c.competition), SourceName)];
    }
  }

  /** The object `scrape()` writes: today's Baghdad date, the page address
      and one record per card, in card order. */
  method Scrape(cards: seq<Card>, forceUrl: Option<string>, today: Date) returns (out: Output)
    requires ValidDate(today)
    ensures out.date == IsoDate(today) && out.sourceUrl == SourceUrl(forceUrl)
    ensures |out.matches| == |cards|
    ensures forall k :: 0 <= k < |cards| ==> out.matches[k] == CardRecord(cards[k], IsoDate(today))
  {
    var url := SourceUrl(forceUrl);
    var iso := IsoDate(today);
    var matches := BuildMatches(cards, iso);
    out := Output(iso, url, matches);
  }

  /** What every record of a card keeps and what it normalises: the teams,
      texts and logos as found, a status among the three, a space-free
      identifier ending with the date, and the optional fields unset
      exactly when the card's text is empty. */
  lemma CardRecordFields(c: Card, d: Date)
    requires ValidDate(d)
    ensures var m := CardRecord(c, IsoDate(d));
      && m.home == c.home && m.away == c.away
      && m.homeLogo == c.homeLogo && m.awayLogo == c.awayLogo
      && m.timeBaghdad == c.timeLocal && m.statusText == c.statusText && m.resultText == c.resultText
      && (m.status == "NS" || m.status == "FT" || m.status == "LIVE")
      && ' ' !in m.id && |m.id| >= 11 && m.id[|m.id| - 10..] == IsoDate(d)
      && (m.channel == None <==> c.channel == "")
      && (m.commentator == None <==> c.commentator == "")
      && (m.competition == None <==> c.competition == "")
      && m.source == SourceName
  {
    var iso := IsoDate(d);
    MatchIdEndsWithDate(c.home, c.away, d);
    var id := MatchId(c.home, c.away, iso);
    assert id[|id| - 10..] == iso;
    assert ' ' !in iso by {
      forall i | 0 <= i < |iso| ensures iso[i] != ' ' {
        assert id[|id| - 10 + i] == iso[i];
      }
    }
    MatchIdParts(c.home, c.away, iso);
  }
}
