/**
  `scripts/scrape_yallashoot_to_json.py`: the Soccerway scraper. The page
  for the day is found from the date; each competition table of the page
  gives one record per complete row, classified by the text of its score
  cell; the records go into the output object with the date and the page
  address. The browser is left out: the tables of the rendered page are an
  input, and so is today's date.
*/
module Soccerway {
  import opened Wrappers
  import opened Text
  import opened Fixtures

  const BaseUrl: string := "https://int.soccerway.com/matches/"
  const PlaceholderLogo: string := "https://via.placeholder.com/50?text=L"
  const UnknownCompetition: string := "Unknown Competition"
  const SourceName: string := "soccerway"

  // ---------------------------------------------------------------------
  // The page address

  /** The date part of the day page address: the year unpadded, month and
      day on two digits, each followed by a slash. */
  function DayPath(today: Date): string {
    Decimal(today.year) + "/" + ZeroPad(today.month, 2) + "/" + ZeroPad(today.day, 2) + "/"
  }

  /** `get_soccerway_url_for_today()`, today's date given. */
  function SourceUrl(today: Date): string {
    BaseUrl + DayPath(today)
  }

  /** Reads a date part back into its date. */
  function ParseDayPath(r: string): Option<Date> {
    var k := IndexOf(r, '/');
    if 1 <= k && |r| == k + 7 && r[k + 3] == '/' && r[k + 6] == '/'
      && AllDigits(r[..k]) && AllDigits(r[k + 1..k + 3]) && AllDigits(r[k + 4..k + 6])
    then Some(Date(DigitsValue(r[..k]), DigitsValue(r[k + 1..k + 3]), DigitsValue(r[k + 4..k + 6])))
    else None
  }

  /** Reads a day page address back into its date. */
  function ParseSourceUrl(u: string): Option<Date> {
    if StartsWith(u, BaseUrl) then ParseDayPath(u[|BaseUrl|..]) else None
  }

  /** The address names its day: reading it back gives the date. */
  lemma SourceUrlRoundTrip(today: Date)
    requires ValidDate(today)
    ensures ParseSourceUrl(SourceUrl(today)) == Some(today)
  {
    PrefixParts(BaseUrl, DayPath(today));
    DayPathRoundTrip(today);
  }

  lemma PrefixParts(b: string, r: string)
    ensures StartsWith(b + r, b) && (b + r)[|b|..] == r
  {
    assert (b + r)[..|b|] == b;
  }

  lemma DayPathRoundTrip(today: Date)
    requires ValidDate(today)
    ensures ParseDayPath(DayPath(today)) == Some(today)
  {
    var y := Decimal(today.year);
    var m := ZeroPad(today.month, 2);
    var d := ZeroPad(today.day, 2);
    var r := DayPath(today);
    ZeroPadTwoDigits(today.month);
    ZeroPadTwoDigits(today.day);
    assert '/' !in y by {
      forall i | 0 <= i < |y| ensures y[i] != '/' { assert IsDigit(y[i]); }
    }
    assert r[..|y|] == y && r[|y|] == '/';
    IndexOfAfter(r, '/', |y|);
    assert r[|y| + 1..|y| + 3] == m;
    assert r[|y| + 4..|y| + 6] == d;
    DecimalRoundTrip(today.year);
    ZeroPadRoundTrip(today.month, 2);
    ZeroPadRoundTrip(today.day, 2);
  }

  // ---------------------------------------------------------------------
  // The score cell

  /** The status fields of a record: `status`, `status_text`, `result_text`
      and the time, written to `time_baghdad`. */
  datatype Kickoff = Kickoff(status: string, statusText: string, resultText: string, time: string)

  /** The classification of the stripped score cell text: a colon makes it
      a kick-off time, else a dash a final score, else a status such as
      postponed. */
  function Classify(text: string): (k: Kickoff)
    ensures k.status == "NS" || k.status == "FT" || k.status == "PST"
  {
    if ':' in text then Kickoff("NS", "Not Started", "", text)
    else if '-' in text then Kickoff("FT", "Full-Time", text, "")
    else Kickoff("PST", text, "", "")
  }

  /** The cell text a classification keeps: the time, the score or the
      status text, whichever the status says. */
  function CellText(k: Kickoff): string {
    match k.status
    case "NS" => k.time
    case "FT" => k.resultText
    case _ => k.statusText
  }

  /** Classifying loses nothing: the cell text is recovered from the
      fields; and exactly one of the three outcomes is taken, a colon
      before a dash. */
  lemma ClassifyCases(text: string)
    ensures CellText(Classify(text)) == text
    ensures Classify(text).status == "NS" <==> ':' in text
    ensures Classify(text).status == "FT" <==> ':' !in text && '-' in text
    ensures Classify(text).status == "PST" <==> ':' !in text && '-' !in text
    ensures Classify(text).status == "NS" ==> Classify(text) == Kickoff("NS", "Not Started", "", text)
    ensures Classify(text).status == "FT" ==> Classify(text) == Kickoff("FT", "Full-Time", text, "")
    ensures Classify(text).status == "PST" ==> Classify(text) == Kickoff("PST", text, "", "")
  {
    assert "NS" != "FT" && "NS" != "PST" && "FT" != "PST";
  }

  /** A time with a dash in it, such as `"19:00 - 21:00"`, is still a time. */
  lemma ColonBeforeDash(text: string)
    requires ':' in text && '-' in text
    ensures Classify(text) == Kickoff("NS", "Not Started", "", text)
  {
  }

  // ---------------------------------------------------------------------
  // Tables and rows

  /** A match row. A team is `None` when its cell has no link or the link
      has no `title` attribute, the score when its cell has no link; the
      script skips such a row, the first case through its `continue` and
      the others through the exception the missing attribute raises. */
  datatype Row = Row(homeTitle: Option<string>, awayTitle: Option<string>, scoreText: Option<string>)

  /** A competition table: the text of its heading link, if any, and its
      match rows, group headings excluded. */
  datatype Table = Table(heading: Option<string>, rows: seq<Row>)

  predicate Complete(row: Row) {
    row.homeTitle.Some? && row.awayTitle.Some? && row.scoreText.Some?
  }

  function CompetitionName(t: Table): string {
    match t.heading
    case Some(h) => Strip(h)
    case None => UnknownCompetition
  }

  /** The record of a complete row; the names and the cell text are stripped. */
  function RowRecord(row: Row, competition: string, todayIso: string): Match
    requires Complete(row)
  {
    var home := Strip(row.homeTitle.value);
    var away := Strip(row.awayTitle.value);
    var k := Classify(Strip(row.scoreText.value));
    Match(MatchId(home, away, todayIso), home, away, PlaceholderLogo, PlaceholderLogo,
      k.time, k.status, k.statusText, k.resultText, None, None, Some(competition), SourceName)
  }

  /** The records of the rows of one table, in row order. */
  function TableRecords(rows: seq<Row>, competition: string, todayIso: string): seq<Match>
  {
    if rows == [] then []
    else
      var last := rows[|rows| - 1];
      TableRecords(rows[..|rows| - 1], competition, todayIso)
        + (if Complete(last) then [RowRecord(last, competition, todayIso)] else [])
  }

  /** The records of the tables, table after table. */
  function Records(tables: seq<Table>, todayIso: string): seq<Match>
  {
    if tables == [] then []
    else
      var last := tables[|tables| - 1];
      Records(tables[..|tables| - 1], todayIso) + TableRecords(last.rows, CompetitionName(last), todayIso)
  }

  /** The outer loop of `scrape_soccerway`, over the tables. */
  method ScrapeTables(tables: seq<Table>, todayIso: string) returns (all: seq<Match>)
    ensures all == Records(tables, todayIso)
  {
    all := [];
    for t := 0 to |tables|
      invariant all == Records(tables[..t], todayIso)
    {
      assert tables[..t + 1][..t] == tables[..t];
      var competition := CompetitionName(tables[t]);
      var records := ScrapeRows(tables[t].rows, competition, todayIso);
      all := all + records;
    }
    assert tables[..|tables|] == tables;
  }

  /** The inner loop, over the match rows of one table. */
  method ScrapeRows(rows: seq<Row>, competition: string, todayIso: string) returns (records: seq<Match>)
    ensures records == TableRecords(rows, competition, todayIso)
  {
    records := [];
    for j := 0 to |rows|
      invariant records == TableRecords(rows[..j], competition, todayIso)
    {
      assert rows[..j + 1][..j] == rows[..j];
      var row := rows[j];
      if row.homeTitle.None? || row.awayTitle.None? || row.scoreText.None? {
        continue;
      }
      var home := Strip(row.homeTitle.value);
      var away := Strip(row.awayTitle.value);
      var scoreOrTime := Strip(row.scoreText.value);
      var status := "NS";
      var resultText := "";
      var time := "";
      var statusText := "Not Started";
      if ':' in scoreOrTime {
        time := scoreOrTime;
      } else if '-' in scoreOrTime {
        status := "FT";
        resultText := scoreOrTime;
        statusText := "Full-Time";
      } else {
        status := "PST";
        statusText := scoreOrTime;
      }
      var id := MatchId(home, away, todayIso);
      records := records + [Match(id, home, away, PlaceholderLogo, PlaceholderLogo,
        time, status, statusText, resultText, None, None, Some(competition), SourceName)];
    }
    assert rows[..|rows|] == rows;
  }

  /** `scrape_soccerway()`: no records when the match tables never become
      visible, the cookie retry included (`None`), else the records of the
      tables; dated with today's ISO date. */
  function Scrape(page: Option<seq<Table>>, today: Date): seq<Match>
    requires ValidDate(today)
  {
    match page
    case None => []
    case Some(tables) => Records(tables, IsoDate(today))
  }

  /** The object `main` writes: `matches` is the scraped list, empty or not,
      with today's date and the day page address. */
  function MainOutput(matches: seq<Match>, today: Date): (r: Output)
    requires ValidDate(today)
    ensures r == Output(IsoDate(today), SourceUrl(today), matches)
  {
    if matches == [] then Output(IsoDate(today), SourceUrl(today), [])
    else Output(IsoDate(today), SourceUrl(today), matches)
  }

  // ---------------------------------------------------------------------
  // Properties

  /** The number of complete rows of the tables. */
  function CompleteRows(rows: seq<Row>): nat {
    if rows == [] then 0
    else CompleteRows(rows[..|rows| - 1]) + (if Complete(rows[|rows| - 1]) then 1 else 0)
  }

  function CompleteRowsOf(tables: seq<Table>): nat {
    if tables == [] then 0
    else CompleteRowsOf(tables[..|tables| - 1]) + CompleteRows(tables[|tables| - 1].rows)
  }

  /** One record per complete row, none for the others. */
  lemma {:induction false} TableRecordCount(rows: seq<Row>, competition: string, todayIso: string)
    ensures |TableRecords(rows, competition, todayIso)| == CompleteRows(rows)
  {
    if rows != [] {
      TableRecordCount(rows[..|rows| - 1], competition, todayIso);
    }
  }

  lemma {:induction false} RecordCount(tables: seq<Table>, todayIso: string)
    ensures |Records(tables, todayIso)| == CompleteRowsOf(tables)
  {
    if tables != [] {
      var last := tables[|tables| - 1];
      RecordCount(tables[..|tables| - 1], todayIso);
      TableRecordCount(last.rows, CompetitionName(last), todayIso);
    }
  }

  /** The fixed fields of every Soccerway record, and a space-free
      identifier ending with the date. */
  predicate Shaped(m: Match, todayIso: string) {
    && m.source == SourceName
    && m.homeLogo == PlaceholderLogo && m.awayLogo == PlaceholderLogo
    && m.channel == None && m.commentator == None && m.competition.Some?
    && (m.status == "NS" || m.status == "FT" || m.status == "PST")
    && m.id == MatchId(m.home, m.away, todayIso)
    && ' ' !in m.id
  }

  lemma RowRecordShaped(row: Row, competition: string, todayIso: string)
    requires Complete(row) && ' ' !in todayIso
    ensures Shaped(RowRecord(row, competition, todayIso), todayIso)
  {
    var m := RowRecord(row, competition, todayIso);
    MatchIdParts(m.home, m.away, todayIso);
  }

  lemma {:induction false} TableRecordsShaped(rows: seq<Row>, competition: string, todayIso: string)
    requires ' ' !in todayIso
    ensures forall m :: m in TableRecords(rows, competition, todayIso) ==>
      Shaped(m, todayIso) && m.competition == Some(competition)
  {
    if rows != [] {
      TableRecordsShaped(rows[..|rows| - 1], competition, todayIso);
      var last := rows[|rows| - 1];
      if Complete(last) {
        RowRecordShaped(last, competition, todayIso);
      }
    }
  }

  /** Every record carries the fixed fields and a well-formed identifier,
      and it names its table's competition. */
  lemma {:induction false} RecordsShaped(tables: seq<Table>, todayIso: string)
    requires ' ' !in todayIso
    ensures forall m :: m in Records(tables, todayIso) ==> Shaped(m, todayIso)
    ensures forall m :: m in Records(tables, todayIso) ==>
      exists t :: t in tables && m.competition == Some(CompetitionName(t))
  {
    if tables != [] {
      var init := tables[..|tables| - 1];
      var last := tables[|tables| - 1];
      RecordsShaped(init, todayIso);
      TableRecordsShaped(last.rows, CompetitionName(last), todayIso);
      assert forall t :: t in init ==> t in tables;
    }
  }

  /** A table whose rows are all complete gives row `j` as record `j`. */
  lemma {:induction false} CompleteTableRecords(rows: seq<Row>, competition: string, todayIso: string, j: nat)
    requires forall i :: 0 <= i < |rows| ==> Complete(rows[i])
    requires j < |rows|
    ensures |TableRecords(rows, competition, todayIso)| == |rows|
    ensures TableRecords(rows, competition, todayIso)[j] == RowRecord(rows[j], competition, todayIso)
  {
    var init := rows[..|rows| - 1];
    var last := rows[|rows| - 1];
    forall i | 0 <= i < |init| ensures Complete(init[i]) {
      assert init[i] == rows[i];
    }
    var front := TableRecords(init, competition, todayIso);
    assert TableRecords(rows, competition, todayIso) == front + [RowRecord(last, competition, todayIso)];
    TableRecordCount(init, competition, todayIso);
    AllCompleteCount(init);
    if j < |init| {
      CompleteTableRecords(init, competition, todayIso, j);
      assert init[j] == rows[j];
      assert TableRecords(rows, competition, todayIso)[j] == front[j];
    } else {
      assert j == |init| == |front|;
    }
  }

  lemma {:induction false} AllCompleteCount(rows: seq<Row>)
    requires forall i :: 0 <= i < |rows| ==> Complete(rows[i])
    ensures CompleteRows(rows) == |rows|
  {
    if rows != [] {
      var init := rows[..|rows| - 1];
      forall i | 0 <= i < |init| ensures Complete(init[i]) {
        assert init[i] == rows[i];
      }
      AllCompleteCount(init);
    }
  }

  /** With no table on the page, or no table found, `matches` is empty. */
  lemma NothingScraped(today: Date)
    requires ValidDate(today)
    ensures MainOutput(Scrape(None, today), today).matches == []
    ensures MainOutput(Scrape(Some([]), today), today).matches == []
  {
  }
}
