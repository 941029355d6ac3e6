/**
 * Reading the SMS table (`scrape_sms_stats`): every table row after the
 * header with at least four cells becomes a record of its stripped cells,
 * and a record is kept when its text looks like an OTP message.  The HTTP
 * GET and the HTML parser are inputs: the parser's output is the list of
 * rows of the `table.table` element, each row the texts of its `<td>` cells.
 */
module Scrape {
  import opened Wrappers
  import opened Text
  import opened Login

  /** One SMS as shown in a row of the panel's table; equality is field by field. */
  datatype Record = Record(number: string, client: string, text: string, time: string)

  /** The texts of the `<td>` cells of one `<tr>`, unstripped. */
  type Row = seq<string>

  /** What the HTML parser found: no `table.table`, or its `<tr>` rows in order. */
  datatype Page = NoTable | Table(rows: seq<Row>)

  /** The GET of the stats page: a parsed page, or an exception while fetching or parsing. */
  datatype Fetch = Fetched(page: Page) | FetchFailed

  /** The alternatives of the pattern `OTP|verification|কোড|code`. */
  const OtpKeywords: seq<string> := ["OTP", "verification", "\U{995}\U{9CB}\U{9A1}", "code"]

  /** The same alternatives with the case folded away, as `re.IGNORECASE` compares them. */
  const OtpPatterns: seq<string> := ["otp", "verification", "\U{995}\U{9CB}\U{9A1}", "code"]

  /** `re.search(r'OTP|verification|কোড|code', text, re.IGNORECASE)` finds a match. */
  predicate IsOtpText(text: string) {
    exists k :: 0 <= k < |OtpPatterns| && Contains(Lower(text), OtpPatterns[k])
  }

  /** Folding "OTP" gives "otp". */
  lemma FoldOtp(s: string)
    requires s == "OTP"
    ensures Lower(s) == "otp"
  {
    assert Lower(s)[0] == 'o' && Lower(s)[1] == 't' && Lower(s)[2] == 'p';
  }

  /** The other three keywords have no capitals to fold. */
  lemma FoldLowercaseKeyword(s: string)
    requires s == "verification" || s == "\U{995}\U{9CB}\U{9A1}" || s == "code"
    ensures Lower(s) == s
  {
    LowerWithoutCapitals(s);
  }

  /** The folded alternatives are the keywords folded. */
  lemma OtpPatternsFolded()
    ensures |OtpPatterns| == |OtpKeywords|
    ensures forall k :: 0 <= k < |OtpKeywords| ==> OtpPatterns[k] == Lower(OtpKeywords[k])
  {
    forall k | 0 <= k < |OtpKeywords| ensures OtpPatterns[k] == Lower(OtpKeywords[k]) {
      if k == 0 {
        FoldOtp(OtpKeywords[k]);
      } else {
        FoldLowercaseKeyword(OtpKeywords[k]);
      }
    }
  }

  /** The test holds exactly when some keyword occurs in the text, compared without case. */
  lemma OtpTextHasKeyword(text: string)
    ensures IsOtpText(text) <==> exists k :: 0 <= k < |OtpKeywords| && ContainsIgnoreCase(text, OtpKeywords[k])
  {
    OtpPatternsFolded();
  }

  /** The test looks at the text only up to case. */
  lemma OtpTestIgnoresCase(text: string)
    ensures IsOtpText(text) <==> IsOtpText(Lower(text))
  {
    LowerIdempotent(text);
  }

  /** A keyword anywhere in the text is enough, whatever surrounds it. */
  lemma OtpKeywordAnywhere(before: string, text: string, after: string)
    requires IsOtpText(text)
    ensures IsOtpText(before + text + after)
  {
    var k :| 0 <= k < |OtpPatterns| && Contains(Lower(text), OtpPatterns[k]);
    LowerConcat(before + text, after);
    LowerConcat(before, text);
    ContainsInContext(Lower(before), Lower(text), Lower(after), OtpPatterns[k]);
  }

  /** A text without any keyword, in any case, is not an OTP text. */
  lemma NoKeywordNoOtp(text: string)
    requires forall k :: 0 <= k < |OtpKeywords| ==> !ContainsIgnoreCase(text, OtpKeywords[k])
    ensures !IsOtpText(text)
  {
    OtpTextHasKeyword(text);
  }

  /** A record's fields hold no surrounding whitespace and its text passed the OTP test. */
  predicate WellFormed(r: Record) {
    IsStripped(r.number) && IsStripped(r.client) && IsStripped(r.text) && IsStripped(r.time) &&
    IsOtpText(r.text)
  }

  /**
   * The record built from a row of at least four cells.  The source's
   * "N/A" fallback for a missing fourth cell can never be taken.
   */
  function RecordOf(cols: Row): (r: Record)
    requires |cols| >= 4
    ensures r == Record(Strip(cols[0]), Strip(cols[1]), Strip(cols[2]), Strip(cols[3]))
    ensures IsStripped(r.number) && IsStripped(r.client) && IsStripped(r.text) && IsStripped(r.time)
  {
    Record(Strip(cols[0]), Strip(cols[1]), Strip(cols[2]),
           if |cols| > 3 then Strip(cols[3]) else "N/A")
  }

  /** A row yields a kept record. */
  predicate Keeps(row: Row) {
    |row| >= 4 && IsOtpText(RecordOf(row).text)
  }

  /** The kept records of a run of data rows, in row order. */
  function OtpRecords(data: seq<Row>): seq<Record>
  {
    if data == [] then []
    else
      var row := data[|data| - 1];
      OtpRecords(data[..|data| - 1]) + (if Keeps(row) then [RecordOf(row)] else [])
  }

  /** Every `<tr>` but the first, as `rows[1:]` gives them. */
  function DataRows(rows: seq<Row>): seq<Row> {
    if rows == [] then [] else rows[1..]
  }

  /**
   * The list `scrape_sms_stats` returns.  A missing session (the call on
   * `None` raises), a failed fetch or a page without the table all give [].
   */
  function ScrapeResult(session: Option<Session>, fetch: Fetch): seq<Record> {
    if session.None? || fetch.FetchFailed? then []
    else match fetch.page
      case NoTable => []
      case Table(rows) => OtpRecords(DataRows(rows))
  }

  /** The records of all data rows with four cells or more, before the OTP test. */
  function AllRecords(data: seq<Row>): seq<Record>
  {
    if data == [] then []
    else
      var row := data[|data| - 1];
      AllRecords(data[..|data| - 1]) + (if |row| >= 4 then [RecordOf(row)] else [])
  }

  /** The OTP test sees only the record, so the kept records are the extracted ones that pass it. */
  lemma {:induction false} OtpRecordsFilterAllRecords(data: seq<Row>, r: Record)
    ensures r in OtpRecords(data) <==> r in AllRecords(data) && IsOtpText(r.text)
    decreases |data|
  {
    if data != [] {
      OtpRecordsFilterAllRecords(data[..|data| - 1], r);
    }
  }

  /** Kept records of concatenated row runs are concatenated: extraction keeps row order. */
  lemma {:induction false} OtpRecordsConcat(a: seq<Row>, b: seq<Row>)
    ensures OtpRecords(a + b) == OtpRecords(a) + OtpRecords(b)
    decreases |b|
  {
    if b == [] {
      assert a + b == a;
    } else {
      var b' := b[..|b| - 1];
      assert (a + b)[..|a + b| - 1] == a + b';
      OtpRecordsConcat(a, b');
    }
  }

  /** The record a row contributes, if any. */
  function Kept(row: Row): Option<Record> {
    if Keeps(row) then Some(RecordOf(row)) else None
  }

  /** The values `f` yields along `xs`, in order, skipping the `None`s. */
  function Gather<A, B>(xs: seq<A>, f: A -> Option<B>): seq<B> {
    if xs == [] then []
    else
      var y := f(xs[|xs| - 1]);
      Gather(xs[..|xs| - 1], f) + (if y.Some? then [y.value] else [])
  }

  lemma {:induction false} GatherMembers<A, B>(xs: seq<A>, f: A -> Option<B>, b: B)
    ensures b in Gather(xs, f) <==> exists j :: 0 <= j < |xs| && f(xs[j]) == Some(b)
    decreases |xs|
  {
    if xs != [] {
      var n := |xs| - 1;
      GatherMembers(xs[..n], f, b);
      assert forall j :: 0 <= j < n ==> xs[..n][j] == xs[j];
    }
  }

  lemma {:induction false} OtpRecordsGather(data: seq<Row>)
    ensures OtpRecords(data) == Gather(data, Kept)
    decreases |data|
  {
    if data != [] {
      OtpRecordsGather(data[..|data| - 1]);
    }
  }

  /** Data row `j` exists and yields the kept record `r`. */
  ghost predicate KeptAt(data: seq<Row>, j: int, r: Record) {
    0 <= j < |data| && Keeps(data[j]) && r == RecordOf(data[j])
  }

  /** A record is kept exactly when some data row yields it and its text passes the test. */
  lemma OtpRecordsMembers(data: seq<Row>, r: Record)
    ensures r in OtpRecords(data) <==> exists j :: KeptAt(data, j, r)
  {
    OtpRecordsGather(data);
    GatherMembers(data, Kept, r);
    forall j | 0 <= j < |data| ensures Kept(data[j]) == Some(r) <==> KeptAt(data, j, r) {}
  }

  /**
   * The records of a table: exactly those of rows 1.. (never the header row)
   * that have at least four cells and an OTP-looking text.
   */
  lemma TableRecordsMembers(rows: seq<Row>, r: Record)
    ensures r in OtpRecords(DataRows(rows)) <==>
      exists j :: 1 <= j < |rows| && KeptAt(rows, j, r)
  {
    if rows != [] {
      var data := rows[1..];
      OtpRecordsMembers(data, r);
      if exists j :: KeptAt(data, j, r) {
        var j :| KeptAt(data, j, r);
        assert data[j] == rows[j + 1];
        assert KeptAt(rows, j + 1, r);
      }
      if exists j :: 1 <= j < |rows| && KeptAt(rows, j, r) {
        var j :| 1 <= j < |rows| && KeptAt(rows, j, r);
        assert data[j - 1] == rows[j];
        assert KeptAt(data, j - 1, r);
      }
    }
  }

  /** A row with fewer than four cells yields nothing, wherever it stands. */
  lemma ShortRowYieldsNothing(a: seq<Row>, short: Row, b: seq<Row>)
    requires |short| < 4
    ensures OtpRecords(a + [short] + b) == OtpRecords(a + b)
  {
    OtpRecordsConcat(a + [short], b);
    OtpRecordsConcat(a, [short]);
    OtpRecordsConcat(a, b);
    assert [short][..0] == [];
    assert OtpRecords([short]) == OtpRecords([]) + [];
  }

  /** Deleting a data row with fewer than four cells changes nothing. */
  lemma ShortRowDropped(rows: seq<Row>, j: int)
    requires 1 <= j < |rows| && |rows[j]| < 4
    ensures OtpRecords(DataRows(rows)) == OtpRecords(DataRows(rows[..j] + rows[j + 1..]))
  {
    var a, b := rows[1..j], rows[j + 1..];
    assert DataRows(rows) == a + [rows[j]] + b;
    assert DataRows(rows[..j] + rows[j + 1..]) == a + b;
    ShortRowYieldsNothing(a, rows[j], b);
  }

  /** The header row never matters, whatever it holds. */
  lemma HeaderIgnored(header: Row, rows: seq<Row>)
    requires rows != []
    ensures OtpRecords(DataRows([header] + rows[1..])) == OtpRecords(DataRows(rows))
  {
    assert ([header] + rows[1..])[1..] == rows[1..];
  }

  /** Every kept record is well formed. */
  lemma {:induction false} OtpRecordsWellFormed(data: seq<Row>)
    ensures forall r :: r in OtpRecords(data) ==> WellFormed(r)
    decreases |data|
  {
    if data != [] {
      OtpRecordsWellFormed(data[..|data| - 1]);
    }
  }

  /** Whatever the fetch, the scrape yields well-formed records only. */
  lemma ScrapeResultWellFormed(session: Option<Session>, fetch: Fetch)
    ensures forall r :: r in ScrapeResult(session, fetch) ==> WellFormed(r)
  {
    if fetch.Fetched? && fetch.page.Table? {
      OtpRecordsWellFormed(DataRows(fetch.page.rows));
    }
  }

  /** `scrape_sms_stats`: the `for` loop over the rows, appending each kept record. */
  method ScrapeSmsStats(session: Option<Session>, fetch: Fetch) returns (messages: seq<Record>)
    ensures messages == ScrapeResult(session, fetch)
    ensures session.None? || fetch.FetchFailed? || fetch.page.NoTable? ==> messages == []
    ensures session.Some? && fetch.Fetched? && fetch.page.Table? ==>
      forall r :: r in messages <==> exists j :: 1 <= j < |fetch.page.rows| && KeptAt(fetch.page.rows, j, r)
    ensures forall r :: r in messages ==> WellFormed(r)
  {
    messages := [];
    if session.None? || fetch.FetchFailed? {
      return;
    }
    var page := fetch.page;
    if page.Table? {
      var data := DataRows(page.rows);
      for i := 0 to |data|
        invariant messages == OtpRecords(data[..i])
      {
        var cols := data[i];
        assert data[..i + 1][..i] == data[..i];
        if |cols| >= 4 {
          var message := RecordOf(cols);
          if IsOtpText(message.text) {
            messages := messages + [message];
          }
        }
      }
      assert data[..|data|] == data;
      forall r ensures r in messages <==> exists j :: 1 <= j < |page.rows| && KeptAt(page.rows, j, r) {
        TableRecordsMembers(page.rows, r);
      }
    }
    ScrapeResultWellFormed(session, fetch);
  }
}
