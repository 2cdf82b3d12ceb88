/**
 * The run `main` performs (main.py:20-63): read an identity until one is
 * accepted (`input_nick`, main.py:80-84), browse to the match list, extract
 * one row per match record in page order (main.py:41-47) and name the CSV
 * file after the nick (`salvar_dados_csv`, main.py:160-164).
 *
 * The lines typed at the prompt are the sequence `lines`.  The browser part
 * (`setup`, `navigate_to_opgg`, `search_input`, `soloduo_button`) is the
 * parameter `browse`: given the text typed into the search box it yields the
 * page reached, or the message of the WebDriverException that stopped it.
 */
module Scraper {
  import opened Wrappers
  import opened Identity
  import opened Dom
  import opened MatchExtractor

  /** The class of a match record on the results page (main.py:41). */
  const MatchClass: string := "css-j7qwjs"

  const CsvSuffix: string := "_dados_partidas.csv"

  datatype RunError =
    | DriverError(message: string)   // a WebDriverException while browsing
    | ExtractionError(missing: Missing)  // NoSuchElementException while extracting

  datatype Outcome =
    | Exported(fileName: string, rows: seq<Row>)  // the CSV written, with these rows
    | Aborted(error: RunError)                    // "Finalizando o programa." - nothing written
    | NoIdentity                                  // the input ended before an accepted line

  /** The index of the first line at or after `from` that `accepts`;
      `|lines|` if none. */
  function FirstAccepted(accepts: string -> bool, lines: seq<string>, from: nat := 0): (k: nat)
    requires from <= |lines|
    ensures from <= k <= |lines|
    ensures forall j :: from <= j < k ==> !accepts(lines[j])
    ensures k < |lines| ==> accepts(lines[k])
    decreases |lines| - from
  {
    if from == |lines| then from
    else if accepts(lines[from]) then from
    else FirstAccepted(accepts, lines, from + 1)
  }

  /** `input_nick`: reads lines until `accepts` (`validar_nick_tag`) holds of
      one, and returns that line as typed, not stripped; `consumed` is how many
      lines were read. */
  method InputNick(accepts: string -> bool, lines: seq<string>) returns (nickTag: Option<string>, consumed: nat)
    ensures nickTag.Some? <==> FirstAccepted(accepts, lines) < |lines|
    ensures nickTag.Some? ==>
      && nickTag.value == lines[FirstAccepted(accepts, lines)]
      && consumed == FirstAccepted(accepts, lines) + 1
    ensures nickTag.None? ==> consumed == |lines|
  {
    consumed := 0;
    while consumed < |lines|
      invariant consumed <= FirstAccepted(accepts, lines)
    {
      var line := lines[consumed];
      consumed := consumed + 1;
      if accepts(line) {
        return Some(line), consumed;
      }
    }
    return None, consumed;
  }

  /** The match records on the page, in page order (main.py:41). */
  function MatchRecords(page: Element): (records: seq<Element>)
    ensures forall r :: r in records <==> r in Descendants([page]) && MatchClass in r.classes
  {
    FindElements(page, ByClassName(MatchClass))
  }

  /** The rows `extract` makes of `records`, one per record in the records'
      order, or the error of the first record it makes none of. */
  function ExtractRows(extract: Element -> Result<Row, Missing>, records: seq<Element>): Result<seq<Row>, Missing>
    decreases |records|
  {
    if records == [] then Success([])
    else
      var rows :- ExtractRows(extract, records[..|records| - 1]);
      var row :- extract(records[|records| - 1]);
      Success(rows + [row])
  }

  /** The loop of main.py:42-47: one row per record, in the records' order;
      the first record that lacks an element stops the run. */
  method CollectRows(records: seq<Element>) returns (result: Result<seq<Row>, Missing>)
    ensures result == ExtractRows(ExtractMatch, records)
  {
    var rows: seq<Row> := [];
    for i := 0 to |records|
      invariant ExtractRows(ExtractMatch, records[..i]) == Success(rows)
    {
      var row := ExtractMatch(records[i]);
      assert records[..i + 1][..i] == records[..i];
      if row.Failure? {
        FailureStops(ExtractMatch, records, i + 1);
        return Failure(row.error);
      }
      rows := rows + [row.value];
    }
    assert records[..|records|] == records;
    return Success(rows);
  }

  /** The file name `salvar_dados_csv` writes to. */
  function CsvFileName(nick: string): (name: string)
    ensures |name| == |nick| + |CsvSuffix|
    ensures name[..|nick|] == nick && name[|nick|..] == CsvSuffix
  {
    nick + CsvSuffix
  }

  /** What a run that searched for `nickTag` may end with: the CSV of the
      rows of the match records of the page reached, named after the nick; or
      the error of the browser; or the error of the first record that lacks
      an element. */
  ghost predicate RunFrom(nickTag: string, browse: string -> Result<Element, string>, outcome: Outcome) {
    match outcome
    case NoIdentity => false
    case Exported(fileName, rows) =>
      && browse(nickTag).Success?
      && fileName == CsvFileName(SplitNick(nickTag))
      && ExtractRows(ExtractMatch, MatchRecords(browse(nickTag).value)) == Success(rows)
    case Aborted(DriverError(message)) =>
      browse(nickTag) == Failure(message)
    case Aborted(ExtractionError(missing)) =>
      && browse(nickTag).Success?
      && ExtractRows(ExtractMatch, MatchRecords(browse(nickTag).value)) == Failure(missing)
  }

  /** The part of `main` after `input_nick` (main.py:28-60). */
  method Scrape(nickTag: string, browse: string -> Result<Element, string>) returns (outcome: Outcome)
    ensures RunFrom(nickTag, browse, outcome)
  {
    var nick := SplitNick(nickTag);
    var page := browse(nickTag);
    if page.Failure? {
      return Aborted(DriverError(page.error));
    }
    var rows := CollectRows(MatchRecords(page.value));
    if rows.Failure? {
      return Aborted(ExtractionError(rows.error));
    }
    return Exported(CsvFileName(nick), rows.value);
  }

  /** `main`, without its printing and without the browser's own teardown:
      the identity is the first line `validar_nick_tag` accepts. */
  method Run(cc: CharClasses, lines: seq<string>, browse: string -> Result<Element, string>)
    returns (outcome: Outcome)
    ensures outcome.NoIdentity? <==> forall j :: 0 <= j < |lines| ==> !Validate(cc, lines[j])
    ensures !outcome.NoIdentity? ==>
      var k := FirstAccepted(line => Validate(cc, line), lines);
      && k < |lines|
      && Validate(cc, lines[k])
      && RunFrom(lines[k], browse, outcome)
  {
    var nickTag, consumed := InputNick(line => Validate(cc, line), lines);
    if nickTag.None? {
      return NoIdentity;
    }
    outcome := Scrape(nickTag.value, browse);
  }

  // ---------------------------------------------------------------------------

  /** Once the rows of a prefix fail, the rows of the whole list fail with
      the same error: records after the first failing one are never read. */
  lemma {:induction false} FailureStops(extract: Element -> Result<Row, Missing>, records: seq<Element>, n: nat)
    requires n <= |records| && ExtractRows(extract, records[..n]).Failure?
    ensures ExtractRows(extract, records) == ExtractRows(extract, records[..n])
    decreases |records| - n
  {
    if n == |records| {
      assert records[..n] == records;
    } else {
      assert records[..n + 1][..n] == records[..n];
      FailureStops(extract, records, n + 1);
    }
  }

  /** The rows exist exactly when every record yields one; then there is one
      row per record, row i being that of record i. */
  lemma {:induction false} RowsPerRecord(extract: Element -> Result<Row, Missing>, records: seq<Element>)
    ensures ExtractRows(extract, records).Success? <==>
      forall i :: 0 <= i < |records| ==> extract(records[i]).Success?
    ensures ExtractRows(extract, records).Success? ==>
      && |ExtractRows(extract, records).value| == |records|
      && forall i :: 0 <= i < |records| ==> extract(records[i]) == Success(ExtractRows(extract, records).value[i])
    decreases |records|
  {
    if records != [] {
      var init := records[..|records| - 1];
      RowsPerRecord(extract, init);
      assert forall i :: 0 <= i < |init| ==> init[i] == records[i];
    }
  }

  /** When the rows fail, the error is that of the first record that yields no
      row. */
  lemma {:induction false} FirstFailingRecord(extract: Element -> Result<Row, Missing>, records: seq<Element>)
    ensures ExtractRows(extract, records).Failure? ==>
      exists i :: && 0 <= i < |records|
                  && extract(records[i]) == Failure(ExtractRows(extract, records).error)
                  && forall j :: 0 <= j < i ==> extract(records[j]).Success?
    decreases |records|
  {
    if records != [] && ExtractRows(extract, records).Failure? {
      var init := records[..|records| - 1];
      assert forall i :: 0 <= i < |init| ==> init[i] == records[i];
      if ExtractRows(extract, init).Failure? {
        FirstFailingRecord(extract, init);
        var i :| && 0 <= i < |init|
                 && extract(init[i]) == Failure(ExtractRows(extract, init).error)
                 && forall j :: 0 <= j < i ==> extract(init[j]).Success?;
        assert extract(records[i]) == Failure(ExtractRows(extract, records).error);
      } else {
        RowsPerRecord(extract, init);
        assert extract(records[|init|]) == Failure(ExtractRows(extract, records).error);
      }
    }
  }

  /** An exported CSV holds one row per match record of the page, in page
      order, each with the twelve columns of the header. */
  lemma ExportHoldsEveryRecord(nickTag: string, browse: string -> Result<Element, string>, fileName: string, rows: seq<Row>)
    requires RunFrom(nickTag, browse, Exported(fileName, rows))
    ensures var records := MatchRecords(browse(nickTag).value);
      && |rows| == |records|
      && forall i :: 0 <= i < |records| ==> ExtractMatch(records[i]) == Success(rows[i])
    ensures forall i :: 0 <= i < |rows| ==> Columns(rows[i]) == Header
  {
    var records := MatchRecords(browse(nickTag).value);
    RowsPerRecord(ExtractMatch, records);
    forall i | 0 <= i < |rows|
      ensures Columns(rows[i]) == Header
    {
      assert ExtractMatch(records[i]) == Success(rows[i]);
    }
  }

  /** A run aborted by extraction reports the first match record of the page
      that lacks an element, and the column it was building. */
  lemma AbortNamesFirstIncompleteRecord(nickTag: string, browse: string -> Result<Element, string>, missing: Missing)
    requires RunFrom(nickTag, browse, Aborted(ExtractionError(missing)))
    ensures var records := MatchRecords(browse(nickTag).value);
      exists i :: && 0 <= i < |records|
                  && ExtractMatch(records[i]) == Failure(missing)
                  && forall j :: 0 <= j < i ==> ExtractMatch(records[j]).Success?
    ensures missing.column in Header
  {
    var records := MatchRecords(browse(nickTag).value);
    FirstFailingRecord(ExtractMatch, records);
    var i :| && 0 <= i < |records|
             && ExtractMatch(records[i]) == Failure(missing)
             && forall j :: 0 <= j < i ==> ExtractMatch(records[j]).Success?;
  }

  /** Different nicks are written to different files. */
  lemma CsvFileNameInjective(a: string, b: string)
    requires CsvFileName(a) == CsvFileName(b)
    ensures a == b
  {
    assert |a| == |b|;
    assert a == CsvFileName(a)[..|a|];
  }

  /** The scenario "zezinho#br1": the nick is "zezinho" and the file
      "zezinho_dados_partidas.csv" (ZezinhoAccepted: the input is accepted). */
  lemma ZezinhoFileName()
    ensures CsvFileName(SplitNick("zezinho#br1")) == "zezinho" + "_dados_partidas.csv"
  {
    ZezinhoNick();
  }

  lemma ZezinhoNick()
    ensures SplitNick("zezinho#br1") == "zezinho"
  {
    assert "zezinho#br1" == "zezinho" + "#br1";
    SplitNickAfterHashFree("zezinho", "#br1");
  }

  lemma ZezinhoAccepted(cc: CharClasses)
    requires Wf(cc)
    ensures Validate(cc, "zezinho#br1")
  {
    var s := "zezinho#br1";
    assert Strip(cc, s) == s by {
      assert IsAsciiWord(s[0]) && IsAsciiWord(s[|s| - 1]);
      assert TrimStart(cc, s) == s;
    }
    assert IsName(cc, "zezinho") && IsTag(cc, "br1") by {
      var n := "zezinho";
      assert forall i :: 0 <= i < |n| ==> IsAsciiWord(n[i]);
    }
    assert s == "zezinho" + "#" + "br1";
    IdentityIsAccepted(cc, s, "zezinho", "br1");
  }
}
