# op.gg match-history scraper: verified model of its data handling

The scraper asks for a League of Legends identity `name#tag`. It drives a
browser to the player's op.gg page, opens the Ranked Solo/Duo tab, reads
twelve fields from every match record on the page and writes them to
`<nick>_dados_partidas.csv`. This project models and proves the parts of
`main.py` that are logic rather than browser plumbing:

- `identity.dfy` (module `Identity`): `validar_nick_tag` and
  `separar_nick_tag`. The pattern `^[\wÀ-ÿ\s]{3,16}#[\wÀ-ÿ\d]{3,5}$` is
  modelled as Python's `re.match` runs it on `nick.strip()`:
  - the name part may end at any length from 3 to 16;
  - `$` also matches before a final newline;
  - `À-ÿ` is the literal range U+00C0..U+00FF.

  Python's Unicode classes `\w`, `\s` (also the test `str.strip()` uses) and
  `\d` are the three predicates of a `CharClasses` value. They are not
  Unicode tables. `Wf` lists the few facts about them the proofs use:
  - `#` is neither a word nor a space character;
  - decimal digits are word characters;
  - ASCII letters, digits and `_` are word characters and not spaces;
  - newline and blank are spaces.
- `dom.dfy` (module `Dom`): the element tree Selenium exposes, and the two
  searches the scraper uses. `find_element` from an element is a depth-first
  search of its descendants. `driver.find_elements` lists every matching
  element of the document in document order.
- `extractor.dfy` (module `MatchExtractor`): `extrair_dados_partida`. The
  dict literal is a table of twelve fields, each a column name, a chain of
  `find_element` locators and what to read at the end (`.text`, or the `alt`
  attribute for the champion). Cells are built in column order, and the first
  missing element aborts the record with `Missing(column, locator)`, as the
  dict literal's evaluation raises NoSuchElementException.
- `pipeline.dfy` (module `Scraper`): `input_nick`'s retry loop, the row
  accumulation loop of `main`, the CSV file name and the whole run.
  - The lines typed at the prompt are a sequence parameter.
  - `InputNick` is written over the validator it calls, a function value
    `accepts`; `Run` passes it `validar_nick_tag` (`Identity.Validate`).
  - The rows of a list of records are specified by `ExtractRows`, a fold over
    the records for a given extractor; `CollectRows` is the loop of `main`
    calling `extrair_dados_partida` (`MatchExtractor.ExtractMatch`) and
    computes `ExtractRows` for it.
  - The browser steps (`setup`, `navigate_to_opgg`, `search_input`,
    `soloduo_button`) are a parameter `browse`. It maps the searched text to
    the page reached, or to the message of the WebDriverException raised.
- `wrappers.dfy` (module `Wrappers`): `Option` and `Result`.

Points where the code behaves differently than one might expect:
- Column names are the code's Portuguese keys ("Tipo de partida" …
  "Rank Médio da Partida").
- The file name stem is `separar_nick_tag` of the RAW input (main.py:24,
  main.py:28), not of the stripped identity. Leading blanks typed before the
  name therefore stay in the nick and in the file name (`SplitNickOfRawInput`).
- The tag class also admits `À-ÿ`, and that range holds `×` and `÷`
  (`LatinRangeAdmitsSigns`).
- A missing element is an exception naming the locator. The model reports
  both the column being built and the locator.

## Model

| member | source | states |
|---|---|---|
| Identity.TrimStart | main.py:72 | the result is a suffix of the input, everything removed is whitespace, and the result does not start with whitespace |
| Identity.TrimEnd | main.py:72 | the result is a prefix of the input, everything removed is whitespace, and the result does not end with whitespace |
| Identity.StripRemovesOnlySpace | main.py:72 | `strip()` removes only whitespace, before and after an unchanged middle part |
| Identity.StripIdempotent | main.py:72 | stripping twice is stripping once |
| Identity.StripKeepsUnpadded | main.py:72 | a string with non-blank first and last characters is unchanged by `strip()` |
| Identity.DollarIsEndOnStripped | main.py:71-72 | on stripped input Python's `$` (which also matches before a final newline) matches only at the end |
| Identity.AcceptedIsIdentity | main.py:70-72 | accepted input is, once stripped, a name of 3-16 `[\wÀ-ÿ\s]`, a `#` and a tag of 3-5 `[\wÀ-ÿ\d]` |
| Identity.IdentityIsAccepted | main.py:70-72 | every input that strips to such a name, `#` and tag is accepted |
| Identity.ValidateIff | main.py:70-77 | `validar_nick_tag(s)` is true if and only if `strip(s) == n + "#" + t` for a valid name `n` and tag `t` |
| Identity.ValidateStripped | main.py:72 | validation gives the same answer on `s` and on `strip(s)` |
| Identity.AcceptedHasOneHash | main.py:71 | accepted input holds exactly one `#` once stripped |
| Identity.AcceptedShape | main.py:71 | accepted input is 7 to 22 characters once stripped, holds a `#` and does not end with one |
| Identity.RejectedWithoutHash | main.py:71-72 | input whose stripped form has no `#` is refused |
| Identity.MalformedRejected | main.py:70-77 | "ab#1", "noTagHere" and "validname#" are refused |
| Identity.LatinRangeAdmitsSigns | main.py:71 | the range `À-ÿ` admits `×` and `÷`: "ab×#c÷d" is accepted |
| Identity.SplitNick | main.py:87-88 | the result is the prefix of the input before its first `#`, or the whole input when it has none |
| Identity.SplitNickAfterHashFree | main.py:88 | a `#`-free prefix passes through the split whole |
| Identity.SplitNickOfIdentity | main.py:87-88 | on a stripped accepted `n#t` the split gives exactly `n` |
| Identity.SplitNickOfRawInput | main.py:24-28 | on raw accepted input the nick is the input's leading whitespace followed by a valid name |
| Dom.Filter | main.py:41 | the result holds exactly the elements of the list that match the locator, and is no longer than it |
| Dom.FindFirst | main.py:144-155 | a found element matches the locator and lies in the searched subtree |
| Dom.FindFirstIsFirstInDocumentOrder | main.py:144-155 | the search finds the first match in document order, and nothing when no element matches |
| Dom.FindElementIsFirstMatch | main.py:144-155 | `find_element` succeeds if and only if some descendant matches, and then returns the first one in document order |
| Dom.FindElements | main.py:41 | `find_elements` returns exactly the matching elements of the document, the first of them being the one a depth-first search finds first, and nothing only when no element matches |
| MatchExtractor.Follow | main.py:148-149 | a failed chain of `find_element` calls reports the column and one of the chain's locators |
| MatchExtractor.Cell | main.py:144-155 | a failed cell reports its own column |
| MatchExtractor.BuildRow | main.py:143-156 | the row exists if and only if every cell is found; then it has one (column, value) pair per field, in order; otherwise the error is that of the first failing field |
| MatchExtractor.ExtractMatch | main.py:142-157 | a row's columns are exactly the twelve keys in the dict literal's order; an error names one of those columns |
| MatchExtractor.HeaderNamesFields | main.py:144-155 | the field table has twelve entries whose columns are the header, in order |
| MatchExtractor.CompleteRecord | main.py:142-157 | on a record where every element is found, the row has twelve cells in order, each holding the text (or champion `alt`) found |
| MatchExtractor.FirstMissingWins | main.py:143-156 | when field i is the first that fails, building the row fails with field i's error |
| MatchExtractor.MissingFieldAborts | main.py:144-155 | a record missing the element of field i (all earlier found) yields no row and the error names column i |
| Scraper.FirstAccepted | main.py:81-84 | the index of the first line the validator accepts: every earlier line is refused, and the line at it is accepted; the line count when none is |
| Scraper.InputNick | main.py:80-84 | the loop returns exactly the first accepted line, as typed (unstripped), having read it and every line before it; it returns nothing only when no line is accepted |
| Scraper.MatchRecords | main.py:41 | the match records are exactly the elements of the page that carry the class `css-j7qwjs` |
| Scraper.CollectRows | main.py:42-47 | the loop computes `ExtractRows`: the rows of the records in order, or the error of the first record that fails |
| Scraper.FailureStops | main.py:42-47 | once a record fails, the records after it change nothing: the loop's error is that of the first failure |
| Scraper.RowsPerRecord | main.py:42-47 | the rows exist if and only if every record yields a row; then there is one row per record, row i being record i's |
| Scraper.FirstFailingRecord | main.py:42-47 | a failure carries the error of the first record that yields no row, every earlier record yielding one |
| Scraper.CsvFileName | main.py:162 | the file name is the nick followed by `_dados_partidas.csv` |
| Scraper.CsvFileNameInjective | main.py:162 | different nicks give different file names |
| Scraper.Scrape | main.py:28-60 | after the identity: a browser error aborts with its message; otherwise the first record lacking an element aborts the run; otherwise the rows of all records are exported to the file named after the nick |
| Scraper.Run | main.py:20-60 | no run happens exactly when no line is accepted; otherwise the identity searched for is the first accepted line, as typed, and the run ends as `Scrape` does for it |
| Scraper.ExportHoldsEveryRecord | main.py:41-47 | an exported CSV has one row per match record of the page, in page order, each with the twelve header columns |
| Scraper.AbortNamesFirstIncompleteRecord | main.py:41-57 | an extraction abort reports the first match record lacking an element and a column of the header |
| Scraper.ZezinhoFileName | main.py:162 | "zezinho#br1" gives the file "zezinho" + "_dados_partidas.csv" |
| Scraper.ZezinhoAccepted | main.py:70-72 | "zezinho#br1" is accepted |

## Left out

- `setup`, `teardown`, `navigate_to_opgg`, `search_input`, `soloduo_button` (main.py:91-139, main.py:167-169): Selenium browser lifecycle, waits, timeouts and clicks are calls into a library. They are collapsed into the `browse` parameter of `Scraper.Run`, which yields a page or an error message.
- `random_sleep` (main.py:66-67): a random wall-clock delay with no effect on the data.
- The pandas serialisation in `salvar_dados_csv` (main.py:161-163): only the file name and the rows handed to it are modelled, not the CSV bytes.
- `print` and `input` (main.py:25, 49-53, 73, 76, 82, 164): the messages are not modelled. Prompt input is a sequence of lines. When it runs out before an accepted line, `Run` returns `NoIdentity`; the program itself would raise EOFError there.
- The `SystemExit`/`finally` control flow of `main` (main.py:58-63), including `teardown` reading an unbound `driver` when `input_nick` or `setup` fails: Python scoping, not data handling. An abort is the `Aborted` outcome, with nothing exported.
- Python's Unicode tables for `\w`, `\s`, `\d` and `str.strip()`: these are uninterpreted predicates, constrained only by `Identity.Wf`.
- How the browser computes `.text` (rendered, visible text of the element and its descendants) is not modelled: it is a field of each element.
- Dom.AttributeOf: `get_attribute` returns Python's None for a missing attribute; the model gives "", which is what the CSV export writes for None.
- Implicit waits (`implicitly_wait(3)`): an element that appears within the wait counts as present, so the page is taken as already settled.
- Re-running with the same input and page gives the same result because every member is deterministic. No separate statement of this is made.
