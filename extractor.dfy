/**
 * `extrair_dados_partida` (main.py:142-157): one match record becomes one row
 * of twelve named cells, in the order of the dict literal.  Each cell follows
 * a path of `find_element` calls from the record and reads the text, or for
 * the champion the `alt` attribute, of the element it reaches.  A missing
 * element raises NoSuchElementException: no row comes out at all.
 */
module MatchExtractor {
  import opened Wrappers
  import opened Dom

  /** One CSV row: (column, value) pairs in insertion order. */
  type Row = seq<(string, string)>

  /** What a cell reads from the element its path reaches. */
  datatype Reading = Text | Attribute(name: string)

  /** One entry of the dict literal: the column, the chain of `find_element`
      calls made from the match record, and what is read at its end. */
  datatype Field = Field(column: string, path: seq<Locator>, reading: Reading)

  /** The NoSuchElementException a lookup raises, with the column being built
      and the locator that found nothing. */
  datatype Missing = Missing(column: string, locator: Locator)

  /** The twelve entries of main.py:144-155, in order. */
  const MatchFields: seq<Field> := [
    Field("Tipo de partida", [ByClassName("game-type")], Text),
    Field("Horário", [ByClassName("time-stamp")], Text),
    Field("Resultado", [ByClassName("result")], Text),
    Field("Duração", [ByClassName("length")], Text),
    Field("Jogador Alvo Nome", [ByClassName("is-me"), ByClassName("summoner-tooltip")], Text),
    Field("Jogador Alvo Campeão", [ByClassName("is-me"), ByTagName("img")], Attribute("alt")),
    Field("Rota", [ByClassName("laning--my")], Text),
    Field("KDA", [ByClassName("kda")], Text),
    Field("KDA Ratio", [ByClassName("kda-ratio")], Text),
    Field("P/Kill", [ByClassName("p-kill")], Text),
    Field("CS", [ByClassName("cs")], Text),
    Field("Rank Médio da Partida", [ByClassName("avg-tier")], Text)
  ]

  /** The CSV header: the dict's keys, in order. */
  const Header: seq<string> := [
    "Tipo de partida", "Horário", "Resultado", "Duração", "Jogador Alvo Nome",
    "Jogador Alvo Campeão", "Rota", "KDA", "KDA Ratio", "P/Kill", "CS",
    "Rank Médio da Partida"
  ]

  function Columns(row: Row): (cs: seq<string>)
    ensures |cs| == |row| && forall i :: 0 <= i < |row| ==> cs[i] == row[i].0
  {
    seq(|row|, i requires 0 <= i < |row| => row[i].0)
  }

  /** `e.find_element(l1).find_element(l2)…`, stopping at the first locator
      that finds nothing. */
  function Follow(e: Element, path: seq<Locator>, column: string): (r: Result<Element, Missing>)
    ensures r.Failure? ==> r.error.column == column && r.error.locator in path
    decreases path
  {
    if path == [] then Success(e)
    else
      match FindElement(e, path[0])
      case None => Failure(Missing(column, path[0]))
      case Some(next) => Follow(next, path[1..], column)
  }

  /** The value of one cell of the row built from `record`. */
  function Cell(record: Element, f: Field): (r: Result<string, Missing>)
    ensures r.Failure? ==> r.error.column == f.column
  {
    var target :- Follow(record, f.path, f.column);
    match f.reading
    case Text => Success(target.text)
    case Attribute(name) => Success(AttributeOf(target, name))
  }

  /** The row of the given fields, built in order; the first field whose lookup
      fails aborts it. */
  function BuildRow(record: Element, fields: seq<Field>): (r: Result<Row, Missing>)
    ensures r.Success? <==> forall i :: 0 <= i < |fields| ==> Cell(record, fields[i]).Success?
    ensures r.Success? ==>
      && |r.value| == |fields|
      && forall i :: 0 <= i < |fields| ==> r.value[i] == (fields[i].column, Cell(record, fields[i]).value)
    ensures r.Failure? ==>
      exists i :: && 0 <= i < |fields|
                  && Cell(record, fields[i]) == Failure(r.error)
                  && forall j :: 0 <= j < i ==> Cell(record, fields[j]).Success?
  {
    if fields == [] then Success([])
    else
      var value :- Cell(record, fields[0]);
      var rest :- BuildRow(record, fields[1..]);
      Success([(fields[0].column, value)] + rest)
  }

  /** `extrair_dados_partida(match)` */
  function ExtractMatch(record: Element): (r: Result<Row, Missing>)
    ensures r.Success? ==> Columns(r.value) == Header
    ensures r.Failure? ==> r.error.column in Header
  {
    var r := BuildRow(record, MatchFields);
    HeaderNamesFields();
    assert r.Success? ==> Columns(r.value) == Header;
    r
  }

  lemma HeaderNamesFields()
    ensures |Header| == |MatchFields| == 12
    ensures forall i :: 0 <= i < |MatchFields| ==> MatchFields[i].column == Header[i]
  {
  }

  // ---------------------------------------------------------------------------

  /** On a record where every lookup succeeds, the row holds the twelve columns
      in the fixed order, each with the text (or `alt`) of the element its
      path reaches first. */
  lemma CompleteRecord(record: Element)
    requires forall i :: 0 <= i < |MatchFields| ==> Cell(record, MatchFields[i]).Success?
    ensures ExtractMatch(record).Success?
    ensures var row := ExtractMatch(record).value;
      |row| == 12 && Columns(row) == Header &&
      forall i :: 0 <= i < 12 ==> row[i].1 == Cell(record, MatchFields[i]).value
  {
  }

  /** The row built from `fields` fails with the error of the first field
      whose lookup fails. */
  lemma {:induction false} FirstMissingWins(record: Element, fields: seq<Field>, i: nat)
    requires i < |fields|
    requires Cell(record, fields[i]).Failure?
    requires forall j :: 0 <= j < i ==> Cell(record, fields[j]).Success?
    ensures BuildRow(record, fields) == Failure(Cell(record, fields[i]).error)
  {
    var r := BuildRow(record, fields);
    var k :| && 0 <= k < |fields|
             && Cell(record, fields[k]) == Failure(r.error)
             && forall j :: 0 <= j < k ==> Cell(record, fields[j]).Success?;
    assert k == i;
  }

  /** A record lacking the element of field `i`, while every earlier field is
      found, yields no row, and the error names column `i`. */
  lemma MissingFieldAborts(record: Element, i: nat)
    requires i < |MatchFields|
    requires Cell(record, MatchFields[i]).Failure?
    requires forall j :: 0 <= j < i ==> Cell(record, MatchFields[j]).Success?
    ensures ExtractMatch(record) == Failure(Cell(record, MatchFields[i]).error)
    ensures ExtractMatch(record).error.column == Header[i]
  {
    FirstMissingWins(record, MatchFields, i);
    HeaderNamesFields();
  }
}
