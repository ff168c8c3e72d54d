/**
 * The work roster: reading and cleaning the input sheet (`ler_entrada_excel`,
 * Parecer-Requisitos.py lines 418-466), the instrument filter shared by both
 * run modes (lines 568-569 and 632-633) and the menu's default filter
 * (lines 689-691).
 *
 * A spreadsheet row is a map from column header to cell text; an empty
 * (NaN) cell is a header with no entry in the map.
 */
module Roster {
  import opened Wrappers
  import opened Text
  import opened Sequences

  const IdColumn := "Nº Proposta"
  const InstrumentColumn := "Instrumento"

  /** `colunas_saida`, in order. */
  const OutputColumns: seq<string> := [
    "Nº Proposta", "Instrumento", "Técnico Responsável pela Formalização",
    "Lista Pareceres de Proposta", "Lista Pareceres do plano de Trabalho",
    "Certidões", "Declarações", "Comprovantes de Execução", "Outros",
    "Histórico (Data)", "Histórico (Evento)",
    "Fator Pendente para Celebração (Exceto Documentação)",
    "Situacional (Documentação)", "Ação Necessária (Automação)"
  ]

  type InputRow = map<string, string>

  /**
   * The "Propostas 2025" sheet: its header and its rows. A sheet pandas
   * reads carries, in every row, only cells of the header's columns, and
   * an absent key stands for an empty cell. The type does not enforce
   * this: a row with a key outside the header describes no real sheet.
   */
  datatype Sheet = Sheet(columns: set<string>, rows: seq<InputRow>)

  /** One row of the output table: exactly the fourteen output columns, all text. */
  datatype OutRow = OutRow(
    proposal: string, instrument: string, technician: string,
    proposalReviews: string, planReviews: string,
    certificates: string, declarations: string, executionProofs: string, others: string,
    historyDate: string, historyEvent: string,
    pendingFactor: string, situational: string, action: string)

  /** The row's cells in the order of `OutputColumns`. */
  function Cells(r: OutRow): seq<string> {
    [r.proposal, r.instrument, r.technician, r.proposalReviews, r.planReviews,
     r.certificates, r.declarations, r.executionProofs, r.others,
     r.historyDate, r.historyEvent, r.pendingFactor, r.situational, r.action]
  }

  /** A cell after `fillna('')`. */
  function CellText(row: InputRow, column: string): string {
    if column in row then row[column] else ""
  }

  /** The proposal id as read (`''` for an empty cell). */
  function Id(row: InputRow): string {
    CellText(row, IdColumn)
  }

  /** The row survives `dropna` and the blank-id filter. */
  predicate HasId(row: InputRow) {
    !IsBlank(Id(row))
  }

  /** Some row of `rows` carries `id`. */
  predicate CarriesId(rows: seq<InputRow>, id: string) {
    exists k | 0 <= k < |rows| :: Id(rows[k]) == id
  }

  /** `drop_duplicates(subset=['Nº Proposta'])` after the blank-id filter: the first row of each id. */
  function Deduplicate(rows: seq<InputRow>): seq<InputRow> {
    if |rows| == 0 then []
    else
      var kept := Deduplicate(rows[..|rows| - 1]);
      var row := rows[|rows| - 1];
      if HasId(row) && !CarriesId(kept, Id(row)) then kept + [row] else kept
  }

  /** No two rows of `rows` carry the same id. */
  predicate DistinctIds(rows: seq<InputRow>) {
    forall k, l :: 0 <= k < l < |rows| ==> Id(rows[k]) != Id(rows[l])
  }

  /** Cleaning keeps rows in input order, each with a non-blank id, no id twice. */
  lemma {:induction false} DeduplicateShape(rows: seq<InputRow>)
    ensures IsSubsequence(Deduplicate(rows), rows)
    ensures forall k :: 0 <= k < |Deduplicate(rows)| ==> HasId(Deduplicate(rows)[k])
    ensures DistinctIds(Deduplicate(rows))
    decreases |rows|
  {
    if |rows| > 0 {
      var init := rows[..|rows| - 1];
      var kept, row := Deduplicate(init), rows[|rows| - 1];
      DeduplicateShape(init);
      SubsequenceExtend(kept, init, row);
      assert init + [row] == rows;
      if HasId(row) && !CarriesId(kept, Id(row)) {
        var d := kept + [row];
        forall k, l | 0 <= k < l < |d| ensures Id(d[k]) != Id(d[l]) {
          if l == |kept| {
            assert d[k] == kept[k];
          } else {
            assert d[k] == kept[k] && d[l] == kept[l];
          }
        }
      }
    }
  }

  /** Every non-blank id of the input survives cleaning. */
  lemma {:induction false} DeduplicateKeepsEveryId(rows: seq<InputRow>)
    ensures forall i :: 0 <= i < |rows| && HasId(rows[i]) ==> CarriesId(Deduplicate(rows), Id(rows[i]))
    decreases |rows|
  {
    if |rows| > 0 {
      var n := |rows| - 1;
      var init := rows[..n];
      var kept := Deduplicate(init);
      var r := Deduplicate(rows);
      DeduplicateKeepsEveryId(init);
      assert r == kept || r == kept + [rows[n]];
      assert forall k :: 0 <= k < |kept| ==> r[k] == kept[k];
      forall i | 0 <= i < |rows| && HasId(rows[i]) ensures CarriesId(r, Id(rows[i])) {
        var id := Id(rows[i]);
        if i < n {
          assert rows[i] == init[i];
          assert CarriesId(kept, id);
          var k :| 0 <= k < |kept| && Id(kept[k]) == id;
          assert Id(r[k]) == id;
        } else if !CarriesId(kept, id) {
          assert r == kept + [rows[n]];
          assert Id(r[|kept|]) == id;
        } else {
          var k :| 0 <= k < |kept| && Id(kept[k]) == id;
          assert Id(r[k]) == id;
        }
      }
    }
  }

  /** Row `i` has an id that no earlier row carries: `drop_duplicates(keep='first')` keeps it. */
  predicate IsFirst(rows: seq<InputRow>, i: int) {
    0 <= i < |rows| && HasId(rows[i]) && forall j :: 0 <= j < i ==> Id(rows[j]) != Id(rows[i])
  }

  /** The positions of the rows cleaning keeps, in increasing order. */
  function FirstPositions(rows: seq<InputRow>): (r: seq<nat>)
    ensures Increasing(r) && InRange(r, |rows|)
    ensures forall i :: i in r <==> IsFirst(rows, i)
    decreases |rows|
  {
    if |rows| == 0 then []
    else
      var n := |rows| - 1;
      var init := rows[..n];
      var r := FirstPositions(init);
      assert forall i :: 0 <= i < n ==> rows[i] == init[i];
      assert forall i :: IsFirst(init, i) <==> IsFirst(rows, i) && i < n;
      if IsFirst(rows, n) then r + [n] else r
  }

  /**
   * Cleaning keeps exactly the rows at the first positions of their ids, in
   * input order: the k-th kept row is the row at the k-th such position.
   */
  lemma {:induction false} DeduplicateKeepsFirst(rows: seq<InputRow>)
    ensures |Deduplicate(rows)| == |FirstPositions(rows)|
    ensures forall k :: 0 <= k < |Deduplicate(rows)| ==> Deduplicate(rows)[k] == rows[FirstPositions(rows)[k]]
    decreases |rows|
  {
    if |rows| > 0 {
      var n := |rows| - 1;
      var init, row := rows[..n], rows[n];
      var kept, pos := Deduplicate(init), FirstPositions(init);
      DeduplicateKeepsFirst(init);
      KeepsFirstTest(rows);
      var d, f := Deduplicate(rows), FirstPositions(rows);
      if HasId(row) && !CarriesId(kept, Id(row)) {
        assert d == kept + [row] && f == pos + [n];
      } else {
        assert d == kept && f == pos;
      }
      forall k | 0 <= k < |d| ensures d[k] == rows[f[k]] {
        if k < |kept| {
          assert d[k] == kept[k] == init[pos[k]] && f[k] == pos[k];
        }
      }
    }
  }

  /** Given `DeduplicateKeepsFirst` for all but the last row, cleaning's test on the last row is `IsFirst`. */
  lemma KeepsFirstTest(rows: seq<InputRow>)
    requires |rows| > 0
    requires var init := rows[..|rows| - 1];
             && |Deduplicate(init)| == |FirstPositions(init)|
             && forall k :: 0 <= k < |Deduplicate(init)| ==> Deduplicate(init)[k] == init[FirstPositions(init)[k]]
    ensures var n := |rows| - 1;
            HasId(rows[n]) && !CarriesId(Deduplicate(rows[..n]), Id(rows[n])) <==> IsFirst(rows, n)
  {
    var n := |rows| - 1;
    var init, row := rows[..n], rows[n];
    var kept, pos := Deduplicate(init), FirstPositions(init);
    DeduplicateKeepsEveryId(init);
    if HasId(row) && CarriesId(kept, Id(row)) {
      var k :| 0 <= k < |kept| && Id(kept[k]) == Id(row);
      assert rows[pos[k]] == kept[k];
    }
    if HasId(row) && !CarriesId(kept, Id(row)) {
      forall j | 0 <= j < n ensures Id(rows[j]) != Id(row) {
        assert rows[j] == init[j];
      }
    }
  }

  /** The output-shaped row: each output column copied from the input, or `''` when missing or empty. */
  function ToOutRow(row: InputRow): (r: OutRow)
    ensures |Cells(r)| == |OutputColumns|
    ensures forall k :: 0 <= k < |OutputColumns| ==> Cells(r)[k] == CellText(row, OutputColumns[k])
  {
    OutRow(CellText(row, OutputColumns[0]), CellText(row, OutputColumns[1]), CellText(row, OutputColumns[2]),
           CellText(row, OutputColumns[3]), CellText(row, OutputColumns[4]), CellText(row, OutputColumns[5]),
           CellText(row, OutputColumns[6]), CellText(row, OutputColumns[7]), CellText(row, OutputColumns[8]),
           CellText(row, OutputColumns[9]), CellText(row, OutputColumns[10]), CellText(row, OutputColumns[11]),
           CellText(row, OutputColumns[12]), CellText(row, OutputColumns[13]))
  }

  /**
   * `ler_entrada_excel`: `None` when the file cannot be read or lacks one of
   * the two required columns; otherwise the output-shaped rows of the
   * cleaned input, one each, in order.
   */
  function ReadRoster(input: Option<Sheet>): (r: Option<seq<OutRow>>)
    ensures r.Some? <==> input.Some? && IdColumn in input.value.columns && InstrumentColumn in input.value.columns
    ensures r.Some? ==> |r.value| == |Deduplicate(input.value.rows)|
    ensures r.Some? ==> forall k :: 0 <= k < |r.value| ==> r.value[k] == ToOutRow(Deduplicate(input.value.rows)[k])
  {
    if input.None? || IdColumn !in input.value.columns || InstrumentColumn !in input.value.columns then None
    else
      var rows := Deduplicate(input.value.rows);
      Some(seq(|rows|, k requires 0 <= k < |rows| => ToOutRow(rows[k])))
  }

  /** In the roster every proposal id is non-blank and no two rows share one. */
  lemma RosterIdsUnique(input: Option<Sheet>)
    requires ReadRoster(input).Some?
    ensures forall k :: 0 <= k < |ReadRoster(input).value| ==> !IsBlank(ReadRoster(input).value[k].proposal)
    ensures forall k, l :: 0 <= k < l < |ReadRoster(input).value| ==>
              ReadRoster(input).value[k].proposal != ReadRoster(input).value[l].proposal
  {
    var rows := Deduplicate(input.value.rows);
    DeduplicateShape(input.value.rows);
    assert forall k :: 0 <= k < |rows| ==> ToOutRow(rows[k]).proposal == Id(rows[k]);
  }

  /** The spreadsheet example: ids "A-1", "A-2", "A-1" leave "A-1" then "A-2". */
  lemma DuplicateExample(r1: InputRow, r2: InputRow, r3: InputRow)
    requires r1 == map[IdColumn := "A-1", InstrumentColumn := "Convênio"]
    requires r2 == map[IdColumn := "A-2", InstrumentColumn := "Convênio"]
    requires r3 == map[IdColumn := "A-1", InstrumentColumn := "Convênio"]
    ensures Deduplicate([r1, r2, r3]) == [r1, r2]
  {
    assert !IsSpace('A');
    assert Id(r1) == "A-1" && Id(r2) == "A-2" && Id(r3) == "A-1";
    assert [r1, r2, r3][..2] == [r1, r2];
    assert [r1, r2][..1] == [r1];
    assert [r1][..0] == [];
    assert !IsSpace(Id(r1)[0]) && !IsSpace(Id(r2)[0]);
    assert HasId(r1) && HasId(r2);
    assert Deduplicate([r1]) == [r1];
    assert "A-1" != "A-2";
    assert !CarriesId([r1], Id(r2));
    assert Deduplicate([r1, r2]) == [r1, r2];
    assert CarriesId([r1, r2], Id(r3));
  }

  // ---------------------------------------------------------------------------
  // Instrument filter

  /** `filtro.lower() == 'todos'`: no filtering. */
  predicate SelectsAll(filter: string) {
    Lower(filter) == "todos"
  }

  predicate MatchesInstrument(row: OutRow, filter: string) {
    Lower(row.instrument) == Lower(filter)
  }

  function KeepMatching(table: seq<OutRow>, filter: string): seq<OutRow> {
    if |table| == 0 then []
    else
      var kept := KeepMatching(table[..|table| - 1], filter);
      if MatchesInstrument(table[|table| - 1], filter) then kept + [table[|table| - 1]] else kept
  }

  /** The positions of the rows whose instrument matches the filter, in increasing order. */
  function MatchingPositions(table: seq<OutRow>, filter: string): (r: seq<nat>)
    ensures Increasing(r) && InRange(r, |table|)
    ensures forall i :: 0 <= i < |table| ==> (i in r <==> MatchesInstrument(table[i], filter))
    decreases |table|
  {
    if |table| == 0 then []
    else
      var n := |table| - 1;
      var r := MatchingPositions(table[..n], filter);
      assert forall i :: 0 <= i < n ==> table[i] == table[..n][i];
      if MatchesInstrument(table[n], filter) then r + [n] else r
  }

  /** The selection keeps exactly the rows at the matching positions, in order, duplicates included. */
  lemma {:induction false} KeepMatchingPositions(table: seq<OutRow>, filter: string)
    ensures |KeepMatching(table, filter)| == |MatchingPositions(table, filter)|
    ensures forall k :: 0 <= k < |KeepMatching(table, filter)| ==>
              KeepMatching(table, filter)[k] == table[MatchingPositions(table, filter)[k]]
    decreases |table|
  {
    if |table| > 0 {
      var n := |table| - 1;
      KeepMatchingPositions(table[..n], filter);
      var pos := MatchingPositions(table[..n], filter);
      assert forall k :: 0 <= k < |pos| ==> table[pos[k]] == table[..n][pos[k]];
    }
  }

  /**
   * The instrument filter: with "todos" (any case) the table is untouched;
   * otherwise exactly the rows whose instrument equals the filter ignoring
   * case, in their original order.
   */
  function FilterByInstrument(table: seq<OutRow>, filter: string): (r: seq<OutRow>)
    ensures SelectsAll(filter) ==> r == table
    ensures IsSubsequence(r, table)
    ensures !SelectsAll(filter) ==> forall k :: 0 <= k < |r| ==> MatchesInstrument(r[k], filter)
    ensures !SelectsAll(filter) ==> forall i :: 0 <= i < |table| && MatchesInstrument(table[i], filter) ==> table[i] in r
    ensures !SelectsAll(filter) ==>
              && |r| == |MatchingPositions(table, filter)|
              && forall k :: 0 <= k < |r| ==> r[k] == table[MatchingPositions(table, filter)[k]]
  {
    KeepMatchingSpec(table, filter);
    KeepMatchingPositions(table, filter);
    SubsequenceReflexive(table);
    if SelectsAll(filter) then table else KeepMatching(table, filter)
  }

  lemma {:induction false} SubsequenceReflexive<T>(s: seq<T>)
    ensures IsSubsequence(s, s)
  {
    if |s| > 0 {
      SubsequenceReflexive(s[..|s| - 1]);
      SubsequenceExtend(s[..|s| - 1], s[..|s| - 1], s[|s| - 1]);
      assert s[..|s| - 1] + [s[|s| - 1]] == s;
    }
  }

  lemma {:induction false} KeepMatchingSpec(table: seq<OutRow>, filter: string)
    ensures IsSubsequence(KeepMatching(table, filter), table)
    ensures forall k :: 0 <= k < |KeepMatching(table, filter)| ==> MatchesInstrument(KeepMatching(table, filter)[k], filter)
    ensures forall i :: 0 <= i < |table| && MatchesInstrument(table[i], filter) ==> table[i] in KeepMatching(table, filter)
    ensures (forall i :: 0 <= i < |table| ==> MatchesInstrument(table[i], filter)) ==> KeepMatching(table, filter) == table
  {
    if |table| > 0 {
      var init := table[..|table| - 1];
      KeepMatchingSpec(init, filter);
      SubsequenceExtend(KeepMatching(init, filter), init, table[|table| - 1]);
      assert init + [table[|table| - 1]] == table;
    }
  }

  /** Filtering an already filtered table with the same filter changes nothing. */
  lemma FilterIdempotent(table: seq<OutRow>, filter: string)
    ensures FilterByInstrument(FilterByInstrument(table, filter), filter) == FilterByInstrument(table, filter)
  {
    var once := FilterByInstrument(table, filter);
    if !SelectsAll(filter) {
      KeepMatchingSpec(once, filter);
    }
  }

  /** A table whose rows all match the filter passes through it unchanged. */
  lemma FilterKeepsMatchingTable(table: seq<OutRow>, filter: string)
    requires forall i :: 0 <= i < |table| ==> MatchesInstrument(table[i], filter)
    ensures FilterByInstrument(table, filter) == table
  {
    KeepMatchingSpec(table, filter);
  }

  /** `Lower("Todos")` is "todos". */
  lemma LowerTodos()
    ensures Lower("Todos") == "todos"
  {
    var l := Lower("Todos");
    assert l[0] == 't' && l[1] == 'o' && l[2] == 'd' && l[3] == 'o' && l[4] == 's';
  }

  /**
   * The menu's filter (lines 689-691): the stripped input, or "Todos" when it
   * is blank, so a blank answer selects every row.
   */
  function EffectiveFilter(typed: string): (r: string)
    ensures IsBlank(typed) ==> SelectsAll(r)
    ensures !IsBlank(typed) ==> r == Strip(typed)
  {
    LowerTodos();
    var f := Strip(typed);
    if f == "" then "Todos" else f
  }
}
