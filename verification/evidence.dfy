/**
 * Evidence aggregation: the latest technical review (`verificar_pareceres`,
 * Parecer-Requisitos.py lines 214-291) and the latest submitted document
 * per category and overall (`verificar_requisitos` and its nested
 * `extrair_data_valida_categoria`, lines 294-382).
 *
 * Page tables reach the model as rows of raw cell texts; the browser that
 * reads them is an external collaborator.
 */
module Evidence {
  import opened Wrappers
  import opened Text
  import opened Timestamp
  import opened Sequences

  /** `NOMES_TECNICOS`: the staff whose reviews count. */
  const Technicians: seq<string> := [
    "Aline da Silva Mesquita Santos",
    "Josely Pereira de Aquino de Lima",
    "Julio Cesar Santos de Paula",
    "Fabricia de Morais Ramos",
    "Loane Arcebispo Avilino",
    "Samara Nogueira de Souza",
    "João Victor Cavalcante Teodoro"
  ]

  /** `palavras_ignorar`: file names containing one of these are not compliance documents. */
  const IgnoredWords: seq<string> := [
    "atestado", "capacidade", "técnica", "projeto", "técnico",
    "pedagógico", "ptp", "plano", "trabalho", "planilha", "custos"
  ]

  // ---------------------------------------------------------------------------
  // Python's max() over the instants that are present

  /** The later of two optional instants; an absent one never wins. */
  function MaxInstant(a: Option<DateTime>, b: Option<DateTime>): Option<DateTime> {
    match (a, b)
    case (None, _) => b
    case (_, None) => a
    case (Some(x), Some(y)) => if Before(x, y) then b else a
  }

  /**
   * `max` of the present instants, or `None` when none is present: the
   * result is one of the inputs and no present input is later.
   */
  function Latest(dates: seq<Option<DateTime>>): (r: Option<DateTime>)
    ensures r.None? <==> forall i :: 0 <= i < |dates| ==> dates[i].None?
    ensures r.Some? ==> exists i :: 0 <= i < |dates| && dates[i] == r
    ensures forall i :: 0 <= i < |dates| && dates[i].Some? ==> r.Some? && NotAfter(dates[i].value, r.value)
  {
    if |dates| == 0 then None
    else
      var prefix := Latest(dates[..|dates| - 1]);
      var r := MaxInstant(prefix, dates[|dates| - 1]);
      assert forall i :: 0 <= i < |dates| - 1 ==> dates[..|dates| - 1][i] == dates[i];
      r
  }

  /** The maximum of a concatenation is the maximum of the two maxima. */
  lemma {:induction false} LatestAppend(a: seq<Option<DateTime>>, b: seq<Option<DateTime>>)
    ensures Latest(a + b) == MaxInstant(Latest(a), Latest(b))
    decreases |b|
  {
    if |b| == 0 {
      assert a + b == a;
    } else {
      var b' := b[..|b| - 1];
      assert (a + b)[..|a + b| - 1] == a + b';
      LatestAppend(a, b');
      var x, y, z := Latest(a), Latest(b'), b[|b| - 1];
      if x.Some? && y.Some? && z.Some? {
        BeforeIsStrictTotalOrder(x.value, y.value, z.value);
        BeforeIsStrictTotalOrder(y.value, z.value, x.value);
        BeforeIsStrictTotalOrder(z.value, x.value, y.value);
      }
    }
  }

  /** An absent instant, wherever it is inserted, never changes the maximum. */
  lemma LatestIgnoresAbsent(a: seq<Option<DateTime>>, b: seq<Option<DateTime>>)
    ensures Latest(a + [None] + b) == Latest(a + b)
  {
    var none: seq<Option<DateTime>> := [None];
    LatestAppend(a + none, b);
    LatestAppend(a, none);
    LatestAppend(a, b);
    assert Latest(none) == None;
  }

  // ---------------------------------------------------------------------------
  // Reviews

  /** One table row: the texts of its `td` cells, before stripping. */
  type Cells = seq<string>

  /** Case-insensitive containment of some allow-listed name in the responsible field. */
  predicate IsTechnician(responsible: string) {
    exists k | 0 <= k < |Technicians| :: Contains(Lower(responsible), Lower(Technicians[k]))
  }

  /**
   * The instant one review row contributes: it needs three cells, an
   * allow-listed responsible in the third and a parseable date in the first.
   */
  function ReviewRowDate(row: Cells): (r: Option<DateTime>)
    ensures r.Some? <==> |row| >= 3 && IsTechnician(Strip(row[2])) && ParseTimestamp(Strip(row[0])).Some?
    ensures r.Some? ==> r == ParseTimestamp(Strip(row[0]))
  {
    if |row| >= 3 && IsTechnician(Strip(row[2])) then ParseTimestamp(Strip(row[0])) else None
  }

  function ReviewDates(rows: seq<Cells>): (r: seq<Option<DateTime>>)
    ensures |r| == |rows|
  {
    Map(ReviewRowDate, rows)
  }

  /**
   * The latest review date over the given rows: absent exactly when no row
   * qualifies, otherwise the date of a qualifying row no earlier than any other.
   */
  function LatestReview(rows: seq<Cells>): (r: Option<DateTime>)
    ensures r.None? <==> forall i :: 0 <= i < |rows| ==> ReviewRowDate(rows[i]).None?
    ensures r.Some? ==> exists i :: 0 <= i < |rows| && ReviewRowDate(rows[i]) == r
    ensures forall i :: 0 <= i < |rows| && ReviewRowDate(rows[i]).Some? ==>
              r.Some? && NotAfter(ReviewRowDate(rows[i]).value, r.value)
  {
    var dates := ReviewDates(rows);
    assert forall i :: 0 <= i < |rows| ==> dates[i] == ReviewRowDate(rows[i]);
    Latest(dates)
  }

  lemma ReviewDatesAppend(a: seq<Cells>, b: seq<Cells>)
    ensures ReviewDates(a + b) == ReviewDates(a) + ReviewDates(b)
  {
    MapAppend(ReviewRowDate, a, b);
  }

  /**
   * A row whose responsible is not on the allow-list never changes the
   * latest review date, however late its own date is and wherever it sits.
   */
  lemma NonTechnicianRowIgnored(a: seq<Cells>, row: Cells, b: seq<Cells>)
    requires |row| < 3 || !IsTechnician(Strip(row[2]))
    ensures LatestReview(a + [row] + b) == LatestReview(a + b)
  {
    ReviewDatesAppend(a + [row], b);
    ReviewDatesAppend(a, [row]);
    ReviewDatesAppend(a, b);
    assert ReviewDates([row]) == [None];
    LatestIgnoresAbsent(ReviewDates(a), ReviewDates(b));
  }

  /** The review tables of a proposal, or the failure of the whole read (line 289). */
  datatype ReviewPage =
    | ReviewTables(proposalRows: seq<Cells>, planRows: seq<Cells>)
    | ReviewPageFailed

  /** What `verificar_pareceres` hands back to the row filler. */
  datatype ReviewSummary = ReviewSummary(latest: Option<DateTime>, proposalText: string, planText: string)

  const NoReviewText := "Nenhum parecer localizado"
  const ExtractionErrorText := "Erro ao extrair"

  /**
   * `verificar_pareceres`: the latest allow-listed review over the proposal
   * and work-plan tables together, shown canonically in the proposal column;
   * the work-plan column always reads "Nenhum parecer localizado". A failed
   * read is indistinguishable from "no review" for the decision.
   */
  function SummariseReviews(page: ReviewPage): (r: ReviewSummary)
    ensures page.ReviewPageFailed? ==> r == ReviewSummary(None, ExtractionErrorText, ExtractionErrorText)
    ensures page.ReviewTables? ==> r.latest == LatestReview(page.proposalRows + page.planRows)
    ensures page.ReviewTables? ==> r.planText == NoReviewText
    ensures page.ReviewTables? && r.latest.None? ==> r.proposalText == NoReviewText
    ensures r.latest.Some? ==> r.proposalText == Canonical(r.latest.value)
    ensures r.latest.Some? ==> ParseTimestamp(r.proposalText) == r.latest
  {
    match page
    case ReviewPageFailed => ReviewSummary(None, ExtractionErrorText, ExtractionErrorText)
    case ReviewTables(proposalRows, planRows) =>
      match LatestReview(proposalRows + planRows)
      case None => ReviewSummary(None, NoReviewText, NoReviewText)
      case Some(d) =>
        ParseCanonical(d);
        ReviewSummary(Some(d), Canonical(d), NoReviewText)
  }

  // ---------------------------------------------------------------------------
  // Documents

  predicate IsIgnoredFile(name: string) {
    exists k | 0 <= k < |IgnoredWords| :: Contains(name, IgnoredWords[k])
  }

  /**
   * The instant one document row contributes: it needs two cells, a file
   * name (stripped, lower-cased) free of every ignored word, and a
   * parseable date in the second cell.
   */
  function DocumentRowDate(row: Cells): (r: Option<DateTime>)
    ensures r.Some? <==> |row| >= 2 && !IsIgnoredFile(Lower(Strip(row[0]))) && ParseTimestamp(Strip(row[1])).Some?
    ensures r.Some? ==> r == ParseTimestamp(Strip(row[1]))
  {
    if |row| >= 2 && !IsIgnoredFile(Lower(Strip(row[0]))) then ParseTimestamp(Strip(row[1])) else None
  }

  function DocumentDates(rows: seq<Cells>): (r: seq<Option<DateTime>>)
    ensures |r| == |rows|
  {
    Map(DocumentRowDate, rows)
  }

  lemma DocumentDatesAppend(a: seq<Cells>, b: seq<Cells>)
    ensures DocumentDates(a + b) == DocumentDates(a) + DocumentDates(b)
  {
    MapAppend(DocumentRowDate, a, b);
  }

  /** A file whose name carries an ignored word never changes its category's latest date. */
  lemma IgnoredFileIgnored(a: seq<Cells>, row: Cells, b: seq<Cells>)
    requires |row| < 2 || IsIgnoredFile(Lower(Strip(row[0])))
    ensures Latest(DocumentDates(a + [row] + b)) == Latest(DocumentDates(a + b))
  {
    DocumentDatesAppend(a + [row], b);
    DocumentDatesAppend(a, [row]);
    DocumentDatesAppend(a, b);
    assert DocumentDates([row]) == [None];
    LatestIgnoresAbsent(DocumentDates(a), DocumentDates(b));
  }

  datatype Category = Certificates | Declarations | ExecutionProofs | Others

  function CategoryName(c: Category): string {
    match c
    case Certificates => "Certidões"
    case Declarations => "Declarações"
    case ExecutionProofs => "Comprovantes de Execução"
    case Others => "Outros"
  }

  /** One category's table as read, or the failure of that read (line 350). */
  datatype DocumentTable = DocumentRows(rows: seq<Cells>) | DocumentTableFailed

  datatype CategorySummary = CategorySummary(latest: Option<DateTime>, text: string)

  function NoDocumentText(c: Category): string {
    "Nenhum(a) " + Lower(CategoryName(c)) + " localizado(a)"
  }

  function CategoryErrorText(c: Category): string {
    "Erro ao extrair " + Lower(CategoryName(c))
  }

  /**
   * `extrair_data_valida_categoria`: the latest qualifying document date of
   * one category with its canonical text, or no date with the category's
   * "none found" or "could not read" text.
   */
  function SummariseCategory(table: DocumentTable, c: Category): (r: CategorySummary)
    ensures table.DocumentTableFailed? ==> r == CategorySummary(None, CategoryErrorText(c))
    ensures table.DocumentRows? ==> r.latest == Latest(DocumentDates(table.rows))
    ensures table.DocumentRows? && r.latest.None? ==> r.text == NoDocumentText(c)
    ensures r.latest.Some? ==> r.text == Canonical(r.latest.value)
    ensures r.latest.Some? ==> ParseTimestamp(r.text) == r.latest
  {
    match table
    case DocumentTableFailed => CategorySummary(None, CategoryErrorText(c))
    case DocumentRows(rows) =>
      match Latest(DocumentDates(rows))
      case None => CategorySummary(None, NoDocumentText(c))
      case Some(d) =>
        ParseCanonical(d);
        CategorySummary(Some(d), Canonical(d))
  }

  /** The first history row: the event cell and the date cell, each `None` when it could not be read. */
  datatype HistoryCells = HistoryCells(event: Option<string>, date: Option<string>)

  /** The requirements tab as the browser sees it. */
  datatype RequirementsPage =
    | RequirementsTabMissing          // lines 310-318: the tab or sub-tab never became clickable
    | RequirementsPageFailed          // line 380: any other failure
    | RequirementsTables(certificates: DocumentTable, declarations: DocumentTable,
                         executionProofs: DocumentTable, others: DocumentTable, history: HistoryCells)

  /**
   * The first value `verificar_requisitos` returns: an instant, `None`, or
   * the truthy string "Erro de Navegação" when the tab could not be opened.
   */
  datatype DocumentEvidence = DocumentDate(date: DateTime) | NoDocumentDate | NavigationError

  datatype RequirementsSummary = RequirementsSummary(
    latest: DocumentEvidence,
    certificates: string, declarations: string, executionProofs: string, others: string,
    historyDate: string, historyEvent: string)

  const FailureText := "Erro"

  /** The history event (stripped) and its canonical date; `""` for what could not be read or parsed. */
  function HistoryTexts(h: HistoryCells): (r: (string, string))
    ensures h.event.None? ==> r == ("", "")
    ensures h.event.Some? ==> r.0 == Strip(h.event.value)
    ensures h.event.Some? && h.date.Some? && ParseTimestamp(Strip(h.date.value)).Some? ==> r.1 != ""
    ensures r.1 != "" ==>
              && h.event.Some? && h.date.Some? && ParseTimestamp(Strip(h.date.value)).Some?
              && ParseTimestamp(r.1) == ParseTimestamp(Strip(h.date.value))
              && r.1 == Canonical(ParseTimestamp(Strip(h.date.value)).value)
  {
    match h.event
    case None => ("", "")
    case Some(event) =>
      var date :=
        match h.date
        case None => ""
        case Some(text) => (match ExtractDate(Strip(text)) case Some(x) => x.1 case None => "");
      (Strip(event), date)
  }

  /**
   * `verificar_requisitos`. On a readable page the overall date is the
   * latest of the four category dates: absent exactly when all four are,
   * otherwise one of them and no earlier than any of them.
   */
  function SummariseRequirements(page: RequirementsPage): (r: RequirementsSummary)
    ensures page.RequirementsTabMissing? ==> r == RequirementsSummary(NavigationError, "", "", "", "", "", "")
    ensures page.RequirementsPageFailed? ==>
              r == RequirementsSummary(NoDocumentDate, FailureText, FailureText, FailureText, FailureText,
                                       FailureText, FailureText)
    ensures page.RequirementsTables? ==>
              var dates := [SummariseCategory(page.certificates, Certificates).latest,
                            SummariseCategory(page.declarations, Declarations).latest,
                            SummariseCategory(page.executionProofs, ExecutionProofs).latest,
                            SummariseCategory(page.others, Others).latest];
              && (r.latest.NoDocumentDate? <==> forall i :: 0 <= i < 4 ==> dates[i].None?)
              && !r.latest.NavigationError?
              && (r.latest.DocumentDate? ==> exists i :: 0 <= i < 4 && dates[i] == Some(r.latest.date))
              && (forall i :: 0 <= i < 4 && dates[i].Some? ==>
                    r.latest.DocumentDate? && NotAfter(dates[i].value, r.latest.date))
    ensures page.RequirementsTables? ==>
              && r.certificates == SummariseCategory(page.certificates, Certificates).text
              && r.declarations == SummariseCategory(page.declarations, Declarations).text
              && r.executionProofs == SummariseCategory(page.executionProofs, ExecutionProofs).text
              && r.others == SummariseCategory(page.others, Others).text
              && (r.historyEvent, r.historyDate) == HistoryTexts(page.history)
  {
    match page
    case RequirementsTabMissing => RequirementsSummary(NavigationError, "", "", "", "", "", "")
    case RequirementsPageFailed =>
      RequirementsSummary(NoDocumentDate, FailureText, FailureText, FailureText, FailureText, FailureText, FailureText)
    case RequirementsTables(certificates, declarations, executionProofs, others, history) =>
      var c1 := SummariseCategory(certificates, Certificates);
      var c2 := SummariseCategory(declarations, Declarations);
      var c3 := SummariseCategory(executionProofs, ExecutionProofs);
      var c4 := SummariseCategory(others, Others);
      var latest := match Latest([c1.latest, c2.latest, c3.latest, c4.latest])
        case None => NoDocumentDate
        case Some(d) => DocumentDate(d);
      var (historyEvent, historyDate) := HistoryTexts(history);
      RequirementsSummary(latest, c1.text, c2.text, c3.text, c4.text, historyDate, historyEvent)
  }
}
