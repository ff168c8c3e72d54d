/**
 * The decision procedure of `preencher_linha` (Parecer-Requisitos.py lines
 * 469-551): the situational shortcut, the comparison of the latest technician
 * review with the latest document the entity sent, and the columns it writes.
 *
 * The browser is a function from the proposal id to what the pages show;
 * `ProposalNotFound` stands for `navegar_menu_principal` returning False.
 */
module Decision {
  import opened Wrappers
  import opened Text
  import opened Timestamp
  import opened Evidence
  import opened Roster

  /** The labels written to "Ação Necessária (Automação)". */
  datatype Label =
    | EntityPendingDocumentation
    | TechnicianReview
    | InCelebration
    | PartnershipCelebrated
    | ProposalRejected
    | InstrumentNotFound

  /** The text of each label; none is blank, so a filled row is never taken for a failure. */
  function LabelText(l: Label): (r: string)
    ensures !IsBlank(r)
  {
    var r := match l
      case EntityPendingDocumentation => "Entidade Pendência de Documentação"
      case TechnicianReview => "Técnico Analisar"
      case InCelebration => "Em Celebração"
      case PartnershipCelebrated => "Parceria Celebrada"
      case ProposalRejected => "Proposta Rejeitada"
      case InstrumentNotFound => "Instrumento não encontrado";
    assert !IsSpace(r[0]);
    r
  }

  /** Different labels are written differently. */
  lemma LabelTextInjective(a: Label, b: Label)
    ensures LabelText(a) == LabelText(b) ==> a == b
  {
    if a != b {
      var ta, tb := LabelText(a), LabelText(b);
      assert ta[0] != tb[0] || ta[1] != tb[1] || |ta| != |tb|;
    }
  }

  // ---------------------------------------------------------------------------
  // Situational shortcut

  const CelebrationStatuses: seq<string> := [
    "Parecer e Termo para Correção", "Parecer e Termo Corrigido (Necessidade de Ajuste)",
    "Parecer para Assinatura", "Termo Disponibilizado Usuário Externo",
    "Termo Disponibilizado Secretário(a)", "Processo Enviado ao GAB - Para Publicação"
  ]
  const PartnershipStatuses: seq<string> := [
    "Aguardando Registro Transferegov CGFP", "Cláusula Suspensiva 2025", "Enviado à CGAP"
  ]
  const RejectedStatuses: seq<string> := ["Alteração de Beneficiário", "Proposta Rejeitada"]
  const TechnicianStatuses: seq<string> := ["Enviar Link Declarações", "Enviado Link Declarações"]

  predicate Disjoint(a: seq<string>, b: seq<string>) {
    forall i, j :: 0 <= i < |a| && 0 <= j < |b| ==> a[i] != b[j]
  }

  /** No status belongs to two lists, so the order of the tests in the source does not matter. */
  lemma StatusListsDisjoint()
    ensures Disjoint(CelebrationStatuses, PartnershipStatuses)
    ensures Disjoint(CelebrationStatuses, RejectedStatuses)
    ensures Disjoint(CelebrationStatuses, TechnicianStatuses)
    ensures Disjoint(PartnershipStatuses, RejectedStatuses)
    ensures Disjoint(PartnershipStatuses, TechnicianStatuses)
    ensures Disjoint(RejectedStatuses, TechnicianStatuses)
  {
  }

  /**
   * The pre-analysis on the stripped "Situacional (Documentação)" cell: each
   * status list selects its own label, and a status in none of them selects
   * nothing, so the pages are consulted.
   */
  function Shortcut(situational: string): (r: Option<Label>)
    ensures r == Some(InCelebration) <==> Strip(situational) in CelebrationStatuses
    ensures r == Some(PartnershipCelebrated) <==> Strip(situational) in PartnershipStatuses
    ensures r == Some(ProposalRejected) <==> Strip(situational) in RejectedStatuses
    ensures r == Some(TechnicianReview) <==> Strip(situational) in TechnicianStatuses
    ensures r.Some? ==> r.value in {InCelebration, PartnershipCelebrated, ProposalRejected, TechnicianReview}
  {
    StatusListsDisjoint();
    var s := Strip(situational);
    if s in CelebrationStatuses then Some(InCelebration)
    else if s in PartnershipStatuses then Some(PartnershipCelebrated)
    else if s in RejectedStatuses then Some(ProposalRejected)
    else if s in TechnicianStatuses then Some(TechnicianReview)
    else None
  }

  // ---------------------------------------------------------------------------
  // Comparing the evidence

  const ComplementRequested := "Complementação Solicitada"

  /**
   * The outcome of the comparison. `TypeError` is Python comparing a review
   * instant with the string "Erro de Navegação": an exception nothing in the
   * row filler catches.
   */
  datatype Verdict = Act(next: Label) | TypeError

  /**
   * Who must act next: the entity when the technician reviewed last, the
   * technician when the entity sent a document last. Equal instants are
   * settled by the latest history event; no evidence at all leaves the entity
   * pending. A navigation failure on the requirements tab reads as evidence
   * when there is no review, and crashes when there is one.
   */
  function Decide(review: Option<DateTime>, documents: DocumentEvidence, event: string): (r: Verdict)
    ensures r.TypeError? <==> review.Some? && documents.NavigationError?
    ensures r.Act? ==> r.next == EntityPendingDocumentation || r.next == TechnicianReview
    ensures review.None? ==>
              r == Act(if documents.NoDocumentDate? then EntityPendingDocumentation else TechnicianReview)
    ensures review.Some? && documents.NoDocumentDate? ==> r == Act(EntityPendingDocumentation)
  {
    match documents
    case NoDocumentDate => Act(EntityPendingDocumentation)
    case NavigationError => if review.Some? then TypeError else Act(TechnicianReview)
    case DocumentDate(d) =>
      if review.None? then Act(TechnicianReview)
      else if Before(d, review.value) then Act(EntityPendingDocumentation)
      else if Before(review.value, d) then Act(TechnicianReview)
      else if Contains(event, ComplementRequested) then Act(EntityPendingDocumentation)
      else Act(TechnicianReview)
  }

  /** With distinct instants the later side decides, whatever the history says. */
  lemma LaterActorDecides(review: DateTime, document: DateTime, event: string)
    requires review != document
    ensures Decide(Some(review), DocumentDate(document), event)
            == Act(if Before(review, document) then TechnicianReview else EntityPendingDocumentation)
  {
    BeforeIsStrictTotalOrder(review, document, review);
  }

  /** With equal instants a "Complementação Solicitada" event leaves the entity pending. */
  lemma TieBrokenByHistory(at: DateTime, event: string)
    ensures Decide(Some(at), DocumentDate(at), event)
            == Act(if Contains(event, ComplementRequested) then EntityPendingDocumentation else TechnicianReview)
  {
    BeforeIsStrictTotalOrder(at, at, at);
  }

  /** The history event matters only when the two instants coincide. */
  lemma EventOnlyBreaksTies(review: Option<DateTime>, documents: DocumentEvidence, e1: string, e2: string)
    requires !(review.Some? && documents.DocumentDate? && review.value == documents.date)
    ensures Decide(review, documents, e1) == Decide(review, documents, e2)
  {
    if review.Some? && documents.DocumentDate? {
      BeforeIsStrictTotalOrder(review.value, documents.date, review.value);
    }
  }

  /** A newer document never turns a "technician" verdict into an "entity" one. */
  lemma NewerDocumentKeepsTechnician(review: Option<DateTime>, d1: DateTime, d2: DateTime, event: string)
    requires NotAfter(d1, d2)
    requires Decide(review, DocumentDate(d1), event) == Act(TechnicianReview)
    ensures Decide(review, DocumentDate(d2), event) == Act(TechnicianReview)
  {
    if review.Some? {
      var t := review.value;
      BeforeIsStrictTotalOrder(t, d1, d2);
      BeforeIsStrictTotalOrder(d2, t, d1);
      BeforeIsStrictTotalOrder(d1, d2, t);
    }
  }

  /** A newer review never turns an "entity" verdict into a "technician" one. */
  lemma NewerReviewKeepsEntity(r1: DateTime, r2: DateTime, documents: DocumentEvidence, event: string)
    requires NotAfter(r1, r2)
    requires Decide(Some(r1), documents, event) == Act(EntityPendingDocumentation)
    ensures Decide(Some(r2), documents, event) == Act(EntityPendingDocumentation)
  {
    if documents.DocumentDate? {
      var d := documents.date;
      BeforeIsStrictTotalOrder(d, r1, r2);
      BeforeIsStrictTotalOrder(r2, d, r1);
      BeforeIsStrictTotalOrder(r1, r2, d);
    }
  }

  // ---------------------------------------------------------------------------
  // The pages and the row

  /** What the browser shows for one proposal id. */
  datatype Extraction =
    | ProposalNotFound
    | ProposalPages(reviews: ReviewPage, requirements: RequirementsPage)

  type Browser = string -> Extraction

  /** The verdict the two pages lead to. */
  function Judge(reviews: ReviewPage, requirements: RequirementsPage): Verdict {
    var req := SummariseRequirements(requirements);
    Decide(SummariseReviews(reviews).latest, req.latest, req.historyEvent)
  }

  /** A category's table on a readable requirements page. */
  function Table(requirements: RequirementsPage, c: Category): DocumentTable
    requires requirements.RequirementsTables?
  {
    match c
    case Certificates => requirements.certificates
    case Declarations => requirements.declarations
    case ExecutionProofs => requirements.executionProofs
    case Others => requirements.others
  }

  /** Every qualifying review row, on either review table, is dated strictly before `d`. */
  predicate ReviewsBefore(reviews: ReviewPage, d: DateTime) {
    reviews.ReviewTables? ==>
      var rows := reviews.proposalRows + reviews.planRows;
      forall i :: 0 <= i < |rows| && ReviewRowDate(rows[i]).Some? ==> Before(ReviewRowDate(rows[i]).value, d)
  }

  /** Every qualifying document row, in every readable category, is dated strictly before `d`. */
  predicate DocumentsBefore(requirements: RequirementsPage, d: DateTime)
    requires requirements.RequirementsTables?
  {
    forall c: Category, i ::
      Table(requirements, c).DocumentRows? && 0 <= i < |Table(requirements, c).rows|
      && DocumentRowDate(Table(requirements, c).rows[i]).Some?
      ==> Before(DocumentRowDate(Table(requirements, c).rows[i]).value, d)
  }

  /** The dates of the four categories, in the order the source lists them. */
  function CategoryDates(requirements: RequirementsPage): seq<Option<DateTime>>
    requires requirements.RequirementsTables?
  {
    [SummariseCategory(requirements.certificates, Certificates).latest,
     SummariseCategory(requirements.declarations, Declarations).latest,
     SummariseCategory(requirements.executionProofs, ExecutionProofs).latest,
     SummariseCategory(requirements.others, Others).latest]
  }

  /** The category at each position of `CategoryDates`. */
  function CategoryAt(j: nat): Category
    requires j < 4
  {
    if j == 0 then Certificates
    else if j == 1 then Declarations
    else if j == 2 then ExecutionProofs
    else Others
  }

  /** Where a category sits in `CategoryDates`. */
  function Position(c: Category): (j: nat)
    ensures j < 4 && CategoryAt(j) == c
  {
    match c
    case Certificates => 0
    case Declarations => 1
    case ExecutionProofs => 2
    case Others => 3
  }

  lemma CategoryDateIsTableDate(requirements: RequirementsPage, j: nat)
    requires requirements.RequirementsTables? && j < 4
    ensures CategoryDates(requirements)[j] == SummariseCategory(Table(requirements, CategoryAt(j)), CategoryAt(j)).latest
  {
    var dates := CategoryDates(requirements);
    if j == 0 {
      assert CategoryAt(j) == Certificates && Table(requirements, Certificates) == requirements.certificates;
      assert dates[0] == SummariseCategory(requirements.certificates, Certificates).latest;
    } else if j == 1 {
      assert CategoryAt(j) == Declarations && Table(requirements, Declarations) == requirements.declarations;
      assert dates[1] == SummariseCategory(requirements.declarations, Declarations).latest;
    } else if j == 2 {
      assert CategoryAt(j) == ExecutionProofs && Table(requirements, ExecutionProofs) == requirements.executionProofs;
      assert dates[2] == SummariseCategory(requirements.executionProofs, ExecutionProofs).latest;
    } else {
      assert CategoryAt(j) == Others && Table(requirements, Others) == requirements.others;
      assert dates[3] == SummariseCategory(requirements.others, Others).latest;
    }
  }

  /**
   * A qualifying document dated after every qualifying technician review
   * sends the proposal to the technician.
   */
  lemma NewerDocumentMeansTechnician(reviews: ReviewPage, requirements: RequirementsPage, c: Category, k: nat)
    requires requirements.RequirementsTables?
    requires Table(requirements, c).DocumentRows? && k < |Table(requirements, c).rows|
    requires DocumentRowDate(Table(requirements, c).rows[k]).Some?
    requires ReviewsBefore(reviews, DocumentRowDate(Table(requirements, c).rows[k]).value)
    ensures Judge(reviews, requirements) == Act(TechnicianReview)
  {
    var d := DocumentRowDate(Table(requirements, c).rows[k]).value;
    var rows := Table(requirements, c).rows;
    assert DocumentDates(rows)[k] == Some(d);
    var cat := SummariseCategory(Table(requirements, c), c).latest;
    assert cat.Some? && NotAfter(d, cat.value);
    CategoryDateIsTableDate(requirements, Position(c));
    var req := SummariseRequirements(requirements);
    assert req.latest.DocumentDate? && NotAfter(cat.value, req.latest.date);
    BeforeIsStrictTotalOrder(d, cat.value, req.latest.date);
    var latest := SummariseReviews(reviews).latest;
    if latest.Some? {
      var all := reviews.proposalRows + reviews.planRows;
      var i :| 0 <= i < |all| && ReviewRowDate(all[i]) == latest;
      BeforeIsStrictTotalOrder(latest.value, d, req.latest.date);
      LaterActorDecides(latest.value, req.latest.date, req.historyEvent);
    }
  }

  /**
   * A qualifying technician review dated after every qualifying document,
   * with the requirements tab reachable, leaves the entity pending.
   */
  lemma NewerReviewMeansEntity(reviews: ReviewPage, requirements: RequirementsPage, k: nat)
    requires reviews.ReviewTables? && k < |reviews.proposalRows + reviews.planRows|
    requires ReviewRowDate((reviews.proposalRows + reviews.planRows)[k]).Some?
    requires !requirements.RequirementsTabMissing?
    requires requirements.RequirementsTables? ==>
               DocumentsBefore(requirements, ReviewRowDate((reviews.proposalRows + reviews.planRows)[k]).value)
    ensures Judge(reviews, requirements) == Act(EntityPendingDocumentation)
  {
    var all := reviews.proposalRows + reviews.planRows;
    var t := ReviewRowDate(all[k]).value;
    var latest := SummariseReviews(reviews).latest;
    assert latest.Some? && NotAfter(t, latest.value);
    var req := SummariseRequirements(requirements);
    if req.latest.DocumentDate? {
      var c, i := DocumentDateFromRow(requirements);
      BeforeIsStrictTotalOrder(req.latest.date, t, latest.value);
      LaterActorDecides(latest.value, req.latest.date, req.historyEvent);
    }
  }

  /** A category's date is the date of one of its qualifying rows. */
  lemma CategoryDateFromRow(table: DocumentTable, c: Category) returns (i: nat)
    requires SummariseCategory(table, c).latest.Some?
    ensures table.DocumentRows? && i < |table.rows|
    ensures DocumentRowDate(table.rows[i]) == SummariseCategory(table, c).latest
  {
    var dates := DocumentDates(table.rows);
    var n :| 0 <= n < |dates| && dates[n] == SummariseCategory(table, c).latest;
    i := n;
  }

  /** Each of the four category dates is the date of a qualifying row of that category. */
  lemma CategoryDatesFromRows(requirements: RequirementsPage, j: nat) returns (c: Category, i: nat)
    requires requirements.RequirementsTables? && j < 4 && CategoryDates(requirements)[j].Some?
    ensures Table(requirements, c).DocumentRows? && i < |Table(requirements, c).rows|
    ensures DocumentRowDate(Table(requirements, c).rows[i]) == CategoryDates(requirements)[j]
  {
    c := CategoryAt(j);
    CategoryDateIsTableDate(requirements, j);
    i := CategoryDateFromRow(Table(requirements, c), c);
  }

  /** A document date on the requirements page is the date of some qualifying row of some category. */
  lemma DocumentDateFromRow(requirements: RequirementsPage) returns (c: Category, i: nat)
    requires SummariseRequirements(requirements).latest.DocumentDate?
    ensures requirements.RequirementsTables?
    ensures Table(requirements, c).DocumentRows? && i < |Table(requirements, c).rows|
    ensures DocumentRowDate(Table(requirements, c).rows[i]) == Some(SummariseRequirements(requirements).latest.date)
  {
    var d := SummariseRequirements(requirements).latest.date;
    assert requirements.RequirementsTables?;
    var dates := CategoryDates(requirements);
    var j :| 0 <= j < 4 && dates[j] == Some(d);
    c, i := CategoryDatesFromRows(requirements, j);
  }

  // ---------------------------------------------------------------------------
  // Filling one row

  /** Written over four columns when the situational shortcut decides. */
  const ShortcutMarker := "N/A (Definido pelo Situacional)"

  /** The row with its action, or the exception that escaped the row filler. */
  datatype Filling = Filled(row: OutRow) | Crashed

  /** The columns `preencher_linha` never writes. */
  predicate KeepsRosterColumns(before: OutRow, after: OutRow) {
    && after.proposal == before.proposal
    && after.instrument == before.instrument
    && after.technician == before.technician
    && after.pendingFactor == before.pendingFactor
    && after.situational == before.situational
  }

  /**
   * `preencher_linha` for one row and the proposal id the caller read from it.
   * The shortcut writes its label and the marker and never opens a page; a
   * proposal the search cannot find gets "Instrumento não encontrado" and
   * nothing else; otherwise eight evidence columns and the verdict's label
   * are written, unless the comparison crashes.
   */
  function FillRow(row: OutRow, proposal: string, browser: Browser): (r: Filling)
    ensures r.Crashed? <==>
              && Shortcut(row.situational).None?
              && browser(proposal).ProposalPages?
              && Judge(browser(proposal).reviews, browser(proposal).requirements).TypeError?
    ensures r.Filled? ==> KeepsRosterColumns(row, r.row) && !IsBlank(r.row.action)
    ensures Shortcut(row.situational).Some? ==>
              && r.Filled?
              && r.row.action == LabelText(Shortcut(row.situational).value)
              && r.row.proposalReviews == ShortcutMarker && r.row.certificates == ShortcutMarker
              && r.row.declarations == ShortcutMarker && r.row.historyDate == ShortcutMarker
              && r.row.planReviews == row.planReviews && r.row.executionProofs == row.executionProofs
              && r.row.others == row.others && r.row.historyEvent == row.historyEvent
    ensures Shortcut(row.situational).None? && browser(proposal).ProposalNotFound? ==>
              r == Filled(row.(action := LabelText(InstrumentNotFound)))
    ensures Shortcut(row.situational).None? && browser(proposal).ProposalPages? && r.Filled? ==>
              var reviews := SummariseReviews(browser(proposal).reviews);
              var req := SummariseRequirements(browser(proposal).requirements);
              && r.row.action == LabelText(Judge(browser(proposal).reviews, browser(proposal).requirements).next)
              && r.row.proposalReviews == reviews.proposalText && r.row.planReviews == reviews.planText
              && r.row.certificates == req.certificates && r.row.declarations == req.declarations
              && r.row.executionProofs == req.executionProofs && r.row.others == req.others
              && r.row.historyDate == req.historyDate && r.row.historyEvent == req.historyEvent
  {
    match Shortcut(row.situational)
    case Some(l) =>
      Filled(row.(action := LabelText(l),
                  proposalReviews := ShortcutMarker, certificates := ShortcutMarker,
                  declarations := ShortcutMarker, historyDate := ShortcutMarker))
    case None =>
      match browser(proposal)
      case ProposalNotFound => Filled(row.(action := LabelText(InstrumentNotFound)))
      case ProposalPages(reviewPage, requirementsPage) =>
        var reviews := SummariseReviews(reviewPage);
        var req := SummariseRequirements(requirementsPage);
        match Decide(reviews.latest, req.latest, req.historyEvent)
        case TypeError => Crashed
        case Act(l) =>
          Filled(row.(proposalReviews := reviews.proposalText, planReviews := reviews.planText,
                      certificates := req.certificates, declarations := req.declarations,
                      executionProofs := req.executionProofs, others := req.others,
                      historyDate := req.historyDate, historyEvent := req.historyEvent,
                      action := LabelText(l)))
  }

  /** A row the situational status decides is filled the same way whatever the browser shows. */
  lemma ShortcutIgnoresBrowser(row: OutRow, proposal: string, b1: Browser, b2: Browser)
    requires Shortcut(row.situational).Some?
    ensures FillRow(row, proposal, b1) == FillRow(row, proposal, b2)
  {
  }

  /**
   * The row filler crashes only on a proposal that has a qualifying
   * technician review while its requirements tab could not be opened.
   */
  lemma CrashNeedsReviewAndMissingTab(row: OutRow, proposal: string, browser: Browser)
    ensures FillRow(row, proposal, browser).Crashed? <==>
              && Shortcut(row.situational).None?
              && browser(proposal).ProposalPages?
              && SummariseReviews(browser(proposal).reviews).latest.Some?
              && browser(proposal).requirements.RequirementsTabMissing?
  {
    if Shortcut(row.situational).None? && browser(proposal).ProposalPages? {
      var req := SummariseRequirements(browser(proposal).requirements);
      assert req.latest.NavigationError? <==> browser(proposal).requirements.RequirementsTabMissing?;
    }
  }
}
