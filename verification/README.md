# Proposal-analysis robot: decision core in Dafny

`Parecer-Requisitos.py` is a robot that works through a spreadsheet of
partnership proposals. For each proposal it opens the federal transfer
portal and reads two things: the dates of the technicians' reviews, and the
dates of the documents the entity uploaded. From those dates it decides the
next action ("Ação Necessária (Automação)") and writes it to an output
spreadsheet. This project models the decision pipeline inside the robot,
with the browser and the files treated as values:

- `Timestamp` — `extrair_data`:
  - the four `strptime` layouts, tried in order;
  - the canonical `dd/mm/YYYY HH:MM:SS` rendering;
  - calendar validity and the chronological order of instants.
- `Evidence` — the aggregation in `verificar_pareceres` and
  `verificar_requisitos`:
  - review rows count only when the responsible is an allow-listed
    technician;
  - document rows count only when the file name carries no ignored word;
  - each table yields its maximum date, and the four document categories
    yield an overall maximum;
  - the texts written into the row, including the error and "nothing found"
    texts.
- `Decision` — `preencher_linha`:
  - the situational shortcut over four status lists;
  - the presence/comparison matrix on the latest review date and the latest
    document date;
  - the tie-break on the history event;
  - the columns written;
  - the crash that happens when the requirements tab cannot be opened but a
    review date exists.
- `Roster` — `ler_entrada_excel` and the instrument filter:
  - rows without an id are dropped;
  - the first row of each id is kept;
  - the 14 output columns are built;
  - a case-insensitive instrument filter is applied, and an empty filter
    means "Todos".
- `Batch` — `ler_checkpoint` / `salvar_checkpoint` and the two drivers:
  - `rodar_processamento_completo` resumes at the checkpoint, saves the
    checkpoint after each row and the table every tenth row, then writes
    the table and removes the checkpoint at the end;
  - `reprocessar_falhas` refills the rows whose action is blank and saves
    after each one.
- `Wrappers`, `Sequences`, `Text` are support modules:
  - `Option`;
  - subsequences and `Map`;
  - Python's `strip`, `lower` and substring `in`.

The browser is a function `Browser = string -> Extraction` from the
stripped proposal id to what the pages show:

- `ProposalNotFound` when `navegar_menu_principal` fails;
- otherwise the review tables and the requirements page, each with its own
  failure cases.

The input spreadsheet is an optional `Sheet` (`None` when it cannot be
read). The output file and the checkpoint file are fields of a `Files`
value that the drivers return updated.

## Behaviour worth knowing

- When the requirements tab cannot be opened, `verificar_requisitos` puts
  the truthy string "Erro de Navegação" in the date slot:
  - with no review date this yields "Técnico Analisar";
  - with a review date, the comparison on line 526 raises `TypeError`,
    which nothing catches, so the run stops at that row.

  The model makes this crash an explicit outcome (`Verdict.TypeError`,
  `Filling.Crashed`, `Outcome.crashedAt`).
- The full run writes the checkpoint `idx + 1` before it saves the table on
  a tenth row. A resumed run re-reads the input spreadsheet, so the rows
  before the checkpoint carry their input values, not the values from the
  interrupted run.
- The failure run filters without re-indexing and writes back only the
  filtered table, so rows of other instruments disappear from the output
  file. The model numbers the filtered rows by position; pandas keeps their
  original labels, which address the same rows.

## Model

| member | source | states |
|---|---|---|
| Timestamp.BeforeIsStrictTotalOrder | Parecer-Requisitos.py:526-528 | the comparison of instants is irreflexive, asymmetric, transitive and total, so "later", "earlier" and "equal" are exclusive and exhaustive |
| Timestamp.PadValue | Parecer-Requisitos.py:132 | a number below 10^width, zero-padded to that width, reads back as the same number |
| Timestamp.PadDigitsValue | Parecer-Requisitos.py:131 | a digit string is the zero-padded rendering of its own value, so a scanned field renders back to the same characters |
| Timestamp.ScanRender | Parecer-Requisitos.py:131-132 | scanning a layout's rendering of fitting field values gives back exactly those values |
| Timestamp.ScanSound | Parecer-Requisitos.py:131 | whatever a layout scan accepts is the rendering of the values it returns, and those values fit their field widths |
| Timestamp.TokensShape | Parecer-Requisitos.py:128 | the two date-time layouts have six fields and 19 characters; the two date-only layouts have three fields and 10 characters |
| Timestamp.ParseTimestamp | Parecer-Requisitos.py:126-136 | empty text is rejected, and every accepted text denotes a valid calendar instant |
| Timestamp.ExtractDate | Parecer-Requisitos.py:116-136 | a value is returned exactly when the text parses; the instant is the parsed one; the text returned is the instant's canonical `dd/mm/YYYY HH:MM:SS` rendering and parses back to that same instant |
| Timestamp.ParseWithSound | Parecer-Requisitos.py:131-132 | a text accepted by one layout is a valid instant written in that layout, at midnight when the layout has no time |
| Timestamp.LayoutsExclusive | Parecer-Requisitos.py:128-134 | no text is accepted by two different layouts, so the order in which the layouts are tried never changes the result |
| Timestamp.ParseTimestampFrom | Parecer-Requisitos.py:128-134 | when some layout accepts a text, the parser's result is that layout's result |
| Timestamp.ParseRendered | Parecer-Requisitos.py:128-134 | any valid instant written in any of the four layouts parses back to that instant, truncated to midnight for the date-only layouts |
| Timestamp.ParseCanonical | Parecer-Requisitos.py:133 | the canonical `dd/mm/YYYY HH:MM:SS` text of a valid instant parses back to the same instant |
| Timestamp.ParseTimestampSound | Parecer-Requisitos.py:128-136 | every accepted text is its instant written in one of the four layouts, and that instant is at midnight when the layout is date-only |
| Timestamp.DateOnlyIsMidnight | Parecer-Requisitos.py:128-132 | an accepted 10-character text, i.e. a date without a time, yields 00:00:00 |
| Text.Strip | Parecer-Requisitos.py:243-244 | the result occurs in the input with nothing but white space before and after it, neither starts nor ends with white space, and is empty exactly when the input is all white space |
| Text.StripUnique | Parecer-Requisitos.py:243-244 | any piece of the input with only white space around it and none at its own ends is the stripped text, so `Strip` is determined by that description |
| Evidence.Latest | Parecer-Requisitos.py:274-276 | the maximum of the present dates: absent exactly when none is present, otherwise one of them and not before any of them |
| Evidence.LatestAppend | Parecer-Requisitos.py:375-376 | the maximum over a concatenation is the later of the two parts' maxima |
| Evidence.LatestIgnoresAbsent | Parecer-Requisitos.py:375 | an absent date anywhere in the list does not change the maximum |
| Evidence.ReviewRowDate | Parecer-Requisitos.py:240-249 | a review row contributes a date exactly when it has at least three cells, an allow-listed technician in the third and a parseable stripped date in the first |
| Evidence.LatestReview | Parecer-Requisitos.py:233-276 | the latest review date is absent exactly when no row qualifies; otherwise it is the date of a qualifying row and no qualifying row is later |
| Evidence.NonTechnicianRowIgnored | Parecer-Requisitos.py:246 | inserting a row whose responsible is not allow-listed, however late its date, never changes the latest review date |
| Evidence.SummariseReviews | Parecer-Requisitos.py:226-291 | a failed read gives the error texts and no date; otherwise the date is the latest over both tables, the plan text is always "Nenhum parecer localizado", and the proposal text is that marker when no date was found and otherwise the `dd/mm/YYYY HH:MM:SS` text of the date (line 277), which parses back to it |
| Evidence.DocumentRowDate | Parecer-Requisitos.py:333-342 | a document row contributes a date exactly when it has at least two cells, its lowered stripped name carries no ignored word, and its stripped date parses |
| Evidence.IgnoredFileIgnored | Parecer-Requisitos.py:323-340 | inserting a file whose name carries an ignored word never changes its category's latest date |
| Evidence.SummariseCategory | Parecer-Requisitos.py:328-351 | a failed table gives "Erro ao extrair <categoria>"; otherwise the date is the latest over the qualifying rows; the text is "Nenhum(a) <categoria> localizado(a)" when there is none and otherwise the `dd/mm/YYYY HH:MM:SS` text of the date (line 346), which parses back to it |
| Evidence.HistoryTexts | Parecer-Requisitos.py:363-372 | an unreadable event gives two empty texts; otherwise the event is stripped, and the date text is non-empty exactly when the date cell was read and its stripped text parses, in which case it is the canonical text of that instant and re-parses to it |
| Evidence.SummariseRequirements | Parecer-Requisitos.py:306-382 | a missing tab gives the navigation error and empty texts; any other failure gives no date and "Erro" everywhere; on a readable page the overall date is absent exactly when all four categories are, is one of them and is no earlier than any present one, the four category texts are the categories' summaries, and the history texts are those of the first history row |
| Roster.DeduplicateShape | Parecer-Requisitos.py:437-438 | every kept row has a non-blank id, no id is kept twice, and the kept rows are drawn from the input as an in-order selection of values |
| Roster.DeduplicateKeepsEveryId | Parecer-Requisitos.py:437-438 | every non-blank id of the input survives cleaning |
| Roster.DeduplicateKeepsFirst | Parecer-Requisitos.py:437-438 | the k-th kept row is the input row at the k-th position whose id is non-blank and carried by no earlier row: first occurrences only, all of them, in input order |
| Roster.FirstPositions | Parecer-Requisitos.py:437-438 | the increasing list of exactly the positions whose id is non-blank and carried by no earlier row |
| Roster.DuplicateExample | Parecer-Requisitos.py:438 | on a concrete input where the first and third rows share an id, the first and second rows are kept |
| Roster.ToOutRow | Parecer-Requisitos.py:442-459 | an output row has exactly the 14 output columns, each holding the input cell of the same name, or `''` when the column or cell is missing |
| Roster.ReadRoster | Parecer-Requisitos.py:428-459 | the roster is read exactly when both required columns exist, and it is the cleaned rows, in order, shaped into output rows |
| Roster.RosterIdsUnique | Parecer-Requisitos.py:437-438 | every roster row has a non-blank id and no two roster rows share one |
| Roster.FilterByInstrument | Parecer-Requisitos.py:568-569 | "todos" in any case keeps the table; otherwise the k-th kept row is the table row at the k-th position whose lowered instrument equals the lowered filter, so exactly the matching positions are kept, duplicates included, in order |
| Roster.KeepMatchingSpec | Parecer-Requisitos.py:569 | the instrument selection is an in-order selection of values, holds only matching rows and every matching value, and keeps everything when all rows match |
| Roster.MatchingPositions | Parecer-Requisitos.py:569 | the increasing list of exactly the positions whose lowered instrument equals the lowered filter |
| Roster.KeepMatchingPositions | Parecer-Requisitos.py:569 | the k-th kept row is the table row at the k-th matching position, so the selection is the boolean mask's, duplicates included |
| Roster.FilterIdempotent | Parecer-Requisitos.py:568-569 | filtering an already filtered table changes nothing |
| Roster.FilterKeepsMatchingTable | Parecer-Requisitos.py:568-569 | a table whose rows all match the filter passes through it unchanged |
| Roster.LowerTodos | Parecer-Requisitos.py:568 | the default "Todos" is recognised as the keep-everything filter |
| Roster.EffectiveFilter | Parecer-Requisitos.py:689-691 | a blank typed filter selects everything; any other is used stripped |
| Decision.LabelText | Parecer-Requisitos.py:498-540 | no action label is blank |
| Decision.LabelTextInjective | Parecer-Requisitos.py:498-540 | distinct labels have distinct texts |
| Decision.StatusListsDisjoint | Parecer-Requisitos.py:483-492 | the four situational status lists share no entry, so the order they are checked in never matters |
| Decision.Shortcut | Parecer-Requisitos.py:494-504 | each shortcut label is chosen exactly when the stripped situational status is in that label's list, and the shortcut yields no other label |
| Decision.Decide | Parecer-Requisitos.py:525-540 | comparing a review date with the navigation-error string is the crash, and nothing else crashes; every other verdict is "Entidade Pendência de Documentação" or "Técnico Analisar"; with no review, documents (or the error string) mean "Técnico Analisar" and nothing means "Entidade Pendência de Documentação"; a review with no documents means "Entidade Pendência de Documentação" |
| Decision.LaterActorDecides | Parecer-Requisitos.py:525-529 | with both dates present and different, a later document means "Técnico Analisar" and a later review means "Entidade Pendência de Documentação" |
| Decision.TieBrokenByHistory | Parecer-Requisitos.py:530-534 | on equal dates the action is "Entidade Pendência de Documentação" exactly when the history event contains "Complementação Solicitada" |
| Decision.EventOnlyBreaksTies | Parecer-Requisitos.py:525-540 | outside a tie, the history event has no influence on the verdict |
| Decision.NewerDocumentKeepsTechnician | Parecer-Requisitos.py:525-540 | a "Técnico Analisar" verdict survives a later document date |
| Decision.NewerReviewKeepsEntity | Parecer-Requisitos.py:525-540 | an "Entidade Pendência de Documentação" verdict survives a later review date |
| Decision.CategoryDateIsTableDate | Parecer-Requisitos.py:354-361 | each of the four category dates is the summary of that category's table |
| Decision.CategoryDateFromRow | Parecer-Requisitos.py:341-348 | a category date that is present comes from a qualifying row of that category's table |
| Decision.CategoryDatesFromRows | Parecer-Requisitos.py:354-376 | each present category date is the date of a qualifying document row of some category |
| Decision.DocumentDateFromRow | Parecer-Requisitos.py:375-376 | an overall document date is the date of a qualifying document row of some category |
| Decision.NewerDocumentMeansTechnician | Parecer-Requisitos.py:519-540 | when some qualifying document is strictly later than every qualifying review, the verdict is "Técnico Analisar", whatever the history says |
| Decision.NewerReviewMeansEntity | Parecer-Requisitos.py:519-540 | when the requirements tab opens and some qualifying review is strictly later than every qualifying document, the verdict is "Entidade Pendência de Documentação" |
| Decision.FillRow | Parecer-Requisitos.py:494-553 | crash exactly on the TypeError path; a filled row keeps the roster columns and gets a non-blank action; a shortcut writes its label and the marker into the four line-510 columns and leaves the other columns alone; a missing proposal writes only "Instrumento não encontrado"; otherwise the verdict and the eight extracted texts are written |
| Decision.ShortcutIgnoresBrowser | Parecer-Requisitos.py:506-512 | when the shortcut applies, what the browser would show makes no difference |
| Decision.CrashNeedsReviewAndMissingTab | Parecer-Requisitos.py:525-526 | filling crashes exactly when there is no shortcut, the proposal is found, some review date exists, and the requirements tab could not be opened |
| Batch.CheckpointRoundTrip | Parecer-Requisitos.py:388-403 | a saved checkpoint reads back as the index saved |
| Batch.Upto | Parecer-Requisitos.py:583-585 | the visited indices from a start are increasing, below the row count, not below the start, and include every index from the start on |
| Batch.BlankActions | Parecer-Requisitos.py:636 | the retry list is increasing and holds exactly the rows whose stripped action is empty |
| Batch.ProcessVisits | Parecer-Requisitos.py:583-595 | the loop fills rows in increasing order and only rows from its list |
| Batch.ProcessEligible | Parecer-Requisitos.py:590-593 | every filled row has a non-blank proposal id |
| Batch.ProcessCrash | Parecer-Requisitos.py:595 | a crash happens at a listed row with an id whose filling crashes, after only rows before it were filled |
| Batch.ProcessCompletes | Parecer-Requisitos.py:583-595 | every listed row with an id, before any crash, is filled |
| Batch.ProcessKeeps | Parecer-Requisitos.py:583-595 | rows the loop does not fill keep their values |
| Batch.ProcessFills | Parecer-Requisitos.py:595 | each filled row holds what `preencher_linha` made of the row as it was |
| Batch.ProcessCheckpoint | Parecer-Requisitos.py:605 | without a fill nothing is written; the failure run never touches the checkpoint; the full run leaves the checkpoint at one past the last filled row |
| Batch.ProcessSaves | Parecer-Requisitos.py:605-608 | when the last fill was saved (always in the failure run; on a tenth row in the full run) the output file holds the final table |
| Batch.ProcessSkipsSave | Parecer-Requisitos.py:607-608 | a full-run loop that fills no tenth row leaves the output file alone |
| Batch.ProcessSkipsAll | Parecer-Requisitos.py:590-593 | a loop over rows without ids changes nothing |
| Batch.FilteredRosterHasIds | Parecer-Requisitos.py:568-569 | every row of the filtered roster has an id |
| Batch.ResumeSucceeds | Parecer-Requisitos.py:576-595 | a resumed loop that does not crash fills every row from the checkpoint on and leaves the rows before it unchanged |
| Batch.ResumeCrashes | Parecer-Requisitos.py:583-595 | a resumed loop that crashes stops at a row at or after the checkpoint whose filling crashes, having filled every row from the checkpoint up to it and none beyond |
| Batch.ResumeAfterCrash | Parecer-Requisitos.py:605 | after a crash the checkpoint points at the row that crashed, so the next run resumes there |
| Batch.CompleteRun | Parecer-Requisitos.py:572-617 | empty table: nothing happens. Success: the checkpoint is removed, and the output holds the table with every row from the checkpoint on filled and earlier rows as read. Crash: it happens at the first row at or after the checkpoint that the filler crashes on; the rows filled are exactly the rows from the checkpoint up to it, in order, each filled successfully; the checkpoint now points at it; with no tenth row filled the output file is untouched |
| Batch.RunComplete | Parecer-Requisitos.py:556-617 | an unreadable input does nothing; otherwise the filtered roster is processed with the outcomes of `CompleteRun` (including the first-crash clause), driving `preencher_linha` through the browser |
| Batch.CrashResumePoint | Parecer-Requisitos.py:583-605 | when the rows filled are exactly the rows from the start up to the crash, the saved next index equals the crash row |
| Batch.RetryRun | Parecer-Requisitos.py:636-657 | the checkpoint is untouched; rows are filled in increasing index order, and only rows with a blank action and an id; a crash is at such a row, after every earlier such row was filled and before any later one; without a crash all such rows are filled; after any fill the output holds the table with exactly those rows replaced by their fillings |
| Batch.RetryFailures | Parecer-Requisitos.py:620-657 | without an output file nothing happens; otherwise the failure run works on the filtered output table with the outcomes of `RetryRun`, fill order and crash point included |
| Batch.FilledTablePassesFilter | Parecer-Requisitos.py:632-633 | a table whose instruments are unchanged from a filtered table passes the same filter unchanged |
| Batch.RowFillerKeepsRoster | Parecer-Requisitos.py:509-551 | the browser-driven filler keeps id and instrument and writes a non-blank action |
| Batch.RetryRunSettles | Parecer-Requisitos.py:636-655 | after a failure run without a crash, every row left with a blank action lacks an id, and instruments are unchanged |
| Batch.RetryIsIdempotent | Parecer-Requisitos.py:620-657 | a second failure run right after one that did not crash fills nothing and leaves the files as they were, whatever the browser shows |
| Batch.NothingLeftToRetry | Parecer-Requisitos.py:636-640 | when every blank-action row of the filtered table lacks an id, the failure run fills nothing and writes nothing |

## Left out

- Browser connection, navigation, waits and page reading (`conectar_navegador_existente`, `esperar_elemento*`, `navegar_menu_principal`, the BeautifulSoup/XPath traversal): replaced by the `Browser` function and by sequences of cell texts per table row.
- Excel and JSON file I/O, including write failures (`salvar_resultado` and `salvar_checkpoint` catching `IOError`), and `FileNotFoundError`: the files are values, and every write is modelled as succeeding.
- Checkpoint files the model does not represent. A JSON value that is not an object makes `.get` on line 393 raise. An `ultimo_indice` that is a string, `null`, a list or an object makes the comparison on line 583 raise on the first row. A float or a boolean compares fine and the run resumes at the first row index not below it (2.5 resumes at row 3, `true` at row 1). The model reads only missing and unreadable files and an integer or absent `ultimo_indice`.
- pandas' conversion of strings such as "N/A" or "NULL" to missing values on read: a cell is either present with its text or missing.
- Timing, the ETA arithmetic and every `print`: wall-clock and floating point only.
- The interactive menu in `main`: only the empty-filter default (`Roster.EffectiveFilter`) is modelled.
- Timestamp.ParseTimestamp: rejects some texts `strptime` accepts. Fields that are not zero-padded, a run of white space (two spaces, a tab, a newline, U+00A0) where the format has its single space, and non-ASCII decimal digits are all refused; each layout accepts exactly its zero-padded ASCII form with one space.
- Timestamp.ParseCanonical: `Canonical` always writes the year with four digits. CPython's `strftime('%Y')` does not zero-pad years below 1000 on every platform, and `strptime`'s `%Y` then refuses the shorter text, so for such years the round trip holds in the model but may fail in Python.
- Evidence.HistoryTexts: an unparseable history date is the empty text, where Python keeps `None` in the table; both are written to the output file as an empty cell.
- Roster.DeduplicateShape: states order as an in-order selection of values; the position-exact statement is `Roster.DeduplicateKeepsFirst`.
- Roster.KeepMatchingSpec: states the selection by value; the position-exact statement is `Roster.KeepMatchingPositions`, used by `Roster.FilterByInstrument`.
- Text.LowerChar: lowers ASCII and Latin-1 capitals only; Python's full Unicode case mapping is not modelled.
- Batch.CompleteRun: after a crash that follows a saved tenth row, the contract does not say what the periodically saved table holds, only that the checkpoint points at the crashed row; the same holds for Batch.RunComplete.
- Which Selenium errors reach the `Exception` handlers is not modelled. A review table that fails part-way (lines 251, 270) is represented by the rows read before the failure. A failed category table (line 350) and an unreadable history (line 371) are the failure variants of the page datatypes.
