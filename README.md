# gestantes_aps — a verified model of the alert engine and the case API

gestantes_aps follows pregnant women (*gestantes*) in primary care. Each
case is a row of a Google Sheets tab, and a second tab holds the
*alertas* derived from the cases. The model covers these parts:

- **The sheet adapter (`Sheets`).** It models the 35 case columns and the
  A1 column labels. It reads a grid into records, one per data row, keyed
  by the header. It finds a row by its key cell. `Sheets.Tab` is a class
  holding a tab's grid and the read-through cache with its time-to-live.
  Its methods serve a cached read, append a row, or overwrite a row found
  by key, and each write empties the cache.
- **The risk rules (`AlertRules`).** These are the text coercions of the
  alert module, the red/yellow/green traffic light `risk_color`, and the
  rule set of alerts that must be open for a case.
- **The reconciler (`Reconciler`, `ReconcilerTab`).** This is
  `upsert_alerts_for_gestante`. Step 1 appends an open alert for each
  required type that has no open row for the case. Step 2 walks the rows
  read at the start and closes, by `alerta_id`, the rows of the case
  whose type is no longer required or is resolved. `Reconciler.Reconciled`
  is the specification of the run, on values. `ReconcilerTab.UpsertAlerts`
  runs it imperatively against an alert `Tab`.
- **The alert queries (`AlertQueries`, `AlertQueriesTab`).** These are
  the open-alert count per case id and the per-type summary
  `resumen_alertas` over a date window.
- **The claims script (`Claims`).** These are `normalize_role` and
  `normalize_municipios`.
- **The API handlers (`Api`, `ApiTabs`).** They cover the following:
  - `clean_env` and `get_allowed_origins`.
  - The `listar_gestantes` filters, pagination and enrichment:
    - the territory scope
    - the capture-date window
    - the document/name search
    - the 1-based pages
    - the traffic light and the open-alert count of each row
  - The `crear_gestante` checks:
    - the territory (403)
    - the required fields, the age range and the gestational-age range (400)
    - the audit defaults
    - date trimming and date order (400)
  - The `actualizar_gestante` lookup (404 and 403), the merge and the
    write (500 when no row matches).
  - The `api_list_alertas` filter.

The Python values the code handles are modelled as follows:

- A record is a `map<string, string>`.
- Text is `seq<char>`.
- `str.strip`, `split` and `str(int)` are written out in `Text`.
  `lower`/`upper` are written out for ASCII and Latin-1 letters only, and
  `int()` for ASCII digits only (see "## Left out").
- Dates are parsed by a parameter of type `string -> Option<int>`: an
  ordered value, or nothing when the text does not parse.
- The clock (`time.time()` in milliseconds and seconds, and the ISO
  timestamp) is a `Clock` value passed in.

Behaviours of the code worth knowing, which the model follows:

- The reconciler selects the case's alerts by comparing the raw
  `gestante_id` cell with the stripped case id. The open-alert count
  strips the cell.
- A red case need not require any alert (for example a minor with no
  other condition). The yellow traffic light
  fires on one access barrier, while the `BARRERAS_ACCESO` alert needs
  two non-empty ones.
- A missing or non-numeric age reads as 0, so such a case is red.
- The type-specific closing predicates never close anything the
  rule set still requires (`Reconciler.ResolvedNotRequired`).
- `actualizar_gestante` checks the territory of the stored case only.
  A caller may therefore move a case of its own territory into another
  territory (`Api.EditMayMoveTerritory`).
- The handlers drop the status of the reconciliation. A failed
  reconciliation therefore never changes the reported outcome of the
  case write.

## Model

| member | source | states |
|---|---|---|
| Text.Trim | app/main.py:48 | `strip(chars)` cuts out an infix; everything cut from either end is a dropped character, and the result neither starts nor ends with one |
| Text.StripIdempotent | app/alerts.py:143 | a stripped string has no surrounding whitespace and stripping it again changes nothing |
| Text.UpperKeepsShape | app/main.py:195 | upper-casing is idempotent and keeps a stripped string stripped |
| Text.Split | app/main.py:56 | `split(sep)` yields at least one piece and no piece holds the separator |
| Text.SplitJoin | app/main.py:56 | splitting a join of separator-free pieces gives the pieces back |
| Text.JoinSplit | app/main.py:56 | joining the pieces of a split gives the original text back |
| Text.KeepStripped | app/main.py:56 | the kept entries are no more than the input, each non-empty and stripped |
| Text.KeepStrippedExactly | app/main.py:56 | a text is kept exactly when it is non-empty and is the strip of some input entry |
| Text.KeepStrippedConcat | app/main.py:56 | keeping stripped entries of two lists one after the other is keeping those of each, in order |
| Text.SplitStripped | app/alerts.py:134-135 | the trimmed non-empty fields of a separated list are non-empty, stripped and free of the separator, and a text is among them exactly when it is non-empty and the strip of some field |
| Text.SplitStrippedJoin | app/alerts.py:134-135 | a list of non-empty, stripped, separator-free fields joined with the separator parses back to itself |
| Text.NatToString | app/alerts.py:220 | `str(n)` of a natural number is a non-empty string of digits |
| Text.NatToStringValue | app/alerts.py:220 | the digits of `str(n)` are valid and denote `n` |
| Text.IntRoundTrip | app/alerts.py:142-144 | `int(str(n).strip()) == n` for every integer |
| Sheets.ColIdxToA1 | app/sheets.py:161-167 | the loop peeling one base-26 letter per turn computes the bijective base-26 label of the column number |
| Sheets.A1ColumnDecodes | app/sheets.py:161-167 | every positive column number gets a letters-only label that decodes back to the number |
| Sheets.A1ColumnOnto | app/sheets.py:161-167 | every label is the label of its own number, so labels and positive numbers correspond one to one |
| Sheets.HeadersDistinct | app/sheets.py:11-48 | no case column name repeats |
| Sheets.A1RangeRoundTrip | app/sheets.py:100-102 | the tab name, with its quotes doubled, and the range can be read back out of the A1 reference |
| Sheets.RowToRecord | app/sheets.py:202-204 | a row read under a header has exactly the header names as keys |
| Sheets.RowToRecordAt | app/sheets.py:202-204 | the value under a header is the cell in that header's last column, "" when the row is short |
| Sheets.ProjectOwnColumns | app/main.py:348 | a record already on exactly those columns is its own projection |
| Sheets.RowValuesRoundTrip | app/sheets.py:202-212 | a record written in header order reads back as its projection on the headers |
| Sheets.IndexOf | app/sheets.py:124-127 | `list.index` finds the first position holding the value, and fails exactly when the value is absent |
| Sheets.KeyRowFrom | app/sheets.py:128-131 | the scan from a row on returns the first row holding the key, and none only when no later row does |
| Sheets.FirstKeyRow | app/sheets.py:113-131 | the 1-based row (at least 2) of the first data row whose key cell matches; none exactly for an empty grid, a missing key column or no match |
| Sheets.FindRowIndexById | app/sheets.py:113-131 | the top-to-bottom scan returns the row `FirstKeyRow` specifies |
| Sheets.RecordsAfterOverwrite | app/sheets.py:228-233 | overwriting row `k` with a full-width row changes record `k - 1` and nothing else, header included |
| Sheets.Tab.constructor | app/sheets.py:172-173 | a tab starts with its header row and an empty cache stamped 0 |
| Sheets.Tab.ReadAll | app/sheets.py:185-206 | the cache is served without a remote read iff it is non-empty and younger than the TTL, otherwise refreshed with one read; the caller always gets the grid's records and the grid is unchanged |
| Sheets.Tab.AppendRow | app/sheets.py:209-218 | the record's values in header order become the new last row, exactly one record is added, and the cache is emptied |
| Sheets.Tab.UpdateRowById | app/sheets.py:220-233 | with no row for the key nothing changes (the source raises); otherwise the first matching row's leading cells are overwritten, only its record changes, and the cache is emptied |
| AlertRules.ToIntMeaning | app/alerts.py:142-144 | numbers written as text read back as themselves; a missing field or a non-number reads as 0 |
| AlertRules.ParseMulti | app/alerts.py:134-135 | the entries of a `;` list are non-empty, stripped and free of `;`, and a text is an entry exactly when it is non-empty and the strip of some `;`-separated field |
| AlertRules.ParseMultiJoin | app/alerts.py:134-135 | a list written with `;` between well-formed entries parses back to itself |
| AlertRules.NonEmpty | app/alerts.py:189 | `[b for b in xs if b]` keeps exactly the non-empty entries |
| AlertRules.MissingAgeIsRed | app/alerts.py:137-164 | a case whose age is missing or not a number reads as age 0 and is red |
| AlertRules.RiskColor | app/alerts.py:146-172 | an age under 18 makes the case red; a case with any required alert is not green; no required alert is more urgent than the colour |
| AlertRules.AgeReadsZero | app/alerts.py:142-148 | a missing or non-numeric age is coerced to 0 |
| AlertRules.MinorIsRed | app/alerts.py:157-164 | an age under 18 makes the case red whatever else holds |
| AlertRules.Single | app/alerts.py:183-190 | a rule appends at most one alert, of its own type |
| AlertRules.RuleSet | app/alerts.py:174-191 | each alert carries its type's priority and rule text |
| AlertRules.RuleSetExact | app/alerts.py:183-190 | a type is in the rule set exactly when its condition holds |
| AlertRules.RuleSetOrdered | app/alerts.py:182-191 | the alerts come in rule order, so no type appears twice |
| AlertRules.GenerateAlertTypes | app/alerts.py:174-191 | a type is generated exactly when its rule holds, and the types come in rule order, each at most once |
| AlertRules.RulesAgreeWithClassifier | app/alerts.py:157-191 | no required alert is more urgent than the case's colour, and a case with any alert is not green |
| Reconciler.AlertHeadersDistinct | app/alerts.py:14-26 | there are 17 distinct alert columns with `alerta_id` first |
| Reconciler.Missing | app/alerts.py:217-218 | step 1 creates exactly the required alerts whose type has no open row |
| Reconciler.MissingOrdered | app/alerts.py:207-218 | the alerts to create stay in rule order |
| Reconciler.NewAlert | app/alerts.py:219-237 | a new alert has exactly the alert columns |
| Reconciler.NewAlertFields | app/alerts.py:219-237 | the columns of a new alert that the invariants depend on |
| Reconciler.Close | app/alerts.py:262-268 | closing sets CERRADA, the state time and resolved TRUE, and copies every other alert column |
| Reconciler.ClosePass | app/alerts.py:243-268 | the pass over the rows keeps their number |
| Reconciler.ClosePassAt | app/alerts.py:243-268 | the pass closes exactly the visited rows that should close, and leaves every other row as it was |
| Reconciler.CodesExact | app/alerts.py:207-208 | a type's code is among the required codes exactly when its rule holds |
| Reconciler.ResolvedNotRequired | app/alerts.py:249-260 | each type-specific closing predicate implies that the type is no longer required |
| Reconciler.ShouldCloseExactly | app/alerts.py:243-263 | an open row of the case closes exactly when its type is no longer required |
| Reconciler.AlertColumn | app/alerts.py:338 | an alert row read under the alert headers holds each cell under its column |
| Reconciler.CreatesMissingTypes | app/alerts.py:207-240 | step 1 creates the required types minus those open for the case |
| Reconciler.MissingCodes | app/alerts.py:217-218 | the codes created are the required codes that are not open |
| Reconciler.MissingTypes | app/alerts.py:217-240 | the created rows carry exactly the required codes that are not open |
| Reconciler.NewAlertsTypes | app/alerts.py:217-240 | the new rows carry the types of the specs they come from |
| Reconciler.NewAlertsFields | app/alerts.py:217-240 | every new row is open, unresolved and stamped with the case, the time, the responsible user and its type |
| Reconciler.NewAlertsDistinct | app/alerts.py:217-240 | rows created from ordered specs have pairwise different types |
| Reconciler.CreatesOpenRows | app/alerts.py:217-240 | step 1 creates each type at most once, each row open, unresolved and stamped as above |
| Reconciler.ReconcileCloses | app/alerts.py:243-268 | rows of other cases and terminal rows are untouched; an open row of the case is closed iff its type is no longer required |
| Reconciler.OneOpenAfterAppend | app/alerts.py:196-268 | closing rows and appending distinct-typed open rows of types not yet open keeps at most one open alert per case and type |
| Reconciler.ReconcileKeepsOneOpen | app/alerts.py:196-268 | a reconciliation keeps "at most one open alert per case and type" |
| Reconciler.ClosePassNone | app/alerts.py:243-268 | with nothing to close, the pass changes no row |
| Reconciler.MissingNone | app/alerts.py:217-218 | with every required type open, nothing is created |
| Reconciler.AllOpenAfterAppend | app/alerts.py:196-268 | keeping the open rows of required types and appending the others leaves every required type open |
| Reconciler.RequiredAllOpen | app/alerts.py:196-268 | after a reconciliation every required type has an open row of the case |
| Reconciler.NothingLeftToClose | app/alerts.py:243-268 | after a reconciliation no row of the case is left to close |
| Reconciler.ReconcileIdempotent | app/alerts.py:196-268 | a second reconciliation of an unchanged case, at any later time and by anyone, changes nothing |
| Reconciler.Reconciled | app/alerts.py:196-268 | every row read is kept in place, closed exactly when it should close; the rows after them are new open alerts of the case, stamped with the time and the responsible user |
| ReconcilerTab.ReadBack | app/alerts.py:338-354 | an alert on exactly the alert columns, once written, reads back as itself |
| ReconcilerTab.RecordKey | app/alerts.py:338 | the `alerta_id` of a record is the first cell of its row |
| ReconcilerTab.FirstRowOfKey | app/alerts.py:94-112 | with unique ids, the lookup of data row `p`'s id lands on sheet row `p + 1`, whatever is appended below |
| ReconcilerTab.KeptAfterOverwrite | app/alerts.py:358-371 | overwriting a row with cells that keep its id keeps every id in place |
| ReconcilerTab.ClosePassStep | app/alerts.py:243-268 | visiting one more row closes it when it should close and otherwise changes nothing |
| ReconcilerTab.PrefixKeepsKeys | app/alerts.py:354 | appending below the rows keeps their ids |
| ReconcilerTab.AppendIfMissing | app/alerts.py:217-240 | one turn of step 1 appends the alert for the spec iff its type has no open row, and keeps the rows already there |
| ReconcilerTab.AppendMissing | app/alerts.py:217-240 | step 1 appends exactly the new alerts for the missing types, in rule order, below the rows already there |
| ReconcilerTab.RecordsUpdated | app/alerts.py:367-370 | the rewritten record reads back as the update restricted to the alert columns |
| ReconcilerTab.KeyStaysAfterWrite | app/alerts.py:358-371 | rewriting a row with a record that keeps its id keeps every id of the snapshot in place |
| ReconcilerTab.Locate | app/alerts.py:94-112 | when the snapshot's ids are unique and in place, the lookup lands on the row of the data record with that id |
| ReconcilerTab.UpdateFacts | app/alerts.py:358-371 | the update changes at most the found record, into the update restricted to the columns; a miss changes nothing |
| ReconcilerTab.UpdateOwnFacts | app/alerts.py:358-371 | a lookup landing on record `j` rewrites exactly record `j`, and a key-keeping update keeps every id in place |
| ReconcilerTab.WriteAt | app/alerts.py:358-371 | the write of a lookup that found data record `j` is the write to row `j + 1` |
| ReconcilerTab.UpdateAlertById | app/alerts.py:358-371 | at most the first row with that `alerta_id` changes, into the update on the alert columns; none found reports NotFound (the source raises) and changes nothing |
| ReconcilerTab.CloseFacts | app/alerts.py:262-268 | a closed alert keeps its id, counts as closed and is already laid out on the alert columns |
| ReconcilerTab.IdsOfRecords | app/alerts.py:338 | the records read from a sheet carry the sheet's ids |
| ReconcilerTab.OwnId | app/alerts.py:338 | the id of record `j` is the first cell of data row `j` |
| ReconcilerTab.Decision | app/alerts.py:249-263 | the per-row decision (of the case, not terminal, and not required or resolved) is the specification's `ShouldClose` |
| ReconcilerTab.VisitRow | app/alerts.py:244-268 | a row that should not close causes no write; one that should is closed by id, and with unique ids exactly its record changes, to the closed alert |
| ReconcilerTab.StepRow | app/alerts.py:243-268 | one turn of step 2 only closes rows, keeps the ids in place, and advances the tab to the pass over one more row |
| ReconcilerTab.CloseStale | app/alerts.py:243-268 | step 2 only ever closes rows; with unique ids or nothing to close it succeeds and the tab holds the pass over all rows read, then the rows step 1 appended |
| ReconcilerTab.UpsertAlerts | app/alerts.py:196-268 | no row is removed and an old row changes only by being closed; with unique ids or nothing to close the run succeeds and the tab holds `Reconciled` of what it held |
| AlertQueries.CountOpenByIds | app/alerts.py:270-279 | one entry per requested id, holding the number of that case's open alerts |
| AlertQueries.OpenCount | app/alerts.py:270-279 | a case's count is at most the number of alerts, and 0 exactly when none of its alerts is open |
| AlertQueries.OpenCountSnoc | app/alerts.py:274-278 | one more alert adds one to a case's count exactly when it is open for the case |
| AlertQueries.OpenCountConcat | app/alerts.py:274-278 | the open count is additive over a table split in two |
| AlertQueries.TallyUnseen | app/alerts.py:303-304 | a type with no alert inside the window has every counter at 0 |
| AlertQueries.CountsSnoc | app/alerts.py:299-310 | one more alert moves only its own type's counters, and only inside the window |
| AlertQueries.ResumenAlertas | app/alerts.py:281-310 | one entry per type seen inside the window, holding its detected, resolved and pending counts |
| AlertQueries.SummaryBounded | app/alerts.py:305-309 | resolved plus pending never exceed detected, per type |
| AlertQueries.TallyConcat | app/alerts.py:299-310 | the counters are additive over a table split in two |
| AlertQueries.IncomparableBoundIgnored | app/alerts.py:284-297 | a bound that cannot be compared with an alert's parsed date (aware against naive) is ignored: the alert is inside the window and adds one detection to its type |
| AlertQueries.OutsideWindowIgnored | app/alerts.py:284-302 | with a bound set, an alert whose date does not parse changes no counter |
| AlertQueries.NoBoundsCountsAll | app/alerts.py:284-305 | without bounds every type of the table is summarised, and each appended alert of a type adds one detection |
| AlertQueriesTab.CountOpenAlerts | app/alerts.py:270-279 | the open counts over the alerts read, which leave the grid unchanged |
| AlertQueriesTab.Resumen | app/alerts.py:281-310 | the summary over the alerts read, which leave the grid unchanged |
| Claims.NormalizeRole | set_claims.py:34-39 | an accepted role is one of admin, dept, muni and viewer |
| Claims.RoleAccepted | set_claims.py:34-39 | the accepted inputs are exactly the roles up to surrounding space and capitals, each normalised to its role |
| Claims.RoleIdempotent | set_claims.py:34-39 | normalising a normalised role gives it back |
| Claims.NamedTokens | set_claims.py:45-49 | the first loop collects the stripped, upper-cased non-blank tokens, in order |
| Claims.DedupInOrder | set_claims.py:51-56 | the second loop keeps each entry once, at its first occurrence |
| Claims.NormalizeMunicipios | set_claims.py:41-57 | the method computes the territories `Municipios` specifies, none for blank input |
| Claims.TokensClean | set_claims.py:46 | no token holds `,` or `;` |
| Claims.DedupFacts | set_claims.py:51-56 | dedup keeps exactly the entries of its input, each once |
| Claims.DedupOrder | set_claims.py:51-56 | dedup keeps the order of first occurrence |
| Claims.DedupDistinct | set_claims.py:51-56 | a list without repeats is its own dedup |
| Claims.PartsFixpoint | set_claims.py:45-49 | a list of well-formed names passes the first loop unchanged |
| Claims.MunicipiosShape | set_claims.py:41-57 | the territories are non-empty, stripped, upper-case and free of separators; each is listed once, in order of first appearance; blank input gives none |
| Claims.SemicolonIsComma | set_claims.py:46 | `;` is only another spelling of `,` |
| Claims.MunicipiosIdempotent | set_claims.py:41-57 | normalising the comma-join of a result gives that result back |
| Api.TrimIsInfix | app/main.py:48 | each strip cuts a piece out of its argument |
| Api.CleanEnv | app/main.py:43-48 | the cleaned value is an infix of the raw one (or of the default when the variable is unset) whose cut-off prefix and suffix are whitespace and quotes only, and it neither starts nor ends with a single quote |
| Api.CleanEnvKeepsClean | app/main.py:43-48 | a value with nothing to remove at either end comes back unchanged |
| Api.AllowedOrigins | app/main.py:50-57 | every origin is non-empty, stripped and free of commas, and a text is an origin exactly when it is non-empty and the strip of some comma-separated field of `ALLOWED_ORIGINS` (or of the default list) |
| Api.AllowedOriginsRoundTrip | app/main.py:50-57 | a list of origins written comma-separated into `ALLOWED_ORIGINS` is read back as is |
| Api.Scoped | app/main.py:189-196 | a row is visible exactly when it is in the data and the caller is an admin or the row's upper-cased, stripped territory is one of the caller's |
| Api.Dated | app/main.py:209-226 | with a bound given, a row is kept exactly when its stripped capture date parses and lies within every bound that parses; with none, every row is kept |
| Api.Searched | app/main.py:229-235 | with a query, a row is kept exactly when its lower-cased document or name contains the lower-cased, stripped query; with none, every row is kept |
| Api.Selected | app/main.py:189-235 | a row is selected exactly when it is in the data, visible to the caller, within the date bounds when one is given and matching the query when one is given |
| Api.AdminSeesAll | app/main.py:192-235 | an admin with no criteria sees every row |
| Api.BlankQueryKeepsAll | app/main.py:229-235 | a blank query switches the filter on but keeps every row |
| Api.PageHome | app/main.py:241-243 | row `i` is entry `i % size` of page `i / size + 1` |
| Api.PageElsewhere | app/main.py:241-243 | no other page holds row `i` |
| Api.Window | app/main.py:241-243 | a page holds at most `size` consecutive rows from its first position, as many as remain, and nothing past the end |
| Api.PageIds | app/main.py:254 | one id per row of the page |
| Api.RiskLights | app/main.py:247-251 | the first enrichment loop gives each row its traffic light |
| Api.EnrichPage | app/main.py:247-261 | the two enrichment loops give each row its traffic light and its open-alert count |
| Api.Listed | app/main.py:180-265 | a caller other than an admin with no territories gets no items, total 0 and the raw page and size; anyone else gets a total counting every selected row and at most a page (clamped to at least 1, size 20 when below 1) of items, never more than the total |
| Api.ListedFacts | app/main.py:237-261 | item `i` of a listing is the selected row at position `(page - 1) * size + i`, a row of the data the caller may see, with its own light and open-alert count |
| Api.ListedItem | app/main.py:237-261 | one item of the listing satisfies what `ListedFacts` states of every item |
| Api.AlertsListed | app/main.py:446-455 | an alert is listed exactly when it matches the case id exactly and the type and state without regard to case, each only when given |
| Api.UpperLower | app/main.py:450-453 | upper-casing a lower-cased text is upper-casing it, and lower-casing leaves a text empty exactly when it was |
| Api.AlertsCaseBlind | app/main.py:446-455 | type and state are matched regardless of case |
| Api.FirstBlank | app/main.py:285-287 | names a required field that is missing or blank and every field before it filled in, i.e. the first blank one; passes exactly when all are filled in |
| Api.RangeError | app/main.py:290-305 | a 400 exactly when the field is given and is not a number within the bounds |
| Api.PreCheck | app/main.py:278-305 | the early checks pass exactly when the territory, the required fields and both ranges do; a foreign territory is a 403 before anything else, then the first blank required field is a 400 naming it; every failure is a 400 or a 403 |
| Api.TrimDateFields | app/main.py:314-322 | the loop strips the date fields present, one by one |
| Api.DatesTrimmedFacts | app/main.py:314-322 | trimming keeps the keys, strips each date, leaves every other field, and is idempotent |
| Api.DateOrderError | app/main.py:325-345 | the date checks fail, always with 400, exactly when two dates that parse are out of order |
| Api.AcceptedPassed | app/main.py:278-348 | an accepted payload passed the scope, required and range checks and the date order, and is stored as its prepared projection |
| Api.Validated | app/main.py:270-348 | a payload is accepted exactly when the early checks pass and its prepared dates are in order; an accepted one is of a territory the caller may write; a rejected one gets a 400 or a 403 |
| Api.CreateScoped | app/main.py:278-282 | a caller other than an admin is refused with 403 outside its territories, before anything else |
| Api.PreparedKeeps | app/main.py:308-322 | the defaults and the trimming leave every other column as given |
| Api.CreateRequired | app/main.py:285-305 | an accepted case has every required field filled in as given, and age and gestational age within bounds when given |
| Api.CreateRejectsRange | app/main.py:290-305 | a given age or gestational age that is not a number within bounds gets a 400 |
| Api.CreateRejectsBlank | app/main.py:284-287 | a caller who may write the territory but leaves a required field blank gets the 400 naming the first blank field |
| Api.DatesInOrderSame | app/main.py:335-345 | the order of the dates depends only on the four compared fields |
| Api.CreateDates | app/main.py:325-348 | an accepted case is stored with its dates in order |
| Api.PreparedAudit | app/main.py:308-311 | the id, user and timestamp are what the payload gave, or else the clock's seconds, the caller's e-mail and the ISO time |
| Api.CreateAudit | app/main.py:308-348 | an accepted case lies on exactly the case columns, with its audit columns as above |
| Api.CheckNew | app/main.py:278-348 | the checks run in the source's order compute `Validated` |
| Api.FindById | app/main.py:390-392 | the record found has the id, and none is found exactly when no record has it |
| Api.FindByIdFirst | app/main.py:390-392 | the record found is the first one with the id |
| Api.MergedOn | app/main.py:399-403 | the merge has exactly the columns plus the audit columns; each column the payload names takes the payload's value, the rest keep the stored one; the editor and the time are set |
| Api.Merged | app/main.py:399-403 | the merged record lies on exactly the case columns |
| Api.MergeUpdate | app/main.py:399-407 | the loop over the payload and the audit assignments compute `MergedOn` |
| Api.MergeFinish | app/main.py:405-407 | once the payload is merged, setting the audit columns completes the merge |
| Api.MergeIgnoresForeign | app/main.py:399-403 | payload keys that are not case columns are ignored |
| Api.MergeIdempotent | app/main.py:399-407 | applying the same edit twice is applying it once |
| Api.MergeSelf | app/main.py:399-407 | an edit whose payload is its own result changes nothing |
| Api.Edited | app/main.py:390-407 | an accepted edit lies on exactly the case columns |
| Api.CheckEdit | app/main.py:390-407 | the checks and the merge run in the source's order compute `Edited` |
| Api.EditScoped | app/main.py:390-407 | a missing id is 404; a case the caller may not access is 403 with its message; an accepted edit is the merge into the first case with the id, which the caller may access, signed by the caller |
| Api.FirstIdIndex | app/main.py:390-392 | an id that occurs has a first position |
| Api.EditMayMoveTerritory | app/main.py:394-403 | for a case the caller may access, the edit is accepted and writes the payload's territory |
| ApiTabs.StoredAsIs | app/main.py:348-355 | a record on exactly the case columns is stored and read back as itself |
| ApiTabs.ListarGestantes | app/main.py:179-265 | the listing is `Listed` of the cases and alerts as read, and neither grid changes |
| ApiTabs.ReconcileCase | app/main.py:357-360 | with the status dropped, the alert tab holds `Reconciled` of what it held whenever ids are unique or nothing needs closing |
| ApiTabs.StoreNew | app/main.py:350-360 | the case is appended as the last record; when the alert ids are unique or nothing needs closing, the alert tab holds `Reconciled` of what it held |
| ApiTabs.StoreChecked | app/main.py:350-363 | a rejected payload changes nothing and reports its error; an accepted one is appended and its id reported, and the alert tab is as `StoreNew` states |
| ApiTabs.CrearGestante | app/main.py:268-363 | a rejected payload changes neither tab and reports its error; an accepted one is appended as validated, its alerts reconciled and its id reported |
| ApiTabs.RewriteCase | app/main.py:409-412 | the first row with the id is overwritten and reads back as the merged case; no match changes nothing |
| ApiTabs.StoreMerged | app/main.py:409-421 | no matching row gives a 500 and changes nothing; otherwise the first matching row is rewritten and the id reported, and when the alert ids are unique or nothing needs closing, the alert tab holds `Reconciled` of what it held |
| ApiTabs.StoreEdit | app/main.py:399-421 | a rejected edit changes nothing; an accepted one is stored as `StoreMerged` states |
| ApiTabs.LoadEdit | app/main.py:390-407 | the reads and checks compute `Edited` on the cases as read and leave the grid unchanged |
| ApiTabs.ActualizarGestante | app/main.py:380-421 | 404 and 403 change nothing; an accepted edit rewrites the first row with the id (500 when none), reconciles the alerts and reports the id |
| ApiTabs.ListAlertas | app/main.py:444-467 | the matching alerts and their number, over the alerts as read, with the grid unchanged |

## Left out

- The Sheets and Firebase clients, credentials and `ensure_headers`. A
  tab is assumed to already hold its header row. That is the `Tab.Valid`
  invariant.
- The 100000-row bound of the read range. Every row is read.
- Remote failures and retries. The exceptions that the handlers turn
  into 502 and 500 are modelled only where the code raises on a missing
  row.
- Concurrency. The model runs one request at a time on shared tabs.
  Two concurrent reconciliations of the same case could both append the
  same type.
- The uniqueness of `alerta_id`. It depends on the wall clock and is
  not modelled. The exact post-states below depend on it.
- The first, dead definitions of `read_all`, `append_row` and
  `update_row_by_id` at app/sheets.py:70-97 and 135-159, and of
  `read_alerts`, `append_alert` and `update_alert_by_id` at
  app/alerts.py:67-80, 82-92 and 115-132. The later definitions replace
  them at import. `_col_idx_to_a1` (app/alerts.py:60-65) and
  `_find_row_index_by_alerta_id` (app/alerts.py:94-112) stay live: the
  later `update_alert_by_id` calls both, and the model's row lookup and
  row range stand for them.
- `obtener_gestante`, `catalogos`, the health, home and static routes,
  and the startup hook. They read or serve data without rules of their
  own.
- The scope argument of `api_resumen_alertas`. The source never uses
  it.
- Python dictionary order, and the aliasing of cached records.
  `listar_gestantes` writes `riesgo` and `alertas_abiertas` into the
  dictionaries the cache holds. The model returns new items instead.
- Non-string cell values. Every cell is text. The writes use
  `valueInputOption="USER_ENTERED"` (app/sheets.py:215 and 230,
  app/alerts.py:353 and 368), so the spreadsheet may re-parse what it is
  given: "TRUE" may come back as a boolean, "0012" as 12, an ISO date as
  a date. ApiTabs.StoredAsIs and ReconcilerTab.ReadBack state that a
  record reads back as itself of the model's in-memory tab, not of the
  live sheet.
- Separate clock readings. The reconciler reads the clock once per new
  alert and once per closed alert. The model reads it once per run, so
  all rows written in one run share one timestamp and one millisecond
  count.
- Text.Lower: maps only ASCII and Latin-1 letters, because Python's full
  Unicode case tables are out of scope. Letters outside Latin-1 are left
  as they are.
- Text.Upper: maps only ASCII and Latin-1 letters, for the same reason.
  Even within Latin-1 it leaves `ß`, `ÿ` and `µ` unchanged, where Python
  gives `SS` (two characters, so the length changes), `Ÿ` (U+0178) and
  `Μ` (U+039C). `Text.UpperKeepsShape` and `Api.UpperLower` are stated of
  this model of upper-casing. Territory keys and alert filters holding
  those letters compare differently from the source.
- Text.ParseInt: accepts only ASCII digits. Python's `int()` also accepts
  other Unicode decimal digits (for example Arabic-Indic ones). A field
  written with them reads as 0 in `_to_int` where the source reads its
  value, and fails the Edad and EG checks where the source accepts it.
  This affects `risk_color`, the rule set and the `crear_gestante` range
  checks.
- Api.Dated: the date parsing (`datetime.fromisoformat`, then
  `d/m/y`) is a parameter. Only its outcome, an ordered value or
  nothing, is modelled. `fromisoformat` can return a time-zone-aware
  value and the `d/m/y` branch a naive one. Comparing the two raises
  `TypeError` in `listar_gestantes` (app/main.py:223-224) and in
  `crear_gestante` (app/main.py:340-345), which the server reports as a
  500. The model compares every pair.
- Api.DateOrderError: the same aware/naive `TypeError` as `Api.Dated` is
  not modelled.
- Api.PageIds: states only that there is one id per row. The ids
  themselves are the stripped `id` cells, as the body gives.
- ApiTabs.ListAlertas: the sort by `fecha_generacion` is not modelled.
  The items come in the tab's order. In the source, when every date
  parses, the items come newest first. When none parses, every key is
  `""` and the stable sort keeps the tab's order. When some parse and
  some do not, the key compares `datetime` with `str`, which raises
  `TypeError` (app/main.py:457-465), a 500.
- ReconcilerTab.UpsertAlerts: the exact post-state is proved only when
  the `alerta_id` cells are unique or nothing needs closing. Otherwise
  the proof covers only "nothing removed, old rows change only by
  closing".
- ReconcilerTab.CloseStale: the same condition as `UpsertAlerts`.
- ApiTabs.ReconcileCase: the same condition as `UpsertAlerts`.
- ApiTabs.CrearGestante: the same condition as `UpsertAlerts` for the
  alert tab.
- ApiTabs.ActualizarGestante: the same condition as `UpsertAlerts` for
  the alert tab.
- ApiTabs.StoreNew: the same condition as `UpsertAlerts` for the alert
  tab.
- ApiTabs.StoreChecked: the same condition as `UpsertAlerts` for the
  alert tab.
- ApiTabs.StoreMerged: the same condition as `UpsertAlerts` for the
  alert tab.
- ApiTabs.StoreEdit: the same condition as `UpsertAlerts` for the alert
  tab.
