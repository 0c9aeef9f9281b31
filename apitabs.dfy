/** The API handlers over the two tabs (app/main.py): each reads the case
    tab or the alert tab through its cache, decides as module Api says, and
    writes the case and reconciles its alerts. */
module ApiTabs {
  import opened Base
  import opened Sheets
  import opened Reconciler
  import opened ReconcilerTab
  import opened Api

  /** The case tab: laid out on `HEADERS`, looked up by `id`, with its
      header row written. */
  predicate CaseTab(tab: Tab)
    reads tab
  {
    tab.headers == HEADERS && tab.keyName == ID && |tab.sheet| >= 1 && tab.Values()[0] == HEADERS
  }

  /** A record laid out on the case columns is stored and read back as
      itself. */
  lemma StoredAsIs(rec: Record)
    requires OnCaseColumns(rec)
    ensures RowToRecord(HEADERS, RowValues(HEADERS, rec)) == rec
  {
    HeadersDistinct();
    RowValuesRoundTrip(HEADERS, rec);
    ProjectOwnColumns(rec, HEADERS);
  }

  /** `listar_gestantes`: reads the cases (before anything else), then,
      unless the caller is shut out, selects and pages them and enriches
      the page with the alerts as read. */
  method ListarGestantes(cases: Tab, alertsTab: Tab, scope: Scope, desde: string, hasta: string,
                         parse: string -> Option<int>, q: string, page: int, pageSize: int, now: int)
    returns (out: Listing)
    requires cases.Valid() && alertsTab.Valid() && cases != alertsTab
    modifies cases, alertsTab
    ensures cases.Valid() && alertsTab.Valid()
    ensures cases.sheet == old(cases.sheet) && alertsTab.sheet == old(alertsTab.sheet)
    ensures out == Listed(scope, old(cases.Records()), old(alertsTab.Records()), desde, hasta, parse, q, page, pageSize)
  {
    var data := cases.ReadAll(now);
    if scope.role != "admin" && scope.munis == [] {
      return Listing([], 0, page, pageSize);
    }
    var sel := Selected(scope, data, desde, hasta, parse, q);
    var total := |sel|;
    var p := ClampPage(page);
    var size := ClampSize(pageSize);
    var rows := PageOf(sel, p, size);
    var alerts := alertsTab.ReadAll(now);
    var items := EnrichPage(rows, alerts);
    out := Listing(items, total, p, size);
  }

  /** What the handlers promise of the alert tab once the case `rec` is
      reconciled: whenever the alert ids were unique or no open alert of
      the case is due to close, the tab holds exactly the `Reconciled`
      alerts. */
  ghost predicate AlertsFollow(sheetBefore: seq<seq<string>>, before: seq<Record>, after: seq<Record>,
                               rec: Record, email: string, clock: Clock)
  {
    KeysUnique(sheetBefore) || NoneClose(before, InfoOf(rec)) ==> after == Reconciled(before, InfoOf(rec), email, clock)
  }

  /** `upsert_alerts_for_gestante` as the handlers call it: its status is
      dropped, so all they rely on is the reconciled alert tab. */
  method ReconcileCase(alertsTab: Tab, rec: Record, email: string, clock: Clock)
    requires alertsTab.Valid() && AlertTab(alertsTab)
    modifies alertsTab
    ensures alertsTab.Valid() && AlertTab(alertsTab)
    ensures AlertsFollow(old(alertsTab.sheet), old(alertsTab.Records()), alertsTab.Records(), rec, email, clock)
  {
    var _ := UpsertAlerts(alertsTab, rec, email, clock);
  }

  /** The writes of an accepted new case: the row is appended, then the
      case's alerts are reconciled, whose failure is not reported. */
  method StoreNew(cases: Tab, alertsTab: Tab, safe: Record, email: string, clock: Clock)
    requires cases.Valid() && CaseTab(cases) && alertsTab.Valid() && AlertTab(alertsTab) && cases != alertsTab
    requires OnCaseColumns(safe)
    modifies cases, alertsTab
    ensures cases.Valid() && CaseTab(cases) && alertsTab.Valid() && AlertTab(alertsTab)
    ensures cases.Records() == old(cases.Records()) + [safe]
    ensures AlertsFollow(old(alertsTab.sheet), old(alertsTab.Records()), alertsTab.Records(), safe, email, clock)
  {
    StoredAsIs(safe);
    cases.AppendRow(safe);
    ReconcileCase(alertsTab, safe, email, clock);
  }

  /** The writes of a checked new case: a rejected one changes nothing, an
      accepted one is stored as `StoreNew` says and its id reported. */
  method StoreChecked(cases: Tab, alertsTab: Tab, checked: Checked, email: string, clock: Clock)
    returns (out: Outcome)
    requires cases.Valid() && CaseTab(cases) && alertsTab.Valid() && AlertTab(alertsTab) && cases != alertsTab
    requires checked.Accepted? ==> OnCaseColumns(checked.safe)
    modifies cases, alertsTab
    ensures cases.Valid() && CaseTab(cases) && alertsTab.Valid() && AlertTab(alertsTab)
    ensures checked.Rejected? ==>
              out == Failed(checked.error) && cases.sheet == old(cases.sheet) && alertsTab.sheet == old(alertsTab.sheet)
    ensures checked.Accepted? ==>
              && out == Saved(GetOr(checked.safe, ID, ""))
              && cases.Records() == old(cases.Records()) + [checked.safe]
              && AlertsFollow(old(alertsTab.sheet), old(alertsTab.Records()), alertsTab.Records(), checked.safe, email, clock)
  {
    match checked
    case Rejected(error) =>
      return Failed(error);
    case Accepted(safe) =>
      StoreNew(cases, alertsTab, safe, email, clock);
      out := Saved(GetOr(safe, ID, ""));
  }

  /** `crear_gestante`: a payload the checks reject changes nothing; an
      accepted one is appended to the case tab as laid out on the case
      columns, its alerts are reconciled, and its id is reported whether or
      not the reconciliation went through. */
  method CrearGestante(cases: Tab, alertsTab: Tab, item: Record, scope: Scope, clock: Clock,
                       parse: string -> Option<int>)
    returns (out: Outcome)
    requires cases.Valid() && CaseTab(cases) && alertsTab.Valid() && AlertTab(alertsTab) && cases != alertsTab
    modifies cases, alertsTab
    ensures cases.Valid() && CaseTab(cases) && alertsTab.Valid() && AlertTab(alertsTab)
    ensures var c := Validated(item, scope, clock, parse);
            && (c.Rejected? ==>
                  out == Failed(c.error) && cases.sheet == old(cases.sheet) && alertsTab.sheet == old(alertsTab.sheet))
            && (c.Accepted? ==>
                  && ID in c.safe && out == Saved(c.safe[ID])
                  && cases.Records() == old(cases.Records()) + [c.safe]
                  && AlertsFollow(old(alertsTab.sheet), old(alertsTab.Records()), alertsTab.Records(), c.safe, Email(scope), clock))
  {
    var checked := CheckNew(item, scope, clock, parse);
    if checked.Accepted? {
      CreateAudit(item, scope, clock, parse);
      AuditColumns();
    }
    out := StoreChecked(cases, alertsTab, checked, Email(scope), clock);
  }

  /** The case tab once the case is written at sheet row `row`: the record
      in that position replaced by `merged`, every other one as it was. */
  ghost predicate CaseRewritten(before: seq<Record>, after: seq<Record>, row: nat, merged: Record)
  {
    2 <= row <= |before| + 1 && after == before[row - 2 := merged]
  }

  /** The case half of an accepted edit: the first row whose id cell
      matches is overwritten, and reads back as the merged case. */
  method RewriteCase(cases: Tab, alertsTab: Tab, recId: string, merged: Record)
    returns (status: Status, ghost row: Option<nat>)
    requires cases.Valid() && CaseTab(cases) && alertsTab.Valid() && AlertTab(alertsTab) && cases != alertsTab
    requires OnCaseColumns(merged)
    modifies cases
    ensures cases.Valid() && CaseTab(cases) && alertsTab.Valid() && AlertTab(alertsTab)
    ensures row == FirstKeyRow(old(cases.Values()), ID, recId)
    ensures row.None? ==> status == NotFound && cases.sheet == old(cases.sheet)
    ensures row.Some? ==>
              && status == Done
              && CaseRewritten(old(cases.Records()), cases.Records(), row.value, merged)
  {
    status, row := cases.UpdateRowById(recId, merged);
    assert alertsTab.sheet == old(alertsTab.sheet) && alertsTab.cacheData == old(alertsTab.cacheData);
    if row.Some? {
      assert cases.Values()[0] == HEADERS && cases.headers == HEADERS;
      StoredAsIs(merged);
    }
  }

  /** The writes of an accepted edit: the case row is overwritten (500
      when no row matches), then the case's alerts are reconciled, whose
      failure is not reported. */
  method StoreMerged(cases: Tab, alertsTab: Tab, recId: string, merged: Record, email: string, clock: Clock)
    returns (out: Outcome, ghost row: Option<nat>)
    requires cases.Valid() && CaseTab(cases) && alertsTab.Valid() && AlertTab(alertsTab) && cases != alertsTab
    requires OnCaseColumns(merged)
    modifies cases, alertsTab
    ensures cases.Valid() && CaseTab(cases) && alertsTab.Valid() && AlertTab(alertsTab)
    ensures row == FirstKeyRow(old(cases.Values()), ID, recId)
    ensures row.None? ==>
              && out == Failed(HttpError(500, "No se pudo actualizar: Registro no encontrado"))
              && cases.sheet == old(cases.sheet) && alertsTab.sheet == old(alertsTab.sheet)
    ensures row.Some? ==>
              && out == Saved(recId)
              && CaseRewritten(old(cases.Records()), cases.Records(), row.value, merged)
              && AlertsFollow(old(alertsTab.sheet), old(alertsTab.Records()), alertsTab.Records(), merged, email, clock)
  {
    var status;
    status, row := RewriteCase(cases, alertsTab, recId, merged);
    if status == NotFound {
      out := Failed(HttpError(500, "No se pudo actualizar: Registro no encontrado"));
      return;
    }
    ghost var rewritten := cases.Records();
    ReconcileCase(alertsTab, merged, email, clock);
    assert cases.Records() == rewritten;
    out := Saved(recId);
  }

  /** The writes of a checked edit: a rejected one changes nothing, an
      accepted one is stored as `StoreMerged` says. */
  method StoreEdit(cases: Tab, alertsTab: Tab, recId: string, checked: Checked, email: string, clock: Clock)
    returns (out: Outcome, ghost row: Option<nat>)
    requires cases.Valid() && CaseTab(cases) && alertsTab.Valid() && AlertTab(alertsTab) && cases != alertsTab
    requires checked.Accepted? ==> OnCaseColumns(checked.safe)
    modifies cases, alertsTab
    ensures cases.Valid() && CaseTab(cases) && alertsTab.Valid() && AlertTab(alertsTab)
    ensures checked.Rejected? ==>
              out == Failed(checked.error) && cases.sheet == old(cases.sheet) && alertsTab.sheet == old(alertsTab.sheet)
    ensures checked.Accepted? ==> row == FirstKeyRow(old(cases.Values()), ID, recId)
    ensures checked.Accepted? && row.None? ==>
              && out == Failed(HttpError(500, "No se pudo actualizar: Registro no encontrado"))
              && cases.sheet == old(cases.sheet) && alertsTab.sheet == old(alertsTab.sheet)
    ensures checked.Accepted? && row.Some? ==>
              && out == Saved(recId)
              && CaseRewritten(old(cases.Records()), cases.Records(), row.value, checked.safe)
              && AlertsFollow(old(alertsTab.sheet), old(alertsTab.Records()), alertsTab.Records(), checked.safe, email, clock)
  {
    match checked
    case Rejected(error) =>
      return Failed(error), None;
    case Accepted(safe) =>
      out, row := StoreMerged(cases, alertsTab, recId, safe, email, clock);
  }

  /** The reads and checks of `actualizar_gestante`: the cases come through
      the cache, which leaves the grid as it was. */
  method LoadEdit(cases: Tab, recId: string, payload: Record, scope: Scope, clock: Clock)
    returns (checked: Checked)
    requires cases.Valid() && CaseTab(cases)
    modifies cases
    ensures cases.Valid() && CaseTab(cases) && cases.sheet == old(cases.sheet)
    ensures cases.Values() == old(cases.Values()) && cases.Records() == old(cases.Records())
    ensures checked == Edited(old(cases.Records()), recId, payload, scope, clock.iso)
  {
    var data := cases.ReadAll(clock.seconds);
    checked := CheckEdit(data, recId, payload, scope, clock.iso);
  }

  /** `actualizar_gestante`: reads the cases and applies the checks of
      `Edited`; a rejected edit changes nothing; an accepted one rewrites
      the first row whose id cell matches, reports 500 when no row does,
      and otherwise reconciles the alerts of the merged case. */
  method ActualizarGestante(cases: Tab, alertsTab: Tab, recId: string, payload: Record, scope: Scope,
                            clock: Clock)
    returns (out: Outcome, ghost row: Option<nat>)
    requires cases.Valid() && CaseTab(cases) && alertsTab.Valid() && AlertTab(alertsTab) && cases != alertsTab
    modifies cases, alertsTab
    ensures cases.Valid() && CaseTab(cases) && alertsTab.Valid() && AlertTab(alertsTab)
    ensures var e := Edited(old(cases.Records()), recId, payload, scope, clock.iso);
            && (e.Rejected? ==>
                  out == Failed(e.error) && cases.sheet == old(cases.sheet) && alertsTab.sheet == old(alertsTab.sheet))
            && (e.Accepted? ==> row == FirstKeyRow(old(cases.Values()), ID, recId))
            && (e.Accepted? && row.None? ==>
                  && out == Failed(HttpError(500, "No se pudo actualizar: Registro no encontrado"))
                  && cases.sheet == old(cases.sheet) && alertsTab.sheet == old(alertsTab.sheet))
            && (e.Accepted? && row.Some? ==>
                  && out == Saved(recId)
                  && CaseRewritten(old(cases.Records()), cases.Records(), row.value, e.safe)
                  && AlertsFollow(old(alertsTab.sheet), old(alertsTab.Records()), alertsTab.Records(), e.safe, Email(scope), clock))
  {
    var checked := LoadEdit(cases, recId, payload, scope, clock);
    out, row := StoreEdit(cases, alertsTab, recId, checked, Email(scope), clock);
  }

  /** `api_list_alertas` with its `read_alerts`, before the sort: the
      matching alerts and their number. */
  method ListAlertas(alertsTab: Tab, gestanteId: string, tipo: string, estado: string, now: int)
    returns (items: seq<Record>, total: nat)
    requires alertsTab.Valid()
    modifies alertsTab
    ensures alertsTab.Valid() && alertsTab.sheet == old(alertsTab.sheet)
    ensures items == AlertsListed(alertsTab.Records(), gestanteId, tipo, estado)
    ensures total == |items|
  {
    var data := alertsTab.ReadAll(now);
    items := AlertsListed(data, gestanteId, tipo, estado);
    total := |items|;
  }
}
