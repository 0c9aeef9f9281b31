/** The alert reconciler (`upsert_alerts_for_gestante`, app/alerts.py): for
    one case it opens every required alert that has no open row and closes
    every open row of that case whose condition no longer holds. */
module Reconciler {
  import opened Base
  import opened Text
  import opened Sheets
  import opened AlertRules

  /** The fixed column order of the alerts tab. */
  const ALERT_HEADERS: seq<string> := [
    "alerta_id", "gestante_id", "Municipio / Territorio EBS", "tipo_alerta", "prioridad",
    "fecha_generacion", "regla_disparadora", "estado", "fecha_estado", "responsable",
    "canalizacion_tipo", "fecha_canalizacion", "fecha_atencion_efectiva", "evidencia_resolucion",
    "intentos_contacto", "observaciones", "resuelta"]

  lemma AlertHeaderNames()
    ensures ALERT_HEADERS[0] == "alerta_id" && ALERT_HEADERS[1] == "gestante_id"
    ensures ALERT_HEADERS[3] == "tipo_alerta" && ALERT_HEADERS[5] == "fecha_generacion"
    ensures ALERT_HEADERS[7] == "estado" && ALERT_HEADERS[9] == "responsable" && ALERT_HEADERS[16] == "resuelta"
  {
  }

  lemma AlertHeadersDistinct()
    ensures |ALERT_HEADERS| == 17 && Distinct(ALERT_HEADERS)
    ensures ALERT_HEADERS[0] == "alerta_id" && "alerta_id" !in ALERT_HEADERS[1..]
  {
  }

  /** The clock as one instant: whole seconds (cache age), milliseconds
      (alert ids) and the ISO text written into date columns. */
  datatype Clock = Clock(seconds: int, millis: int, iso: string)

  /** `a.get(h, "")` on an alert row. */
  function Field(a: Record, h: string): string
  {
    GetOr(a, h, "")
  }

  /** The states in which an alert counts as open. */
  predicate IsOpen(st: string)
  {
    st == "ABIERTA" || st == "CANALIZADA" || st == "ATENDIDA"
  }

  /** The states the reconciler never touches again. */
  predicate IsTerminal(st: string)
  {
    st == "CERRADA" || st == "EXPIRADA"
  }

  /** `str(gest.get("id", "")).strip()`. */
  function CaseId(gest: Record): string
  {
    Strip(Field(gest, "id"))
  }

  /** What the reconciler reads from a case: its stripped id, its territory
      and the coerced fields the rules look at. */
  datatype CaseInfo = CaseInfo(gid: string, territorio: string, view: CaseView)

  function InfoOf(gest: Record): CaseInfo
  {
    CaseInfo(CaseId(gest), Field(gest, "Municipio / Territorio EBS"), ViewOf(gest))
  }

  /** The `tipo_alerta` codes of a rule-set result (`should_types`). */
  function Codes(specs: seq<AlertSpec>): set<string>
  {
    set s | s in specs :: s.tipo.Code()
  }

  /** `existing_open_types`: the types of the open rows whose `gestante_id`
      is exactly `gid` (the stored value is compared unstripped). */
  function OpenTypes(alerts: seq<Record>, gid: string): set<string>
  {
    set a | a in alerts && Field(a, "gestante_id") == gid && IsOpen(Field(a, "estado")) :: Field(a, "tipo_alerta")
  }

  /** The required alerts that step 1 creates, in rule order: those whose
      type has no open row. */
  function Missing(should: seq<AlertSpec>, open: set<string>): (r: seq<AlertSpec>)
    ensures forall s :: s in r <==> s in should && s.tipo.Code() !in open
  {
    if should == [] then []
    else
      var last := should[|should| - 1];
      Missing(should[..|should| - 1], open) + if last.tipo.Code() !in open then [last] else []
  }

  /** A subsequence of an ordered rule-set result is ordered. */
  lemma {:induction false} MissingOrdered(should: seq<AlertSpec>, open: set<string>)
    requires Ordered(should)
    ensures Ordered(Missing(should, open))
  {
    if should != [] {
      var init := should[..|should| - 1];
      var last := should[|should| - 1];
      MissingOrdered(init, open);
      var m := Missing(init, open);
      forall x | x in m
        ensures x.tipo.Rank() < last.tipo.Rank()
      {
        var i :| 0 <= i < |init| && init[i] == x;
      }
    }
  }

  /** The cells of the alert step 1 appends for one missing type, in
      header order. */
  function NewAlertRow(k: CaseInfo, meta: AlertSpec, responsable: string, clock: Clock): (row: seq<string>)
    ensures |row| == |ALERT_HEADERS|
    ensures row[0] == IntToString(clock.millis) + "-" + meta.tipo.Code() && row[1] == k.gid
    ensures row[3] == meta.tipo.Code() && row[5] == clock.iso && row[7] == "ABIERTA"
    ensures row[9] == responsable && row[16] == ""
  {
    var t := meta.tipo.Code();
    [ IntToString(clock.millis) + "-" + t,  // alerta_id
      k.gid,                                 // gestante_id
      k.territorio,                          // Municipio / Territorio EBS
      t,                                     // tipo_alerta
      meta.prioridad.Name(),                 // prioridad
      clock.iso,                             // fecha_generacion
      meta.regla,                            // regla_disparadora
      "ABIERTA",                             // estado
      "", responsable,                       // fecha_estado, responsable
      "", "", "", "", "", "",                // canalizacion_tipo .. observaciones
      "" ]                                   // resuelta
  }

  /** The alert step 1 appends: one entry per alert column. */
  function NewAlert(k: CaseInfo, meta: AlertSpec, responsable: string, clock: Clock): (a: Record)
    ensures a.Keys == set h | h in ALERT_HEADERS
  {
    RowToRecord(ALERT_HEADERS, NewAlertRow(k, meta, responsable, clock))
  }

  function NewAlerts(k: CaseInfo, specs: seq<AlertSpec>, responsable: string, clock: Clock): (rows: seq<Record>)
    ensures |rows| == |specs|
    ensures forall i :: 0 <= i < |specs| ==> rows[i] == NewAlert(k, specs[i], responsable, clock)
  {
    seq(|specs|, i requires 0 <= i < |specs| => NewAlert(k, specs[i], responsable, clock))
  }

  /** The row step 2 writes back to close an alert: every alert column
      copied, then closed now and marked resolved. */
  function Close(a: Record, iso: string): (u: Record)
    ensures u.Keys == set h | h in ALERT_HEADERS
    ensures Field(u, "estado") == "CERRADA" && Field(u, "fecha_estado") == iso && Field(u, "resuelta") == "TRUE"
    ensures forall h :: h in ALERT_HEADERS && h != "estado" && h != "fecha_estado" && h != "resuelta" ==>
              u[h] == Field(a, h)
  {
    Project(a, ALERT_HEADERS)["estado" := "CERRADA"]["fecha_estado" := iso]["resuelta" := "TRUE"]
  }

  /** Whether an alert of type `t` has been resolved by the current case
      data; a type the rules do not know is never resolved. */
  predicate Resolved(c: CaseView, t: string)
  {
    if t == "SIN_CPN" then c.cpn >= 1
    else if t == "NO_VACUNADA" then !HasUnvaccinated(c.vacunas)
    else if t == "SIGNOS_ALARMA" then !HasAlarmSign(c.signos)
    else if t == "BARRERAS_ACCESO" then |NonEmpty(c.barreras)| < 2
    else false
  }

  /** Step 2 closes a row of the case that is not closed or expired when its
      type is no longer required or has been resolved. */
  predicate ShouldClose(k: CaseInfo, a: Record)
  {
    && Field(a, "gestante_id") == k.gid
    && !IsTerminal(Field(a, "estado"))
    && (Field(a, "tipo_alerta") !in Codes(RuleSet(k.view)) || Resolved(k.view, Field(a, "tipo_alerta")))
  }

  /** What step 2 makes of one row: its closed form when it should close,
      the row itself otherwise. */
  function CloseIfStale(k: CaseInfo, iso: string, a: Record): Record
  {
    if ShouldClose(k, a) then Close(a, iso) else a
  }

  function Stale(k: CaseInfo, iso: string): Record -> Record
  {
    a => CloseIfStale(k, iso, a)
  }

  /** The rows after step 2 has visited the first `m` of them, one at a
      time. */
  function ClosePass(recs: seq<Record>, k: CaseInfo, iso: string, m: nat): (out: seq<Record>)
    requires m <= |recs|
    ensures |out| == |recs|
  {
    MapPrefix(recs, Stale(k, iso), m)
  }

  /** Row by row, step 2 closes exactly the visited rows that should close
      and leaves every other row as it was. */
  lemma ClosePassAt(recs: seq<Record>, k: CaseInfo, iso: string, m: nat)
    requires m <= |recs|
    ensures forall j :: 0 <= j < |recs| ==>
              ClosePass(recs, k, iso, m)[j] == if j < m && ShouldClose(k, recs[j]) then Close(recs[j], iso) else recs[j]
  {
    forall j | 0 <= j < |recs|
      ensures ClosePass(recs, k, iso, m)[j] == if j < m && ShouldClose(k, recs[j]) then Close(recs[j], iso) else recs[j]
    {
      MapPrefixAt(recs, Stale(k, iso), m, j);
    }
  }

  /** What the alerts tab holds after one reconciliation of `gest` against
      the rows `recs`: the old rows with the stale ones closed, then the new
      alerts. */
  function Reconciled(recs: seq<Record>, k: CaseInfo, responsable: string, clock: Clock): (out: seq<Record>)
    ensures |out| >= |recs|
    ensures forall j :: 0 <= j < |recs| ==> out[j] == if ShouldClose(k, recs[j]) then Close(recs[j], clock.iso) else recs[j]
    ensures forall i :: |recs| <= i < |out| ==>
              Field(out[i], "gestante_id") == k.gid && Field(out[i], "estado") == "ABIERTA" &&
              Field(out[i], "fecha_generacion") == clock.iso && Field(out[i], "responsable") == responsable
  {
    ClosePassAt(recs, k, clock.iso, |recs|);
    CreatesOpenRows(recs, k, responsable, clock);
    ClosePass(recs, k, clock.iso, |recs|) + Created(recs, k, responsable, clock)
  }

  // ---------------------------------------------------------------------
  // Properties of one reconciliation
  // ---------------------------------------------------------------------


  /** A type's code is among the rule-set codes exactly when the rules
      require that type. */
  lemma CodesExact(c: CaseView, t: AlertType)
    ensures t.Code() in Codes(RuleSet(c)) <==> Required(c, t)
  {
    var out := RuleSet(c);
    RuleSetExact(c);
    if t.Code() in Codes(out) {
      var s :| s in out && s.tipo.Code() == t.Code();
      var i :| 0 <= i < |out| && out[i] == s;
      CodeInjective(s.tipo, t);
      assert s.tipo in Types(out);
    }
    if Required(c, t) {
      assert t in Types(out);
      var i :| 0 <= i < |out| && out[i].tipo == t;
      assert out[i] in out;
    }
  }

  /** The closing predicates are the negations of the opening rules: a type
      the data resolves is not required. */
  lemma ResolvedNotRequired(c: CaseView, code: string)
    requires Resolved(c, code)
    ensures code !in Codes(RuleSet(c))
  {
    if code in Codes(RuleSet(c)) {
      var s :| s in RuleSet(c) && s.tipo.Code() == code;
      CodesExact(c, s.tipo);
    }
  }

  /** Step 2 closes an open row of the case exactly when its type is no
      longer required; the per-type resolution tests add nothing. */
  lemma ShouldCloseExactly(k: CaseInfo, a: Record)
    ensures ShouldClose(k, a) <==>
              && Field(a, "gestante_id") == k.gid
              && !IsTerminal(Field(a, "estado"))
              && Field(a, "tipo_alerta") !in Codes(RuleSet(k.view))
  {
    if Resolved(k.view, Field(a, "tipo_alerta")) {
      ResolvedNotRequired(k.view, Field(a, "tipo_alerta"));
    }
  }

  /** The columns of a new alert that the properties below talk about. */
  lemma NewAlertFields(k: CaseInfo, meta: AlertSpec, responsable: string, clock: Clock)
    ensures var a := NewAlert(k, meta, responsable, clock);
      && Field(a, "tipo_alerta") == meta.tipo.Code()
      && Field(a, "gestante_id") == k.gid
      && Field(a, "estado") == "ABIERTA"
      && Field(a, "resuelta") == ""
      && Field(a, "fecha_generacion") == clock.iso
      && Field(a, "responsable") == responsable
      && Field(a, "alerta_id") == IntToString(clock.millis) + "-" + meta.tipo.Code()
  {
    var row := NewAlertRow(k, meta, responsable, clock);
    AlertHeaderNames();
    AlertColumn(row, 0);
    AlertColumn(row, 1);
    AlertColumn(row, 3);
    AlertColumn(row, 5);
    AlertColumn(row, 7);
    AlertColumn(row, 9);
    AlertColumn(row, 16);
  }

  /** A row read under the alert headers holds each cell under its column. */
  lemma AlertColumn(row: seq<string>, i: nat)
    requires |row| == |ALERT_HEADERS| && i < |ALERT_HEADERS|
    ensures Field(RowToRecord(ALERT_HEADERS, row), ALERT_HEADERS[i]) == row[i]
  {
    AlertHeadersDistinct();
    assert ALERT_HEADERS[i] !in ALERT_HEADERS[i + 1..];
    RowToRecordAt(ALERT_HEADERS, row, i);
  }

  /** The rows step 1 appends, in order. */
  function Created(recs: seq<Record>, k: CaseInfo, responsable: string, clock: Clock): seq<Record>
  {
    NewAlerts(k, Missing(RuleSet(k.view), OpenTypes(recs, k.gid)), responsable, clock)
  }

  /** The `tipo_alerta` values of some alert rows. */
  function TypesOf(rows: seq<Record>): set<string>
  {
    set i | 0 <= i < |rows| :: Field(rows[i], "tipo_alerta")
  }

  /** Step 1 creates exactly the required types that have no open row for
      the case (with `CodesExact`, the required types are those whose rule
      holds). */
  lemma CreatesMissingTypes(recs: seq<Record>, k: CaseInfo, responsable: string, clock: Clock)
    ensures TypesOf(Created(recs, k, responsable, clock)) == Codes(RuleSet(k.view)) - OpenTypes(recs, k.gid)
  {
    MissingTypes(k, RuleSet(k.view), OpenTypes(recs, k.gid), responsable, clock);
  }

  lemma MissingTypes(k: CaseInfo, should: seq<AlertSpec>, open: set<string>, responsable: string, clock: Clock)
    ensures TypesOf(NewAlerts(k, Missing(should, open), responsable, clock)) == Codes(should) - open
  {
    NewAlertsTypes(k, Missing(should, open), responsable, clock);
    MissingCodes(should, open);
  }

  /** The codes of the missing specs are the required codes not open. */
  lemma MissingCodes(should: seq<AlertSpec>, open: set<string>)
    ensures Codes(Missing(should, open)) == Codes(should) - open
  {
  }

  /** The new rows carry the types of the specs they were made from. */
  lemma NewAlertsTypes(k: CaseInfo, specs: seq<AlertSpec>, responsable: string, clock: Clock)
    ensures TypesOf(NewAlerts(k, specs, responsable, clock)) == Codes(specs)
  {
    var created := NewAlerts(k, specs, responsable, clock);
    NewAlertsFields(k, specs, responsable, clock);
    forall code | code in Codes(specs)
      ensures code in TypesOf(created)
    {
      var i :| 0 <= i < |specs| && specs[i].tipo.Code() == code;
      assert Field(created[i], "tipo_alerta") == code;
    }
  }

  /** Every new row is open, unresolved and stamped with the case, the
      clock, the responsible user and the type it was created for. */
  lemma NewAlertsFields(k: CaseInfo, specs: seq<AlertSpec>, responsable: string, clock: Clock)
    ensures var rows := NewAlerts(k, specs, responsable, clock);
      forall i :: 0 <= i < |rows| ==>
        && Field(rows[i], "tipo_alerta") == specs[i].tipo.Code()
        && Field(rows[i], "gestante_id") == k.gid
        && Field(rows[i], "estado") == "ABIERTA"
        && Field(rows[i], "resuelta") == ""
        && Field(rows[i], "fecha_generacion") == clock.iso
        && Field(rows[i], "responsable") == responsable
        && Field(rows[i], "alerta_id") == IntToString(clock.millis) + "-" + Field(rows[i], "tipo_alerta")
  {
    forall i | 0 <= i < |specs| {
      NewAlertFields(k, specs[i], responsable, clock);
    }
  }

  /** Rows created from an ordered list have pairwise different types. */
  lemma NewAlertsDistinct(k: CaseInfo, specs: seq<AlertSpec>, responsable: string, clock: Clock)
    requires Ordered(specs)
    ensures var rows := NewAlerts(k, specs, responsable, clock);
      forall i, l :: 0 <= i < l < |rows| ==> Field(rows[i], "tipo_alerta") != Field(rows[l], "tipo_alerta")
  {
    var rows := NewAlerts(k, specs, responsable, clock);
    forall i, l | 0 <= i < l < |rows|
      ensures Field(rows[i], "tipo_alerta") != Field(rows[l], "tipo_alerta")
    {
      NewAlertFields(k, specs[i], responsable, clock);
      NewAlertFields(k, specs[l], responsable, clock);
      assert specs[i].tipo.Rank() < specs[l].tipo.Rank();
      CodeInjective(specs[i].tipo, specs[l].tipo);
    }
  }

  /** Step 1 creates each type at most once, each row open, unresolved and
      stamped with the case, the clock and the responsible user. */
  lemma CreatesOpenRows(recs: seq<Record>, k: CaseInfo, responsable: string, clock: Clock)
    ensures var created := Created(recs, k, responsable, clock);
      && (forall i, l :: 0 <= i < l < |created| ==> Field(created[i], "tipo_alerta") != Field(created[l], "tipo_alerta"))
      && (forall i :: 0 <= i < |created| ==>
            && Field(created[i], "gestante_id") == k.gid
            && Field(created[i], "estado") == "ABIERTA"
            && Field(created[i], "resuelta") == ""
            && Field(created[i], "fecha_generacion") == clock.iso
            && Field(created[i], "responsable") == responsable
            && Field(created[i], "alerta_id") == IntToString(clock.millis) + "-" + Field(created[i], "tipo_alerta"))
  {
    var should := RuleSet(k.view);
    var open := OpenTypes(recs, k.gid);
    RuleSetOrdered(k.view);
    MissingOrdered(should, open);
    NewAlertsFields(k, Missing(should, open), responsable, clock);
    NewAlertsDistinct(k, Missing(should, open), responsable, clock);
  }

  /** Step 2: a row of another case, or one already closed or expired, is
      left as it was; an open row of the case is closed exactly when its
      type is no longer required, and closing copies every other column. */
  lemma ReconcileCloses(recs: seq<Record>, k: CaseInfo, responsable: string, clock: Clock, j: nat)
    requires j < |recs|
    ensures var out := Reconciled(recs, k, responsable, clock);
      && (Field(recs[j], "gestante_id") != k.gid || IsTerminal(Field(recs[j], "estado")) ==> out[j] == recs[j])
      && (Field(recs[j], "gestante_id") == k.gid && !IsTerminal(Field(recs[j], "estado")) ==>
            out[j] == if Field(recs[j], "tipo_alerta") in Codes(RuleSet(k.view))
                      then recs[j] else Close(recs[j], clock.iso))
  {
    ClosePassAt(recs, k, clock.iso, |recs|);
    ShouldCloseExactly(k, recs[j]);
  }

  /** No case has two open alerts of one type. */
  predicate AtMostOneOpen(recs: seq<Record>)
  {
    forall i, j ::
      (0 <= i < j < |recs| && IsOpen(Field(recs[i], "estado")) && IsOpen(Field(recs[j], "estado")) &&
       Field(recs[i], "gestante_id") == Field(recs[j], "gestante_id")) ==>
        Field(recs[i], "tipo_alerta") != Field(recs[j], "tipo_alerta")
  }

  /** Closing some rows and appending open rows of one case with pairwise
      different types that have no open row yet keeps "at most one open
      alert per case and type". */
  lemma OneOpenAfterAppend(recs: seq<Record>, closed: seq<Record>, created: seq<Record>, gid: string)
    requires AtMostOneOpen(recs) && |closed| == |recs|
    requires forall i :: 0 <= i < |recs| ==> closed[i] == recs[i] || !IsOpen(Field(closed[i], "estado"))
    requires forall i :: 0 <= i < |created| ==>
               Field(created[i], "gestante_id") == gid && Field(created[i], "tipo_alerta") !in OpenTypes(recs, gid)
    requires forall i, l :: 0 <= i < l < |created| ==> Field(created[i], "tipo_alerta") != Field(created[l], "tipo_alerta")
    ensures AtMostOneOpen(closed + created)
  {
    var out := closed + created;
    var n := |recs|;
    forall i, j | 0 <= i < j < |out| && IsOpen(Field(out[i], "estado")) && IsOpen(Field(out[j], "estado")) &&
        Field(out[i], "gestante_id") == Field(out[j], "gestante_id")
      ensures Field(out[i], "tipo_alerta") != Field(out[j], "tipo_alerta")
    {
      if j >= n {
        assert out[j] == created[j - n];
      }
      if i >= n {
        assert out[i] == created[i - n];
      } else {
        assert out[i] == recs[i];
        if j < n {
          assert out[j] == recs[j];
        } else {
          assert recs[i] in recs;
        }
      }
    }
  }

  /** Reconciling keeps "at most one open alert per case and type". */
  lemma ReconcileKeepsOneOpen(recs: seq<Record>, k: CaseInfo, responsable: string, clock: Clock)
    requires AtMostOneOpen(recs)
    ensures AtMostOneOpen(Reconciled(recs, k, responsable, clock))
  {
    var closed := ClosePass(recs, k, clock.iso, |recs|);
    ClosePassAt(recs, k, clock.iso, |recs|);
    var created := Created(recs, k, responsable, clock);
    CreatesOpenRows(recs, k, responsable, clock);
    CreatesMissingTypes(recs, k, responsable, clock);
    forall i | 0 <= i < |created|
      ensures Field(created[i], "tipo_alerta") !in OpenTypes(recs, k.gid)
    {
      assert Field(created[i], "tipo_alerta") in TypesOf(created);
    }
    OneOpenAfterAppend(recs, closed, created, k.gid);
  }

  /** No row of `recs` is one that step 2 would close. */
  predicate NoneClose(recs: seq<Record>, k: CaseInfo)
  {
    forall j :: 0 <= j < |recs| ==> !ShouldClose(k, recs[j])
  }

  /** With nothing to close, step 2 leaves every row as it is. */
  lemma ClosePassNone(recs: seq<Record>, k: CaseInfo, iso: string)
    requires NoneClose(recs, k)
    ensures ClosePass(recs, k, iso, |recs|) == recs
  {
    ClosePassAt(recs, k, iso, |recs|);
  }

  /** With every required type open, step 1 creates nothing. */
  lemma MissingNone(should: seq<AlertSpec>, open: set<string>)
    requires forall s :: s in should ==> s.tipo.Code() in open
    ensures Missing(should, open) == []
  {
  }

  /** If the open rows of a case with a type in `codes` are kept and every
      other type in `codes` is appended as an open row of the case, every
      type in `codes` ends up open for the case. */
  lemma AllOpenAfterAppend(recs: seq<Record>, closed: seq<Record>, created: seq<Record>, gid: string, codes: set<string>)
    requires |closed| == |recs|
    requires forall i ::
               (0 <= i < |recs| && Field(recs[i], "gestante_id") == gid && IsOpen(Field(recs[i], "estado")) &&
                Field(recs[i], "tipo_alerta") in codes) ==> closed[i] == recs[i]
    requires codes - OpenTypes(recs, gid) <= TypesOf(created)
    requires forall i :: 0 <= i < |created| ==>
               Field(created[i], "gestante_id") == gid && Field(created[i], "estado") == "ABIERTA"
    ensures forall code :: code in codes ==> code in OpenTypes(closed + created, gid)
  {
    var out := closed + created;
    var n := |recs|;
    forall code | code in codes
      ensures code in OpenTypes(out, gid)
    {
      if code in OpenTypes(recs, gid) {
        var a :| a in recs && Field(a, "gestante_id") == gid && IsOpen(Field(a, "estado")) &&
                 Field(a, "tipo_alerta") == code;
        var i :| 0 <= i < n && recs[i] == a;
        assert out[i] == a;
        assert out[i] in out;
      } else {
        assert code in TypesOf(created);
        var i :| 0 <= i < |created| && Field(created[i], "tipo_alerta") == code;
        assert out[n + i] == created[i];
        assert out[n + i] in out;
      }
    }
  }

  /** After one reconciliation every required type has an open row of the
      case. */
  lemma RequiredAllOpen(recs: seq<Record>, k: CaseInfo, responsable: string, clock: Clock)
    ensures forall s :: s in RuleSet(k.view) ==> s.tipo.Code() in OpenTypes(Reconciled(recs, k, responsable, clock), k.gid)
  {
    var closed := ClosePass(recs, k, clock.iso, |recs|);
    ClosePassAt(recs, k, clock.iso, |recs|);
    var created := Created(recs, k, responsable, clock);
    var codes := Codes(RuleSet(k.view));
    CreatesOpenRows(recs, k, responsable, clock);
    CreatesMissingTypes(recs, k, responsable, clock);
    forall i | 0 <= i < |recs| && Field(recs[i], "gestante_id") == k.gid && IsOpen(Field(recs[i], "estado")) &&
        Field(recs[i], "tipo_alerta") in codes
      ensures closed[i] == recs[i]
    {
      ShouldCloseExactly(k, recs[i]);
    }
    AllOpenAfterAppend(recs, closed, created, k.gid, codes);
    forall s | s in RuleSet(k.view)
      ensures s.tipo.Code() in codes
    {
    }
  }

  /** After one reconciliation no row of the case is left to close. */
  lemma NothingLeftToClose(recs: seq<Record>, k: CaseInfo, responsable: string, clock: Clock)
    ensures NoneClose(Reconciled(recs, k, responsable, clock), k)
  {
    var out := Reconciled(recs, k, responsable, clock);
    var created := Created(recs, k, responsable, clock);
    var n := |recs|;
    ClosePassAt(recs, k, clock.iso, |recs|);
    CreatesOpenRows(recs, k, responsable, clock);
    CreatesMissingTypes(recs, k, responsable, clock);
    forall j | 0 <= j < |out|
      ensures !ShouldClose(k, out[j])
    {
      ShouldCloseExactly(k, out[j]);
      if j >= n {
        assert out[j] == created[j - n];
        assert Field(created[j - n], "tipo_alerta") in TypesOf(created);
      } else {
        ShouldCloseExactly(k, recs[j]);
      }
    }
  }

  /** Once reconciled, a case is stable: a second reconciliation against the
      same case data, at any later instant and by anyone, creates nothing
      and closes nothing. */
  lemma ReconcileIdempotent(recs: seq<Record>, k: CaseInfo, r1: string, c1: Clock, r2: string, c2: Clock)
    ensures NoneClose(Reconciled(recs, k, r1, c1), k)
    ensures Reconciled(Reconciled(recs, k, r1, c1), k, r2, c2) == Reconciled(recs, k, r1, c1)
  {
    var out := Reconciled(recs, k, r1, c1);
    NothingLeftToClose(recs, k, r1, c1);
    ClosePassNone(out, k, c2.iso);
    RequiredAllOpen(recs, k, r1, c1);
    MissingNone(RuleSet(k.view), OpenTypes(out, k.gid));
  }
}

module ReconcilerTab {
  import opened Base
  import opened Text
  import opened Sheets
  import opened AlertRules
  import opened Reconciler

  /** The alerts tab as the reconciler finds it: the alert columns, looked
      up by `alerta_id`, with the header row already written. */
  predicate AlertTab(tab: Tab)
    reads tab
  {
    tab.headers == ALERT_HEADERS && tab.keyName == "alerta_id" && |tab.sheet| >= 1 &&
    tab.Values()[0] == ALERT_HEADERS
  }

  /** Every data row has an `alerta_id` cell and no two rows share one. */
  predicate KeysUnique(sheet: seq<seq<string>>)
  {
    && (forall m :: 1 <= m < |sheet| ==> |sheet[m]| >= 1)
    && (forall m, m' :: 1 <= m < m' < |sheet| ==> sheet[m][0] != sheet[m'][0])
  }

  /** The first cell of every row of `before` is still there in `sheet`. */
  predicate KeysKept(sheet: seq<seq<string>>, before: seq<seq<string>>)
  {
    |sheet| >= |before| &&
    forall m :: 1 <= m < |before| && |before[m]| >= 1 ==> |sheet[m]| >= 1 && sheet[m][0] == before[m][0]
  }

  /** A row that step 2 has written. */
  predicate ClosedRow(a: Record)
  {
    Field(a, "estado") == "CERRADA" && Field(a, "resuelta") == "TRUE"
  }

  /** An alert with exactly the alert columns reads back as itself once
      written in header order. */
  lemma ReadBack(a: Record)
    requires a.Keys == set h | h in ALERT_HEADERS
    ensures RowToRecord(ALERT_HEADERS, RowValues(ALERT_HEADERS, a)) == a
  {
    AlertHeadersDistinct();
    RowValuesRoundTrip(ALERT_HEADERS, a);
  }

  /** The `alerta_id` of a record is the first cell of its row. */
  lemma RecordKey(before: seq<seq<string>>, j: nat)
    requires |before| >= 1 && Clip(before, |ALERT_HEADERS|)[0] == ALERT_HEADERS
    requires j + 1 < |before| && |before[j + 1]| >= 1
    ensures Field(ReadRecords(Clip(before, |ALERT_HEADERS|))[j], "alerta_id") == before[j + 1][0]
  {
    var v := Clip(before, |ALERT_HEADERS|);
    var row := v[j + 1];
    AlertHeadersDistinct();
    RowToRecordAt(ALERT_HEADERS, row, 0);
    assert "alerta_id" in RowToRecord(ALERT_HEADERS, row);
  }

  /** With unique keys, the key of data row `p` is found at sheet row
      `p + 1`, whatever has been appended below. */
  lemma FirstRowOfKey(sheet: seq<seq<string>>, before: seq<seq<string>>, hdr: seq<string>, keyName: string, p: nat)
    requires KeysUnique(before) && KeysKept(sheet, before)
    requires |hdr| >= 1 && hdr[0] == keyName
    requires |sheet| >= 1 && Clip(sheet, |hdr|)[0] == hdr
    requires 1 <= p < |before|
    ensures FirstKeyRow(Clip(sheet, |hdr|), keyName, before[p][0]) == Some(p + 1)
  {
    var v := Clip(sheet, |hdr|);
    var key := before[p][0];
    assert IndexOf(v[0], keyName) == Some(0);
    assert KeyColumn(v, keyName) == 0;
    assert RowHasKey(v[p], 0, key);
    forall m | 1 <= m < p
      ensures !RowHasKey(v[m], 0, key)
    {
      assert sheet[m][0] == before[m][0];
    }
    var r := FirstKeyRow(v, keyName, key);
    assert r.Some?;
  }

  /** Overwriting a row with cells that start with its own key keeps every
      key in place. */
  lemma KeptAfterOverwrite(sheet: seq<seq<string>>, before: seq<seq<string>>, p: nat, vals: seq<string>)
    requires KeysKept(sheet, before) && 1 <= p < |sheet|
    requires |vals| >= 1 && |sheet[p]| >= 1 && vals[0] == sheet[p][0]
    ensures KeysKept(sheet[p := Overwrite(sheet[p], vals)], before)
  {
  }

  /** Step 2 visiting one more row. */
  lemma ClosePassStep(recs: seq<Record>, k: CaseInfo, iso: string, j: nat)
    requires j < |recs|
    ensures ClosePass(recs, k, iso, j + 1) ==
              if ShouldClose(k, recs[j]) then ClosePass(recs, k, iso, j)[j := Close(recs[j], iso)]
              else ClosePass(recs, k, iso, j)
  {
    assert Stale(k, iso)(recs[j]) == CloseIfStale(k, iso, recs[j]);
    if !ShouldClose(k, recs[j]) {
      MapPrefixAt(recs, Stale(k, iso), j, j);
      assert ClosePass(recs, k, iso, j)[j := recs[j]] == ClosePass(recs, k, iso, j);
    }
  }

  lemma NewAlertsSnoc(k: CaseInfo, specs: seq<AlertSpec>, x: AlertSpec, responsable: string, clock: Clock)
    ensures NewAlerts(k, specs + [x], responsable, clock) ==
              NewAlerts(k, specs, responsable, clock) + [NewAlert(k, x, responsable, clock)]
  {
  }

  lemma MissingSnoc(should: seq<AlertSpec>, i: nat, open: set<string>)
    requires i < |should|
    ensures Missing(should[..i + 1], open) ==
              Missing(should[..i], open) + if should[i].tipo.Code() !in open then [should[i]] else []
  {
    assert should[..i + 1][..i] == should[..i];
  }

  /** `after` is `before` with some records replaced by `x`. */
  predicate ChangedOnlyTo(before: seq<Record>, after: seq<Record>, x: Record)
  {
    |after| == |before| && forall m :: 0 <= m < |before| ==> after[m] == before[m] || after[m] == x
  }

  /** `after` is `before` with some records replaced by closed ones. */
  predicate OnlyClosed(before: seq<Record>, after: seq<Record>)
  {
    |after| == |before| && forall m :: 0 <= m < |before| ==> after[m] == before[m] || ClosedRow(after[m])
  }

  lemma UpdateChangesOnly(recs: seq<Record>, p: nat, x: Record)
    requires p < |recs|
    ensures ChangedOnlyTo(recs, recs[p := x], x)
  {
  }

  lemma NothingChanged(recs: seq<Record>, x: Record)
    ensures ChangedOnlyTo(recs, recs, x)
  {
  }

  lemma OnlyClosedStep(start: seq<Record>, mid: seq<Record>, after: seq<Record>, x: Record)
    requires OnlyClosed(start, mid) && ChangedOnlyTo(mid, after, x) && ClosedRow(x)
    ensures OnlyClosed(start, after)
  {
  }

  /** Appending below the rows of `before` keeps their keys. */
  lemma PrefixKeepsKeys(sheet: seq<seq<string>>, before: seq<seq<string>>)
    requires |sheet| >= |before| && sheet[..|before|] == before
    ensures KeysKept(sheet, before)
  {
    forall m | 1 <= m < |before| && |before[m]| >= 1
      ensures |sheet[m]| >= 1 && sheet[m][0] == before[m][0]
    {
      assert sheet[m] == sheet[..|before|][m];
    }
  }

  lemma UpdateConcat<T>(a: seq<T>, b: seq<T>, j: nat, x: T)
    requires j < |a|
    ensures (a + b)[j := x] == a[j := x] + b
  {
  }

  /** One turn of step 1: the records so far plus the alert for
      `should[i]` when its type has no open row. */
  lemma AppendStep(R0: seq<Record>, should: seq<AlertSpec>, i: nat, open: set<string>, k: CaseInfo,
                   responsable: string, clock: Clock, after: seq<Record>)
    requires i < |should|
    requires after == R0 + NewAlerts(k, Missing(should[..i], open), responsable, clock) +
                      if should[i].tipo.Code() !in open then [NewAlert(k, should[i], responsable, clock)] else []
    ensures after == R0 + NewAlerts(k, Missing(should[..i + 1], open), responsable, clock)
  {
    MissingSnoc(should, i, open);
    NewAlertsSnoc(k, Missing(should[..i], open), should[i], responsable, clock);
  }

  /** One turn of step 1: the alert for `meta` is appended when its type
      has no open row. */
  method AppendIfMissing(tab: Tab, k: CaseInfo, meta: AlertSpec, open: set<string>,
                         responsable: string, clock: Clock)
    requires tab.Valid() && AlertTab(tab)
    modifies tab
    ensures tab.Valid() && AlertTab(tab)
    ensures |tab.sheet| >= |old(tab.sheet)| && tab.sheet[..|old(tab.sheet)|] == old(tab.sheet)
    ensures tab.Records() == old(tab.Records()) +
              if meta.tipo.Code() !in open then [NewAlert(k, meta, responsable, clock)] else []
  {
    if meta.tipo.Code() !in open {
      var alerta := NewAlert(k, meta, responsable, clock);
      tab.AppendRow(alerta);
      ReadBack(alerta);
    }
  }

  /** Step 1 of `upsert_alerts_for_gestante`: one new row per required
      alert type that has no open row, in rule order. */
  method AppendMissing(tab: Tab, k: CaseInfo, should: seq<AlertSpec>, open: set<string>,
                       responsable: string, clock: Clock)
    requires tab.Valid() && AlertTab(tab)
    modifies tab
    ensures tab.Valid() && AlertTab(tab)
    ensures |tab.sheet| >= |old(tab.sheet)| && tab.sheet[..|old(tab.sheet)|] == old(tab.sheet)
    ensures tab.Records() == old(tab.Records()) + NewAlerts(k, Missing(should, open), responsable, clock)
  {
    ghost var R0 := tab.Records();
    ghost var S0 := tab.sheet;
    var i := 0;
    while i < |should|
      invariant 0 <= i <= |should|
      invariant tab.Valid() && AlertTab(tab)
      invariant |tab.sheet| >= |S0| && tab.sheet[..|S0|] == S0
      invariant tab.Records() == R0 + NewAlerts(k, Missing(should[..i], open), responsable, clock)
    {
      ghost var S := tab.sheet;
      AppendIfMissing(tab, k, should[i], open, responsable, clock);
      assert tab.sheet[..|S0|] == S0 by {
        assert tab.sheet[..|S|][..|S0|] == S[..|S0|];
      }
      AppendStep(R0, should, i, open, k, responsable, clock, tab.Records());
      i := i + 1;
    }
    assert should[..i] == should;
  }

  /** A record written in header order reads back as its projection. */
  lemma RecordsUpdated(hdr: seq<string>, recs0: seq<Record>, recs1: seq<Record>, p: nat, upd: Record)
    requires Distinct(hdr) && p < |recs0|
    requires recs1 == recs0[p := RowToRecord(hdr, RowValues(hdr, upd))]
    ensures recs1 == recs0[p := Project(upd, hdr)]
    ensures ChangedOnlyTo(recs0, recs1, Project(upd, hdr))
  {
    RowValuesRoundTrip(hdr, upd);
    UpdateChangesOnly(recs0, p, Project(upd, hdr));
  }

  /** Rewriting data row `j` with a record that keeps its key keeps every
      key of the snapshot in place. */
  lemma KeyStaysAfterWrite(sheet: seq<seq<string>>, after: seq<seq<string>>, before: seq<seq<string>>,
                           hdr: seq<string>, keyName: string, j: nat, key: string, upd: Record)
    requires KeysUnique(before) && KeysKept(sheet, before) && j + 1 < |before| && key == before[j + 1][0]
    requires |hdr| >= 1 && hdr[0] == keyName && GetOr(upd, keyName, "") == key
    requires after == sheet[j + 1 := Overwrite(sheet[j + 1], RowValues(hdr, upd))]
    ensures KeysKept(after, before)
  {
    KeptAfterOverwrite(sheet, before, j + 1, RowValues(hdr, upd));
  }

  /** Where the lookup of `UpdateRowById` lands when the snapshot's ids are
      unique and still in place: on the row of data record `j`. */
  lemma Locate(sheet: seq<seq<string>>, before: seq<seq<string>>, hdr: seq<string>, keyName: string,
               j: nat, key: string)
    requires |hdr| >= 1 && hdr[0] == keyName
    requires |sheet| >= 1 && Clip(sheet, |hdr|)[0] == hdr
    ensures KeysUnique(before) && KeysKept(sheet, before) && j + 1 < |before| && key == before[j + 1][0] ==>
              FirstKeyRow(Clip(sheet, |hdr|), keyName, key) == Some(j + 2)
  {
    if KeysUnique(before) && KeysKept(sheet, before) && j + 1 < |before| && key == before[j + 1][0] {
      FirstRowOfKey(sheet, before, hdr, keyName, j + 1);
    }
  }

  /** What `UpdateRowById` means for the records of a tab whose header
      row is `hdr`, given the outcome `r` of its lookup and the records
      before (`recs0`) and after (`recs1`) the call: at most the record found
      changes, and it becomes `upd` restricted to the columns. */
  lemma UpdateFacts(hdr: seq<string>, row0: seq<string>, recs0: seq<Record>, recs1: seq<Record>, upd: Record,
                    r: Option<nat>, status: Status)
    requires Distinct(hdr) && row0 == hdr
    requires r.None? ==> status == NotFound && recs1 == recs0
    requires r.Some? ==>
               && status == Done
               && 2 <= r.value <= |recs0| + 1
               && recs1 == recs0[r.value - 2 := RowToRecord(row0, RowValues(hdr, upd))]
    ensures ChangedOnlyTo(recs0, recs1, Project(upd, hdr))
    ensures status == NotFound ==> recs1 == recs0
  {
    if r.Some? {
      RecordsUpdated(hdr, recs0, recs1, r.value - 2, upd);
    } else {
      NothingChanged(recs0, Project(upd, hdr));
    }
  }

  /** The same call when the lookup lands on data record `j` (`r` is
      `Some(j + 2)`): that record is the one rewritten, and when `upd` keeps
      the key every key of the snapshot `before` stays in place. */
  lemma UpdateOwnFacts(hdr: seq<string>, sheet0: seq<seq<string>>, recs0: seq<Record>,
                       sheet1: seq<seq<string>>, recs1: seq<Record>, keyName: string, key: string,
                       upd: Record, before: seq<seq<string>>, j: nat)
    requires |hdr| >= 1 && Distinct(hdr) && hdr[0] == keyName
    requires KeysUnique(before) && KeysKept(sheet0, before) && j + 1 < |before| && key == before[j + 1][0]
    requires j < |recs0| && |sheet0| == |recs0| + 1
    requires sheet1 == sheet0[j + 1 := Overwrite(sheet0[j + 1], RowValues(hdr, upd))]
    requires recs1 == recs0[j := RowToRecord(hdr, RowValues(hdr, upd))]
    ensures recs1 == recs0[j := Project(upd, hdr)]
    ensures GetOr(upd, keyName, "") == key ==> KeysKept(sheet1, before)
  {
    RecordsUpdated(hdr, recs0, recs1, j, upd);
    if GetOr(upd, keyName, "") == key {
      KeyStaysAfterWrite(sheet0, sheet1, before, hdr, keyName, j, key, upd);
    }
  }

  /** The write of `UpdateRowById` restated for a lookup that landed on
      data record `j`. */
  lemma WriteAt(hdr: seq<string>, row0: seq<string>, sheet0: seq<seq<string>>, recs0: seq<Record>,
                sheet1: seq<seq<string>>, recs1: seq<Record>, upd: Record, r: Option<nat>, j: nat)
    requires row0 == hdr && r == Some(j + 2) && 2 <= r.value <= |recs0| + 1 && |sheet0| == |recs0| + 1
    requires sheet1 == sheet0[r.value - 1 := Overwrite(sheet0[r.value - 1], RowValues(hdr, upd))]
    requires recs1 == recs0[r.value - 2 := RowToRecord(row0, RowValues(hdr, upd))]
    ensures j < |recs0|
    ensures sheet1 == sheet0[j + 1 := Overwrite(sheet0[j + 1], RowValues(hdr, upd))]
    ensures recs1 == recs0[j := RowToRecord(hdr, RowValues(hdr, upd))]
  {
    var n := r.value;
    assert n - 2 == j && n - 1 == j + 1;
  }

  /** `update_alert_by_id`: rewrites the first row whose `alerta_id` cell is
      `alertaId` with `upd` laid out in the alert columns, or reports that no
      row carries that id (where the source raises). At most that one record
      changes, and it becomes `upd` restricted to the alert columns. The ghost
      `before`/`j` name a snapshot of the sheet and a data row of it: when the
      snapshot's ids are unique and still in place and `alertaId` is the id
      of row `j`, it is that record which is rewritten. */
  method UpdateAlertById(tab: Tab, alertaId: string, upd: Record, ghost before: seq<seq<string>>, ghost j: nat)
    returns (status: Status)
    requires tab.Valid() && AlertTab(tab)
    modifies tab
    ensures tab.Valid() && AlertTab(tab)
    ensures ChangedOnlyTo(old(tab.Records()), tab.Records(), Project(upd, tab.headers))
    ensures status == NotFound ==> tab.Records() == old(tab.Records())
    ensures KeysUnique(before) && KeysKept(old(tab.sheet), before) && j + 1 < |before| &&
            alertaId == before[j + 1][0] ==>
              && status == Done
              && tab.Records() == old(tab.Records())[j := Project(upd, tab.headers)]
              && (GetOr(upd, tab.keyName, "") == alertaId ==> KeysKept(tab.sheet, before))
  {
    ghost var sheet0 := tab.sheet;
    ghost var recs0 := tab.Records();
    ghost var own := KeysUnique(before) && KeysKept(sheet0, before) && j + 1 < |before| &&
                     alertaId == before[j + 1][0];
    AlertHeadersDistinct();
    Locate(sheet0, before, tab.headers, tab.keyName, j, alertaId);
    ghost var r;
    status, r := tab.UpdateRowById(alertaId, upd);
    UpdateFacts(tab.headers, tab.Values()[0], recs0, tab.Records(), upd, r, status);
    if own {
      WriteAt(tab.headers, tab.Values()[0], sheet0, recs0, tab.sheet, tab.Records(), upd, r, j);
      UpdateOwnFacts(tab.headers, sheet0, recs0, tab.sheet, tab.Records(), tab.keyName, alertaId, upd, before, j);
    }
  }

  /** A closed alert keeps its id, counts as closed and is already laid
      out in the alert columns. */
  lemma CloseFacts(a: Record, iso: string)
    ensures Field(Close(a, iso), "alerta_id") == Field(a, "alerta_id")
    ensures ClosedRow(Close(a, iso))
    ensures Project(Close(a, iso), ALERT_HEADERS) == Close(a, iso)
  {
    assert "alerta_id" == ALERT_HEADERS[0];
    ProjectOwnColumns(Close(a, iso), ALERT_HEADERS);
  }

  /** The ids of the records `all` are the first cells of the data rows
      of `before`, wherever those cells exist. */
  predicate IdsFrom(all: seq<Record>, before: seq<seq<string>>)
  {
    |before| == |all| + 1 &&
    forall j :: 0 <= j < |all| && |before[j + 1]| >= 1 ==> Field(all[j], "alerta_id") == before[j + 1][0]
  }

  /** The records read from a sheet carry the sheet's ids. */
  lemma IdsOfRecords(before: seq<seq<string>>)
    requires |before| >= 1 && Clip(before, |ALERT_HEADERS|)[0] == ALERT_HEADERS
    ensures IdsFrom(ReadRecords(Clip(before, |ALERT_HEADERS|)), before)
  {
    var all := ReadRecords(Clip(before, |ALERT_HEADERS|));
    forall j | 0 <= j < |all| && |before[j + 1]| >= 1
      ensures Field(all[j], "alerta_id") == before[j + 1][0]
    {
      RecordKey(before, j);
    }
  }

  lemma OwnId(all: seq<Record>, before: seq<seq<string>>, j: nat)
    requires IdsFrom(all, before) && KeysUnique(before) && j < |all|
    ensures j + 1 < |before| && Field(all[j], "alerta_id") == before[j + 1][0]
  {
  }

  /** The decision step 2 takes for one row is `ShouldClose`. */
  lemma Decision(k: CaseInfo, a: Record, shouldTypes: set<string>, resolved: bool)
    requires shouldTypes == Codes(RuleSet(k.view))
    requires resolved == Resolved(k.view, Field(a, "tipo_alerta"))
    ensures ShouldClose(k, a) <==>
              Field(a, "gestante_id") == k.gid && !IsTerminal(Field(a, "estado")) &&
              (Field(a, "tipo_alerta") !in shouldTypes || resolved)
  {
  }

  lemma NotCaseRow(k: CaseInfo, a: Record)
    requires !(Field(a, "gestante_id") == k.gid && !IsTerminal(Field(a, "estado")))
    ensures !ShouldClose(k, a)
  {
  }

  /** Before step 2 visits any row, the tab holds the records read at the
      start followed by those step 1 appended. */
  lemma StartPass(all: seq<Record>, rest: seq<Record>, recs: seq<Record>, k: CaseInfo, iso: string)
    requires |recs| >= |all| && recs[..|all|] == all && rest == recs[|all|..]
    ensures OnlyClosed(recs, recs)
    ensures recs == ClosePass(all, k, iso, 0) + rest
  {
    assert recs == all + rest;
  }

  lemma NoneCloseAt(recs: seq<Record>, k: CaseInfo, j: nat)
    requires NoneClose(recs, k) && j < |recs|
    ensures !ShouldClose(k, recs[j])
  {
  }

  /** Step 2 visiting row `j`: the row is closed when it should close and
      left alone otherwise. */
  lemma PassStep(all: seq<Record>, k: CaseInfo, iso: string, j: nat, rest: seq<Record>,
                 cur: seq<Record>, next: seq<Record>)
    requires j < |all| && cur == ClosePass(all, k, iso, j) + rest
    requires ShouldClose(k, all[j]) ==> next == cur[j := Close(all[j], iso)]
    requires !ShouldClose(k, all[j]) ==> next == cur
    ensures next == ClosePass(all, k, iso, j + 1) + rest
  {
    ClosePassStep(all, k, iso, j);
    if ShouldClose(k, all[j]) {
      UpdateConcat(ClosePass(all, k, iso, j), rest, j, Close(all[j], iso));
    }
  }

  /** One turn of step 2 on the alert `a` read at the start (data record
      `j` of the snapshot `before`): when `a` belongs to the case, is not
      terminal, and is no longer required or is resolved, it is closed
      through `update_alert_by_id`; otherwise nothing is written. */
  method VisitRow(tab: Tab, k: CaseInfo, a: Record, shouldTypes: set<string>, iso: string,
                  ghost before: seq<seq<string>>, ghost j: nat)
    returns (status: Status)
    requires tab.Valid() && AlertTab(tab)
    requires shouldTypes == Codes(RuleSet(k.view))
    modifies tab
    ensures tab.Valid() && AlertTab(tab)
    ensures !ShouldClose(k, a) ==> status == Done && tab.sheet == old(tab.sheet) && tab.Records() == old(tab.Records())
    ensures ShouldClose(k, a) ==> ChangedOnlyTo(old(tab.Records()), tab.Records(), Close(a, iso))
    ensures status == NotFound ==> tab.Records() == old(tab.Records())
    ensures ShouldClose(k, a) && KeysUnique(before) && KeysKept(old(tab.sheet), before) &&
            j + 1 < |before| && Field(a, "alerta_id") == before[j + 1][0] ==>
              && status == Done
              && tab.Records() == old(tab.Records())[j := Close(a, iso)]
              && KeysKept(tab.sheet, before)
  {
    status := Done;
    var t := Field(a, "tipo_alerta");
    if Field(a, "gestante_id") == k.gid && !IsTerminal(Field(a, "estado")) {
      var resolved := Resolved(k.view, t);
      Decision(k, a, shouldTypes, resolved);
      if t !in shouldTypes || resolved {
        var upd := Close(a, iso);
        CloseFacts(a, iso);
        status := UpdateAlertById(tab, Field(a, "alerta_id"), upd, before, j);
      }
    } else {
      NotCaseRow(k, a);
    }
  }

  /** One iteration of step 2's loop over the records read at the start:
      visits record `j` of `all` and keeps what the loop maintains (only
      closings since `R1`, the ids in place, and, in the `exact` case, the
      tab holding `ClosePass` of the visited prefix). */
  method StepRow(tab: Tab, k: CaseInfo, all: seq<Record>, shouldTypes: set<string>, iso: string,
                 ghost before: seq<seq<string>>, j: nat, ghost R1: seq<Record>, ghost rest: seq<Record>,
                 ghost exact: bool)
    returns (status: Status)
    requires tab.Valid() && AlertTab(tab)
    requires shouldTypes == Codes(RuleSet(k.view))
    requires IdsFrom(all, before) && j < |all|
    requires exact == (KeysUnique(before) || NoneClose(all, k))
    requires OnlyClosed(R1, tab.Records())
    requires KeysUnique(before) ==> KeysKept(tab.sheet, before)
    requires exact ==> tab.Records() == ClosePass(all, k, iso, j) + rest
    modifies tab
    ensures tab.Valid() && AlertTab(tab)
    ensures OnlyClosed(R1, tab.Records())
    ensures KeysUnique(before) ==> KeysKept(tab.sheet, before)
    ensures exact ==> status == Done && tab.Records() == ClosePass(all, k, iso, j + 1) + rest
  {
    ghost var cur := tab.Records();
    status := VisitRow(tab, k, all[j], shouldTypes, iso, before, j);
    ghost var next := tab.Records();
    if exact {
      if KeysUnique(before) {
        OwnId(all, before, j);
      } else {
        NoneCloseAt(all, k, j);
      }
      assert status == Done;
      PassStep(all, k, iso, j, rest, cur, next);
    }
    if ShouldClose(k, all[j]) {
      CloseFacts(all[j], iso);
      OnlyClosedStep(R1, cur, next, Close(all[j], iso));
    }
  }

  /** Step 2 of `upsert_alerts_for_gestante`: walks the records read at the
      start (`all`, the first |all| records of the tab) and closes those of
      the case that are no longer required or are resolved; a failed lookup
      ends the run with `NotFound`. `IdsFrom` says where the ids of `all`
      sit in the snapshot `before`. */
  method CloseStale(tab: Tab, k: CaseInfo, all: seq<Record>, shouldTypes: set<string>,
                    iso: string, ghost before: seq<seq<string>>)
    returns (status: Status)
    requires tab.Valid() && AlertTab(tab)
    requires shouldTypes == Codes(RuleSet(k.view))
    requires IdsFrom(all, before)
    requires |tab.Records()| >= |all| && tab.Records()[..|all|] == all
    requires KeysUnique(before) ==> KeysKept(tab.sheet, before)
    modifies tab
    ensures tab.Valid() && AlertTab(tab)
    ensures OnlyClosed(old(tab.Records()), tab.Records())
    ensures KeysUnique(before) || NoneClose(all, k) ==>
              status == Done && tab.Records() == ClosePass(all, k, iso, |all|) + old(tab.Records())[|all|..]
  {
    ghost var R1 := tab.Records();
    ghost var rest := R1[|all|..];
    ghost var exact := KeysUnique(before) || NoneClose(all, k);
    StartPass(all, rest, R1, k, iso);
    status := Done;
    var j: nat := 0;
    while j < |all| && status == Done
      invariant 0 <= j <= |all|
      invariant tab.Valid() && AlertTab(tab)
      invariant OnlyClosed(R1, tab.Records())
      invariant KeysUnique(before) ==> KeysKept(tab.sheet, before)
      invariant exact ==> status == Done && tab.Records() == ClosePass(all, k, iso, j) + rest
    {
      status := StepRow(tab, k, all, shouldTypes, iso, before, j, R1, rest, exact);
      assert exact ==> status == Done && tab.Records() == ClosePass(all, k, iso, j + 1) + rest;
      j := j + 1;
    }
  }

  /** `upsert_alerts_for_gestante`: step 1 appends the missing alerts, step
      2 walks the rows read at the start and closes, by `alerta_id`, each row
      of the case that is stale. Whatever the tab holds, no row is removed
      and an old row only ever changes by being closed; when the `alerta_id`
      cells are unique (or nothing needs closing) the run succeeds and the
      tab ends up holding `Reconciled` of what it held. */
  method UpsertAlerts(tab: Tab, gest: Record, responsable: string, clock: Clock) returns (status: Status)
    requires tab.Valid() && AlertTab(tab)
    modifies tab
    ensures tab.Valid() && AlertTab(tab)
    ensures |tab.Records()| >= |old(tab.Records())|
    ensures forall j :: 0 <= j < |old(tab.Records())| ==>
              tab.Records()[j] == old(tab.Records())[j] || ClosedRow(tab.Records()[j])
    ensures KeysUnique(old(tab.sheet)) || NoneClose(old(tab.Records()), InfoOf(gest)) ==>
              status == Done && tab.Records() == Reconciled(old(tab.Records()), InfoOf(gest), responsable, clock)
  {
    ghost var R0 := tab.Records();
    ghost var S0 := tab.sheet;
    var all := tab.ReadAll(clock.seconds);
    var k := InfoOf(gest);
    var should := GenerateAlertTypes(gest);
    var shouldTypes := Codes(should);
    var open := OpenTypes(all, k.gid);
    AppendMissing(tab, k, should, open, responsable, clock);
    ghost var R1 := tab.Records();
    assert R1[..|all|] == all;
    PrefixKeepsKeys(tab.sheet, S0);
    IdsOfRecords(S0);
    status := CloseStale(tab, k, all, shouldTypes, clock.iso, S0);
    assert R1[|all|..] == Created(R0, k, responsable, clock);
  }
}
