/** The alert queries (app/alerts.py): the number of open alerts of each
    case on a page, and the per-type summary of detected, resolved and
    pending alerts over a period. */
module AlertQueries {
  import opened Base
  import opened Text
  import opened Sheets
  import opened Reconciler

  // ---------------------------------------------------------------------
  // Open alerts per case
  // ---------------------------------------------------------------------

  /** An alert counts for `gid` when its `gestante_id`, stripped, is `gid`
      and it is open. */
  predicate OpenFor(a: Record, gid: string)
  {
    Strip(Field(a, "gestante_id")) == gid && IsOpen(Field(a, "estado"))
  }

  /** How many of `alerts` are open for `gid`. */
  function OpenCount(alerts: seq<Record>, gid: string): (n: nat)
    ensures n <= |alerts|
    ensures n == 0 <==> forall j :: 0 <= j < |alerts| ==> !OpenFor(alerts[j], gid)
  {
    CountNone(alerts, a => OpenFor(a, gid));
    Count(alerts, a => OpenFor(a, gid))
  }

  /** One more alert adds one to a case's count exactly when it is open
      for the case. */
  lemma OpenCountSnoc(alerts: seq<Record>, i: int, gid: string)
    requires 0 <= i < |alerts|
    ensures OpenCount(alerts[..i + 1], gid) == OpenCount(alerts[..i], gid) + if OpenFor(alerts[i], gid) then 1 else 0
  {
    assert alerts[..i + 1][..i] == alerts[..i];
  }

  /** `count_open_alerts_by_gestante_ids` over the alerts read from the tab:
      one entry per requested id, each the number of that case's open
      alerts. */
  method CountOpenByIds(alerts: seq<Record>, ids: seq<string>) returns (counts: map<string, nat>)
    ensures counts.Keys == set id | id in ids
    ensures forall id :: id in counts ==> counts[id] == OpenCount(alerts, id)
  {
    counts := map id | id in ids :: 0;
    var i := 0;
    while i < |alerts|
      invariant 0 <= i <= |alerts|
      invariant counts.Keys == set id | id in ids
      invariant forall id :: id in counts ==> counts[id] == OpenCount(alerts[..i], id)
    {
      var a := alerts[i];
      var gid := Strip(Field(a, "gestante_id"));
      forall id | id in counts
        ensures OpenCount(alerts[..i + 1], id) == OpenCount(alerts[..i], id) + if OpenFor(a, id) then 1 else 0
      {
        OpenCountSnoc(alerts, i, id);
      }
      if gid in counts && IsOpen(Field(a, "estado")) {
        counts := counts[gid := counts[gid] + 1];
      }
      i := i + 1;
    }
    assert alerts[..i] == alerts;
  }

  /** Counting is additive over a table split in two, so the alerts that a
      write appends add exactly their own open ones. */
  lemma OpenCountConcat(xs: seq<Record>, ys: seq<Record>, gid: string)
    ensures OpenCount(xs + ys, gid) == OpenCount(xs, gid) + OpenCount(ys, gid)
  {
    CountConcat(xs, ys, a => OpenFor(a, gid));
  }

  // ---------------------------------------------------------------------
  // Summary per alert type
  // ---------------------------------------------------------------------

  /** A `datetime` as `fromisoformat` gives it: with a UTC offset
      (aware) or without one (naive), and its position in time. Python
      compares two of them only when both are aware or both naive. */
  datatype Stamp = Stamp(aware: bool, at: int)

  predicate Comparable(a: Stamp, b: Stamp)
  {
    a.aware == b.aware
  }

  /** The bounds of a summary. `desde` and `hasta` are the query texts, with
      "" for an absent bound (`None` and "" behave alike); `parse` stands for
      `datetime.fromisoformat`, giving a stamp or nothing when the text
      does not parse. */
  datatype Window = Window(desde: string, hasta: string, parse: string -> Option<Stamp>)

  /** Whether a bound excludes a date: the bound is given, parses and can
      be compared with the date, and the date lies beyond it. A bound for
      which any of this fails raises inside a bare `except` and is
      ignored. */
  predicate Before(w: Window, dt: Stamp)
  {
    w.desde != "" && w.parse(w.desde).Some? && Comparable(dt, w.parse(w.desde).value) &&
    dt.at < w.parse(w.desde).value.at
  }

  predicate After(w: Window, dt: Stamp)
  {
    w.hasta != "" && w.parse(w.hasta).Some? && Comparable(dt, w.parse(w.hasta).value) &&
    dt.at > w.parse(w.hasta).value.at
  }

  /** `in_range`: with no bound every alert is in; otherwise an alert whose
      date does not parse is out, and a bound that does not parse, or that
      cannot be compared with the date, is ignored. */
  predicate InRange(w: Window, iso: string)
  {
    if w.desde == "" && w.hasta == "" then true
    else match w.parse(iso)
      case None => false
      case Some(dt) => !Before(w, dt) && !After(w, dt)
  }

  predicate Kept(w: Window, a: Record)
  {
    InRange(w, Field(a, "fecha_generacion"))
  }

  /** Closed with `resuelta` equal to "TRUE" ignoring case. */
  predicate IsResolvedAlert(a: Record)
  {
    Field(a, "estado") == "CERRADA" && Upper(Field(a, "resuelta")) == "TRUE"
  }

  /** The three counters of a type's summary. */
  datatype Column = Detectadas | Resueltas | Pendientes

  predicate Hits(col: Column, a: Record)
  {
    match col
    case Detectadas => true
    case Resueltas => IsResolvedAlert(a)
    case Pendientes => !IsResolvedAlert(a) && IsOpen(Field(a, "estado"))
  }

  /** How many alerts of type `t` inside the window hit column `col`. */
  function Tally(alerts: seq<Record>, w: Window, t: string, col: Column): nat
  {
    if alerts == [] then 0
    else
      var a := alerts[|alerts| - 1];
      Tally(alerts[..|alerts| - 1], w, t, col) +
        if Kept(w, a) && Field(a, "tipo_alerta") == t && Hits(col, a) then 1 else 0
  }

  datatype Counts = Counts(detectadas: nat, resueltas: nat, pendientes: nat)

  function CountsOf(alerts: seq<Record>, w: Window, t: string): Counts
  {
    Counts(Tally(alerts, w, t, Detectadas), Tally(alerts, w, t, Resueltas), Tally(alerts, w, t, Pendientes))
  }

  /** The types of the alerts inside the window. */
  function TypesSeen(alerts: seq<Record>, w: Window): set<string>
  {
    set j | 0 <= j < |alerts| && Kept(w, alerts[j]) :: Field(alerts[j], "tipo_alerta")
  }

  /** A type with no alert inside the window has every counter at 0. */
  lemma {:induction false} TallyUnseen(alerts: seq<Record>, w: Window, t: string, col: Column)
    requires t !in TypesSeen(alerts, w)
    ensures Tally(alerts, w, t, col) == 0
  {
    if alerts != [] {
      var init := alerts[..|alerts| - 1];
      forall j | 0 <= j < |init| && Kept(w, init[j])
        ensures Field(init[j], "tipo_alerta") != t
      {
        assert alerts[j] == init[j];
      }
      TallyUnseen(init, w, t, col);
    }
  }

  lemma TypesSeenSnoc(alerts: seq<Record>, i: nat, w: Window)
    requires i < |alerts|
    ensures TypesSeen(alerts[..i + 1], w) ==
              TypesSeen(alerts[..i], w) + if Kept(w, alerts[i]) then {Field(alerts[i], "tipo_alerta")} else {}
  {
    var pre := alerts[..i + 1];
    forall t | t in TypesSeen(pre, w)
      ensures t in TypesSeen(alerts[..i], w) || (Kept(w, alerts[i]) && t == Field(alerts[i], "tipo_alerta"))
    {
      var j :| 0 <= j < |pre| && Kept(w, pre[j]) && Field(pre[j], "tipo_alerta") == t;
      if j < i {
        assert alerts[..i][j] == pre[j];
      }
    }
    forall t | t in TypesSeen(alerts[..i], w)
      ensures t in TypesSeen(pre, w)
    {
      var j :| 0 <= j < i && Kept(w, alerts[..i][j]) && Field(alerts[..i][j], "tipo_alerta") == t;
      assert pre[j] == alerts[..i][j];
    }
    if Kept(w, alerts[i]) {
      assert pre[i] == alerts[i];
    }
  }

  /** The counters of type `t` once alert `a` is counted. */
  function Bump(c: Counts, w: Window, t: string, a: Record): Counts
  {
    if Kept(w, a) && Field(a, "tipo_alerta") == t then
      Counts(c.detectadas + 1,
             c.resueltas + (if Hits(Resueltas, a) then 1 else 0),
             c.pendientes + (if Hits(Pendientes, a) then 1 else 0))
    else c
  }

  /** One more alert moves only the counters of its own type, and only when
      it falls inside the window. */
  lemma CountsSnoc(alerts: seq<Record>, i: nat, w: Window)
    requires i < |alerts|
    ensures forall t :: CountsOf(alerts[..i + 1], w, t) == Bump(CountsOf(alerts[..i], w, t), w, t, alerts[i])
  {
    var pre := alerts[..i + 1];
    assert pre[..|pre| - 1] == alerts[..i];
    assert pre[|pre| - 1] == alerts[i];
  }

  /** `out` is the summary of `xs`: one entry per type seen inside the
      window, holding that type's counters. */
  ghost predicate Summarises(out: map<string, Counts>, xs: seq<Record>, w: Window)
  {
    out.Keys == TypesSeen(xs, w) && forall t :: t in out ==> out[t] == CountsOf(xs, w, t)
  }

  /** A summary's entry for `t` holds its counters, and a type it lacks
      has all of them at 0. */
  lemma SummaryAt(out: map<string, Counts>, xs: seq<Record>, w: Window, t: string)
    requires Summarises(out, xs, w)
    ensures CountsOf(xs, w, t) == if t in out then out[t] else Counts(0, 0, 0)
  {
    if t !in out {
      TallyUnseen(xs, w, t, Detectadas);
      TallyUnseen(xs, w, t, Resueltas);
      TallyUnseen(xs, w, t, Pendientes);
    }
  }

  /** Storing the bumped counters of an alert inside the window keeps the
      summary of the longer prefix. */
  lemma SummaryStep(alerts: seq<Record>, i: nat, w: Window, out: map<string, Counts>, c: Counts, next: map<string, Counts>)
    requires i < |alerts| && Kept(w, alerts[i])
    requires Summarises(out, alerts[..i], w)
    requires c == Bump(CountsOf(alerts[..i], w, Field(alerts[i], "tipo_alerta")), w, Field(alerts[i], "tipo_alerta"), alerts[i])
    requires next == out[Field(alerts[i], "tipo_alerta") := c]
    ensures Summarises(next, alerts[..i + 1], w)
  {
    TypesSeenSnoc(alerts, i, w);
    CountsSnoc(alerts, i, w);
  }

  /** An alert outside the window leaves the summary as it was. */
  lemma SummarySkip(alerts: seq<Record>, i: nat, w: Window, out: map<string, Counts>)
    requires i < |alerts| && !Kept(w, alerts[i])
    requires Summarises(out, alerts[..i], w)
    ensures Summarises(out, alerts[..i + 1], w)
  {
    TypesSeenSnoc(alerts, i, w);
    CountsSnoc(alerts, i, w);
  }

  /** `resumen_alertas` over the alerts read from the tab: one entry per type
      seen inside the window, holding how many of its alerts were detected,
      resolved and are still pending. */
  method ResumenAlertas(alerts: seq<Record>, w: Window) returns (out: map<string, Counts>)
    ensures out.Keys == TypesSeen(alerts, w)
    ensures forall t :: t in out ==> out[t] == CountsOf(alerts, w, t)
  {
    out := map[];
    var i := 0;
    while i < |alerts|
      invariant 0 <= i <= |alerts|
      invariant Summarises(out, alerts[..i], w)
    {
      var a := alerts[i];
      if InRange(w, Field(a, "fecha_generacion")) {
        var t := Field(a, "tipo_alerta");
        ghost var prev := out;
        SummaryAt(out, alerts[..i], w, t);
        if t !in out {
          out := out[t := Counts(0, 0, 0)];
        }
        var c := out[t];
        c := c.(detectadas := c.detectadas + 1);
        if Field(a, "estado") == "CERRADA" && Upper(Field(a, "resuelta")) == "TRUE" {
          c := c.(resueltas := c.resueltas + 1);
        } else if IsOpen(Field(a, "estado")) {
          c := c.(pendientes := c.pendientes + 1);
        }
        out := out[t := c];
        SummaryStep(alerts, i, w, prev, c, out);
      } else {
        SummarySkip(alerts, i, w, out);
      }
      i := i + 1;
    }
    assert alerts[..i] == alerts;
  }

  /** Per type, the resolved and the pending alerts are among the detected
      ones, and no alert is both. */
  lemma {:induction false} SummaryBounded(alerts: seq<Record>, w: Window, t: string)
    ensures CountsOf(alerts, w, t).resueltas + CountsOf(alerts, w, t).pendientes <= CountsOf(alerts, w, t).detectadas
  {
    if alerts != [] {
      SummaryBounded(alerts[..|alerts| - 1], w, t);
    }
  }

  /** The counters are additive over a table split in two. */
  lemma {:induction false} TallyConcat(xs: seq<Record>, ys: seq<Record>, w: Window, t: string, col: Column)
    ensures Tally(xs + ys, w, t, col) == Tally(xs, w, t, col) + Tally(ys, w, t, col)
  {
    if ys != [] {
      var init := ys[..|ys| - 1];
      assert (xs + ys)[..|xs + ys| - 1] == xs + init;
      TallyConcat(xs, init, w, t, col);
    } else {
      assert xs + ys == xs;
    }
  }

  /** An alert outside the window, such as one whose `fecha_generacion` does
      not parse while a bound is set, changes no counter: the summary is the
      same with or without it. */
  lemma OutsideWindowIgnored(xs: seq<Record>, a: Record, ys: seq<Record>, w: Window, t: string)
    requires (w.desde != "" || w.hasta != "") && w.parse(Field(a, "fecha_generacion")).None?
    ensures CountsOf(xs + [a] + ys, w, t) == CountsOf(xs + ys, w, t)
  {
    assert !Kept(w, a);
    forall col: Column
      ensures Tally(xs + [a] + ys, w, t, col) == Tally(xs + ys, w, t, col)
    {
      TallyConcat(xs + [a], ys, w, t, col);
      TallyConcat(xs, [a], w, t, col);
      TallyConcat(xs, ys, w, t, col);
      assert [a][..0] == [];
    }
  }

  /** A bound that cannot be compared with an alert's date, such as an
      offset-aware `desde` against a naive `fecha_generacion`, is swallowed
      by the bare `except`: an alert whose date parses and is comparable
      with no given bound is counted even when bounds are set. */
  lemma IncomparableBoundIgnored(alerts: seq<Record>, a: Record, w: Window, t: string)
    requires w.parse(Field(a, "fecha_generacion")).Some?
    requires w.desde != "" && w.parse(w.desde).Some? ==>
               !Comparable(w.parse(Field(a, "fecha_generacion")).value, w.parse(w.desde).value)
    requires w.hasta != "" && w.parse(w.hasta).Some? ==>
               !Comparable(w.parse(Field(a, "fecha_generacion")).value, w.parse(w.hasta).value)
    ensures Kept(w, a)
    ensures CountsOf(alerts + [a], w, t).detectadas ==
              CountsOf(alerts, w, t).detectadas + if Field(a, "tipo_alerta") == t then 1 else 0
  {
    assert (alerts + [a])[..|alerts|] == alerts;
  }

  /** Without bounds every alert is counted: each type of the table is in
      the summary, and its detected count grows by one for each alert of
      that type appended. */
  lemma NoBoundsCountsAll(alerts: seq<Record>, a: Record, w: Window, t: string)
    requires w.desde == "" && w.hasta == ""
    ensures TypesSeen(alerts, w) == set j | 0 <= j < |alerts| :: Field(alerts[j], "tipo_alerta")
    ensures CountsOf(alerts + [a], w, t).detectadas ==
              CountsOf(alerts, w, t).detectadas + if Field(a, "tipo_alerta") == t then 1 else 0
  {
    assert (alerts + [a])[..|alerts|] == alerts;
  }
}

/** The queries as the service runs them: each reads the alerts tab through
    its cache first. */
module AlertQueriesTab {
  import opened Base
  import opened Sheets
  import opened AlertQueries

  /** `count_open_alerts_by_gestante_ids` with its `read_alerts`. */
  method CountOpenAlerts(tab: Tab, ids: seq<string>, now: int) returns (counts: map<string, nat>)
    requires tab.Valid()
    modifies tab
    ensures tab.Valid() && tab.sheet == old(tab.sheet)
    ensures counts.Keys == set id | id in ids
    ensures forall id :: id in counts ==> counts[id] == OpenCount(tab.Records(), id)
  {
    var alerts := tab.ReadAll(now);
    counts := CountOpenByIds(alerts, ids);
  }

  /** `resumen_alertas` with its `read_alerts`. */
  method Resumen(tab: Tab, w: Window, now: int) returns (out: map<string, Counts>)
    requires tab.Valid()
    modifies tab
    ensures tab.Valid() && tab.sheet == old(tab.sheet)
    ensures out.Keys == TypesSeen(tab.Records(), w)
    ensures forall t :: t in out ==> out[t] == CountsOf(tab.Records(), w, t)
  {
    var alerts := tab.ReadAll(now);
    out := ResumenAlertas(alerts, w);
  }
}
