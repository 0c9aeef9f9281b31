/** The request handling of the web API (app/main.py) that decides what a
    caller sees and what is written: the cleaned configuration values, the
    CORS origins, the scoped and paginated case listing, the validation of
    a new case, the merge of an edit into the stored case and the filter of
    the alert listing. The tabs themselves are touched in module ApiTabs. */
module Api {
  import opened Base
  import opened Text
  import opened Sheets
  import opened AlertRules
  import opened Reconciler
  import opened AlertQueries

  // ---------------------------------------------------------------------
  // Configuration
  // ---------------------------------------------------------------------

  predicate IsDoubleQuote(c: char)
  {
    c == '"'
  }

  predicate IsSingleQuote(c: char)
  {
    c == '\''
  }

  /** A character `clean_env` may cut: whitespace or either quote. */
  predicate IsEnvJunk(c: char)
  {
    IsSpace(c) || c == '"' || c == '\''
  }

  /** Every character of `s` is whitespace or a quote. */
  predicate AllEnvJunk(s: string)
  {
    forall k :: 0 <= k < |s| ==> IsEnvJunk(s[k])
  }

  /** `r` is the infix of `v` that starts at `i`, and every character cut
      from either end is whitespace or a quote. */
  predicate CutOut(v: string, r: string, i: int)
  {
    && 0 <= i && i + |r| <= |v|
    && r == v[i..i + |r|]
    && AllEnvJunk(v[..i])
    && AllEnvJunk(v[i + |r|..])
  }

  /** `clean_env`: the variable's value (or the default when it is unset)
      with surrounding whitespace, then double quotes, then single quotes
      removed. The environment is a map. */
  function CleanEnv(env: map<string, string>, name: string, default: string): (r: string)
    ensures Contains(GetOr(env, name, default), r)
    ensures exists i :: CutOut(GetOr(env, name, default), r, i)
    ensures r == [] || (r[0] != '\'' && r[|r| - 1] != '\'')
  {
    var v := GetOr(env, name, default);
    var s1 := Strip(v);
    var s2 := Trim(s1, IsDoubleQuote);
    var r := Trim(s2, IsSingleQuote);
    TrimIsInfix(v, IsSpace);
    TrimIsInfix(s1, IsDoubleQuote);
    TrimIsInfix(s2, IsSingleQuote);
    ContainsTrans(v, s1, s2);
    ContainsTrans(v, s2, r);
    CleanEnvCut(v);
    r
  }

  /** The three strips of `clean_env` together cut only whitespace and
      quotes from the ends of the raw value. */
  lemma CleanEnvCut(v: string)
    ensures exists i :: CutOut(v, Trim(Trim(Strip(v), IsDoubleQuote), IsSingleQuote), i)
  {
    var s1 := Strip(v);
    var i1 := StripCut(v);
    var i2 := QuotesCut(s1);
    var i := CutOutTrans(v, s1, Trim(Trim(s1, IsDoubleQuote), IsSingleQuote), i1, i2);
  }

  lemma StripCut(v: string) returns (i: int)
    ensures CutOut(v, Strip(v), i)
  {
    assert forall c :: IsSpace(c) ==> IsEnvJunk(c);
    TrimCutOut(v, IsSpace);
    i := LeadLength(v, IsSpace);
  }

  lemma QuotesCut(s: string) returns (i: int)
    ensures CutOut(s, Trim(Trim(s, IsDoubleQuote), IsSingleQuote), i)
  {
    var i2 := DoubleQuoteCut(s);
    var i3 := SingleQuoteCut(Trim(s, IsDoubleQuote));
    i := CutOutTrans(s, Trim(s, IsDoubleQuote), Trim(Trim(s, IsDoubleQuote), IsSingleQuote), i2, i3);
  }

  lemma DoubleQuoteCut(s: string) returns (i: int)
    ensures CutOut(s, Trim(s, IsDoubleQuote), i)
  {
    TrimCutOut(s, IsDoubleQuote);
    i := LeadLength(s, IsDoubleQuote);
  }

  lemma SingleQuoteCut(s: string) returns (i: int)
    ensures CutOut(s, Trim(s, IsSingleQuote), i)
  {
    TrimCutOut(s, IsSingleQuote);
    i := LeadLength(s, IsSingleQuote);
  }

  /** One `strip(chars)` with cut characters among whitespace and quotes
      is a cut of that kind. */
  lemma TrimCutOut(s: string, drop: char -> bool)
    requires forall c :: drop(c) ==> IsEnvJunk(c)
    ensures CutOut(s, Trim(s, drop), LeadLength(s, drop))
  {
  }

  /** A cut of a cut is a cut. */
  lemma CutOutTrans(a: string, b: string, c: string, i: int, i2: int) returns (k: int)
    requires CutOut(a, b, i) && CutOut(b, c, i2)
    ensures CutOut(a, c, k)
  {
    k := i + i2;
    assert a[..i + i2] == a[..i] + b[..i2];
    assert a[i + i2 + |c|..] == b[i2 + |c|..] + a[i + |b|..];
    assert c == a[i + i2..i + i2 + |c|] by {
      forall t | 0 <= t < |c|
        ensures c[t] == a[i + i2 + t]
      {
        assert c[t] == b[i2 + t];
      }
    }
    JunkConcat(a[..i], b[..i2]);
    JunkConcat(b[i2 + |c|..], a[i + |b|..]);
  }

  lemma JunkConcat(x: string, y: string)
    requires AllEnvJunk(x) && AllEnvJunk(y)
    ensures AllEnvJunk(x + y)
  {
    forall k | 0 <= k < |x + y|
      ensures IsEnvJunk((x + y)[k])
    {
      if k < |x| {
        assert (x + y)[k] == x[k];
      } else {
        assert (x + y)[k] == y[k - |x|];
      }
    }
  }

  /** `strip(chars)` cuts a piece out of its argument. */
  lemma TrimIsInfix(s: string, drop: char -> bool)
    ensures Contains(s, Trim(s, drop))
  {
    var l := LeadLength(s, drop);
    assert Trim(s, drop) <= s[l..];
  }

  lemma ContainsTrans(a: string, b: string, c: string)
    requires Contains(a, b) && Contains(b, c)
    ensures Contains(a, c)
  {
    var i :| 0 <= i <= |a| && b <= a[i..];
    var j :| 0 <= j <= |b| && c <= b[j..];
    assert c <= a[i + j..];
  }

  /** A value with nothing to remove at either end comes back unchanged. */
  lemma CleanEnvKeepsClean(env: map<string, string>, name: string, default: string)
    requires var v := GetOr(env, name, default);
             v == [] || (!IsSpace(v[0]) && !IsSpace(v[|v| - 1]) &&
                         v[0] != '"' && v[|v| - 1] != '"' && v[0] != '\'' && v[|v| - 1] != '\'')
    ensures CleanEnv(env, name, default) == GetOr(env, name, default)
  {
    var v := GetOr(env, name, default);
    TrimFixpoint(v, IsSpace);
    TrimFixpoint(v, IsDoubleQuote);
    TrimFixpoint(v, IsSingleQuote);
  }

  const DEFAULT_ORIGINS := "http://127.0.0.1:8000,http://localhost:8000"

  /** `get_allowed_origins`: the trimmed, non-empty comma-separated entries
      of `ALLOWED_ORIGINS`, or of the two local development origins when the
      variable is unset. */
  function AllowedOrigins(env: map<string, string>): (r: seq<string>)
    ensures forall o :: o in r ==> o != "" && IsStripped(o) && ',' !in o
    ensures forall o :: o in r <==>
              o != "" && exists p :: p in Split(GetOr(env, "ALLOWED_ORIGINS", DEFAULT_ORIGINS), ',') && Strip(p) == o
  {
    SplitStripped(GetOr(env, "ALLOWED_ORIGINS", DEFAULT_ORIGINS), ',')
  }

  /** A list of origins written out comma-separated is read back as is. */
  lemma AllowedOriginsRoundTrip(env: map<string, string>, xs: seq<string>)
    requires forall x :: x in xs ==> x != "" && IsStripped(x) && ',' !in x
    requires "ALLOWED_ORIGINS" in env && env["ALLOWED_ORIGINS"] == Join(xs, ',')
    ensures AllowedOrigins(env) == xs
  {
    SplitStrippedJoin(xs, ',');
  }

  // ---------------------------------------------------------------------
  // The case listing
  // ---------------------------------------------------------------------

  const MUNI_COL := "Municipio"
  const FECHA_CAP := "Fecha de captación"
  const NOMBRE := "Nombres y apellidos"
  const DOCUMENTO := "Tipo y N° de identificación"

  /** The caller as the authentication layer describes it: a role, the
      territories the role is limited to and the token's claims. */
  datatype Scope = Scope(role: string, munis: seq<string>, user: Record)

  /** `user.get("email", "desconocido")` */
  function Email(scope: Scope): string
  {
    GetOr(scope.user, "email", "desconocido")
  }

  /** `s.upper().strip()`: the form in which territories are compared. */
  function MuniKey(s: string): string
  {
    Strip(Upper(s))
  }

  /** `set([m.upper().strip() for m in muni_list])` */
  function MuniSet(munis: seq<string>): set<string>
  {
    set m | m in munis :: MuniKey(m)
  }

  /** Whether a caller may see or write a case of the given territory. */
  predicate MayAccess(scope: Scope, muni: string)
  {
    scope.role == "admin" || MuniKey(muni) in MuniSet(scope.munis)
  }

  /** An empty date text means no bound; otherwise the parser decides. */
  function ToDate(s: string, parse: string -> Option<int>): Option<int>
  {
    if s == "" then None else parse(s)
  }

  /** The territory key of the row is one of the caller's. */
  predicate InTerritoryRow(allowed: set<string>, x: Record)
  {
    MuniKey(GetOr(x, MUNI_COL, "")) in allowed
  }

  /** The stripped capture date parses and lies within the bounds that
      parsed; an empty or unparseable date never passes. */
  predicate InDatesRow(from: Option<int>, to: Option<int>, parse: string -> Option<int>, x: Record)
  {
    var d := ToDate(Strip(GetOr(x, FECHA_CAP, "")), parse);
    d.Some? && (from.None? || from.value <= d.value) && (to.None? || d.value <= to.value)
  }

  /** The normalised query is inside the lower-cased document or name. */
  predicate MatchesRow(qn: string, x: Record)
  {
    Contains(Lower(GetOr(x, DOCUMENTO, "")), qn) || Contains(Lower(GetOr(x, NOMBRE, "")), qn)
  }

  /** An alert of the given case (exactly), type and state (regardless of
      case), each criterion only when given. */
  predicate AlertRow(gid: string, tipo: string, estado: string, x: Record)
  {
    && (gid == "" || GetOr(x, "gestante_id", "") == gid)
    && (tipo == "" || Upper(GetOr(x, "tipo_alerta", "")) == Upper(tipo))
    && (estado == "" || Upper(GetOr(x, "estado", "")) == Upper(estado))
  }

  /** The rows a caller may see: all of them for an admin, those of the
      caller's territories for anyone else. */
  function Scoped(scope: Scope, data: seq<Record>): (r: seq<Record>)
    ensures forall x :: x in r <==> x in data && MayAccess(scope, GetOr(x, MUNI_COL, ""))
  {
    if scope.role != "admin" then
      var p := x => InTerritoryRow(MuniSet(scope.munis), x);
      KeepIff(data, p);
      Keep(data, p)
    else data
  }

  /** With a `desde` or a `hasta`, the rows captured within the bounds. */
  function Dated(xs: seq<Record>, desde: string, hasta: string, parse: string -> Option<int>): (r: seq<Record>)
    ensures forall x :: x in r <==>
              x in xs && (desde != "" || hasta != "" ==> InDatesRow(ToDate(desde, parse), ToDate(hasta, parse), parse, x))
  {
    if desde != "" || hasta != "" then
      var p := x => InDatesRow(ToDate(desde, parse), ToDate(hasta, parse), parse, x);
      KeepIff(xs, p);
      Keep(xs, p)
    else xs
  }

  /** With a query, the rows whose document or name contains it. */
  function Searched(xs: seq<Record>, q: string): (r: seq<Record>)
    ensures forall x :: x in r <==> x in xs && (q != "" ==> MatchesRow(Strip(Lower(q)), x))
  {
    if q != "" then
      var p := x => MatchesRow(Strip(Lower(q)), x);
      KeepIff(xs, p);
      Keep(xs, p)
    else xs
  }

  /** The rows `listar_gestantes` selects before paging: exactly the rows
      the caller may see that were captured within the bounds given and
      match the query given. */
  function Selected(scope: Scope, data: seq<Record>, desde: string, hasta: string,
                    parse: string -> Option<int>, q: string): (r: seq<Record>)
    ensures |r| <= |data|
    ensures forall x :: x in r <==>
              && x in data
              && MayAccess(scope, GetOr(x, MUNI_COL, ""))
              && (desde != "" || hasta != "" ==> InDatesRow(ToDate(desde, parse), ToDate(hasta, parse), parse, x))
              && (q != "" ==> MatchesRow(Strip(Lower(q)), x))
  {
    Searched(Dated(Scoped(scope, data), desde, hasta, parse), q)
  }

  /** An admin with no other criteria sees every row. */
  lemma AdminSeesAll(scope: Scope, data: seq<Record>, parse: string -> Option<int>)
    requires scope.role == "admin"
    ensures Selected(scope, data, "", "", parse, "") == data
  {
  }

  /** A query of blanks is kept (the filter is on) but matches every row:
      the empty string is inside every text. */
  lemma BlankQueryKeepsAll(xs: seq<Record>, q: string)
    requires q != "" && Strip(Lower(q)) == ""
    ensures Searched(xs, q) == xs
  {
    forall x: Record
      ensures MatchesRow("", x)
    {
      assert "" <= Lower(GetOr(x, DOCUMENTO, ""))[0..];
    }
    KeepAll(xs, x => MatchesRow(Strip(Lower(q)), x));
  }

  function Min(a: int, b: int): int
  {
    if a < b then a else b
  }

  /** `if page < 1: page = 1` */
  function ClampPage(page: int): int
  {
    if page < 1 then 1 else page
  }

  /** `if page_size < 1: page_size = 20` */
  function ClampSize(size: int): int
  {
    if size < 1 then 20 else size
  }

  /** `(page - 1) * size`: the position of a 1-based page's first row. */
  function PageStart(page: int, size: int): int
  {
    (page - 1) * size
  }

  /** Multiplying by a size that is not negative keeps the order. */
  lemma MulMono(a: int, b: int, size: int)
    requires a <= b && size >= 0
    ensures a * size <= b * size
  {
    assert b * size - a * size == (b - a) * size;
  }

  /** `xs[first : first + size]` for a position that is not negative and a
      positive size: at most `size` consecutive rows from `first` on,
      nothing past the end. */
  function Window<T>(xs: seq<T>, first: int, size: int): (r: seq<T>)
    requires first >= 0 && size >= 1
    ensures |r| <= size && |r| <= |xs|
    ensures |r| == 0 || first + |r| <= |xs|
    ensures forall i :: 0 <= i < |r| ==> r[i] == xs[first + i]
    ensures first <= |xs| ==> |r| == Min(size, |xs| - first)
    ensures forall y :: y in r ==> y in xs
  {
    xs[Min(first, |xs|)..Min(first + size, |xs|)]
  }

  /** `xs[(page - 1) * size : (page - 1) * size + size]` for a 1-based page
      and a positive size: the window of the page's rows. */
  function PageOf<T>(xs: seq<T>, page: int, size: int): (r: seq<T>)
    requires page >= 1 && size >= 1
    ensures PageStart(page, size) >= 0 && r == Window(xs, PageStart(page, size), size)
  {
    MulMono(0, page - 1, size);
    Window(xs, PageStart(page, size), size)
  }

  /** Every row is on its page: row `i` is entry `i % size` of page
      `i / size + 1`. */
  lemma PageHome<T>(xs: seq<T>, size: int, i: int)
    requires size >= 1 && 0 <= i < |xs|
    ensures i % size < |PageOf(xs, i / size + 1, size)|
    ensures PageOf(xs, i / size + 1, size)[i % size] == xs[i]
  {
    var p, r := i / size, i % size;
    DivModParts(i, size);
    var start := PageStart(p + 1, size);
    assert start + r == i;
    var home := PageOf(xs, p + 1, size);
    assert |home| == Min(size, |xs| - start);
    assert home[r] == xs[start + r];
  }

  /** ... and on no other: every other page's positions leave row `i` out. */
  lemma PageElsewhere<T>(xs: seq<T>, size: int, i: int, page: int)
    requires size >= 1 && 0 <= i < |xs| && page >= 1 && page != i / size + 1
    ensures !(PageStart(page, size) <= i < PageStart(page, size) + |PageOf(xs, page, size)|)
  {
    var p := i / size;
    DivModParts(i, size);
    if page < p + 1 {
      MulMono(page, p, size);
      assert PageStart(page, size) + size == page * size;
    } else {
      MulMono(p + 1, page - 1, size);
      assert i < (p + 1) * size;
    }
  }

  /** Euclidean division splits a position into a page and an offset. */
  lemma DivModParts(i: int, size: int)
    requires size >= 1 && i >= 0
    ensures i / size >= 0 && 0 <= i % size < size
    ensures (i / size) * size + i % size == i
  {
  }

  /** A row of the page with its traffic light and its number of open
      alerts. */
  datatype Item = Item(record: Record, riesgo: string, alertasAbiertas: nat)

  /** The response of the listing. */
  datatype Listing = Listing(items: seq<Item>, total: nat, page: int, pageSize: int)

  /** What the listing adds to a row: `risk_color(x)` and the number of
      open alerts under its stripped id. */
  function Enriched(x: Record, alerts: seq<Record>): Item
  {
    Item(x, RiskColor(x).Name(), OpenCount(alerts, Strip(GetOr(x, "id", ""))))
  }

  /** `[str(x.get("id","")).strip() for x in items]` */
  function PageIds(items: seq<Record>): (ids: seq<string>)
    ensures |ids| == |items|
  {
    seq(|items|, i requires 0 <= i < |items| => Strip(GetOr(items[i], "id", "")))
  }

  /** The traffic light of a row. */
  function LightOf(x: Record): string
  {
    RiskColor(x).Name()
  }

  /** The traffic lights of a list of rows, one per row. */
  function Lights(items: seq<Record>): seq<string>
  {
    Map(items, LightOf)
  }

  /** The enriched rows of a page, one per row. */
  function Enrich(items: seq<Record>, alerts: seq<Record>): seq<Item>
  {
    Map(items, x => Enriched(x, alerts))
  }

  /** The first enrichment pass: the traffic light of each row. */
  method RiskLights(items: seq<Record>) returns (lights: seq<string>)
    ensures lights == Lights(items)
  {
    lights := [];
    for i := 0 to |items|
      invariant lights == Lights(items[..i])
    {
      MapSnoc(items, LightOf, i);
      lights := lights + [RiskColor(items[i]).Name()];
    }
    assert items[..|items|] == items;
  }

  /** The two enrichment passes over the page: the traffic light of each
      row, then the open-alert count of each row's id, looked up in the
      counts of the page's ids. */
  method EnrichPage(items: seq<Record>, alerts: seq<Record>) returns (out: seq<Item>)
    ensures out == Enrich(items, alerts)
  {
    var lights := RiskLights(items);
    var ids := PageIds(items);
    var counts := CountOpenByIds(alerts, ids);
    out := [];
    for i := 0 to |items|
      invariant out == Enrich(items[..i], alerts)
    {
      assert ids[i] in ids;
      MapAt(items, LightOf, i);
      MapSnoc(items, x => Enriched(x, alerts), i);
      out := out + [Item(items[i], lights[i], counts[ids[i]])];
    }
    assert items[..|items|] == items;
  }

  /** The response of `listar_gestantes`: a caller other than an admin with
      no territories gets an empty answer that echoes the raw page and
      size; otherwise the total counts the selected rows and the items are
      the enriched rows of the clamped page. */
  function Listed(scope: Scope, data: seq<Record>, alerts: seq<Record>, desde: string, hasta: string,
                  parse: string -> Option<int>, q: string, page: int, pageSize: int): (l: Listing)
    ensures |l.items| <= l.total <= |data|
    ensures scope.role != "admin" && scope.munis == [] ==> l == Listing([], 0, page, pageSize)
    ensures !(scope.role != "admin" && scope.munis == []) ==>
              && l.total == |Selected(scope, data, desde, hasta, parse, q)|
              && l.page >= 1 && l.pageSize >= 1 && |l.items| <= l.pageSize
  {
    if scope.role != "admin" && scope.munis == [] then Listing([], 0, page, pageSize)
    else
      var sel := Selected(scope, data, desde, hasta, parse, q);
      var rows := PageOf(sel, ClampPage(page), ClampSize(pageSize));
      Listing(Enrich(rows, alerts), |sel|, ClampPage(page), ClampSize(pageSize))
  }

  /** Item `i` of a listing is the enriched row at position `i` of its
      page among the selected rows, a row of the data the caller may see. */
  predicate ItemOnPage(scope: Scope, data: seq<Record>, alerts: seq<Record>, sel: seq<Record>, l: Listing, i: int)
    requires 0 <= i < |l.items|
  {
    && l.items[i].record in data
    && MayAccess(scope, GetOr(l.items[i].record, MUNI_COL, ""))
    && l.items[i] == Enriched(l.items[i].record, alerts)
    && 0 <= PageStart(l.page, l.pageSize) + i < |sel|
    && l.items[i].record == sel[PageStart(l.page, l.pageSize) + i]
  }

  /** What a listing promises its caller about its items: each one is the
      selected row at its place on the requested page, a row of the data
      the caller may see, with its own traffic light and open-alert
      count. */
  lemma ListedFacts(scope: Scope, data: seq<Record>, alerts: seq<Record>, desde: string, hasta: string,
                    parse: string -> Option<int>, q: string, page: int, pageSize: int)
    ensures var l := Listed(scope, data, alerts, desde, hasta, parse, q, page, pageSize);
            forall i :: 0 <= i < |l.items| ==>
              ItemOnPage(scope, data, alerts, Selected(scope, data, desde, hasta, parse, q), l, i)
  {
    var l := Listed(scope, data, alerts, desde, hasta, parse, q, page, pageSize);
    forall i | 0 <= i < |l.items|
      ensures ItemOnPage(scope, data, alerts, Selected(scope, data, desde, hasta, parse, q), l, i)
    {
      ListedItem(scope, data, alerts, desde, hasta, parse, q, page, pageSize, i);
    }
  }

  lemma ListedItem(scope: Scope, data: seq<Record>, alerts: seq<Record>, desde: string, hasta: string,
                   parse: string -> Option<int>, q: string, page: int, pageSize: int, i: int)
    requires 0 <= i < |Listed(scope, data, alerts, desde, hasta, parse, q, page, pageSize).items|
    ensures ItemOnPage(scope, data, alerts, Selected(scope, data, desde, hasta, parse, q),
                       Listed(scope, data, alerts, desde, hasta, parse, q, page, pageSize), i)
  {
    var l := Listed(scope, data, alerts, desde, hasta, parse, q, page, pageSize);
    assert !(scope.role != "admin" && scope.munis == []);
    var sel := Selected(scope, data, desde, hasta, parse, q);
    var rows := PageOf(sel, ClampPage(page), ClampSize(pageSize));
    assert l.page == ClampPage(page) && l.pageSize == ClampSize(pageSize);
    assert l.items == Enrich(rows, alerts);
    MapAt(rows, x => Enriched(x, alerts), i);
    assert rows[i] == sel[PageStart(l.page, l.pageSize) + i];
    assert rows[i] in sel;
  }


  // ---------------------------------------------------------------------
  // The alert listing
  // ---------------------------------------------------------------------

  /** The alerts `api_list_alertas` returns, before its sort; an omitted
      criterion is the empty string. */
  function AlertsListed(alerts: seq<Record>, gestanteId: string, tipo: string, estado: string): (r: seq<Record>)
    ensures |r| <= |alerts|
    ensures forall x :: x in r <==> x in alerts && AlertRow(gestanteId, tipo, estado, x)
  {
    var p := x => AlertRow(gestanteId, tipo, estado, x);
    KeepIff(alerts, p);
    Keep(alerts, p)
  }

  lemma UpperLower(s: string)
    ensures Upper(Lower(s)) == Upper(s)
    ensures Lower(s) == "" <==> s == ""
  {
  }

  /** Type and state are matched without regard to case: asking in lower
      case gives the same alerts. */
  lemma AlertsCaseBlind(alerts: seq<Record>, gestanteId: string, tipo: string, estado: string)
    ensures AlertsListed(alerts, gestanteId, Lower(tipo), Lower(estado)) ==
            AlertsListed(alerts, gestanteId, tipo, estado)
  {
    UpperLower(tipo);
    UpperLower(estado);
    KeepAgree(alerts, x => AlertRow(gestanteId, Lower(tipo), Lower(estado), x),
              x => AlertRow(gestanteId, tipo, estado, x));
  }

  /** With no criterion every alert is listed. */
  lemma AlertsUnfiltered(alerts: seq<Record>)
    ensures AlertsListed(alerts, "", "", "") == alerts
  {
    KeepAll(alerts, x => AlertRow("", "", "", x));
  }

  // ---------------------------------------------------------------------
  // Creating a case
  // ---------------------------------------------------------------------

  /** An `HTTPException`: its status code and detail. */
  datatype HttpError = HttpError(status: int, detail: string)

  /** The bounds of `REGLAS`. */
  const EDAD_MIN := 10
  const EDAD_MAX := 55
  const EG_MIN := 4
  const EG_MAX := 42

  /** The audit columns. */
  const ID := "id"
  const USUARIO := "usuario_registra"
  const TIMESTAMP := "timestamp"

  /** The dates whose order is checked. */
  const FECHA_CPN := "Fecha último CPN"
  const FECHA_CAN := "Fecha canalización"
  const FECHA_ATE := "Fecha atención efectiva"

  /** The fields a new case must carry, in the order they are checked. */
  const REQUIRED: seq<string> := [MUNI_COL, NOMBRE, DOCUMENTO]

  /** The date fields whose text is trimmed before the dates are compared. */
  const DATE_FIELDS: seq<string> := [
    FECHA_CAP,
    "Fecha última menstruación (FUM) o eco",
    FECHA_CPN,
    FECHA_CAN,
    FECHA_ATE
  ]

  /** The first of `fields` that is missing or blank. */
  function FirstBlank(item: Record, fields: seq<string>): (r: Option<string>)
    ensures r.Some? ==> r.value in fields && Strip(GetOr(item, r.value, "")) == ""
    ensures r.None? ==> forall f :: f in fields ==> Strip(GetOr(item, f, "")) != ""
    ensures r.Some? ==> exists k :: 0 <= k < |fields| && fields[k] == r.value &&
                                    forall j :: 0 <= j < k ==> Strip(GetOr(item, fields[j], "")) != ""
  {
    if fields == [] then None
    else if Strip(GetOr(item, fields[0], "")) == "" then Some(fields[0])
    else
      var r := FirstBlank(item, fields[1..]);
      assert r.Some? ==> exists k :: 0 <= k < |fields| && fields[k] == r.value &&
                                     forall j :: 0 <= j < k ==> Strip(GetOr(item, fields[j], "")) != "" by {
        if r.Some? {
          var k :| 0 <= k < |fields[1..]| && fields[1..][k] == r.value &&
                   forall j :: 0 <= j < k ==> Strip(GetOr(item, fields[1..][j], "")) != "";
          assert forall j :: 0 <= j < k + 1 ==> Strip(GetOr(item, fields[j], "")) != "" by {
            forall j | 0 <= j < k + 1
              ensures Strip(GetOr(item, fields[j], "")) != ""
            {
              if j > 0 {
                assert fields[j] == fields[1..][j - 1];
              }
            }
          }
          assert fields[k + 1] == r.value;
        }
      }
      r
  }

  /** The range check of a numeric field that is present and not blank: a
      text `int()` rejects, or a number outside `[lo, hi]`. */
  function RangeError(item: Record, key: string, name: string, lo: int, hi: int): (r: Option<HttpError>)
    ensures r.Some? ==> r.value.status == 400
    ensures r.None? <==> key !in item || Strip(item[key]) == "" ||
                         (ParseInt(item[key]).Some? && lo <= ParseInt(item[key]).value <= hi)
  {
    if key in item && Strip(item[key]) != "" then
      match ParseInt(item[key])
      case None => Some(HttpError(400, name + " debe ser numérica"))
      case Some(n) =>
        if lo <= n <= hi then None
        else Some(HttpError(400, name + " fuera de rango (" + IntToString(lo) + "-" + IntToString(hi) + ")"))
    else None
  }

  /** The checks `crear_gestante` makes on the payload before it fills in
      anything, in their order: the territory, the required fields, the
      age, the gestational age. */
  function PreCheck(item: Record, scope: Scope): (r: Option<HttpError>)
    ensures r.None? <==>
              && MayAccess(scope, GetOr(item, MUNI_COL, ""))
              && FirstBlank(item, REQUIRED).None?
              && RangeError(item, EDAD, "Edad", EDAD_MIN, EDAD_MAX).None?
              && RangeError(item, EG, "EG", EG_MIN, EG_MAX).None?
    ensures !MayAccess(scope, GetOr(item, MUNI_COL, "")) ==> r == Some(HttpError(403, "No puedes crear en otro municipio"))
    ensures MayAccess(scope, GetOr(item, MUNI_COL, "")) && FirstBlank(item, REQUIRED).Some? ==>
              r == Some(HttpError(400, "Falta el campo obligatorio: " + FirstBlank(item, REQUIRED).value))
    ensures r.Some? ==> r.value.status == 400 || r.value.status == 403
  {
    var muni := MuniKey(GetOr(item, MUNI_COL, ""));
    if scope.role != "admin" && (MuniSet(scope.munis) == {} || muni !in MuniSet(scope.munis)) then
      Some(HttpError(403, "No puedes crear en otro municipio"))
    else
      match FirstBlank(item, REQUIRED)
      case Some(f) => Some(HttpError(400, "Falta el campo obligatorio: " + f))
      case None =>
        var edad := RangeError(item, EDAD, "Edad", EDAD_MIN, EDAD_MAX);
        if edad.Some? then edad else RangeError(item, EG, "EG", EG_MIN, EG_MAX)
  }

  /** `d.setdefault(k, v)` */
  function SetDefault(r: Record, k: string, v: string): Record
  {
    if k in r then r else r[k := v]
  }

  /** The audit defaults: an id from the clock's seconds, the caller's
      e-mail and the ISO time, each only where the payload has none. */
  function WithDefaults(item: Record, email: string, clock: Clock): Record
  {
    SetDefault(SetDefault(SetDefault(item, ID, IntToString(clock.seconds)), USUARIO, email), TIMESTAMP, clock.iso)
  }

  /** The record with the text of each of `fields` it has stripped. */
  function StripFields(item: Record, fields: seq<string>): Record
  {
    map k | k in item :: if k in fields then Strip(item[k]) else item[k]
  }

  lemma StripFieldsSnoc(item: Record, fields: seq<string>, k: string)
    requires k !in fields
    ensures k in item ==> StripFields(item, fields + [k]) == StripFields(item, fields)[k := Strip(item[k])]
    ensures k !in item ==> StripFields(item, fields + [k]) == StripFields(item, fields)
  {
    assert forall j :: j in fields + [k] <==> j in fields || j == k;
  }

  /** The record with the text of each date field it has stripped. */
  function DatesTrimmed(item: Record): Record
  {
    StripFields(item, DATE_FIELDS)
  }

  /** The date fields are distinct case columns. */
  lemma DateColumns()
    ensures Distinct(DATE_FIELDS)
    ensures forall k :: k in DATE_FIELDS ==> k in HEADERS
  {
    assert DATE_FIELDS == [HEADERS[1], HEADERS[16], HEADERS[18], HEADERS[29], HEADERS[30]];
  }

  /** The required fields are case columns that are neither dates nor
      audit columns. */
  lemma RequiredColumns()
    ensures forall k :: k in REQUIRED ==> k in HEADERS && k !in DATE_FIELDS
    ensures forall k :: k in REQUIRED ==> k != ID && k != USUARIO && k != TIMESTAMP
  {
    assert REQUIRED == [HEADERS[9], HEADERS[5], HEADERS[4]];
  }

  /** A record laid out on exactly the case columns. */
  ghost predicate OnCaseColumns(rec: Record)
  {
    forall h :: h in rec <==> h in HEADERS
  }

  /** The audit columns are case columns and not dates. */
  lemma AuditColumns()
    ensures ID in HEADERS && USUARIO in HEADERS && TIMESTAMP in HEADERS
    ensures ID !in DATE_FIELDS && USUARIO !in DATE_FIELDS && TIMESTAMP !in DATE_FIELDS
    ensures ID != USUARIO && ID != TIMESTAMP && USUARIO != TIMESTAMP
  {
    HeadersDistinct();
    assert HEADERS[0] == ID && HEADERS[33] == USUARIO && HEADERS[34] == TIMESTAMP;
    assert DATE_FIELDS == [HEADERS[1], HEADERS[16], HEADERS[18], HEADERS[29], HEADERS[30]];
  }

  /** The loop that strips the date fields one by one, in place. */
  method TrimDateFields(item: Record) returns (out: Record)
    ensures out == DatesTrimmed(item)
  {
    DateColumns();
    out := item;
    for i := 0 to |DATE_FIELDS|
      invariant out == StripFields(item, DATE_FIELDS[..i])
    {
      var k := DATE_FIELDS[i];
      assert DATE_FIELDS[..i + 1] == DATE_FIELDS[..i] + [k];
      assert k !in DATE_FIELDS[..i];
      StripFieldsSnoc(item, DATE_FIELDS[..i], k);
      if k in out {
        out := out[k := Strip(out[k])];
      }
    }
    assert DATE_FIELDS[..|DATE_FIELDS|] == DATE_FIELDS;
  }

  /** Trimming keeps the fields, leaves every date stripped and every other
      field as it was, and trimming again changes nothing. */
  lemma DatesTrimmedFacts(item: Record)
    ensures DatesTrimmed(item).Keys == item.Keys
    ensures forall k :: k in item && k in DATE_FIELDS ==>
              DatesTrimmed(item)[k] == Strip(item[k]) && IsStripped(DatesTrimmed(item)[k])
    ensures forall k :: k in item && k !in DATE_FIELDS ==> DatesTrimmed(item)[k] == item[k]
    ensures DatesTrimmed(DatesTrimmed(item)) == DatesTrimmed(item)
  {
    var t := DatesTrimmed(item);
    forall k | k in item && k in DATE_FIELDS
      ensures IsStripped(t[k]) && Strip(t[k]) == t[k]
    {
      StripIdempotent(item[k]);
    }
  }

  /** `to_dt(item.get(k, ""))` */
  function DateOf(item: Record, k: string, parse: string -> Option<int>): Option<int>
  {
    ToDate(GetOr(item, k, ""), parse)
  }

  /** The date-consistency checks, each made only when both dates parse:
      the last prenatal visit not after the capture, the referral not
      before the capture, the attention not before the referral. */
  function DateOrderError(item: Record, parse: string -> Option<int>): (r: Option<HttpError>)
    ensures r.None? <==> DatesInOrder(item, parse)
    ensures r.Some? ==> r.value.status == 400
  {
    var cap := DateOf(item, FECHA_CAP, parse);
    var cpn := DateOf(item, FECHA_CPN, parse);
    var can := DateOf(item, FECHA_CAN, parse);
    var ate := DateOf(item, FECHA_ATE, parse);
    if cpn.Some? && cap.Some? && cpn.value > cap.value then
      Some(HttpError(400, "Fecha último CPN no puede ser > Fecha de captación"))
    else if can.Some? && cap.Some? && can.value < cap.value then
      Some(HttpError(400, "Fecha canalización debe ser ≥ Fecha de captación"))
    else if ate.Some? && can.Some? && ate.value < can.value then
      Some(HttpError(400, "Fecha atención efectiva debe ser ≥ Fecha canalización"))
    else None
  }

  /** The dates of a record are in order where they parse. */
  predicate DatesInOrder(item: Record, parse: string -> Option<int>)
  {
    var cap := DateOf(item, FECHA_CAP, parse);
    var cpn := DateOf(item, FECHA_CPN, parse);
    var can := DateOf(item, FECHA_CAN, parse);
    var ate := DateOf(item, FECHA_ATE, parse);
    && (cpn.Some? && cap.Some? ==> cpn.value <= cap.value)
    && (can.Some? && cap.Some? ==> cap.value <= can.value)
    && (ate.Some? && can.Some? ==> can.value <= ate.value)
  }

  /** The outcome of the checks of `crear_gestante`: the exception it
      raises, or the record it writes. */
  datatype Checked = Rejected(error: HttpError) | Accepted(safe: Record)

  /** The record `crear_gestante` writes for a payload, once the checks
      pass: the payload with its audit defaults and trimmed dates, laid
      out on the case columns. */
  function Prepared(item: Record, scope: Scope, clock: Clock): Record
  {
    DatesTrimmed(WithDefaults(item, Email(scope), clock))
  }

  /** `crear_gestante`'s checks and the record it writes: accepted exactly
      when the early checks pass and the prepared dates are in order;
      otherwise a 403 for a foreign territory or a 400. */
  function Validated(item: Record, scope: Scope, clock: Clock, parse: string -> Option<int>): (r: Checked)
    ensures r.Accepted? <==> PreCheck(item, scope).None? && DatesInOrder(Prepared(item, scope, clock), parse)
    ensures r.Accepted? ==> MayAccess(scope, GetOr(item, MUNI_COL, ""))
    ensures r.Rejected? ==> r.error.status == 400 || r.error.status == 403
  {
    match PreCheck(item, scope)
    case Some(e) => Rejected(e)
    case None =>
      match DateOrderError(Prepared(item, scope, clock), parse)
      case Some(e) => Rejected(e)
      case None => Accepted(Project(Prepared(item, scope, clock), HEADERS))
  }

  /** What an accepted payload has passed. */
  lemma AcceptedPassed(item: Record, scope: Scope, clock: Clock, parse: string -> Option<int>)
    requires Validated(item, scope, clock, parse).Accepted?
    ensures PreCheck(item, scope).None?
    ensures DateOrderError(Prepared(item, scope, clock), parse).None?
    ensures Validated(item, scope, clock, parse).safe == Project(Prepared(item, scope, clock), HEADERS)
  {
  }

  /** A caller other than an admin can create a case only in one of its
      territories; one that tries another is refused with 403 before
      anything else is looked at. */
  lemma CreateScoped(item: Record, scope: Scope, clock: Clock, parse: string -> Option<int>)
    ensures Validated(item, scope, clock, parse).Accepted? ==> MayAccess(scope, GetOr(item, MUNI_COL, ""))
    ensures !MayAccess(scope, GetOr(item, MUNI_COL, "")) ==>
              Validated(item, scope, clock, parse) == Rejected(HttpError(403, "No puedes crear en otro municipio"))
  {
    if Validated(item, scope, clock, parse).Accepted? {
      AcceptedPassed(item, scope, clock, parse);
      }
  }

  /** The columns the audit defaults and the date trimming leave alone. */
  lemma PreparedKeeps(item: Record, scope: Scope, clock: Clock, k: string)
    requires k !in DATE_FIELDS && k != ID && k != USUARIO && k != TIMESTAMP
    ensures GetOr(Prepared(item, scope, clock), k, "") == GetOr(item, k, "")
  {
  }

  /** An accepted case has every required field filled in, written as the
      payload gave it, and an age and a gestational age that are numbers
      within the bounds whenever they are given. */
  lemma CreateRequired(item: Record, scope: Scope, clock: Clock, parse: string -> Option<int>)
    requires Validated(item, scope, clock, parse).Accepted?
    ensures var safe := Validated(item, scope, clock, parse).safe;
            forall f :: f in REQUIRED ==> f in item && Strip(item[f]) != "" && safe[f] == item[f]
    ensures EDAD in item && Strip(item[EDAD]) != "" ==>
              ParseInt(item[EDAD]).Some? && EDAD_MIN <= ParseInt(item[EDAD]).value <= EDAD_MAX
    ensures EG in item && Strip(item[EG]) != "" ==>
              ParseInt(item[EG]).Some? && EG_MIN <= ParseInt(item[EG]).value <= EG_MAX
  {
    AcceptedPassed(item, scope, clock, parse);
    RequiredColumns();
    var safe := Validated(item, scope, clock, parse).safe;
    forall f | f in REQUIRED
      ensures f in item && Strip(item[f]) != "" && safe[f] == item[f]
    {
      assert Strip(GetOr(item, f, "")) != "";
      PreparedKeeps(item, scope, clock, f);
    }
  }

  /** A numeric field that is given but is not a number within its bounds
      gets the caller a 400, once the territory and the required fields
      have passed. */
  lemma CreateRejectsRange(item: Record, scope: Scope, clock: Clock, parse: string -> Option<int>, key: string)
    requires MayAccess(scope, GetOr(item, MUNI_COL, ""))
    requires forall f :: f in REQUIRED ==> Strip(GetOr(item, f, "")) != ""
    requires key == EDAD || key == EG
    requires key in item && Strip(item[key]) != ""
    requires var lo := if key == EDAD then EDAD_MIN else EG_MIN;
             var hi := if key == EDAD then EDAD_MAX else EG_MAX;
             !(ParseInt(item[key]).Some? && lo <= ParseInt(item[key]).value <= hi)
    ensures Validated(item, scope, clock, parse).Rejected?
    ensures Validated(item, scope, clock, parse).error.status == 400
  {
    var e := PreCheck(item, scope);
    assert e.Some?;
    assert e.value.status == 400;
  }

  /** A caller who may write the territory but leaves a required field
      missing or blank is told which one: the first, in the order
      territory, name, document. */
  lemma CreateRejectsBlank(item: Record, scope: Scope, clock: Clock, parse: string -> Option<int>, f: string)
    requires MayAccess(scope, GetOr(item, MUNI_COL, ""))
    requires f in REQUIRED && Strip(GetOr(item, f, "")) == ""
    ensures FirstBlank(item, REQUIRED).Some?
    ensures Validated(item, scope, clock, parse) ==
              Rejected(HttpError(400, "Falta el campo obligatorio: " + FirstBlank(item, REQUIRED).value))
  {
    assert FirstBlank(item, REQUIRED).Some?;
  }

  /** The order of the dates depends only on the four compared fields. */
  lemma DatesInOrderSame(a: Record, b: Record, parse: string -> Option<int>)
    requires GetOr(a, FECHA_CAP, "") == GetOr(b, FECHA_CAP, "")
    requires GetOr(a, FECHA_CPN, "") == GetOr(b, FECHA_CPN, "")
    requires GetOr(a, FECHA_CAN, "") == GetOr(b, FECHA_CAN, "")
    requires GetOr(a, FECHA_ATE, "") == GetOr(b, FECHA_ATE, "")
    ensures DatesInOrder(a, parse) == DatesInOrder(b, parse)
  {
  }

  /** The compared dates are case columns. */
  lemma CompareColumns()
    ensures FECHA_CAP in HEADERS && FECHA_CPN in HEADERS && FECHA_CAN in HEADERS && FECHA_ATE in HEADERS
  {
    assert HEADERS[1] == FECHA_CAP;
    assert HEADERS[18] == FECHA_CPN;
    assert HEADERS[29] == FECHA_CAN;
    assert HEADERS[30] == FECHA_ATE;
  }

  /** An accepted case is stored with its dates in order. */
  lemma CreateDates(item: Record, scope: Scope, clock: Clock, parse: string -> Option<int>)
    requires Validated(item, scope, clock, parse).Accepted?
    ensures DatesInOrder(Validated(item, scope, clock, parse).safe, parse)
  {
    AcceptedPassed(item, scope, clock, parse);
    var p := Prepared(item, scope, clock);
    CompareColumns();
    DatesInOrderSame(Project(p, HEADERS), p, parse);
  }

  /** The audit columns of the prepared record: what the payload gave, or
      else the clock's seconds, the caller's e-mail and the ISO time. */
  lemma PreparedAudit(item: Record, scope: Scope, clock: Clock)
    ensures var p := Prepared(item, scope, clock);
            && ID in p && USUARIO in p && TIMESTAMP in p
            && p[ID] == (if ID in item then item[ID] else IntToString(clock.seconds))
            && p[USUARIO] == (if USUARIO in item then item[USUARIO] else Email(scope))
            && p[TIMESTAMP] == (if TIMESTAMP in item then item[TIMESTAMP] else clock.iso)
  {
    AuditColumns();
  }

  /** An accepted case is laid out on exactly the case columns, and its
      audit columns keep what the payload gave and otherwise hold the
      clock's seconds, the caller's e-mail and the ISO time. */
  lemma CreateAudit(item: Record, scope: Scope, clock: Clock, parse: string -> Option<int>)
    requires Validated(item, scope, clock, parse).Accepted?
    ensures var safe := Validated(item, scope, clock, parse).safe;
            && OnCaseColumns(safe)
            && safe[ID] == (if ID in item then item[ID] else IntToString(clock.seconds))
            && safe[USUARIO] == (if USUARIO in item then item[USUARIO] else Email(scope))
            && safe[TIMESTAMP] == (if TIMESTAMP in item then item[TIMESTAMP] else clock.iso)
  {
    AcceptedPassed(item, scope, clock, parse);
    AuditColumns();
    PreparedAudit(item, scope, clock);
  }

  /** The checks of `crear_gestante` in the order it runs them, trimming
      the date fields of the payload in place. */
  method CheckNew(item: Record, scope: Scope, clock: Clock, parse: string -> Option<int>) returns (c: Checked)
    ensures c == Validated(item, scope, clock, parse)
  {
    var pre := PreCheck(item, scope);
    if pre.Some? {
      return Rejected(pre.value);
    }
    var prepared := TrimDateFields(WithDefaults(item, Email(scope), clock));
    var dateError := DateOrderError(prepared, parse);
    if dateError.Some? {
      return Rejected(dateError.value);
    }
    c := Accepted(Project(prepared, HEADERS));
  }

  // ---------------------------------------------------------------------
  // Editing a case
  // ---------------------------------------------------------------------

  /** `str(x.get("id"))`: a record without an id reads as "None". */
  function IdText(x: Record): string
  {
    if "id" in x then x["id"] else "None"
  }

  /** `next((x for x in data if str(x.get("id")) == rec_id), None)`: the
      first record with that id. */
  function FindById(data: seq<Record>, recId: string): (r: Option<Record>)
    ensures r.None? <==> forall j :: 0 <= j < |data| ==> IdText(data[j]) != recId
    ensures r.Some? ==> r.value in data && IdText(r.value) == recId
  {
    if data == [] then None
    else if IdText(data[0]) == recId then Some(data[0])
    else FindById(data[1..], recId)
  }

  /** The record found is the first one with the id. */
  lemma {:induction false} FindByIdFirst(data: seq<Record>, recId: string, i: int)
    requires 0 <= i < |data| && IdText(data[i]) == recId
    requires forall j :: 0 <= j < i ==> IdText(data[j]) != recId
    ensures FindById(data, recId) == Some(data[i])
  {
    if i > 0 {
      FindByIdFirst(data[1..], recId, i - 1);
    }
  }

  /** The record an edit writes on the columns `cols`: the stored case
      restricted to them, each column the payload names overwritten by the
      payload's value, then the audit columns set to the editor and the
      time. */
  function MergedOn(cols: seq<string>, current: Record, payload: Record, email: string, iso: string): (m: Record)
    ensures m.Keys == (set h | h in cols) + {USUARIO, TIMESTAMP}
    ensures m[USUARIO] == email && m[TIMESTAMP] == iso
    ensures forall h :: h in m && h != USUARIO && h != TIMESTAMP ==>
              m[h] == if h in payload then payload[h] else GetOr(current, h, "")
  {
    var base := Project(current, cols);
    var over := map h | h in base :: if h in payload then payload[h] else base[h];
    over[USUARIO := email][TIMESTAMP := iso]
  }

  /** The record `actualizar_gestante` writes: the merge on the case
      columns, which include both audit columns. */
  function Merged(current: Record, payload: Record, email: string, iso: string): (m: Record)
    ensures OnCaseColumns(m)
  {
    AuditColumns();
    MergedOn(HEADERS, current, payload, email, iso)
  }

  /** The loop over the payload that overwrites the columns it names, then
      the audit columns. */
  method MergeUpdate(cols: seq<string>, current: Record, payload: Record, email: string, iso: string)
    returns (merged: Record)
    ensures merged == MergedOn(cols, current, payload, email, iso)
  {
    merged := Project(current, cols);
    ghost var base := merged;
    var pending := payload.Keys;
    while pending != {}
      invariant pending <= payload.Keys
      invariant merged.Keys == base.Keys
      invariant forall h :: h in merged ==>
                  merged[h] == if h in payload && h !in pending then payload[h] else base[h]
      decreases pending
    {
      var k :| k in pending;
      if k in merged {
        merged := merged[k := payload[k]];
      }
      pending := pending - {k};
    }
    MergeFinish(cols, current, payload, merged, email, iso);
    merged := merged[USUARIO := email][TIMESTAMP := iso];
  }

  /** Once every payload key has been seen, setting the audit columns
      completes the merge. */
  lemma MergeFinish(cols: seq<string>, current: Record, payload: Record, merged: Record, email: string, iso: string)
    requires merged.Keys == Project(current, cols).Keys
    requires forall h :: h in merged ==>
               merged[h] == if h in payload then payload[h] else Project(current, cols)[h]
    ensures merged[USUARIO := email][TIMESTAMP := iso] == MergedOn(cols, current, payload, email, iso)
  {
  }

  /** Payload keys that are not case columns are ignored. */
  lemma MergeIgnoresForeign(cols: seq<string>, current: Record, payload: Record, email: string, iso: string)
    ensures MergedOn(cols, current, payload, email, iso) ==
            MergedOn(cols, current, map k | k in payload && k in cols :: payload[k], email, iso)
  {
  }

  /** Applying the same edit twice is applying it once. */
  lemma MergeIdempotent(cols: seq<string>, current: Record, payload: Record, email: string, iso: string)
    ensures var m := MergedOn(cols, current, payload, email, iso);
            MergedOn(cols, m, payload, email, iso) == m
  {
    var m := MergedOn(cols, current, payload, email, iso);
    var again := MergedOn(cols, m, payload, email, iso);
    forall h | h in m
      ensures again[h] == m[h]
    {
    }
  }

  /** An edit whose payload is the merged record itself changes nothing. */
  lemma MergeSelf(cols: seq<string>, current: Record, payload: Record, email: string, iso: string)
    ensures var m := MergedOn(cols, current, payload, email, iso);
            MergedOn(cols, current, m, email, iso) == m
  {
    var m := MergedOn(cols, current, payload, email, iso);
    var again := MergedOn(cols, current, m, email, iso);
    forall h | h in m
      ensures again[h] == m[h]
    {
    }
  }

  /** The outcome of a write request: the id it reports, or the exception
      it raises. */
  datatype Outcome = Saved(id: string) | Failed(error: HttpError)

  /** The checks of `actualizar_gestante` on the cases as read: no case
      with the id (or an empty one) is 404, a case outside the caller's
      territories is 403; otherwise the merged record to write. */
  function Edited(data: seq<Record>, recId: string, payload: Record, scope: Scope, iso: string): (r: Checked)
    ensures r.Accepted? ==> OnCaseColumns(r.safe)
  {
    match FindById(data, recId)
    case None => Rejected(HttpError(404, "No encontrado"))
    case Some(current) =>
      if current == map[] then Rejected(HttpError(404, "No encontrado"))
      else if !MayAccess(scope, GetOr(current, MUNI_COL, "")) then
        Rejected(HttpError(403, "No puedes editar registros de otros municipios"))
      else Accepted(Merged(current, payload, Email(scope), iso))
  }

  /** The checks of `actualizar_gestante` in the order it runs them, with
      the merge done by the loop over the payload. */
  method CheckEdit(data: seq<Record>, recId: string, payload: Record, scope: Scope, iso: string)
    returns (c: Checked)
    ensures c == Edited(data, recId, payload, scope, iso)
  {
    var current := FindById(data, recId);
    if current.None? || current.value == map[] {
      return Rejected(HttpError(404, "No encontrado"));
    }
    if !MayAccess(scope, GetOr(current.value, MUNI_COL, "")) {
      return Rejected(HttpError(403, "No puedes editar registros de otros municipios"));
    }
    var merged := MergeUpdate(HEADERS, current.value, payload, Email(scope), iso);
    AuditColumns();
    c := Accepted(merged);
  }

  /** An edit goes through only for a stored case with that id that the
      caller may access, and then writes the merge of the payload into the
      first such case, signed by the caller. */
  lemma EditScoped(data: seq<Record>, recId: string, payload: Record, scope: Scope, iso: string)
    ensures var found := FindById(data, recId);
            found.Some? && found.value != map[] && !MayAccess(scope, GetOr(found.value, MUNI_COL, "")) ==>
              Edited(data, recId, payload, scope, iso) ==
              Rejected(HttpError(403, "No puedes editar registros de otros municipios"))
    ensures (forall j :: 0 <= j < |data| ==> IdText(data[j]) != recId) ==>
              Edited(data, recId, payload, scope, iso) == Rejected(HttpError(404, "No encontrado"))
    ensures Edited(data, recId, payload, scope, iso).Accepted? ==>
              exists i :: 0 <= i < |data| && IdText(data[i]) == recId &&
                          (forall j :: 0 <= j < i ==> IdText(data[j]) != recId) &&
                          MayAccess(scope, GetOr(data[i], MUNI_COL, "")) &&
                          Edited(data, recId, payload, scope, iso).safe == Merged(data[i], payload, Email(scope), iso) &&
                          Edited(data, recId, payload, scope, iso).safe[USUARIO] == Email(scope)
  {
    var e := Edited(data, recId, payload, scope, iso);
    if e.Accepted? {
      var i := FirstIdIndex(data, recId);
      FindByIdFirst(data, recId, i);
      AuditColumns();
    }
  }

  /** The position of the first record with the id, when there is one. */
  lemma FirstIdIndex(data: seq<Record>, recId: string) returns (i: int)
    requires exists j :: 0 <= j < |data| && IdText(data[j]) == recId
    ensures 0 <= i < |data| && IdText(data[i]) == recId
    ensures forall j :: 0 <= j < i ==> IdText(data[j]) != recId
  {
    i := 0;
    while IdText(data[i]) != recId
      invariant 0 <= i < |data|
      invariant forall j :: 0 <= j < i ==> IdText(data[j]) != recId
      invariant exists j :: i <= j < |data| && IdText(data[j]) == recId
      decreases |data| - i
    {
      i := i + 1;
    }
  }

  /** The territory is checked on the stored case only: a caller may edit
      a case of its own territory into one of another territory, and the
      payload's territory is what gets written. */
  lemma EditMayMoveTerritory(data: seq<Record>, recId: string, payload: Record, scope: Scope, iso: string)
    requires FindById(data, recId).Some? && FindById(data, recId).value != map[]
    requires MayAccess(scope, GetOr(FindById(data, recId).value, MUNI_COL, ""))
    requires MUNI_COL in payload
    ensures Edited(data, recId, payload, scope, iso).Accepted?
    ensures Edited(data, recId, payload, scope, iso).safe[MUNI_COL] == payload[MUNI_COL]
  {
    RequiredColumns();
    AuditColumns();
    assert MUNI_COL in REQUIRED;
  }
}
