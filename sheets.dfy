/** The tabular store adapter of the case sheet (app/sheets.py): spreadsheet
    column labels, tab-qualified ranges, the mapping of raw rows to records,
    the first-match lookup of a row by key and a tab with its read-through
    cache. The remote spreadsheet is an in-memory grid of cells and the wall
    clock an argument. */
module Sheets {
  import opened Base
  import opened Text

  /** The fixed column order of the case tab. */
  const HEADERS: seq<string> := [
    "id",
    "Fecha de captación",
    "Perfil profesional",
    "Lugar de captación",
    "Tipo y N° de identificación",
    "Nombres y apellidos",
    "Edad",
    "Teléfono(s) de contacto",
    "Dirección / Ubicación",
    "Municipio",
    "Zona",
    "Territorio",
    "Microterritorio",
    "Enfoque diferencial",
    "Semanas de gestación (EG)",
    "Embarazo múltiple",
    "Fecha última menstruación (FUM) o eco",
    "N° de controles prenatales (CPN)",
    "Fecha último CPN",
    "Atención por EBS",
    "Atención por IPS/ESE",
    "N° atenciones por EBS",
    "Estado vacunación materna",
    "Consejería recibida",
    "Tamizajes reportados",
    "Signos de alarma",
    "Factores psicosociales",
    "Barreras de acceso",
    "Tipo de canalización",
    "Fecha canalización",
    "Fecha atención efectiva",
    "Resultado canalización",
    "Observaciones",
    "usuario_registra",
    "timestamp"
  ]

  // ---------------------------------------------------------------------
  // Column labels
  // ---------------------------------------------------------------------

  /** The label of a 1-based column number: bijective base 26 over 'A'..'Z'
      (1 is "A", 26 is "Z", 27 is "AA"); nothing for n <= 0. */
  function A1Column(n: int): string
    decreases n
  {
    if n <= 0 then "" else A1Column((n - 1) / 26) + [('A' as int + (n - 1) % 26) as char]
  }

  predicate IsColumnLabel(s: string)
  {
    |s| > 0 && forall i :: 0 <= i < |s| ==> 'A' <= s[i] <= 'Z'
  }

  /** The column number a label stands for. */
  function A1Value(s: string): int
  {
    if s == [] then 0 else A1Value(s[..|s| - 1]) * 26 + (s[|s| - 1] as int - 'A' as int + 1)
  }

  /** `_col_idx_to_a1`: the while loop that peels off one base-26 digit per
      turn, prepending its letter. */
  method ColIdxToA1(n: int) returns (s: string)
    ensures s == A1Column(n)
  {
    s := "";
    var m := n;
    while m > 0
      invariant A1Column(n) == A1Column(m) + s
      decreases m
    {
      var q, r := (m - 1) / 26, (m - 1) % 26;
      s := [('A' as int + r) as char] + s;
      m := q;
    }
  }

  lemma DivMod26(q: int, d: int)
    requires 0 <= d < 26
    ensures (q * 26 + d) / 26 == q && (q * 26 + d) % 26 == d
  {
  }

  /** Every positive column number gets a label, and the label decodes back
      to the number. */
  lemma {:induction false} A1ColumnDecodes(n: int)
    requires n >= 1
    ensures IsColumnLabel(A1Column(n))
    ensures A1Value(A1Column(n)) == n
  {
    var q, d := (n - 1) / 26, (n - 1) % 26;
    var s := A1Column(n);
    assert s[..|s| - 1] == A1Column(q);
    if q >= 1 {
      A1ColumnDecodes(q);
    }
  }

  /** Every label is the label of its number: the numbering is a bijection
      between positive numbers and labels. */
  lemma {:induction false} A1ColumnOnto(s: string)
    requires IsColumnLabel(s)
    ensures A1Value(s) >= 1
    ensures A1Column(A1Value(s)) == s
  {
    var p := s[..|s| - 1];
    var d := s[|s| - 1] as int - 'A' as int;
    if p != [] {
      A1ColumnOnto(p);
    }
    DivMod26(A1Value(p), d);
    assert s == p + [s[|s| - 1]];
  }

  /** No column name repeats, so every name has its own column. */
  lemma HeadersDistinct()
    ensures Distinct(HEADERS)
  {
    HeadersDistinctFirst();
    HeadersDistinctLast();
    HeadersDistinctAcross();
  }

  lemma HeadersDistinctFirst()
    ensures forall i, j :: 0 <= i < j < 18 ==> HEADERS[i] != HEADERS[j]
  {
  }

  lemma HeadersDistinctLast()
    ensures forall i, j :: 18 <= i < j < 35 ==> HEADERS[i] != HEADERS[j]
  {
  }

  lemma HeadersDistinctAcross()
    ensures forall i, j :: 0 <= i < 18 <= j < 35 ==> HEADERS[i] != HEADERS[j]
  {
  }

  /** The case tab spans columns A..AI. */
  lemma HeadersSpan()
    ensures |HEADERS| == 35 && A1Column(|HEADERS|) == "AI"
  {
  }

  // ---------------------------------------------------------------------
  // Tab-qualified ranges
  // ---------------------------------------------------------------------

  /** Python's `s.replace("'", "''")`. */
  function DoubleQuotes(s: string): string
  {
    if s == [] then ""
    else (if s[0] == '\'' then "''" else [s[0]]) + DoubleQuotes(s[1..])
  }

  /** `_a1(tab, rng)`: the tab name (none counts as empty) in single quotes
      with every embedded quote doubled, then "!" and the range. */
  function A1Range(tab: Option<string>, rng: string): string
  {
    var name := if tab.Some? then tab.value else "";
    "'" + DoubleQuotes(name) + "'!" + rng
  }

  /** Reads a quoted tab name up to its closing quote, where `''` stands for
      one quote; gives the name and what follows the closing quote. */
  function ReadQuoted(s: string): Option<(string, string)>
  {
    if s == [] then None
    else if s[0] == '\'' then
      if |s| >= 2 && s[1] == '\'' then
        match ReadQuoted(s[2..])
        case None => None
        case Some(p) => Some(("'" + p.0, p.1))
      else Some(("", s[1..]))
    else
      match ReadQuoted(s[1..])
      case None => None
      case Some(p) => Some(([s[0]] + p.0, p.1))
  }

  /** Splits a reference `'tab'!range` into its tab name and range. */
  function ParseA1Range(reference: string): Option<(string, string)>
  {
    if |reference| >= 1 && reference[0] == '\'' then
      match ReadQuoted(reference[1..])
      case None => None
      case Some(p) => if |p.1| >= 1 && p.1[0] == '!' then Some((p.0, p.1[1..])) else None
    else None
  }

  lemma {:induction false} ReadQuotedDoubled(t: string, rest: string)
    requires rest == [] || rest[0] != '\''
    ensures ReadQuoted(DoubleQuotes(t) + "'" + rest) == Some((t, rest))
  {
    var s := DoubleQuotes(t) + "'" + rest;
    if t == [] {
      assert s == "'" + rest;
    } else {
      ReadQuotedDoubled(t[1..], rest);
      var tail := DoubleQuotes(t[1..]) + "'" + rest;
      if t[0] == '\'' {
        assert s == "''" + tail;
        assert s[2..] == tail;
      } else {
        assert s == [t[0]] + tail;
        assert s[1..] == tail;
      }
      assert t == [t[0]] + t[1..];
    }
  }

  /** Quoting loses nothing: the tab name and range can be read back out of
      the reference, whatever quotes the name holds. */
  lemma A1RangeRoundTrip(tab: Option<string>, rng: string)
    ensures ParseA1Range(A1Range(tab, rng)) == Some((if tab.Some? then tab.value else "", rng))
  {
    var name := if tab.Some? then tab.value else "";
    var after := "!" + rng;
    var reference := A1Range(tab, rng);
    assert reference == "'" + (DoubleQuotes(name) + "'" + after);
    assert reference[1..] == DoubleQuotes(name) + "'" + after;
    ReadQuotedDoubled(name, after);
    assert after[0] == '!' && after[1..] == rng;
  }

  // ---------------------------------------------------------------------
  // Rows and records
  // ---------------------------------------------------------------------

  /** A cell of a raw row; the remote store drops trailing empty cells, so a
      missing cell reads as empty. */
  function Cell(row: seq<string>, i: nat): string
  {
    if i < |row| then row[i] else ""
  }

  /** `{hdr[i]: (r[i] if i < len(r) else "") for i in range(len(hdr))}`:
      exactly the header keys; a repeated header keeps its last cell. */
  function RowToRecord(hdr: seq<string>, row: seq<string>): (rec: Record)
    ensures rec.Keys == set h | h in hdr
  {
    if hdr == [] then map[]
    else RowToRecord(hdr[..|hdr| - 1], row)[hdr[|hdr| - 1] := Cell(row, |hdr| - 1)]
  }

  /** The value under a header is the cell in that header's last column. */
  lemma {:induction false} RowToRecordAt(hdr: seq<string>, row: seq<string>, i: nat)
    requires i < |hdr| && hdr[i] !in hdr[i + 1..]
    ensures RowToRecord(hdr, row)[hdr[i]] == Cell(row, i)
  {
    if i < |hdr| - 1 {
      var init := hdr[..|hdr| - 1];
      assert hdr[i + 1..] == init[i + 1..] + [hdr[|hdr| - 1]];
      RowToRecordAt(init, row, i);
    }
  }

  /** `{h: row.get(h, "") for h in headers}`. */
  function Project(rec: Record, headers: seq<string>): (r: Record)
    ensures r.Keys == set h | h in headers
    ensures forall h :: h in r ==> r[h] == GetOr(rec, h, "")
  {
    map h | h in headers :: GetOr(rec, h, "")
  }

  /** A record that has exactly the given columns is its own projection. */
  lemma ProjectOwnColumns(rec: Record, headers: seq<string>)
    requires rec.Keys == set h | h in headers
    ensures Project(rec, headers) == rec
  {
  }

  /** `[row.get(h, "") for h in headers]`: a record laid out in column order. */
  function RowValues(headers: seq<string>, rec: Record): (vals: seq<string>)
    ensures |vals| == |headers|
    ensures forall i :: 0 <= i < |headers| ==> vals[i] == GetOr(rec, headers[i], "")
  {
    seq(|headers|, i requires 0 <= i < |headers| => GetOr(rec, headers[i], ""))
  }

  /** Writing a record in header order and reading the row back gives the
      record restricted to the headers, absent keys read as "". */
  lemma RowValuesRoundTrip(headers: seq<string>, rec: Record)
    requires Distinct(headers)
    ensures RowToRecord(headers, RowValues(headers, rec)) == Project(rec, headers)
  {
    var back := RowToRecord(headers, RowValues(headers, rec));
    forall h | h in headers
      ensures back[h] == Project(rec, headers)[h]
    {
      var i :| 0 <= i < |headers| && headers[i] == h;
      assert h !in headers[i + 1..];
      RowToRecordAt(headers, RowValues(headers, rec), i);
    }
  }

  /** The first `w` cells of a row (what a range ending at column `w` returns). */
  function Take(row: seq<string>, w: nat): (r: seq<string>)
    ensures |r| <= w && r <= row
  {
    if |row| <= w then row else row[..w]
  }

  /** The grid as a range `A1:<col w>` returns it. */
  function Clip(rows: seq<seq<string>>, w: nat): (c: seq<seq<string>>)
    ensures |c| == |rows|
    ensures forall i :: 0 <= i < |rows| ==> c[i] == Take(rows[i], w)
  {
    seq(|rows|, i requires 0 <= i < |rows| => Take(rows[i], w))
  }

  /** The records of a grid: the first row is the header, every later row a
      record; an empty grid has none. */
  function ReadRecords(values: seq<seq<string>>): (recs: seq<Record>)
    ensures |recs| == if values == [] then 0 else |values| - 1
    ensures forall i :: 0 <= i < |recs| ==> recs[i] == RowToRecord(values[0], values[i + 1])
  {
    if values == [] then []
    else seq(|values| - 1, i requires 0 <= i < |values| - 1 => RowToRecord(values[0], values[i + 1]))
  }

  // ---------------------------------------------------------------------
  // Lookup by key
  // ---------------------------------------------------------------------

  /** Python's `xs.index(x)`, with `None` in place of `ValueError`. */
  function IndexOf(xs: seq<string>, x: string): (r: Option<nat>)
    ensures r.Some? ==> r.value < |xs| && xs[r.value] == x && x !in xs[..r.value]
    ensures r.None? <==> x !in xs
  {
    if xs == [] then None
    else if xs[0] == x then Some(0)
    else match IndexOf(xs[1..], x)
      case None => None
      case Some(k) => assert xs[..k + 1] == [xs[0]] + xs[1..][..k]; Some(k + 1)
  }

  /** `col < len(row) and str(row[col]) == str(key)`. */
  predicate RowHasKey(row: seq<string>, col: nat, key: string)
  {
    col < |row| && row[col] == key
  }

  /** The column that holds `keyName` in the header row. */
  function KeyColumn(values: seq<seq<string>>, keyName: string): nat
    requires values != [] && keyName in values[0]
  {
    IndexOf(values[0], keyName).value
  }

  /** The first row at index `i` or later that holds `key`, as a 1-based row
      number. */
  function KeyRowFrom(values: seq<seq<string>>, col: nat, key: string, i: nat): (r: Option<nat>)
    requires 1 <= i <= |values|
    ensures r.Some? ==> i + 1 <= r.value <= |values| && RowHasKey(values[r.value - 1], col, key)
    ensures r.Some? ==> forall m :: i <= m < r.value - 1 ==> !RowHasKey(values[m], col, key)
    ensures r.None? ==> forall m :: i <= m < |values| ==> !RowHasKey(values[m], col, key)
    decreases |values| - i
  {
    if i == |values| then None
    else if RowHasKey(values[i], col, key) then Some(i + 1)
    else KeyRowFrom(values, col, key, i + 1)
  }

  /** `find_row_index_by_id` as a value: the 1-based sheet row (at least 2)
      of the first data row whose key cell equals `key`, skipping rows too
      short to have that cell; none for an empty grid, a header without
      `keyName`, or no match. */
  function FirstKeyRow(values: seq<seq<string>>, keyName: string, key: string): (r: Option<nat>)
    ensures r.Some? ==> values != [] && keyName in values[0] && 2 <= r.value <= |values|
    ensures r.Some? ==> RowHasKey(values[r.value - 1], KeyColumn(values, keyName), key)
    ensures r.Some? ==> forall m :: 1 <= m < r.value - 1 ==> !RowHasKey(values[m], KeyColumn(values, keyName), key)
    ensures r.None? <==> (values == [] || keyName !in values[0] ||
                          forall m :: 1 <= m < |values| ==> !RowHasKey(values[m], KeyColumn(values, keyName), key))
  {
    if values == [] then None
    else match IndexOf(values[0], keyName)
      case None => None
      case Some(col) =>
        var r := KeyRowFrom(values, col, key, 1);
        assert r.Some? ==> RowHasKey(values[r.value - 1], col, key);
        r
  }

  /** `find_row_index_by_id`: scans the data rows top to bottom and returns
      at the first match. */
  method FindRowIndexById(values: seq<seq<string>>, keyName: string, key: string) returns (r: Option<nat>)
    ensures r == FirstKeyRow(values, keyName, key)
  {
    if values == [] {
      return None;
    }
    var idx := IndexOf(values[0], keyName);
    if idx.None? {
      return None;
    }
    var col := idx.value;
    var i := 1;
    while i < |values|
      invariant 1 <= i <= |values|
      invariant KeyRowFrom(values, col, key, 1) == KeyRowFrom(values, col, key, i)
    {
      if RowHasKey(values[i], col, key) {
        return Some(i + 1);
      }
      i := i + 1;
    }
    return None;
  }

  // ---------------------------------------------------------------------
  // The cached tab
  // ---------------------------------------------------------------------

  /** What an update by key reports: `ValueError` when no row has the key. */
  datatype Status = Done | NotFound

  /** A full-width row write over `A<n>:<last><n>`: the written cells replace
      the first ones, cells to the right of the range stay. */
  function Overwrite(row: seq<string>, vals: seq<string>): seq<string>
  {
    vals + (if |row| > |vals| then row[|vals|..] else [])
  }

  lemma ClipAppend(rows: seq<seq<string>>, row: seq<string>, w: nat)
    ensures Clip(rows + [row], w) == Clip(rows, w) + [Take(row, w)]
  {
  }

  lemma ClipUpdate(rows: seq<seq<string>>, k: nat, row: seq<string>, w: nat)
    requires k < |rows|
    ensures Clip(rows[k := row], w) == Clip(rows, w)[k := Take(row, w)]
  {
  }

  lemma ReadRecordsAppend(values: seq<seq<string>>, row: seq<string>)
    requires values != []
    ensures ReadRecords(values + [row]) == ReadRecords(values) + [RowToRecord(values[0], row)]
  {
  }

  lemma ReadRecordsUpdate(values: seq<seq<string>>, k: nat, row: seq<string>)
    requires 1 <= k < |values|
    ensures ReadRecords(values[k := row]) == ReadRecords(values)[k - 1 := RowToRecord(values[0], row)]
  {
  }

  /** Overwriting grid row `k` with a row of exactly `w` cells changes record
      `k - 1` and nothing else. */
  lemma RecordsAfterOverwrite(rows: seq<seq<string>>, k: nat, vals: seq<string>, w: nat)
    requires 1 <= k < |rows| && |vals| == w
    ensures Clip(rows[k := Overwrite(rows[k], vals)], w)[0] == Clip(rows, w)[0]
    ensures ReadRecords(Clip(rows[k := Overwrite(rows[k], vals)], w))
         == ReadRecords(Clip(rows, w))[k - 1 := RowToRecord(Clip(rows, w)[0], vals)]
  {
    var row := Overwrite(rows[k], vals);
    assert Take(row, w) == vals;
    ClipUpdate(rows, k, row, w);
    ReadRecordsUpdate(Clip(rows, w), k, vals);
  }

  /** One tab of the spreadsheet, as the module-level `_CACHE` and the
      remote grid behind it: `headers` is the tab's fixed column order,
      `keyName` the column rows are looked up by, `ttl` the cache lifetime. */
  class Tab {
    const headers: seq<string>
    const keyName: string
    const ttl: int
    /** The remote grid: row 0 is the header row. */
    var sheet: seq<seq<string>>
    var cacheTs: int
    var cacheData: seq<Record>
    /** How many times the remote grid has been fetched. */
    ghost var remoteReads: nat

    /** The grid as the range `A1:<last column>` returns it. */
    function Values(): seq<seq<string>>
      reads this
    {
      Clip(sheet, |headers|)
    }

    /** The records a fresh read returns. */
    function Records(): seq<Record>
      reads this
    {
      ReadRecords(Values())
    }

    /** The header row has been written, and a non-empty cache holds exactly
        what a fresh read would return. */
    ghost predicate Valid()
      reads this
    {
      && |headers| >= 1
      && |sheet| >= 1 && |sheet[0]| >= 1
      && (cacheData == [] || cacheData == Records())
    }

    /** A tab whose header row is already present, with an empty cache
        (`{"ts": 0.0, "data": []}`). */
    constructor (headers: seq<string>, keyName: string, ttl: int, sheet: seq<seq<string>>)
      requires |headers| >= 1 && |sheet| >= 1 && |sheet[0]| >= 1
      ensures Valid()
      ensures this.headers == headers && this.keyName == keyName && this.ttl == ttl
      ensures this.sheet == sheet && cacheTs == 0 && cacheData == []
    {
      this.headers := headers;
      this.keyName := keyName;
      this.ttl := ttl;
      this.sheet := sheet;
      cacheTs := 0;
      cacheData := [];
      remoteReads := 0;
    }

    /** `read_all`: serves the cached list without a remote read iff it is
        non-empty and younger than the TTL; otherwise fetches, stores
        `(now, data)` and returns it. Either way the caller gets what is in
        the grid. */
    method ReadAll(now: int) returns (data: seq<Record>)
      requires Valid()
      modifies this
      ensures Valid() && sheet == old(sheet)
      ensures Values() == old(Values()) && data == Records() == old(Records())
      ensures old(cacheData) != [] && now - old(cacheTs) < ttl ==>
                cacheTs == old(cacheTs) && cacheData == old(cacheData) && remoteReads == old(remoteReads)
      ensures !(old(cacheData) != [] && now - old(cacheTs) < ttl) ==>
                cacheTs == now && cacheData == data && remoteReads == old(remoteReads) + 1
    {
      if cacheData != [] && now - cacheTs < ttl {
        return cacheData;
      }
      data := Records();
      remoteReads := remoteReads + 1;
      cacheTs, cacheData := now, data;
    }

    /** `append_row`: writes the record's values in header order ("" for an
        absent key) as a new last row, then empties the cache. */
    method AppendRow(row: Record)
      requires Valid()
      modifies this
      ensures Valid()
      ensures sheet == old(sheet) + [RowValues(headers, row)]
      ensures cacheTs == 0 && cacheData == [] && remoteReads == old(remoteReads)
      ensures Values()[0] == old(Values())[0]
      ensures Records() == old(Records()) + [RowToRecord(Values()[0], RowValues(headers, row))]
    {
      ClipAppend(sheet, RowValues(headers, row), |headers|);
      ReadRecordsAppend(Values(), RowValues(headers, row));
      sheet := sheet + [RowValues(headers, row)];
      cacheTs, cacheData := 0, [];
    }

    /** `update_row_by_id`: looks the key up afresh; with no match it raises
        and nothing changes, otherwise it overwrites columns A..<last> of
        the first matching row in header order and empties the cache. */
    method UpdateRowById(key: string, data: Record) returns (status: Status, ghost row: Option<nat>)
      requires Valid()
      modifies this
      ensures Valid()
      ensures remoteReads == old(remoteReads) + 1
      ensures row == FirstKeyRow(old(Values()), keyName, key)
      ensures Values()[0] == old(Values())[0]
      ensures row.None? ==>
                status == NotFound && sheet == old(sheet) &&
                cacheTs == old(cacheTs) && cacheData == old(cacheData) && Records() == old(Records())
      ensures row.Some? ==>
                && status == Done
                && 2 <= row.value <= |old(Records())| + 1
                && sheet == old(sheet)[row.value - 1 := Overwrite(old(sheet)[row.value - 1], RowValues(headers, data))]
                && cacheTs == 0 && cacheData == []
                && Records() == old(Records())[row.value - 2 := RowToRecord(Values()[0], RowValues(headers, data))]
    {
      remoteReads := remoteReads + 1;
      var found := FindRowIndexById(Values(), keyName, key);
      row := found;
      if found.None? {
        return NotFound, row;
      }
      var n := found.value;
      var vals := RowValues(headers, data);
      RecordsAfterOverwrite(sheet, n - 1, vals, |headers|);
      sheet := sheet[n - 1 := Overwrite(sheet[n - 1], vals)];
      cacheTs, cacheData := 0, [];
      status := Done;
    }
  }
}
