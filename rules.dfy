/** The risk classifier and the alert rule set (app/alerts.py): pure
    functions over a case record whose values are text. */
module AlertRules {
  import opened Base
  import opened Text

  const EDAD := "Edad"
  const EG := "Semanas de gestación (EG)"
  const CPN := "N° de controles prenatales (CPN)"
  const MULTIPLE := "Embarazo múltiple"
  const SIGNOS := "Signos de alarma"
  const PSICO := "Factores psicosociales"
  const VACUNAS := "Estado vacunación materna"
  const BARRERAS := "Barreras de acceso"

  /** `_to_int`: `int(str(v).strip())`, and 0 where that raises. A missing
      value is `str(None)`, which never parses. */
  function ToInt(v: Option<string>): int
  {
    match v
    case None => 0
    case Some(s) =>
      match ParseInt(Strip(s))
      case Some(n) => n
      case None => 0
  }

  /** Numbers written as text read back as themselves; a missing field or
      one that is not a number reads as 0. */
  lemma ToIntMeaning(n: int, s: string)
    ensures ToInt(Some(IntToString(n))) == n
    ensures ToInt(None) == 0
    ensures ParseInt(Strip(s)).None? ==> ToInt(Some(s)) == 0
  {
    IntRoundTrip(n);
  }

  /** `_parse_multi`: the trimmed, non-empty entries of a `;`-separated list. */
  function ParseMulti(s: string): (r: seq<string>)
    ensures forall x :: x in r ==> x != "" && IsStripped(x) && ';' !in x
    ensures forall x :: x in r <==> x != "" && exists p :: p in Split(s, ';') && Strip(p) == x
  {
    SplitStripped(s, ';')
  }

  /** A list written with `;` between its entries parses back to itself. */
  lemma ParseMultiJoin(xs: seq<string>)
    requires forall x :: x in xs ==> x != "" && IsStripped(x) && ';' !in x
    ensures ParseMulti(Join(xs, ';')) == xs
  {
    SplitStrippedJoin(xs, ';');
  }

  /** The fields of a case that the rules look at, coerced as the source
      coerces them. */
  datatype CaseView = CaseView(
    edad: int, eg: int, cpn: int, multiple: bool,
    signos: seq<string>, psico: seq<string>, vacunas: seq<string>, barreras: seq<string>)

  function ViewOf(gest: Record): CaseView
  {
    CaseView(
      ToInt(Get(gest, EDAD)),
      ToInt(Get(gest, EG)),
      ToInt(Get(gest, CPN)),
      Lower(Strip(GetOr(gest, MULTIPLE, ""))) == "sí",
      ParseMulti(GetOr(gest, SIGNOS, "")),
      ParseMulti(GetOr(gest, PSICO, "")),
      ParseMulti(GetOr(gest, VACUNAS, "")),
      ParseMulti(GetOr(gest, BARRERAS, "")))
  }

  /** Some alarm sign other than "ninguno" (compared lower-cased). */
  predicate HasAlarmSign(signos: seq<string>)
  {
    exists x :: x in signos && Lower(x) != "ninguno"
  }

  /** Python's `[x for x in xs if x]`. */
  function NonEmpty(xs: seq<string>): (r: seq<string>)
    ensures |r| <= |xs|
    ensures forall x :: x in r <==> x in xs && x != ""
  {
    if xs == [] then []
    else NonEmpty(xs[..|xs| - 1]) + if xs[|xs| - 1] != "" then [xs[|xs| - 1]] else []
  }

  /** Python's `any(k for k in xs if k)`: some entry is non-empty. */
  predicate AnyEntry(xs: seq<string>)
  {
    exists k :: k in xs && k != ""
  }

  /** Some vaccination entry contains "No" (case-sensitive substring). */
  predicate HasUnvaccinated(vacunas: seq<string>)
  {
    exists v :: v in vacunas && Contains(v, "No")
  }

  // ---------------------------------------------------------------------
  // Risk classifier
  // ---------------------------------------------------------------------

  datatype Color = Rojo | Amarillo | Verde
  {
    function Name(): string
    {
      match this
      case Rojo => "Rojo"
      case Amarillo => "Amarillo"
      case Verde => "Verde"
    }

    /** Verde < Amarillo < Rojo. */
    function Severity(): nat
    {
      match this
      case Verde => 0
      case Amarillo => 1
      case Rojo => 2
    }
  }

  /** The red predicates: adolescent, multiple pregnancy, an alarm sign, no
      prenatal visit from week 12, any psychosocial factor. */
  predicate RedFlag(c: CaseView)
  {
    c.edad < 18 || c.multiple || HasAlarmSign(c.signos) || (c.eg >= 12 && c.cpn == 0) || AnyEntry(c.psico)
  }

  /** The yellow predicates: fewer than 4 visits from week 20, an access
      barrier, an unvaccinated entry. */
  predicate YellowFlag(c: CaseView)
  {
    (c.cpn < 4 && c.eg >= 20) || |c.barreras| >= 1 || HasUnvaccinated(c.vacunas)
  }

  /** The colour of a case from its coerced fields: red is checked first
      and wins. */
  function Classify(c: CaseView): (color: Color)
    ensures color == Rojo <==> RedFlag(c)
    ensures color == Amarillo <==> !RedFlag(c) && YellowFlag(c)
    ensures color == Verde <==> !RedFlag(c) && !YellowFlag(c)
  {
    var rojo :=
      c.edad < 18 ||
      c.multiple ||
      HasAlarmSign(c.signos) ||
      (c.eg >= 12 && c.cpn == 0) ||
      AnyEntry(c.psico);
    if rojo then Rojo
    else
      var amarillo :=
        (c.cpn < 4 && c.eg >= 20) ||
        |c.barreras| >= 1 ||
        HasUnvaccinated(c.vacunas);
      if amarillo then Amarillo else Verde
  }

  /** `risk_color`. */
  function RiskColor(gest: Record): (color: Color)
    ensures ViewOf(gest).edad < 18 ==> color == Rojo
    ensures GenerateAlertTypes(gest) != [] ==> color != Verde
    ensures forall s :: s in GenerateAlertTypes(gest) ==> s.prioridad.Severity() <= color.Severity()
  {
    RulesAgreeWithClassifier(ViewOf(gest));
    Classify(ViewOf(gest))
  }

  /** A missing or non-numeric age reads as 0, so the case is red. */
  lemma MissingAgeIsRed(gest: Record)
    ensures (EDAD !in gest || ParseInt(Strip(gest[EDAD])).None?) ==> RiskColor(gest) == Rojo
  {
    if EDAD !in gest || ParseInt(Strip(gest[EDAD])).None? {
      AgeReadsZero(gest);
      MinorIsRed(ViewOf(gest));
    }
  }

  lemma AgeReadsZero(gest: Record)
    requires EDAD !in gest || ParseInt(Strip(gest[EDAD])).None?
    ensures ViewOf(gest).edad == 0
  {
    assert ViewOf(gest).edad == ToInt(Get(gest, EDAD));
    ToIntMeaning(0, GetOr(gest, EDAD, ""));
  }

  lemma MinorIsRed(c: CaseView)
    ensures c.edad < 18 ==> Classify(c) == Rojo
  {
  }

  // ---------------------------------------------------------------------
  // Alert rule set
  // ---------------------------------------------------------------------

  datatype AlertType = SinCpn | SignosAlarma | NoVacunada | BarrerasAcceso
  {
    /** The `tipo_alerta` text. */
    function Code(): string
    {
      match this
      case SinCpn => "SIN_CPN"
      case SignosAlarma => "SIGNOS_ALARMA"
      case NoVacunada => "NO_VACUNADA"
      case BarrerasAcceso => "BARRERAS_ACCESO"
    }

    /** The position in which the rules are checked. */
    function Rank(): nat
    {
      match this
      case SinCpn => 0
      case SignosAlarma => 1
      case NoVacunada => 2
      case BarrerasAcceso => 3
    }

    function Priority(): Color
    {
      if this == SinCpn || this == SignosAlarma then Rojo else Amarillo
    }

    /** The `regla` text recorded with the alert. */
    function Rule(): string
    {
      match this
      case SinCpn => "EG>=12 AND CPN=0"
      case SignosAlarma => "Signos != Ninguno"
      case NoVacunada => "Tdap/Influenza = No"
      case BarrerasAcceso => ">=2 barreras"
    }
  }

  /** Different alert types have different codes. */
  lemma CodeInjective(t: AlertType, u: AlertType)
    ensures t.Code() == u.Code() ==> t == u
  {
    if t != u {
      match t
      case SinCpn => assert t.Code()[0] == 'S' && t.Code()[1] == 'I';
      case SignosAlarma => assert t.Code()[0] == 'S' && t.Code()[1] == 'I' && |t.Code()| == 13;
      case NoVacunada => assert t.Code()[0] == 'N';
      case BarrerasAcceso => assert t.Code()[0] == 'B';
    }
  }

  /** One entry of the rule set's result. */
  datatype AlertSpec = AlertSpec(tipo: AlertType, prioridad: Color, regla: string)

  /** When each alert type must be open. */
  predicate Required(c: CaseView, t: AlertType)
  {
    match t
    case SinCpn => c.eg >= 12 && c.cpn == 0
    case SignosAlarma => HasAlarmSign(c.signos)
    case NoVacunada => HasUnvaccinated(c.vacunas)
    case BarrerasAcceso => |NonEmpty(c.barreras)| >= 2
  }

  function Types(out: seq<AlertSpec>): set<AlertType>
  {
    set i | 0 <= i < |out| :: out[i].tipo
  }

  /** The one-entry list a rule appends when its condition holds. */
  function Single(t: AlertType, when: bool): (r: seq<AlertSpec>)
    ensures |r| <= 1
    ensures forall i :: 0 <= i < |r| ==> r[i].tipo == t
  {
    if when then [AlertSpec(t, t.Priority(), t.Rule())] else []
  }

  /** The alerts that must be open for a case's coerced fields, each type at
      most once and in rule order, red for the first two and yellow for the
      rest. */
  function RuleSet(c: CaseView): (out: seq<AlertSpec>)
    ensures forall i :: 0 <= i < |out| ==>
              out[i].prioridad == out[i].tipo.Priority() && out[i].regla == out[i].tipo.Rule()
  {
    Single(SinCpn, c.eg >= 12 && c.cpn == 0) +
    Single(SignosAlarma, HasAlarmSign(c.signos)) +
    Single(NoVacunada, HasUnvaccinated(c.vacunas)) +
    Single(BarrerasAcceso, |NonEmpty(c.barreras)| >= 2)
  }

  /** `generate_alert_types`. */
  function GenerateAlertTypes(gest: Record): (out: seq<AlertSpec>)
    ensures forall t :: t in Types(out) <==> Required(ViewOf(gest), t)
    ensures Ordered(out)
  {
    RuleSetExact(ViewOf(gest));
    RuleSetOrdered(ViewOf(gest));
    RuleSet(ViewOf(gest))
  }

  lemma TypesConcat(a: seq<AlertSpec>, b: seq<AlertSpec>)
    ensures Types(a + b) == Types(a) + Types(b)
  {
    forall t | t in Types(a)
      ensures t in Types(a + b)
    {
      var i :| 0 <= i < |a| && a[i].tipo == t;
      assert (a + b)[i].tipo == t;
    }
    forall t | t in Types(a + b)
      ensures t in Types(a) + Types(b)
    {
      var i :| 0 <= i < |a + b| && (a + b)[i].tipo == t;
      if i >= |a| {
        assert b[i - |a|].tipo == t;
      }
    }
    forall t | t in Types(b)
      ensures t in Types(a + b)
    {
      var i :| 0 <= i < |b| && b[i].tipo == t;
      assert (a + b)[|a| + i].tipo == t;
    }
  }

  lemma SingleTypes(t: AlertType, q: bool)
    ensures Types(Single(t, q)) == if q then {t} else {}
  {
    if q {
      assert Single(t, q)[0].tipo == t;
    }
  }

  /** The rule set raises an alert type exactly when that type is required. */
  lemma {:induction false} RuleSetExact(c: CaseView)
    ensures forall t :: t in Types(RuleSet(c)) <==> Required(c, t)
  {
    var p1 := Single(SinCpn, Required(c, SinCpn));
    var p2 := Single(SignosAlarma, Required(c, SignosAlarma));
    var p3 := Single(NoVacunada, Required(c, NoVacunada));
    var p4 := Single(BarrerasAcceso, Required(c, BarrerasAcceso));
    TypesConcat(p1, p2);
    TypesConcat(p1 + p2, p3);
    TypesConcat(p1 + p2 + p3, p4);
    SingleTypes(SinCpn, Required(c, SinCpn));
    SingleTypes(SignosAlarma, Required(c, SignosAlarma));
    SingleTypes(NoVacunada, Required(c, NoVacunada));
    SingleTypes(BarrerasAcceso, Required(c, BarrerasAcceso));
    assert RuleSet(c) == p1 + p2 + p3 + p4;
    var all := Types(RuleSet(c));
    assert all == Types(p1) + Types(p2) + Types(p3) + Types(p4);
    forall t
      ensures t in all <==> Required(c, t)
    {
      var s := Types(p1) + Types(p2) + Types(p3) + Types(p4);
      assert t in s <==> (t in Types(p1) || t in Types(p2) || t in Types(p3) || t in Types(p4));
      match t
      case SinCpn =>
        assert t !in Types(p2) && t !in Types(p3) && t !in Types(p4);
      case SignosAlarma =>
        assert t !in Types(p1) && t !in Types(p3) && t !in Types(p4);
      case NoVacunada =>
        assert t !in Types(p1) && t !in Types(p2) && t !in Types(p4);
      case BarrerasAcceso =>
        assert t !in Types(p1) && t !in Types(p2) && t !in Types(p3);
    }
  }

  /** The alerts come in rule order, so no type appears twice. */
  lemma {:induction false} RuleSetOrdered(c: CaseView)
    ensures forall i, j :: 0 <= i < j < |RuleSet(c)| ==> RuleSet(c)[i].tipo.Rank() < RuleSet(c)[j].tipo.Rank()
  {
    var p1 := Single(SinCpn, c.eg >= 12 && c.cpn == 0);
    var p2 := Single(SignosAlarma, HasAlarmSign(c.signos));
    var p3 := Single(NoVacunada, HasUnvaccinated(c.vacunas));
    var p4 := Single(BarrerasAcceso, |NonEmpty(c.barreras)| >= 2);
    OrderedConcat(p1, p2, 0);
    OrderedConcat(p1 + p2, p3, 1);
    OrderedConcat(p1 + p2 + p3, p4, 2);
  }

  predicate Ordered(xs: seq<AlertSpec>)
  {
    forall i, j :: 0 <= i < j < |xs| ==> xs[i].tipo.Rank() < xs[j].tipo.Rank()
  }

  lemma OrderedConcat(a: seq<AlertSpec>, b: seq<AlertSpec>, bound: nat)
    requires Ordered(a) && |b| <= 1
    requires forall i :: 0 <= i < |a| ==> a[i].tipo.Rank() <= bound
    requires forall i :: 0 <= i < |b| ==> b[i].tipo.Rank() == bound + 1
    ensures Ordered(a + b)
    ensures forall i :: 0 <= i < |a + b| ==> (a + b)[i].tipo.Rank() <= bound + 1
  {
  }

  /** The rules agree with the classifier: no alert that must be open is
      more urgent than the case's colour, so a red alert means a red case and
      any alert means the case is not green. */
  lemma RulesAgreeWithClassifier(c: CaseView)
    ensures forall s :: s in RuleSet(c) ==> s.prioridad.Severity() <= Classify(c).Severity()
    ensures RuleSet(c) != [] ==> Classify(c) != Verde
  {
    var out := RuleSet(c);
    RuleSetExact(c);
    forall s | s in out
      ensures s.prioridad.Severity() <= Classify(c).Severity()
    {
      var i :| 0 <= i < |out| && out[i] == s;
      assert s.tipo in Types(out);
      assert Required(c, s.tipo);
    }
    if out != [] {
      assert out[0] in out;
    }
  }
}
