/** The normalisation of the role and territory claims (set_claims.py)
    that are attached to a user before the API scopes its requests by them. */
module Claims {
  import opened Base
  import opened Text

  /** The roles a user may hold. */
  const ROLES: set<string> := {"admin", "dept", "muni", "viewer"}

  // ---------------------------------------------------------------------
  // Role
  // ---------------------------------------------------------------------

  /** `normalize_role`: the stripped, lower-cased role when it is one of
      `ROLES`; otherwise the `ValueError` naming the rejected value. */
  function NormalizeRole(role: Option<string>): (r: Result<string>)
    ensures r.Ok? ==> r.value in ROLES
  {
    var norm := Lower(Strip(OrEmpty(role)));
    if norm in ROLES then Ok(norm)
    else Err("Rol inválido '" + norm + "'. Válidos: admin, dept, muni, viewer")
  }

  lemma LowerFixpoint(s: string)
    requires forall i :: 0 <= i < |s| ==> 'a' <= s[i] <= 'z'
    ensures Lower(s) == s
  {
  }

  lemma RoleWordFixpoint(x: string)
    requires x in ROLES
    ensures Lower(Strip(x)) == x
  {
    assert 'a' <= x[0] <= 'z' && 'a' <= x[|x| - 1] <= 'z';
    TrimFixpoint(x, IsSpace);
    LowerFixpoint(x);
  }

  /** Each role is accepted written as it is, and surrounding space and
      capitals are ignored: the accepted inputs are exactly the spellings of
      `ROLES`, and each is normalised to its role. */
  lemma RoleAccepted(x: string, role: string)
    requires x in ROLES
    ensures NormalizeRole(Some(x)) == Ok(x)
    ensures NormalizeRole(Some(role)) == Ok(x) <==> Lower(Strip(role)) == x
  {
    RoleWordFixpoint(x);
  }

  /** Normalising a normalised role gives it back unchanged. */
  lemma RoleIdempotent(role: Option<string>)
    ensures NormalizeRole(role).Ok? ==> NormalizeRole(Some(NormalizeRole(role).value)) == NormalizeRole(role)
  {
    var r := NormalizeRole(role);
    if r.Ok? {
      RoleAccepted(r.value, r.value);
    }
  }

  // ---------------------------------------------------------------------
  // Territories
  // ---------------------------------------------------------------------

  /** Python's `s.replace(old, new)` for single characters. */
  function ReplaceChar(s: string, from: char, to: char): (r: string)
    ensures |r| == |s|
    ensures forall i :: 0 <= i < |s| ==> r[i] == if s[i] == from then to else s[i]
  {
    seq(|s|, i requires 0 <= i < |s| => if s[i] == from then to else s[i])
  }

  /** The comma-separated tokens, with `;` read as `,`. */
  function Tokens(s: string): seq<string>
  {
    Split(ReplaceChar(s, ';', ','), ',')
  }

  /** The territory a token names: stripped and upper-cased, or nothing
      when the token is blank. */
  function TokenName(token: string): Option<string>
  {
    var t := Strip(token);
    if t != "" then Some(Upper(t)) else None
  }

  /** What the first loop builds: the named tokens, in order. */
  function Parts(tokens: seq<string>): seq<string>
  {
    if tokens == [] then []
    else
      var t := TokenName(tokens[|tokens| - 1]);
      Parts(tokens[..|tokens| - 1]) + if t.Some? then [t.value] else []
  }

  /** What the second loop builds: each entry once, where it first occurs. */
  function Dedup(xs: seq<string>): seq<string>
  {
    if xs == [] then []
    else
      var d := Dedup(xs[..|xs| - 1]);
      if xs[|xs| - 1] in d then d else d + [xs[|xs| - 1]]
  }

  lemma PartsSnoc(tokens: seq<string>, i: nat)
    requires i < |tokens|
    ensures Parts(tokens[..i + 1]) ==
              Parts(tokens[..i]) + if Strip(tokens[i]) != "" then [Upper(Strip(tokens[i]))] else []
  {
    assert tokens[..i + 1][..i] == tokens[..i];
  }

  /** The territories `normalize_municipios` returns for its argument. */
  function Municipios(munis: Option<string>): seq<string>
  {
    if OrEmpty(munis) == "" then [] else Dedup(Parts(Tokens(munis.value)))
  }

  /** The first loop of `normalize_municipios`: the stripped, upper-cased
      non-blank tokens, in order. */
  method NamedTokens(tokens: seq<string>) returns (parts: seq<string>)
    ensures parts == Parts(tokens)
  {
    parts := [];
    var i := 0;
    while i < |tokens|
      invariant 0 <= i <= |tokens|
      invariant parts == Parts(tokens[..i])
    {
      PartsSnoc(tokens, i);
      var t := Strip(tokens[i]);
      if t != "" {
        parts := parts + [Upper(t)];
      }
      i := i + 1;
    }
    assert tokens[..i] == tokens;
  }

  /** The second loop of `normalize_municipios`: each entry once, in order
      of first occurrence, with `seen` holding what is already kept. */
  method DedupInOrder(parts: seq<string>) returns (result: seq<string>)
    ensures result == Dedup(parts)
  {
    var seen: set<string> := {};
    result := [];
    var j := 0;
    while j < |parts|
      invariant 0 <= j <= |parts|
      invariant result == Dedup(parts[..j])
      invariant seen == set m | m in result
    {
      assert parts[..j + 1][..j] == parts[..j];
      var m := parts[j];
      if m !in seen {
        seen := seen + {m};
        result := result + [m];
      }
      j := j + 1;
    }
    assert parts[..j] == parts;
  }

  /** `normalize_municipios`: splits on `,` and `;`, strips and upper-cases
      the non-blank tokens, then drops repeats keeping the first one. */
  method NormalizeMunicipios(munis: Option<string>) returns (result: seq<string>)
    ensures result == Municipios(munis)
  {
    if OrEmpty(munis) == "" {
      return [];
    }
    var tokens := Split(ReplaceChar(munis.value, ';', ','), ',');
    var parts := NamedTokens(tokens);
    result := DedupInOrder(parts);
  }

  /** The shape of one territory name. */
  predicate WellFormedName(m: string)
  {
    m != "" && IsStripped(m) && Upper(m) == m && ',' !in m && ';' !in m
  }

  lemma TokenNameShape(token: string)
    requires ';' !in token && ',' !in token
    ensures TokenName(token).Some? ==> WellFormedName(TokenName(token).value)
  {
    var t := Strip(token);
    if t != "" {
      StripIdempotent(token);
      StripAvoids(token, ',');
      StripAvoids(token, ';');
      UpperKeepsShape(t);
      UpperKeepsNonLetter(t, ',');
      UpperKeepsNonLetter(t, ';');
    }
  }

  lemma {:induction false} PartsShape(tokens: seq<string>)
    requires forall t :: t in tokens ==> ';' !in t && ',' !in t
    ensures forall m :: m in Parts(tokens) ==> WellFormedName(m)
  {
    if tokens != [] {
      var init := tokens[..|tokens| - 1];
      assert forall t :: t in init ==> t in tokens;
      PartsShape(init);
      TokenNameShape(tokens[|tokens| - 1]);
    }
  }

  /** The tokens hold neither separator. */
  lemma TokensClean(s: string)
    ensures forall t :: t in Tokens(s) ==> ';' !in t && ',' !in t
  {
    var r := ReplaceChar(s, ';', ',');
    assert ';' !in r;
    forall t | t in Tokens(s)
      ensures ';' !in t
    {
      SplitAvoids(r, ',', ';');
    }
  }

  /** Splitting only cuts: a character absent from the text is absent
      from every piece. */
  lemma {:induction false} SplitAvoids(s: string, sep: char, c: char)
    requires c !in s
    ensures forall p :: p in Split(s, sep) ==> c !in p
  {
    if s != [] {
      SplitAvoids(s[1..], sep, c);
    }
  }

  /** Dedup keeps exactly the entries of its input, each once. */
  lemma {:induction false} DedupFacts(xs: seq<string>)
    ensures Distinct(Dedup(xs))
    ensures forall m :: m in Dedup(xs) <==> m in xs
  {
    if xs != [] {
      var init := xs[..|xs| - 1];
      DedupFacts(init);
      assert forall m :: m in init ==> m in xs;
      assert xs == init + [xs[|xs| - 1]];
    }
  }

  /** Dedup keeps the order of first occurrence: what it makes of any
      prefix of the input is a prefix of what it makes of the whole. */
  lemma {:induction false} DedupOrder(xs: seq<string>, k: nat)
    requires k <= |xs|
    ensures Dedup(xs[..k]) <= Dedup(xs)
  {
    if k < |xs| {
      var init := xs[..|xs| - 1];
      assert init[..k] == xs[..k];
      DedupOrder(init, k);
    } else {
      assert xs[..k] == xs;
    }
  }

  /** A list without repeats is its own dedup. */
  lemma {:induction false} DedupDistinct(xs: seq<string>)
    requires Distinct(xs)
    ensures Dedup(xs) == xs
  {
    if xs != [] {
      var init := xs[..|xs| - 1];
      DedupDistinct(init);
      assert xs[|xs| - 1] !in init;
      assert xs == init + [xs[|xs| - 1]];
    }
  }

  lemma TokenNameFixpoint(m: string)
    requires WellFormedName(m)
    ensures TokenName(m) == Some(m)
  {
    TrimFixpoint(m, IsSpace);
  }

  lemma PartsSnocName(init: seq<string>, m: string)
    requires TokenName(m) == Some(m)
    ensures Parts(init + [m]) == Parts(init) + [m]
  {
    assert (init + [m])[..|init|] == init;
  }

  /** A list of well-formed names reads back as itself. */
  lemma {:induction false} PartsFixpoint(xs: seq<string>)
    requires forall m :: m in xs ==> WellFormedName(m)
    ensures Parts(xs) == xs
  {
    if xs != [] {
      var init := xs[..|xs| - 1];
      var m := xs[|xs| - 1];
      assert xs == init + [m];
      assert forall x :: x in init ==> x in xs;
      PartsFixpoint(init);
      TokenNameFixpoint(m);
      PartsSnocName(init, m);
    }
  }

  /** The territories are non-empty, stripped, upper-case names without
      separators, listed once each in the order they first appear, and
      blank input yields none. */
  lemma MunicipiosShape(munis: Option<string>)
    ensures OrEmpty(munis) == "" ==> Municipios(munis) == []
    ensures forall m :: m in Municipios(munis) ==> WellFormedName(m)
    ensures Distinct(Municipios(munis))
    ensures munis.Some? ==> forall m :: m in Municipios(munis) <==> m in Parts(Tokens(munis.value))
    ensures munis.Some? && munis.value != "" ==> var ps := Parts(Tokens(munis.value));
              forall k :: 0 <= k <= |ps| ==> Dedup(ps[..k]) <= Municipios(munis)
  {
    if munis.Some? {
      var ps := Parts(Tokens(munis.value));
      TokensClean(munis.value);
      PartsShape(Tokens(munis.value));
      DedupFacts(ps);
      forall k | 0 <= k <= |ps|
        ensures Dedup(ps[..k]) <= Dedup(ps)
      {
        DedupOrder(ps, k);
      }
    }
  }

  /** `;` is only another spelling of `,`. */
  lemma SemicolonIsComma(s: string)
    ensures Municipios(Some(s)) == Municipios(Some(ReplaceChar(s, ';', ',')))
  {
    var r := ReplaceChar(s, ';', ',');
    assert ReplaceChar(r, ';', ',') == r;
  }

  /** The comma-join of well-formed names holds no `;`. */
  lemma {:induction false} JoinAvoids(xs: seq<string>, c: char)
    requires c != ',' && forall m :: m in xs ==> c !in m
    ensures c !in Join(xs, ',')
  {
    if |xs| > 1 {
      assert forall m :: m in xs[1..] ==> m in xs;
      JoinAvoids(xs[1..], c);
      assert xs[0] in xs;
    }
  }

  lemma JoinNonEmpty(xs: seq<string>)
    requires xs != [] && xs[0] != ""
    ensures Join(xs, ',') != ""
  {
    if |xs| > 1 {
      assert Join(xs, ',') == xs[0] + [','] + Join(xs[1..], ',');
    }
  }

  /** Normalising the comma-join of a result gives that result back. */
  lemma MunicipiosIdempotent(munis: Option<string>)
    ensures Municipios(Some(Join(Municipios(munis), ','))) == Municipios(munis)
  {
    var r := Municipios(munis);
    MunicipiosShape(munis);
    if r != [] {
      var joined := Join(r, ',');
      JoinAvoids(r, ';');
      assert ReplaceChar(joined, ';', ',') == joined;
      SplitJoin(r, ',');
      assert Tokens(joined) == r;
      PartsFixpoint(r);
      DedupDistinct(r);
      assert r[0] in r;
      JoinNonEmpty(r);
    }
  }
}
