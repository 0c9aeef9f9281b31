/** The Python string operations the service leans on: `strip`, `lower`,
    `upper`, `split`, `in` on strings, and `int()` on text. */
module Text {
  import opened Base

  // ---------------------------------------------------------------------
  // Whitespace and trimming
  // ---------------------------------------------------------------------

  /** The characters for which Python's `str.isspace()` is true. */
  predicate IsSpace(c: char)
  {
    c == ' ' || ('\t' <= c <= '\r') || ('\U{1C}' <= c <= '\U{1F}') ||
    c == '\U{85}' || c == '\U{A0}' || c == '\U{1680}' ||
    ('\U{2000}' <= c <= '\U{200A}') || c == '\U{2028}' || c == '\U{2029}' ||
    c == '\U{202F}' || c == '\U{205F}' || c == '\U{3000}'
  }

  /** Drops the leading characters that satisfy `drop`. */
  function TrimLeft(s: string, drop: char -> bool): (r: string)
    ensures |r| <= |s| && r == s[|s| - |r|..]
    ensures forall i :: 0 <= i < |s| - |r| ==> drop(s[i])
    ensures r == [] || !drop(r[0])
  {
    if |s| > 0 && drop(s[0]) then
      var r := TrimLeft(s[1..], drop);
      assert s[1..][|s| - 1 - |r|..] == s[|s| - |r|..];
      r
    else s
  }

  /** Drops the trailing characters that satisfy `drop`. */
  function TrimRight(s: string, drop: char -> bool): (r: string)
    ensures |r| <= |s| && r == s[..|r|]
    ensures forall i :: |r| <= i < |s| ==> drop(s[i])
    ensures r == [] || !drop(r[|r| - 1])
  {
    if |s| > 0 && drop(s[|s| - 1]) then TrimRight(s[..|s| - 1], drop) else s
  }

  /** How many leading characters `TrimLeft` drops. */
  function LeadLength(s: string, drop: char -> bool): nat
  {
    |s| - |TrimLeft(s, drop)|
  }

  /** Python's `s.strip(chars)`: the longest infix that neither starts nor ends
      with a dropped character, cut out from between two dropped runs. */
  function Trim(s: string, drop: char -> bool): (r: string)
    ensures LeadLength(s, drop) + |r| <= |s|
    ensures r == s[LeadLength(s, drop)..LeadLength(s, drop) + |r|]
    ensures forall k :: 0 <= k < LeadLength(s, drop) ==> drop(s[k])
    ensures forall k :: LeadLength(s, drop) + |r| <= k < |s| ==> drop(s[k])
    ensures r == [] || (!drop(r[0]) && !drop(r[|r| - 1]))
  {
    var l := TrimLeft(s, drop);
    var r := TrimRight(l, drop);
    assert r == s[|s| - |l|..|s| - |l| + |r|];
    r
  }

  /** Python's `s.strip()`. */
  function Strip(s: string): string
  {
    Trim(s, IsSpace)
  }

  /** A string that `strip()` leaves alone. */
  predicate IsStripped(s: string)
  {
    s == [] || (!IsSpace(s[0]) && !IsSpace(s[|s| - 1]))
  }

  lemma {:induction false} TrimFixpoint(s: string, drop: char -> bool)
    requires s == [] || (!drop(s[0]) && !drop(s[|s| - 1]))
    ensures Trim(s, drop) == s
  {
    assert TrimLeft(s, drop) == s;
    assert TrimRight(s, drop) == s;
  }

  /** `strip()` returns a stripped string, and stripping is idempotent. */
  lemma StripIdempotent(s: string)
    ensures IsStripped(Strip(s))
    ensures Strip(Strip(s)) == Strip(s)
  {
    TrimFixpoint(Strip(s), IsSpace);
  }

  // ---------------------------------------------------------------------
  // Case mapping (ASCII and Latin-1 letters)
  // ---------------------------------------------------------------------

  predicate IsUpperLetter(c: char)
  {
    'A' <= c <= 'Z' || ('\U{C0}' <= c <= '\U{DE}' && c != '\U{D7}')
  }

  predicate IsLowerLetter(c: char)
  {
    'a' <= c <= 'z' || ('\U{E0}' <= c <= '\U{FE}' && c != '\U{F7}')
  }

  function LowerChar(c: char): (d: char)
    ensures !IsUpperLetter(d)
    ensures IsSpace(d) <==> IsSpace(c)
  {
    if IsUpperLetter(c) then (c as int + 32) as char else c
  }

  function UpperChar(c: char): (d: char)
    ensures !IsLowerLetter(d)
    ensures IsSpace(d) <==> IsSpace(c)
  {
    if IsLowerLetter(c) then (c as int - 32) as char else c
  }

  /** Python's `s.lower()`, for the letters of ASCII and Latin-1. */
  function Lower(s: string): (r: string)
    ensures |r| == |s|
    ensures forall i {:trigger r[i]} :: 0 <= i < |s| ==> r[i] == LowerChar(s[i])
  {
    seq(|s|, i requires 0 <= i < |s| => LowerChar(s[i]))
  }

  /** Python's `s.upper()`, for the letters of ASCII and Latin-1. */
  function Upper(s: string): (r: string)
    ensures |r| == |s|
    ensures forall i {:trigger r[i]} :: 0 <= i < |s| ==> r[i] == UpperChar(s[i])
  {
    seq(|s|, i requires 0 <= i < |s| => UpperChar(s[i]))
  }

  /** Upper-casing is idempotent and keeps a stripped string stripped. */
  lemma UpperKeepsShape(s: string)
    ensures Upper(Upper(s)) == Upper(s)
    ensures IsStripped(s) ==> IsStripped(Upper(s))
  {
  }

  /** Upper-casing never introduces or removes a given non-letter. */
  lemma UpperKeepsNonLetter(s: string, c: char)
    requires !IsLowerLetter(c) && !IsUpperLetter(c)
    ensures c in Upper(s) <==> c in s
  {
    if c in s {
      var i :| 0 <= i < |s| && s[i] == c;
      assert Upper(s)[i] == c;
    }
    if c in Upper(s) {
      var i :| 0 <= i < |s| && Upper(s)[i] == c;
      assert s[i] == c;
    }
  }

  // ---------------------------------------------------------------------
  // Substrings, split and join
  // ---------------------------------------------------------------------

  /** Python's `sub in s` on strings. */
  predicate Contains(s: string, sub: string)
  {
    exists i :: 0 <= i <= |s| && sub <= s[i..]
  }

  /** Python's `s.split(sep)` with a one-character separator. */
  function Split(s: string, sep: char): (parts: seq<string>)
    ensures |parts| >= 1
    ensures forall p :: p in parts ==> sep !in p
  {
    if s == [] then [""]
    else
      var rest := Split(s[1..], sep);
      if s[0] == sep then [""] + rest
      else [[s[0]] + rest[0]] + rest[1..]
  }

  /** Python's `sep.join(parts)`. */
  function Join(parts: seq<string>, sep: char): string
  {
    if parts == [] then ""
    else if |parts| == 1 then parts[0]
    else parts[0] + [sep] + Join(parts[1..], sep)
  }

  lemma {:induction false} SplitPrefix(x: string, t: string, sep: char)
    requires sep !in x
    ensures Split(x + t, sep) == [x + Split(t, sep)[0]] + Split(t, sep)[1..]
  {
    if x != [] {
      assert (x + t)[1..] == x[1..] + t;
      SplitPrefix(x[1..], t, sep);
      assert [x[0]] + (x[1..] + Split(t, sep)[0]) == x + Split(t, sep)[0];
    } else {
      assert x + t == t;
      var sp := Split(t, sep);
      assert x + sp[0] == sp[0];
      assert sp == [sp[0]] + sp[1..];
    }
  }

  /** Splitting undoes joining when no part holds the separator. */
  lemma {:induction false} SplitJoin(parts: seq<string>, sep: char)
    requires |parts| >= 1
    requires forall p :: p in parts ==> sep !in p
    ensures Split(Join(parts, sep), sep) == parts
  {
    if |parts| == 1 {
      SplitPrefix(parts[0], "", sep);
      assert parts[0] + "" == parts[0];
    } else {
      var tail := Join(parts[1..], sep);
      SplitJoin(parts[1..], sep);
      assert parts[0] + [sep] + tail == parts[0] + ([sep] + tail);
      SplitPrefix(parts[0], [sep] + tail, sep);
      assert ([sep] + tail)[1..] == tail;
      assert parts[0] + "" == parts[0];
      assert [parts[0]] + parts[1..] == parts;
    }
  }

  /** Joining undoes splitting: no character of the input is lost. */
  lemma {:induction false} JoinSplit(s: string, sep: char)
    ensures Join(Split(s, sep), sep) == s
  {
    if s != [] {
      var rest := Split(s[1..], sep);
      JoinSplit(s[1..], sep);
      if s[0] == sep {
        assert Join([""] + rest, sep) == "" + [sep] + Join(rest, sep);
        assert s == [sep] + s[1..];
      } else {
        var parts := [[s[0]] + rest[0]] + rest[1..];
        if |rest| == 1 {
          assert Join(rest, sep) == rest[0];
        } else {
          assert rest == [rest[0]] + rest[1..];
          assert Join(rest, sep) == rest[0] + [sep] + Join(rest[1..], sep);
          assert parts[1..] == rest[1..];
        }
        assert s == [s[0]] + s[1..];
      }
    }
  }

  /** `[x.strip() for x in parts if x.strip()]` */
  function KeepStripped(parts: seq<string>): (r: seq<string>)
    ensures |r| <= |parts|
    ensures forall x :: x in r ==> x != "" && IsStripped(x)
  {
    if parts == [] then []
    else
      var t := Strip(parts[0]);
      if t != "" then [t] + KeepStripped(parts[1..]) else KeepStripped(parts[1..])
  }

  /** An entry is kept exactly when it is the non-empty stripped form of
      some part: every part is trimmed, and only the blank ones dropped. */
  lemma {:induction false} KeepStrippedExactly(parts: seq<string>)
    ensures forall x :: x in KeepStripped(parts) <==> x != "" && exists p :: p in parts && Strip(p) == x
  {
    if parts != [] {
      KeepStrippedExactly(parts[1..]);
      assert forall p :: p in parts <==> p == parts[0] || p in parts[1..] by {
        assert parts == [parts[0]] + parts[1..];
      }
    }
  }

  /** Each part is trimmed and kept or dropped on its own, so the kept
      entries of two lists come in their order. */
  lemma {:induction false} KeepStrippedConcat(a: seq<string>, b: seq<string>)
    ensures KeepStripped(a + b) == KeepStripped(a) + KeepStripped(b)
  {
    if a != [] {
      assert (a + b)[1..] == a[1..] + b;
      KeepStrippedConcat(a[1..], b);
    } else {
      assert a + b == b;
    }
  }

  /** `[x.strip() for x in s.split(sep) if x.strip()]`: the trimmed, non-empty
      fields of a separated list. */
  function SplitStripped(s: string, sep: char): (r: seq<string>)
    ensures forall x :: x in r ==> x != "" && IsStripped(x) && sep !in x
    ensures forall x :: x in r <==> x != "" && exists p :: p in Split(s, sep) && Strip(p) == x
  {
    KeepStrippedAvoids(Split(s, sep), sep);
    KeepStrippedExactly(Split(s, sep));
    KeepStripped(Split(s, sep))
  }

  /** Stripping only removes characters. */
  lemma StripAvoids(p: string, c: char)
    requires c !in p
    ensures c !in Strip(p)
  {
  }

  lemma {:induction false} KeepStrippedAvoids(parts: seq<string>, c: char)
    requires forall p :: p in parts ==> c !in p
    ensures forall x :: x in KeepStripped(parts) ==> c !in x
  {
    if parts != [] {
      assert parts[0] in parts;
      StripAvoids(parts[0], c);
      assert forall p :: p in parts[1..] ==> p in parts;
      KeepStrippedAvoids(parts[1..], c);
    }
  }

  lemma {:induction false} KeepStrippedFixpoint(parts: seq<string>)
    requires forall x :: x in parts ==> x != "" && IsStripped(x)
    ensures KeepStripped(parts) == parts
  {
    if parts != [] {
      assert parts[0] in parts;
      TrimFixpoint(parts[0], IsSpace);
      assert forall p :: p in parts[1..] ==> p in parts;
      KeepStrippedFixpoint(parts[1..]);
      assert [parts[0]] + parts[1..] == parts;
    }
  }

  /** Splitting and stripping gives back a list that was joined from
      non-empty, stripped, separator-free fields. */
  lemma SplitStrippedJoin(xs: seq<string>, sep: char)
    requires forall x :: x in xs ==> x != "" && IsStripped(x) && sep !in x
    ensures SplitStripped(Join(xs, sep), sep) == xs
  {
    if xs == [] {
      assert Split("", sep) == [""];
      assert Strip("") == "";
    } else {
      SplitJoin(xs, sep);
      KeepStrippedFixpoint(xs);
    }
  }

  // ---------------------------------------------------------------------
  // Integers in text
  // ---------------------------------------------------------------------

  predicate IsDigit(c: char)
  {
    '0' <= c <= '9'
  }

  /** The digit strings `int()` accepts: digits, with single underscores
      allowed between two digits. */
  predicate ValidDigits(d: string)
  {
    && |d| > 0 && IsDigit(d[0]) && IsDigit(d[|d| - 1])
    && (forall i :: 0 <= i < |d| ==> IsDigit(d[i]) || d[i] == '_')
    && (forall i :: 0 <= i < |d| - 1 ==> d[i] == '_' ==> d[i + 1] != '_')
  }

  /** The value of a digit string, underscores ignored. */
  function DigitsValue(d: string): nat
  {
    if d == [] then 0
    else if IsDigit(d[|d| - 1]) then DigitsValue(d[..|d| - 1]) * 10 + (d[|d| - 1] as int - '0' as int)
    else DigitsValue(d[..|d| - 1])
  }

  /** Python's `int(s)` for base-10 text: surrounding whitespace, an optional
      sign, then digits; `None` where Python raises `ValueError`. */
  function ParseInt(s: string): Option<int>
  {
    var t := Strip(s);
    if |t| > 0 && (t[0] == '+' || t[0] == '-') then
      if ValidDigits(t[1..]) then
        var v: int := DigitsValue(t[1..]);
        Some(if t[0] == '-' then -v else v)
      else None
    else if ValidDigits(t) then Some(DigitsValue(t))
    else None
  }

  function DigitChar(d: nat): char
    requires d < 10
  {
    ('0' as int + d) as char
  }

  /** Python's `str(n)` for a natural number. */
  function NatToString(n: nat): (s: string)
    ensures |s| > 0
    ensures forall i :: 0 <= i < |s| ==> IsDigit(s[i])
  {
    if n < 10 then [DigitChar(n)] else NatToString(n / 10) + [DigitChar(n % 10)]
  }

  /** Python's `str(n)` for an integer. */
  function IntToString(n: int): string
  {
    if n < 0 then "-" + NatToString(-n) else NatToString(n)
  }

  lemma {:induction false} NatToStringValue(n: nat)
    ensures ValidDigits(NatToString(n))
    ensures DigitsValue(NatToString(n)) == n
  {
    var s := NatToString(n);
    if n >= 10 {
      NatToStringValue(n / 10);
      assert s[..|s| - 1] == NatToString(n / 10);
    }
  }

  /** `int(str(n)) == n`: the text form of an integer parses back to it. */
  lemma IntRoundTrip(n: int)
    ensures Strip(IntToString(n)) == IntToString(n)
    ensures ParseInt(IntToString(n)) == Some(n)
  {
    var s := IntToString(n);
    var m := if n < 0 then -n else n;
    NatToStringValue(m);
    var d := NatToString(m);
    assert !IsSpace(s[0]) && !IsSpace(s[|s| - 1]);
    TrimFixpoint(s, IsSpace);
    if n < 0 {
      assert s[1..] == d;
    } else {
      assert s[0] != '+' && s[0] != '-';
    }
  }
}
