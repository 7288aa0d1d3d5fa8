/**
 * The admin form that creates a show: the schema its three inputs must satisfy,
 * JavaScript's `trim` and `parseInt` that the schema and the seat count rely on,
 * the per-field error map, and the form's submit handler.
 */
module CreateShowForm {
  import opened Seqs
  import opened Store

  // ---------------------------------------------------------------------------
  // JavaScript string helpers
  // ---------------------------------------------------------------------------

  /** ECMAScript white space and line terminators: what `trim` and `parseInt` skip. */
  predicate IsSpace(c: char)
  {
    || c == '\t' || c == '\U{B}' || c == '\U{C}' || c == ' ' || c == '\U{A0}' || c == '\U{FEFF}'
    || c == '\U{1680}' || ('\U{2000}' <= c <= '\U{200A}') || c == '\U{202F}' || c == '\U{205F}'
    || c == '\U{3000}'
    || c == '\n' || c == '\r' || c == '\U{2028}' || c == '\U{2029}'
  }

  predicate AllSpace(s: string)
  {
    forall i :: 0 <= i < |s| ==> IsSpace(s[i])
  }

  /** `s` without its leading white space. */
  function TrimStart(s: string): string
  {
    if s != [] && IsSpace(s[0]) then TrimStart(s[1..]) else s
  }

  /** `s` without its trailing white space. */
  function TrimEnd(s: string): string
  {
    if s != [] && IsSpace(s[|s| - 1]) then TrimEnd(s[..|s| - 1]) else s
  }

  /** `String.prototype.trim`. */
  function Trim(s: string): string
  {
    TrimEnd(TrimStart(s))
  }

  /** Trimming the start keeps a suffix that starts with a non-space, after white space only. */
  lemma {:induction false} TrimStartFacts(s: string)
    ensures var r := TrimStart(s);
            && |r| <= |s| && r == s[|s| - |r|..] && AllSpace(s[..|s| - |r|])
            && (r != [] ==> !IsSpace(r[0]))
    decreases |s|
  {
    if s != [] && IsSpace(s[0]) {
      var t := s[1..];
      var r := TrimStart(t);
      assert TrimStart(s) == r;
      TrimStartFacts(t);
      var k := |t| - |r|;
      assert t[k..] == s[k + 1..];
      forall i | 0 <= i < k + 1
        ensures IsSpace(s[i])
      {
        if i > 0 {
          assert s[i] == t[..k][i - 1];
        }
      }
    } else {
      assert s[..0] == [];
    }
  }

  /** Trimming the end keeps a prefix that ends with a non-space, before white space only. */
  lemma {:induction false} TrimEndFacts(s: string)
    ensures var r := TrimEnd(s);
            && |r| <= |s| && r == s[..|r|] && AllSpace(s[|r|..])
            && (r != [] ==> !IsSpace(r[|r| - 1]))
    decreases |s|
  {
    if s != [] && IsSpace(s[|s| - 1]) {
      var r := TrimEnd(s[..|s| - 1]);
      TrimEndFacts(s[..|s| - 1]);
      assert s[..|s| - 1][..|r|] == s[..|r|];
      assert s[|r|..] == s[..|s| - 1][|r|..] + [s[|s| - 1]];
    } else {
      assert s[|s|..] == [];
    }
  }

  /**
   * What `trim` keeps is one contiguous slice of the input: everything before and after
   * it is white space, and the slice neither starts nor ends with white space.
   */
  lemma TrimIsInnerSlice(s: string)
    ensures exists i, j :: 0 <= i <= j <= |s| && Trim(s) == s[i..j] && AllSpace(s[..i]) && AllSpace(s[j..])
    ensures Trim(s) != [] ==> !IsSpace(Trim(s)[0]) && !IsSpace(Trim(s)[|Trim(s)| - 1])
  {
    var t := TrimStart(s);
    var i := |s| - |t|;
    var r := TrimEnd(t);
    TrimStartFacts(s);
    TrimEndFacts(t);
    var j := i + |r|;
    assert r == s[i..j];
    assert s[j..] == t[|r|..];
  }

  /** Trimming twice is trimming once. */
  lemma TrimIdempotent(s: string)
    ensures Trim(Trim(s)) == Trim(s)
  {
    var r := Trim(s);
    TrimStartFacts(s);
    TrimEndFacts(TrimStart(s));
    if r != [] {
      assert TrimStart(r) == r;
      assert TrimEnd(r) == r;
    }
  }

  /** Skipping leading white space lands on the first non-space character. */
  lemma {:induction false} TrimStartSkips(w: string, t: string)
    requires AllSpace(w)
    requires t == [] || !IsSpace(t[0])
    ensures TrimStart(w + t) == t
    decreases |w|
  {
    if w == [] {
      assert w + t == t;
    } else {
      assert (w + t)[0] == w[0];
      assert (w + t)[1..] == w[1..] + t;
      TrimStartSkips(w[1..], t);
    }
  }

  /** The digits of radix 10, or of radix 16 in either case. */
  predicate IsDigit(c: char, hex: bool)
  {
    ('0' <= c <= '9') || (hex && (('a' <= c <= 'f') || ('A' <= c <= 'F')))
  }

  function DigitValue(c: char): (v: nat)
    ensures IsDigit(c, false) ==> v < 10
    ensures IsDigit(c, true) ==> v < 16
  {
    if '0' <= c <= '9' then c as int - '0' as int
    else if 'a' <= c <= 'f' then c as int - 'a' as int + 10
    else if 'A' <= c <= 'F' then c as int - 'A' as int + 10
    else 0
  }

  /** The length of the longest prefix of `s` made of digits. */
  function DigitRun(s: string, hex: bool): (n: nat)
    ensures n <= |s|
    ensures forall i :: 0 <= i < n ==> IsDigit(s[i], hex)
    ensures n < |s| ==> !IsDigit(s[n], hex)
  {
    if s != [] && IsDigit(s[0], hex) then 1 + DigitRun(s[1..], hex) else 0
  }

  /** The number a string of digits denotes, most significant digit first. */
  function Value(d: string, hex: bool): nat
  {
    if d == [] then 0
    else Value(d[..|d| - 1], hex) * (if hex then 16 else 10) + DigitValue(d[|d| - 1])
  }

  /**
   * `parseInt(s)` with no radix: leading white space is skipped, then one sign, then a
   * `0x`/`0X` prefix switches to hexadecimal; the longest run of digits that follows is the
   * value, and whatever comes after it is ignored. `None` is `NaN`: no digit was found.
   */
  function ParseInt(s: string): Option<int>
  {
    ParseSigned(TrimStart(s))
  }

  /** An optional sign followed by an unsigned number. */
  function ParseSigned(t: string): Option<int>
  {
    if t != [] && t[0] == '-' then
      match ParseUnsigned(t[1..])
      case None => None
      case Some(v) => Some(0 - v)
    else if t != [] && t[0] == '+' then ParseUnsigned(t[1..])
    else ParseUnsigned(t)
  }

  /** An optional `0x`/`0X` prefix, then the longest run of digits in that radix. */
  function ParseUnsigned(u: string): Option<nat>
  {
    var hex := |u| >= 2 && u[0] == '0' && (u[1] == 'x' || u[1] == 'X');
    var w := if hex then u[2..] else u;
    var n := DigitRun(w, hex);
    if n == 0 then None else Some(Value(w[..n], hex))
  }

  function DigitChar(d: nat): (c: char)
    requires d < 10
    ensures IsDigit(c, false) && DigitValue(c) == d
  {
    ('0' as int + d) as char
  }

  /** The decimal digits of a natural number, without leading zeros. */
  function Digits(n: nat): (d: string)
    ensures d != []
    ensures forall i :: 0 <= i < |d| ==> IsDigit(d[i], false)
    ensures |d| > 1 ==> d[0] != '0'
  {
    if n < 10 then [DigitChar(n)] else Digits(n / 10) + [DigitChar(n % 10)]
  }

  /** How an integer is written in decimal: an optional minus sign, then its digits. */
  function Decimal(n: int): string
  {
    if n < 0 then "-" + Digits(-n) else Digits(n)
  }

  lemma {:induction false} DigitsValue(n: nat)
    ensures Value(Digits(n), false) == n
    decreases n
  {
    if n >= 10 {
      var d := Digits(n);
      assert d[..|d| - 1] == Digits(n / 10);
      DigitsValue(n / 10);
    }
  }

  lemma {:induction false} DigitRunStops(d: string, rest: string)
    requires forall i :: 0 <= i < |d| ==> IsDigit(d[i], false)
    requires rest == [] || !IsDigit(rest[0], false)
    ensures DigitRun(d + rest, false) == |d|
    decreases |d|
  {
    if d == [] {
      assert d + rest == rest;
    } else {
      assert (d + rest)[0] == d[0];
      assert (d + rest)[1..] == d[1..] + rest;
      DigitRunStops(d[1..], rest);
    }
  }

  /** The unsigned part of the round trip: digits followed by a non-digit. */
  lemma ParseDigits(n: nat, rest: string)
    requires rest == [] || !(IsDigit(rest[0], false) || rest[0] == 'x' || rest[0] == 'X')
    ensures ParseUnsigned(Digits(n) + rest) == Some(n)
  {
    var d := Digits(n);
    var u := d + rest;
    DigitRunStops(d, rest);
    DigitsValue(n);
    assert u[..|d|] == d;
    assert u[0] == d[0];
    if |d| == 1 && |u| >= 2 {
      assert u[1] == rest[0];
    } else if |d| > 1 {
      assert u[1] == d[1];
    }
  }

  /** The signed part of the round trip. */
  lemma ParseDecimal(n: int, rest: string)
    requires rest == [] || !(IsDigit(rest[0], false) || rest[0] == 'x' || rest[0] == 'X')
    ensures ParseSigned(Decimal(n) + rest) == Some(n)
  {
    if n < 0 {
      NegativeDecimal(n, rest);
    } else {
      PositiveDecimal(n, rest);
    }
  }

  lemma PositiveDecimal(n: nat, rest: string)
    requires rest == [] || !(IsDigit(rest[0], false) || rest[0] == 'x' || rest[0] == 'X')
    ensures ParseSigned(Decimal(n) + rest) == Some(n)
  {
    var u := Digits(n) + rest;
    ParseDigits(n, rest);
    assert u[0] == Digits(n)[0];
    SignedPositive(u, n);
    assert Decimal(n) == Digits(n);
  }

  lemma NegativeDecimal(n: int, rest: string)
    requires n < 0
    requires rest == [] || !(IsDigit(rest[0], false) || rest[0] == 'x' || rest[0] == 'X')
    ensures ParseSigned(Decimal(n) + rest) == Some(n)
  {
    var m: nat := 0 - n;
    var u := Digits(m) + rest;
    ParseDigits(m, rest);
    SignedNegative(u, m);
    DecimalNegative(n, rest);
  }

  lemma DecimalNegative(n: int, rest: string)
    requires n < 0
    ensures Decimal(n) + rest == "-" + (Digits(0 - n) + rest)
  {
    assert Decimal(n) == "-" + Digits(0 - n);
  }

  lemma SignedPositive(u: string, m: nat)
    requires ParseUnsigned(u) == Some(m)
    requires u != [] && IsDigit(u[0], false)
    ensures ParseSigned(u) == Some(m)
  {
  }

  lemma SignedNegative(u: string, m: nat)
    requires ParseUnsigned(u) == Some(m)
    ensures ParseSigned("-" + u) == Some(0 - m)
  {
    assert ("-" + u)[1..] == u;
  }

  /**
   * `parseInt` reads back any integer written in decimal, after any leading white space
   * and before any text that does not continue the number.
   */
  lemma ParseIntReadsDecimal(w: string, n: int, rest: string)
    requires AllSpace(w)
    requires rest == [] || !(IsDigit(rest[0], false) || rest[0] == 'x' || rest[0] == 'X')
    ensures ParseInt(w + Decimal(n) + rest) == Some(n)
  {
    var t := Decimal(n) + rest;
    assert w + Decimal(n) + rest == w + t;
    assert t[0] == '-' || IsDigit(t[0], false) by {
      if n >= 0 {
        assert t[0] == Digits(n)[0];
      }
    }
    TrimStartSkips(w, t);
    ParseDecimal(n, rest);
  }

  /**
   * A JavaScript number as the seat-count rule sees it: finite, with the integer that
   * `parseInt` read, or one of the two infinities.
   */
  datatype SeatNumber = Finite(value: int) | Infinite(positive: bool)

  /**
   * The least magnitude that rounding to the nearest double (ties to even) carries past
   * the largest finite double: 2^1024 - 2^970.
   */
  const InfinityBound: int := 179769313486231580793728971405303415079934132710037826936173778980444968292764750946649017977587207096330286416692887910946555547851940402630657488671505820681908902000708383676273854845817711531764475730270069855571366959622842914819860834936475292719074168444365510704342711559699508093042880177904174497792

  /** The number `parseInt` returns for the integer it read. */
  function ToNumber(v: int): SeatNumber
  {
    if v >= InfinityBound then Infinite(true)
    else if v <= 0 - InfinityBound then Infinite(false)
    else Finite(v)
  }

  /** `parseInt(s) || 0`: NaN, and zero of either sign, become 0; an infinity stays. */
  function SeatCount(s: string): SeatNumber
  {
    match ParseInt(s)
    case None => Finite(0)
    case Some(v) => ToNumber(v)
  }

  // ---------------------------------------------------------------------------
  // The show schema
  // ---------------------------------------------------------------------------

  const NameField := "name"
  const StartTimeField := "startTime"
  const SeatsField := "totalSeats"

  const NameRequired := "Show name is required"
  const NameTooLong := "Name must be less than 100 characters"
  const StartTimeRequired := "Start time is required"
  const TooFewSeats := "At least 1 seat is required"
  const TooManySeats := "Maximum 500 seats allowed"
  const NotInteger := "Expected integer, received float"

  const MaxNameLength := 100
  const MinSeats := 1
  const MaxSeats := 500

  /** One failed check: the field it belongs to and its message. */
  datatype Issue = Issue(path: string, message: string)

  /** The name is trimmed, then must have between 1 and 100 characters, both included. */
  function NameIssues(name: string): seq<Issue>
  {
    var t := Trim(name);
    (if |t| < 1 then [Issue(NameField, NameRequired)] else [])
    + (if |t| > MaxNameLength then [Issue(NameField, NameTooLong)] else [])
  }

  function StartTimeIssues(startTime: string): seq<Issue>
  {
    if |startTime| < 1 then [Issue(StartTimeField, StartTimeRequired)] else []
  }

  /** Below the minimum: a finite count under 1, or minus infinity. */
  predicate TooFew(totalSeats: SeatNumber)
  {
    if totalSeats.Finite? then totalSeats.value < MinSeats else !totalSeats.positive
  }

  /** Above the maximum: a finite count over 500, or plus infinity. */
  predicate TooMany(totalSeats: SeatNumber)
  {
    if totalSeats.Finite? then totalSeats.value > MaxSeats else totalSeats.positive
  }

  /**
   * The seat count passes `int()`, then `min(1)`, then `max(500)`; every check runs, so an
   * infinity fails `int()` and one of the bounds.
   */
  function SeatIssues(totalSeats: SeatNumber): seq<Issue>
  {
    IntIssues(totalSeats)
    + (if TooFew(totalSeats) then [Issue(SeatsField, TooFewSeats)] else [])
    + (if TooMany(totalSeats) then [Issue(SeatsField, TooManySeats)] else [])
  }

  /** The issue of `int()`: only an infinity is not an integer. */
  function IntIssues(totalSeats: SeatNumber): seq<Issue>
  {
    if totalSeats.Infinite? then [Issue(SeatsField, NotInteger)] else []
  }

  /** `showSchema.safeParse`: every failed check, field by field in schema order. */
  function Validate(name: string, startTime: string, totalSeats: SeatNumber): seq<Issue>
  {
    NameIssues(name) + StartTimeIssues(startTime) + SeatIssues(totalSeats)
  }

  predicate NameValid(name: string)
  {
    1 <= |Trim(name)| <= MaxNameLength
  }

  predicate StartTimeValid(startTime: string)
  {
    startTime != ""
  }

  predicate SeatsValid(totalSeats: SeatNumber)
  {
    totalSeats.Finite? && MinSeats <= totalSeats.value <= MaxSeats
  }

  function Paths(issues: seq<Issue>): (r: seq<string>)
    ensures |r| == |issues|
  {
    seq(|issues|, i requires 0 <= i < |issues| => issues[i].path)
  }

  lemma PathsConcat(a: seq<Issue>, b: seq<Issue>)
    ensures Paths(a + b) == Paths(a) + Paths(b)
  {
    assert forall i :: 0 <= i < |a + b| ==> Paths(a + b)[i] == (a + b)[i].path;
  }

  lemma PathsOfOne(x: Issue)
    ensures Paths([x]) == [x.path]
  {
  }

  /**
   * Each field's rule reports one issue when the field is invalid and none otherwise,
   * except an infinite seat count, which fails two checks and reports two issues.
   */
  lemma FieldPaths(name: string, startTime: string, totalSeats: SeatNumber)
    ensures Paths(NameIssues(name)) == (if !NameValid(name) then [NameField] else [])
    ensures Paths(StartTimeIssues(startTime)) == (if !StartTimeValid(startTime) then [StartTimeField] else [])
    ensures Paths(SeatIssues(totalSeats)) == SeatPaths(totalSeats)
  {
    var t := Trim(name);
    if |t| < 1 {
      assert NameIssues(name) == [Issue(NameField, NameRequired)];
    } else if |t| > MaxNameLength {
      assert NameIssues(name) == [Issue(NameField, NameTooLong)];
    } else {
      assert NameIssues(name) == [];
    }
    if totalSeats.Infinite? {
      var last := if totalSeats.positive then TooManySeats else TooFewSeats;
      var two := [Issue(SeatsField, NotInteger), Issue(SeatsField, last)];
      assert SeatIssues(totalSeats) == two;
      assert Paths(two)[0] == SeatsField && Paths(two)[1] == SeatsField;
    } else if TooFew(totalSeats) {
      assert SeatIssues(totalSeats) == [Issue(SeatsField, TooFewSeats)];
    } else if TooMany(totalSeats) {
      assert SeatIssues(totalSeats) == [Issue(SeatsField, TooManySeats)];
    } else {
      assert SeatIssues(totalSeats) == [];
    }
    PathsOfOne(Issue(NameField, NameRequired));
    PathsOfOne(Issue(NameField, NameTooLong));
    PathsOfOne(Issue(StartTimeField, StartTimeRequired));
    PathsOfOne(Issue(SeatsField, TooFewSeats));
    PathsOfOne(Issue(SeatsField, TooManySeats));
  }

  /** The field names of the seat-count issues: two for an infinity, one for another failing count. */
  function SeatPaths(totalSeats: SeatNumber): seq<string>
  {
    if totalSeats.Infinite? then [SeatsField, SeatsField]
    else if !SeatsValid(totalSeats) then [SeatsField]
    else []
  }

  /** The fields of the issues the schema reports, in schema order. */
  function Failing(name: string, startTime: string, totalSeats: SeatNumber): seq<string>
  {
    (if !NameValid(name) then [NameField] else [])
    + (if !StartTimeValid(startTime) then [StartTimeField] else [])
    + SeatPaths(totalSeats)
  }

  /**
   * The schema passes exactly when the three field rules hold. It reports issues for
   * exactly the fields that break them, in schema order, and names a field twice only for
   * an infinite seat count.
   */
  lemma ValidateByField(name: string, startTime: string, totalSeats: SeatNumber)
    ensures Validate(name, startTime, totalSeats) == [] <==>
              NameValid(name) && StartTimeValid(startTime) && SeatsValid(totalSeats)
    ensures Paths(Validate(name, startTime, totalSeats)) == Failing(name, startTime, totalSeats)
    ensures NoDup(Failing(name, startTime, totalSeats)) <==> totalSeats.Finite?
  {
    var a, b, c := NameIssues(name), StartTimeIssues(startTime), SeatIssues(totalSeats);
    PathsConcat(a + b, c);
    PathsConcat(a, b);
    FieldPaths(name, startTime, totalSeats);
    var f := Failing(name, startTime, totalSeats);
    if totalSeats.Finite? {
      FieldListNoDup(!NameValid(name), !StartTimeValid(startTime), !SeatsValid(totalSeats));
    } else {
      assert f[|f| - 2] == SeatsField && f[|f| - 1] == SeatsField;
    }
  }

  lemma FieldListNoDup(x: bool, y: bool, z: bool)
    ensures NoDup((if x then [NameField] else []) + (if y then [StartTimeField] else [])
                  + (if z then [SeatsField] else []))
  {
    var a: seq<string> := if x then [NameField] else [];
    var b: seq<string> := if y then [StartTimeField] else [];
    var c: seq<string> := if z then [SeatsField] else [];
    assert NameField != StartTimeField && NameField != SeatsField && StartTimeField != SeatsField;
    NoDupConcat(a, b);
    NoDupConcat(a + b, c);
  }

  /** A seat-count string `parseInt` cannot read counts as 0 seats, which the schema rejects. */
  lemma UnparsableSeatsRejected(name: string, startTime: string, totalSeats: string)
    requires ParseInt(totalSeats) == None
    ensures Issue(SeatsField, TooFewSeats) in Validate(name, startTime, SeatCount(totalSeats))
  {
    var issues := Validate(name, startTime, Finite(0));
    assert SeatIssues(Finite(0)) == [Issue(SeatsField, TooFewSeats)];
    assert issues[|NameIssues(name)| + |StartTimeIssues(startTime)|] == Issue(SeatsField, TooFewSeats);
  }

  /** A seat count that passes the schema is exactly what `parseInt` read. */
  lemma AcceptedSeatsParsed(totalSeats: string)
    requires SeatsValid(SeatCount(totalSeats))
    ensures ParseInt(totalSeats) == Some(SeatCount(totalSeats).value)
  {
  }

  /**
   * A seat count written in decimal reads as that count while it stays below the double
   * range; from 2^1024 - 2^970 on it reads as plus infinity, which fails both `int()` and
   * `max(500)`, in that order.
   */
  lemma DecimalSeatCount(w: string, n: int, rest: string)
    requires AllSpace(w)
    requires rest == [] || !(IsDigit(rest[0], false) || rest[0] == 'x' || rest[0] == 'X')
    ensures 0 - InfinityBound < n < InfinityBound ==> SeatCount(w + Decimal(n) + rest) == Finite(n)
    ensures n >= InfinityBound ==>
              SeatIssues(SeatCount(w + Decimal(n) + rest))
              == [Issue(SeatsField, NotInteger), Issue(SeatsField, TooManySeats)]
  {
    ParseIntReadsDecimal(w, n, rest);
  }

  // ---------------------------------------------------------------------------
  // The error map
  // ---------------------------------------------------------------------------

  /** No later issue has the same field as issue `i`. */
  predicate LastFor(issues: seq<Issue>, i: int)
    requires 0 <= i < |issues|
  {
    forall j :: i < j < |issues| ==> issues[j].path != issues[i].path
  }

  /**
   * The error map of a list of issues: one entry per field named by some issue (an
   * empty field name is skipped), holding the message of the last issue for that field.
   */
  predicate IsErrorMap(m: map<string, string>, issues: seq<Issue>)
  {
    && m.Keys == Elems(Paths(issues)) - {""}
    && (forall i :: 0 <= i < |issues| && issues[i].path != "" && LastFor(issues, i) ==>
          issues[i].path in m && m[issues[i].path] == issues[i].message)
  }

  /** The `forEach` that fills `newErrors`, later issues overwriting earlier ones. */
  method CollectErrors(issues: seq<Issue>) returns (m: map<string, string>)
    ensures IsErrorMap(m, issues)
  {
    m := map[];
    var n := 0;
    while n < |issues|
      invariant n <= |issues|
      invariant IsErrorMap(m, issues[..n])
    {
      var e := issues[n];
      assert issues[..n + 1] == issues[..n] + [e];
      ErrorMapStep(m, issues[..n], e);
      if e.path != "" {
        m := m[e.path := e.message];
      }
      n := n + 1;
    }
    assert issues[..n] == issues;
  }

  /** Recording one more issue keeps the map an error map of the longer list. */
  lemma ErrorMapStep(m: map<string, string>, before: seq<Issue>, e: Issue)
    requires IsErrorMap(m, before)
    ensures IsErrorMap(if e.path != "" then m[e.path := e.message] else m, before + [e])
  {
    var m' := if e.path != "" then m[e.path := e.message] else m;
    ErrorKeysStep(m, before, e);
    ErrorValuesStep(m, before, e);
  }

  lemma ErrorKeysStep(m: map<string, string>, before: seq<Issue>, e: Issue)
    requires m.Keys == Elems(Paths(before)) - {""}
    ensures (if e.path != "" then m[e.path := e.message] else m).Keys == Elems(Paths(before + [e])) - {""}
  {
    PathsConcat(before, [e]);
    PathsOfOne(e);
    ElemsSnoc(Paths(before), e.path);
  }

  lemma ErrorValuesStep(m: map<string, string>, before: seq<Issue>, e: Issue)
    requires IsErrorMap(m, before)
    ensures var m' := if e.path != "" then m[e.path := e.message] else m;
            forall i :: 0 <= i < |before + [e]| && (before + [e])[i].path != "" && LastFor(before + [e], i) ==>
              (before + [e])[i].path in m' && m'[(before + [e])[i].path] == (before + [e])[i].message
  {
    var prefix := before + [e];
    var m' := if e.path != "" then m[e.path := e.message] else m;
    forall i | 0 <= i < |prefix| && prefix[i].path != "" && LastFor(prefix, i)
      ensures prefix[i].path in m' && m'[prefix[i].path] == prefix[i].message
    {
      if i < |before| {
        assert prefix[i] == before[i];
        assert prefix[|before|] == e;
        forall j | i < j < |before|
          ensures before[j].path != before[i].path
        {
          assert prefix[j] == before[j];
        }
      }
    }
  }

  /** Every field named by an issue has a last issue naming it. */
  lemma {:induction false} LastOccurrence(issues: seq<Issue>, k: string) returns (i: nat)
    requires exists i :: 0 <= i < |issues| && issues[i].path == k
    ensures i < |issues| && issues[i].path == k && LastFor(issues, i)
    decreases |issues|
  {
    var last := |issues| - 1;
    if issues[last].path == k {
      i := last;
    } else {
      var front := issues[..last];
      var i0 :| 0 <= i0 < |issues| && issues[i0].path == k;
      assert front[i0].path == k;
      i := LastOccurrence(front, k);
    }
  }

  /** The error map is determined by the issues: at most one map fits them. */
  lemma ErrorMapUnique(m1: map<string, string>, m2: map<string, string>, issues: seq<Issue>)
    requires IsErrorMap(m1, issues) && IsErrorMap(m2, issues)
    ensures m1 == m2
  {
    forall k | k in m1
      ensures k in m2 && m1[k] == m2[k]
    {
      var i := LastOccurrence(issues, k);
    }
    assert m1.Keys == m2.Keys;
  }

  /** When no two issues share a field, every issue's message is in the error map. */
  lemma ErrorMapOfDistinct(m: map<string, string>, issues: seq<Issue>)
    requires IsErrorMap(m, issues) && NoDup(Paths(issues))
    ensures forall i :: 0 <= i < |issues| && issues[i].path != "" ==>
              issues[i].path in m && m[issues[i].path] == issues[i].message
  {
    forall i | 0 <= i < |issues| && issues[i].path != ""
      ensures LastFor(issues, i)
    {
      forall j | i < j < |issues|
        ensures issues[j].path != issues[i].path
      {
        assert Paths(issues)[i] == issues[i].path && Paths(issues)[j] == issues[j].path;
      }
    }
  }

  /**
   * An issue followed later by another issue for the same field leaves no trace in the
   * error map: the map of the list is the map of the list without it.
   */
  lemma ErrorMapDropShadowed(m: map<string, string>, a: seq<Issue>, e: Issue, b: seq<Issue>)
    requires IsErrorMap(m, a + [e] + b)
    requires e.path in Paths(b)
    ensures IsErrorMap(m, a + b)
  {
    ShadowedKeys(a, e, b);
    ShadowedLast(m, a, e, b);
  }

  lemma ShadowedKeys(a: seq<Issue>, e: Issue, b: seq<Issue>)
    requires e.path in Paths(b)
    ensures Elems(Paths(a + [e] + b)) == Elems(Paths(a + b))
  {
    PathsConcat(a + [e], b);
    PathsConcat(a, [e]);
    PathsConcat(a, b);
    PathsOfOne(e);
    ElemsConcat(Paths(a) + [e.path], Paths(b));
    ElemsConcat(Paths(a), [e.path]);
    ElemsConcat(Paths(a), Paths(b));
  }

  lemma ShadowedLast(m: map<string, string>, a: seq<Issue>, e: Issue, b: seq<Issue>)
    requires IsErrorMap(m, a + [e] + b)
    requires e.path in Paths(b)
    ensures forall i :: 0 <= i < |a + b| && (a + b)[i].path != "" && LastFor(a + b, i) ==>
              (a + b)[i].path in m && m[(a + b)[i].path] == (a + b)[i].message
  {
    var s, t := a + [e] + b, a + b;
    forall i | 0 <= i < |t| && t[i].path != "" && LastFor(t, i)
      ensures t[i].path in m && m[t[i].path] == t[i].message
    {
      if i < |a| {
        ShadowedBefore(a, e, b, i);
      } else {
        ShadowedAfter(a, e, b, i);
      }
    }
  }

  /** An issue before the shadowed one stays the last for its field. */
  lemma ShadowedBefore(a: seq<Issue>, e: Issue, b: seq<Issue>, i: nat)
    requires e.path in Paths(b)
    requires i < |a| && LastFor(a + b, i)
    ensures (a + [e] + b)[i] == (a + b)[i] && LastFor(a + [e] + b, i)
  {
    var s, t := a + [e] + b, a + b;
    var k :| 0 <= k < |b| && Paths(b)[k] == e.path;
    assert t[|a| + k] == b[k];
    assert s[i] == t[i] && s[|a|] == e;
    forall j | i < j < |s|
      ensures s[j].path != s[i].path
    {
      if j < |a| {
        assert s[j] == t[j];
      } else if j == |a| {
        assert e.path == b[k].path == t[|a| + k].path;
      } else {
        assert s[j] == t[j - 1];
      }
    }
  }

  /** An issue after the shadowed one keeps being the last for its field, one place later. */
  lemma ShadowedAfter(a: seq<Issue>, e: Issue, b: seq<Issue>, i: nat)
    requires |a| <= i < |a + b| && LastFor(a + b, i)
    ensures (a + [e] + b)[i + 1] == (a + b)[i] && LastFor(a + [e] + b, i + 1)
  {
    var s, t := a + [e] + b, a + b;
    assert s[i + 1] == t[i];
    forall j | i + 1 < j < |s|
      ensures s[j].path != s[i + 1].path
    {
      assert s[j] == t[j - 1];
    }
  }

  /** The issue a field reports, if any. */
  function FieldIssue(field: string, message: Option<string>): seq<Issue>
  {
    if message.Some? then [Issue(field, message.value)] else []
  }

  /** The message each rule reports for its field, `None` when the field passes. */
  function NameMessage(name: string): Option<string>
  {
    if |Trim(name)| < 1 then Some(NameRequired)
    else if |Trim(name)| > MaxNameLength then Some(NameTooLong)
    else None
  }

  function StartTimeMessage(startTime: string): Option<string>
  {
    if startTime == "" then Some(StartTimeRequired) else None
  }

  /** The message of the bound the seat count breaks, if any: the last seat-count issue. */
  function SeatsMessage(totalSeats: SeatNumber): Option<string>
  {
    if TooFew(totalSeats) then Some(TooFewSeats)
    else if TooMany(totalSeats) then Some(TooManySeats)
    else None
  }

  /**
   * Each rule reports exactly its own message, and it reports one exactly when the field
   * fails; an infinite seat count reports the `int()` message before its bound's message.
   */
  lemma FieldMessages(name: string, startTime: string, totalSeats: SeatNumber)
    ensures NameIssues(name) == FieldIssue(NameField, NameMessage(name))
    ensures StartTimeIssues(startTime) == FieldIssue(StartTimeField, StartTimeMessage(startTime))
    ensures SeatIssues(totalSeats) == IntIssues(totalSeats) + FieldIssue(SeatsField, SeatsMessage(totalSeats))
    ensures IntIssues(totalSeats) == (if totalSeats.Infinite? then [Issue(SeatsField, NotInteger)] else [])
    ensures NameMessage(name).None? <==> NameValid(name)
    ensures StartTimeMessage(startTime).None? <==> StartTimeValid(startTime)
    ensures SeatsMessage(totalSeats).None? <==> SeatsValid(totalSeats)
  {
  }

  /** The entry a field has in an error map: its message, or no entry when it has none. */
  predicate HasEntry(m: map<string, string>, field: string, message: Option<string>)
  {
    (field in m <==> message.Some?) && (message.Some? ==> m[field] == message.value)
  }

  /** The error map of the issues of three distinct fields holds exactly their messages. */
  lemma ErrorsOfFields(m: map<string, string>, x: Option<string>, y: Option<string>, z: Option<string>)
    requires IsErrorMap(m, FieldIssue(NameField, x) + FieldIssue(StartTimeField, y) + FieldIssue(SeatsField, z))
    ensures m.Keys <= {NameField, StartTimeField, SeatsField}
    ensures HasEntry(m, NameField, x) && HasEntry(m, StartTimeField, y) && HasEntry(m, SeatsField, z)
  {
    var a, b, c := FieldIssue(NameField, x), FieldIssue(StartTimeField, y), FieldIssue(SeatsField, z);
    var issues := a + b + c;
    PathsConcat(a + b, c);
    PathsConcat(a, b);
    if x.Some? { PathsOfOne(a[0]); }
    if y.Some? { PathsOfOne(b[0]); }
    if z.Some? { PathsOfOne(c[0]); }
    var paths := (if x.Some? then [NameField] else []) + (if y.Some? then [StartTimeField] else [])
                 + (if z.Some? then [SeatsField] else []);
    assert Paths(issues) == paths;
    FieldListNoDup(x.Some?, y.Some?, z.Some?);
    ErrorMapOfDistinct(m, issues);
    assert NameField != "" && StartTimeField != "" && SeatsField != "";
    assert NameField != StartTimeField && NameField != SeatsField && StartTimeField != SeatsField;
    if x.Some? { assert issues[0] == a[0]; }
    if y.Some? { assert issues[|a|] == b[0]; }
    if z.Some? { assert issues[|a| + |b|] == c[0]; }
  }

  /**
   * For the show schema the error map has exactly one entry per failing field, and that
   * entry is the message of the rule the field broke.
   */
  lemma FormErrors(m: map<string, string>, name: string, startTime: string, totalSeats: SeatNumber)
    requires IsErrorMap(m, Validate(name, startTime, totalSeats))
    ensures m.Keys <= {NameField, StartTimeField, SeatsField}
    ensures HasEntry(m, NameField, NameMessage(name))
    ensures HasEntry(m, StartTimeField, StartTimeMessage(startTime))
    ensures HasEntry(m, SeatsField, SeatsMessage(totalSeats))
    ensures NameField in m <==> !NameValid(name)
    ensures StartTimeField in m <==> !StartTimeValid(startTime)
    ensures SeatsField in m <==> !SeatsValid(totalSeats)
  {
    FieldMessages(name, startTime, totalSeats);
    var a := FieldIssue(NameField, NameMessage(name));
    var b := FieldIssue(StartTimeField, StartTimeMessage(startTime));
    var c := FieldIssue(SeatsField, SeatsMessage(totalSeats));
    if totalSeats.Infinite? {
      // the int() issue is shadowed by the bound's issue for the same field
      var e := Issue(SeatsField, NotInteger);
      assert Validate(name, startTime, totalSeats) == (a + b) + [e] + c;
      PathsOfOne(c[0]);
      ErrorMapDropShadowed(m, a + b, e, c);
    } else {
      assert Validate(name, startTime, totalSeats) == a + b + c;
    }
    ErrorsOfFields(m, NameMessage(name), StartTimeMessage(startTime), SeatsMessage(totalSeats));
  }

  // ---------------------------------------------------------------------------
  // The form
  // ---------------------------------------------------------------------------

  /** The arguments passed to `createShow`. */
  datatype ShowInsert = ShowInsert(name: string, startTime: string, totalSeats: int)

  /** The form's state: its three text inputs and the error map it displays. */
  class ShowForm {
    var name: string
    var startTime: string
    var totalSeats: string
    var errors: map<string, string>

    constructor ()
      ensures name == "" && startTime == "" && totalSeats == "" && errors == map[]
    {
      name, startTime, totalSeats := "", "", "";
      errors := map[];
    }

    /**
     * `handleSubmit`. `isoStart` is what `new Date(startTime).toISOString()` gives (`None`
     * when it throws), and `createFails` says whether `createShow` itself throws. The
     * result is the call made to `createShow`, if any. A rejected form shows the error
     * map of its issues and keeps its inputs; an accepted one shows no errors, calls
     * `createShow` with the untrimmed name and the parsed seat count, and is cleared
     * only when that call returns normally.
     */
    method HandleSubmit(isoStart: Option<string>, createFails: bool) returns (call: Option<ShowInsert>)
      modifies this
      ensures var issues := Validate(old(name), old(startTime), SeatCount(old(totalSeats)));
              && (issues != [] ==> call == None && IsErrorMap(errors, issues))
              && (issues == [] ==> errors == map[])
              && (call.Some? <==> issues == [] && isoStart.Some?)
      ensures call.Some? ==>
                && call.value.name == old(name)
                && Some(call.value.startTime) == isoStart
                && ParseInt(old(totalSeats)) == Some(call.value.totalSeats)
                && MinSeats <= call.value.totalSeats <= MaxSeats
      ensures if call.Some? && !createFails then name == "" && startTime == "" && totalSeats == ""
              else name == old(name) && startTime == old(startTime) && totalSeats == old(totalSeats)
    {
      errors := map[];
      var issues := Validate(name, startTime, SeatCount(totalSeats));
      if issues != [] {
        errors := CollectErrors(issues);
        return None;
      }
      ValidateByField(name, startTime, SeatCount(totalSeats));
      if isoStart.None? {
        return None;
      }
      AcceptedSeatsParsed(totalSeats);
      call := Some(ShowInsert(name, isoStart.value, ParseInt(totalSeats).value));
      if !createFails {
        name, startTime, totalSeats := "", "", "";
      }
    }
  }
}
