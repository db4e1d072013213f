/**
 Scalar-or-range parameters: the decimal text form, its parser and printer,
 and the JSON and SQL encodings.  `max` is the largest endpoint, 2^32-1 or
 2^16-1.
 */
module AwgRange {
  import opened Wrappers

  datatype Range = Range(low: nat, high: nat)

  predicate Valid(r: Range, max: nat) {
    r.low <= r.high <= max
  }

  const ZERO := Range(0, 0)

  datatype Error = Syntax | Exceeds | Reversed | OutOfBounds | BadJSON

  // ---- decimal numbers ------------------------------------------------------------------

  predicate IsDigit(c: char) {
    '0' <= c <= '9'
  }

  predicate DecimalDigits(s: string) {
    s != "" && forall i | 0 <= i < |s| :: IsDigit(s[i])
  }

  function DigitValue(c: char): nat
    requires IsDigit(c)
  {
    c as int - '0' as int
  }

  function DigitChar(d: nat): (c: char)
    requires d < 10
    ensures IsDigit(c) && DigitValue(c) == d
  {
    ('0' as int + d) as char
  }

  /** What ParseUint reads. */
  function Value(s: string): nat
    requires forall i | 0 <= i < |s| :: IsDigit(s[i])
    decreases |s|
  {
    if s == "" then 0 else 10 * Value(s[..|s| - 1]) + DigitValue(s[|s| - 1])
  }

  /** What FormatUint writes. */
  function Decimal(n: nat): (s: string)
    ensures DecimalDigits(s)
  {
    if n < 10 then [DigitChar(n)] else Decimal(n / 10) + [DigitChar(n % 10)]
  }

  lemma {:induction false} ValueOfDecimal(n: nat)
    ensures Value(Decimal(n)) == n
    decreases n
  {
    var s := Decimal(n);
    if n < 10 {
      assert s[..0] == "";
      assert Value("") == 0;
    } else {
      assert s[..|s| - 1] == Decimal(n / 10);
      ValueOfDecimal(n / 10);
    }
  }

  /** The same number without leading zeros. */
  function Stripped(s: string): string
    requires DecimalDigits(s)
    decreases |s|
  {
    if |s| > 1 && s[0] == '0' then Stripped(s[1..]) else s
  }

  lemma {:induction false} LeadingZero(s: string)
    requires DecimalDigits(s) && s[0] == '0'
    ensures Value(s) == Value(s[1..])
    decreases |s|
  {
    var n := |s| - 1;
    if n == 0 {
      assert s[..0] == "" && s[1..] == "";
      assert Value(s[..0]) == 0;
    } else {
      assert s[..n][1..] == s[1..][..n - 1];
      LeadingZero(s[..n]);
    }
  }

  lemma {:induction false} DecimalOfCanonical(s: string)
    requires DecimalDigits(s) && (|s| > 1 ==> s[0] != '0')
    ensures Decimal(Value(s)) == s
    ensures s[0] != '0' ==> Value(s) > 0
    decreases |s|
  {
    var n := |s| - 1;
    assert s == s[..n] + [s[n]];
    if n == 0 {
      assert Value(s[..0]) == 0;
    } else {
      DecimalOfCanonical(s[..n]);
      assert Value(s) / 10 == Value(s[..n]) && Value(s) % 10 == DigitValue(s[n]);
    }
  }

  /** Printing what was read only drops leading zeros. */
  lemma {:induction false} DecimalOfValue(s: string)
    requires DecimalDigits(s)
    ensures Decimal(Value(s)) == Stripped(s)
    decreases |s|
  {
    if |s| > 1 && s[0] == '0' {
      LeadingZero(s);
      DecimalOfValue(s[1..]);
    } else {
      DecimalOfCanonical(s);
    }
  }

  // ---- the range text --------------------------------------------------------------------

  function Dashes(s: string): nat {
    if s == "" then 0 else (if s[0] == '-' then 1 else 0) + Dashes(s[1..])
  }

  /** strings.Cut at the first dash: before, after, and whether there is one. */
  function Cut(s: string): (string, string, bool)
    decreases |s|
  {
    if s == "" then ("", "", false)
    else if s[0] == '-' then ("", s[1..], true)
    else
      var c := Cut(s[1..]);
      ([s[0]] + c.0, c.1, c.2)
  }

  function ParseUint(s: string, max: nat): Option<nat>
    requires DecimalDigits(s)
  {
    if Value(s) <= max then Some(Value(s)) else None
  }

  function Parse(text: string, max: nat): Result<Range, Error> {
    if text == "" || Dashes(text) > 1 then Err(Syntax)
    else
      var (lowText, highText, ranged) := Cut(text);
      if !DecimalDigits(lowText) || (ranged && !DecimalDigits(highText)) then Err(Syntax)
      else
        var low := ParseUint(lowText, max);
        var high := if ranged then ParseUint(highText, max) else low;
        if low.None? || high.None? then Err(Exceeds)
        else if high.value < low.value then Err(Reversed)
        else Ok(Range(low.value, high.value))
  }

  function Print(r: Range): string {
    if r.low == r.high then Decimal(r.low) else Decimal(r.low) + "-" + Decimal(r.high)
  }

  lemma {:induction false} DigitsHaveNoDash(s: string)
    requires forall i | 0 <= i < |s| :: IsDigit(s[i])
    ensures Dashes(s) == 0 && Cut(s) == (s, "", false)
    decreases |s|
  {
    if s != "" {
      DigitsHaveNoDash(s[1..]);
      assert s == [s[0]] + s[1..];
    }
  }

  lemma {:induction false} CutAtDash(a: string, b: string)
    requires (forall i | 0 <= i < |a| :: IsDigit(a[i])) && (forall i | 0 <= i < |b| :: IsDigit(b[i]))
    ensures Dashes(a + "-" + b) == 1 && Cut(a + "-" + b) == (a, b, true)
    decreases |a|
  {
    var s := a + "-" + b;
    if a == "" {
      assert s[1..] == b;
      DigitsHaveNoDash(b);
    } else {
      assert s[1..] == a[1..] + "-" + b;
      CutAtDash(a[1..], b);
      assert a == [a[0]] + a[1..];
    }
  }

  /** Cutting loses only the dash. */
  lemma {:induction false} CutParts(s: string)
    ensures var c := Cut(s); s == if c.2 then c.0 + "-" + c.1 else c.0
    decreases |s|
  {
    if s != "" && s[0] != '-' {
      CutParts(s[1..]);
      var c := Cut(s[1..]);
      assert s == [s[0]] + s[1..];
      if c.2 {
        assert [s[0]] + (c.0 + "-" + c.1) == ([s[0]] + c.0) + "-" + c.1;
      }
    } else if s != "" {
      assert s == "" + "-" + s[1..];
    }
  }

  lemma ParseScalar(a: string, max: nat)
    requires DecimalDigits(a)
    ensures Parse(a, max) == if Value(a) <= max then Ok(Range(Value(a), Value(a))) else Err(Exceeds)
  {
    DigitsHaveNoDash(a);
  }

  lemma ParsePair(a: string, b: string, max: nat)
    requires DecimalDigits(a) && DecimalDigits(b)
    ensures Parse(a + "-" + b, max) ==
              if Value(a) > max || Value(b) > max then Err(Exceeds)
              else if Value(b) < Value(a) then Err(Reversed)
              else Ok(Range(Value(a), Value(b)))
  {
    CutAtDash(a, b);
  }

  /** N within the bound. */
  ghost predicate ScalarText(t: string, max: nat) {
    DecimalDigits(t) && Value(t) <= max
  }

  /** N-M with N <= M within the bound. */
  ghost predicate PairText(t: string, a: string, b: string, max: nat) {
    t == a + "-" + b && DecimalDigits(a) && DecimalDigits(b) && Value(a) <= Value(b) <= max
  }

  /** The parser accepts exactly N and N-M with N <= M, both within the bound. */
  lemma ParseAcceptsExactly(t: string, max: nat)
    ensures Parse(t, max).Ok? <==> ScalarText(t, max) || exists a, b :: PairText(t, a, b, max)
  {
    if Parse(t, max).Ok? {
      var c := Cut(t);
      CutParts(t);
      if c.2 {
        assert PairText(t, c.0, c.1, max);
      }
    } else if ScalarText(t, max) {
      ParseScalar(t, max);
    } else if exists a, b :: PairText(t, a, b, max) {
      var a, b :| PairText(t, a, b, max);
      ParsePair(a, b, max);
    }
  }

  /** Some texts and what they stand for. */
  lemma KnownTexts()
    ensures Parse("7", 65535) == Ok(Range(7, 7)) && Parse("5" + "-" + "10", 65535) == Ok(Range(5, 10))
    ensures Parse("10" + "-" + "5", 65535) == Err(Reversed) && Parse("10" + "-" + "20", 19) == Err(Exceeds)
  {
    KnownValues();
    ParseScalar("7", 65535);
    ParsePair("5", "10", 65535);
    ParsePair("10", "5", 65535);
    ParsePair("10", "20", 19);
  }

  lemma KnownValues()
    ensures Value("5") == 5 && Value("7") == 7 && Value("10") == 10 && Value("20") == 20
  {
    assert Value("") == 0;
    assert "5"[..0] == "" && "7"[..0] == "" && "1"[..0] == "" && "2"[..0] == "";
    assert Value("1") == 1 && Value("2") == 2;
    assert "10"[..1] == "1" && "20"[..1] == "2";
  }

  /** What is accepted is a range within the bound. */
  lemma ParsedIsValid(t: string, max: nat)
    requires Parse(t, max).Ok?
    ensures Valid(Parse(t, max).value, max)
  {
    var c := Cut(t);
    assert DecimalDigits(c.0);
  }

  /** Every range reads back from its own text. */
  lemma ParsePrint(r: Range, max: nat)
    requires Valid(r, max)
    ensures Parse(Print(r), max) == Ok(r)
  {
    ValueOfDecimal(r.low);
    ValueOfDecimal(r.high);
    if r.low == r.high {
      ParseScalar(Decimal(r.low), max);
    } else {
      ParsePair(Decimal(r.low), Decimal(r.high), max);
    }
  }

  /** Text that differs from `t` only by leading zeros, or by a collapsed N-N. */
  function Canonical(t: string): string {
    var (a, b, ranged) := Cut(t);
    if !DecimalDigits(a) || (ranged && !DecimalDigits(b)) then t
    else if ranged && Value(a) != Value(b) then Stripped(a) + "-" + Stripped(b)
    else Stripped(a)
  }

  /** Printing what was accepted only drops leading zeros and collapses N-N. */
  lemma PrintParse(t: string, max: nat)
    requires Parse(t, max).Ok?
    ensures Print(Parse(t, max).value) == Canonical(t)
  {
    var c := Cut(t);
    DecimalOfValue(c.0);
    if c.2 {
      DecimalOfValue(c.1);
    }
  }

  /** Canonical text is printed as it was read. */
  lemma CanonicalIsFixed(r: Range, max: nat)
    requires Valid(r, max)
    ensures Canonical(Print(r)) == Print(r)
  {
    ParsePrint(r, max);
    PrintParse(Print(r), max);
  }

  predicate Holds(r: Range, n: nat) {
    r.low <= n <= r.high
  }

  predicate Overlaps(a: Range, b: Range) {
    a.low <= b.high && b.low <= a.high
  }

  /** Two ranges overlap exactly when they share a value. */
  lemma OverlapsExactly(a: Range, b: Range, max: nat)
    requires Valid(a, max) && Valid(b, max)
    ensures Overlaps(a, b) <==> exists n :: Holds(a, n) && Holds(b, n)
  {
    if Overlaps(a, b) {
      var n := if a.low < b.low then b.low else a.low;
      assert Holds(a, n) && Holds(b, n);
    }
  }

  // ---- JSON ----------------------------------------------------------------------------------

  function MarshalJSON(r: Range): string {
    if r.low == r.high then Print(r) else "\"" + Print(r) + "\""
  }

  /** A quoted string without escapes. */
  predicate PlainQuoted(data: string) {
    && |data| >= 2 && data[0] == '"' && data[|data| - 1] == '"'
    && forall i | 0 < i < |data| - 1 :: data[i] != '"' && data[i] != '\\' && data[i] >= ' '
  }

  /** The text of a JSON number or of a quoted string without escapes. */
  function JSONText(data: string): Option<string> {
    if data == "" then None
    else if data[0] == '"' then
      if PlainQuoted(data) then Some(data[1..|data| - 1]) else None
    else if DecimalDigits(data) then Some(data)
    else None
  }

  function UnmarshalJSON(data: string, max: nat): Result<Range, Error> {
    var t := JSONText(data);
    if t.None? then Err(BadJSON) else Parse(t.value, max)
  }

  /** Without quotes, escapes and control characters. */
  predicate Plain(t: string) {
    forall i | 0 <= i < |t| :: t[i] != '"' && t[i] != '\\' && t[i] >= ' '
  }

  /** A JSON integer and a quoted text are parsed as what they show; nothing else is accepted. */
  lemma UnmarshalExactly(t: string, max: nat)
    ensures DecimalDigits(t) ==> UnmarshalJSON(t, max) == Parse(t, max)
    ensures Plain(t) ==> UnmarshalJSON("\"" + t + "\"", max) == Parse(t, max)
    ensures t != "" && t[0] != '"' && !DecimalDigits(t) ==> UnmarshalJSON(t, max) == Err(BadJSON)
  {
    var data := "\"" + t + "\"";
    assert data[1..|data| - 1] == t;
    if Plain(t) {
      forall i | 0 < i < |data| - 1 ensures data[i] != '"' && data[i] != '\\' && data[i] >= ' ' {
        assert data[i] == t[i - 1];
      }
    }
  }

  lemma JSONRoundTrip(r: Range, max: nat)
    requires Valid(r, max)
    ensures UnmarshalJSON(MarshalJSON(r), max) == Ok(r)
  {
    ParsePrint(r, max);
    var data := MarshalJSON(r);
    if r.low == r.high {
      assert IsDigit(data[0]);
    } else {
      assert data[1..|data| - 1] == Print(r);
      forall i | 0 < i < |data| - 1 ensures IsDigit(data[i]) || data[i] == '-' {
        assert data[i] == Print(r)[i - 1];
      }
    }
  }

  // ---- SQL -----------------------------------------------------------------------------------

  /** The column values a driver hands over. */
  datatype Column = Null | Integer(v: int) | Text(s: string) | Bytes(s: string) | OtherColumn

  function SQLValue(r: Range): string {
    if r == ZERO then "" else Print(r)
  }

  function Scan(c: Column, max: nat): Result<Range, Error> {
    match c
    case Null => Ok(ZERO)
    case Integer(v) => if v < 0 || v > max then Err(OutOfBounds) else Ok(Range(v, v))
    case Text(s) => if s == "" then Ok(ZERO) else Parse(s, max)
    case Bytes(s) => if s == "" then Ok(ZERO) else Parse(s, max)
    case OtherColumn => Err(OutOfBounds)
  }

  /** A stored range is read back, as text or bytes, zero being the empty text. */
  lemma SQLRoundTrip(r: Range, max: nat)
    requires Valid(r, max)
    ensures Scan(Text(SQLValue(r)), max) == Ok(r) && Scan(Bytes(SQLValue(r)), max) == Ok(r)
    ensures SQLValue(r) == "" <==> r == ZERO
  {
    ParsePrint(r, max);
  }

  /** A number is the range of itself, no value is zero, and text is parsed. */
  lemma ScanExactly(v: int, t: string, max: nat)
    ensures Scan(Integer(v), max) == if 0 <= v <= max then Ok(Range(v, v)) else Err(OutOfBounds)
    ensures Scan(Null, max) == Ok(ZERO) && Scan(OtherColumn, max).Err?
    ensures t != "" ==> Scan(Text(t), max) == Scan(Bytes(t), max) == Parse(t, max)
    ensures Scan(Text(""), max) == Scan(Bytes(""), max) == Ok(ZERO)
  {
  }

  /** Whatever is scanned is a range within the bound, and storing it again keeps it. */
  lemma ScannedIsStable(c: Column, max: nat)
    requires Scan(c, max).Ok?
    ensures Valid(Scan(c, max).value, max)
    ensures Scan(Text(SQLValue(Scan(c, max).value)), max) == Scan(c, max)
  {
    if c.Text? && c.s != "" {
      ParsedIsValid(c.s, max);
    }
    if c.Bytes? && c.s != "" {
      ParsedIsValid(c.s, max);
    }
    SQLRoundTrip(Scan(c, max).value, max);
  }
}
