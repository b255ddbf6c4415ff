/** The string operations both sides rely on: trimming, splitting, joining and decimal numerals. */
module Text {

  datatype Option<+T> = None | Some(value: T)

  // White space as Unicode defines it; strings.TrimSpace (Go) and String.Trim (.NET) use this set.
  predicate IsSpace(c: char) {
    '\t' <= c <= '\r' || c == ' ' || c == '\U{0085}' || c == '\U{00A0}' || c == '\U{1680}'
    || '\U{2000}' <= c <= '\U{200A}' || c == '\U{2028}' || c == '\U{2029}' || c == '\U{202F}'
    || c == '\U{205F}' || c == '\U{3000}'
  }

  function TrimLeft(s: string): string {
    if s != [] && IsSpace(s[0]) then TrimLeft(s[1..]) else s
  }

  function TrimRight(s: string): string {
    if s != [] && IsSpace(s[|s| - 1]) then TrimRight(s[..|s| - 1]) else s
  }

  function Trim(s: string): string {
    TrimRight(TrimLeft(s))
  }

  // A string that starts and ends with something visible is its own trimmed form.
  lemma TrimIdentity(s: string)
    requires s != [] && !IsSpace(s[0]) && !IsSpace(s[|s| - 1])
    ensures Trim(s) == s
  {
  }

  lemma {:induction false} TrimRightIdempotent(s: string)
    ensures TrimRight(TrimRight(s)) == TrimRight(s)
    ensures TrimRight(s) <= s
    decreases |s|
  {
    if s != [] && IsSpace(s[|s| - 1]) { TrimRightIdempotent(s[..|s| - 1]); }
  }

  lemma {:induction false} TrimLeftVisible(s: string)
    ensures TrimLeft(s) == [] || !IsSpace(TrimLeft(s)[0])
  {
    if s != [] && IsSpace(s[0]) { TrimLeftVisible(s[1..]); }
  }

  lemma TrimIdempotent(s: string)
    ensures Trim(Trim(s)) == Trim(s)
  {
    TrimLeftVisible(s);
    TrimRightIdempotent(TrimLeft(s));
    assert TrimLeft(Trim(s)) == Trim(s);
  }

  // string.Split(sep): always at least one piece.
  function Split(s: string, sep: char): (pieces: seq<string>)
    ensures |pieces| >= 1
  {
    if s == [] then [""]
    else
      var rest := Split(s[1..], sep);
      if s[0] == sep then [""] + rest else [[s[0]] + rest[0]] + rest[1..]
  }

  function Join(pieces: seq<string>, sep: char): string {
    if pieces == [] then ""
    else if |pieces| == 1 then pieces[0]
    else pieces[0] + [sep] + Join(pieces[1..], sep)
  }

  lemma {:induction false} SplitPrefix(a: string, s: string, sep: char)
    requires sep !in a
    ensures Split(a + [sep] + s, sep) == [a] + Split(s, sep)
  {
    if a == [] {
      assert a + [sep] + s == [sep] + s;
    } else {
      SplitPrefix(a[1..], s, sep);
      assert (a + [sep] + s)[1..] == a[1..] + [sep] + s;
      assert [a[0]] + a[1..] == a;
    }
  }

  lemma {:induction false} SplitNothing(a: string, sep: char)
    requires sep !in a
    ensures Split(a, sep) == [a]
  {
    if a != [] {
      SplitNothing(a[1..], sep);
      assert [a[0]] + a[1..] == a;
    }
  }

  // Splitting undoes joining when no piece contains the separator.
  lemma {:induction false} SplitJoin(pieces: seq<string>, sep: char)
    requires |pieces| >= 1
    requires forall i :: 0 <= i < |pieces| ==> sep !in pieces[i]
    ensures Split(Join(pieces, sep), sep) == pieces
  {
    if |pieces| == 1 {
      SplitNothing(pieces[0], sep);
    } else {
      SplitJoin(pieces[1..], sep);
      SplitPrefix(pieces[0], Join(pieces[1..], sep), sep);
    }
  }

  // StringSplitOptions.RemoveEmptyEntries | StringSplitOptions.TrimEntries.
  function CleanPieces(pieces: seq<string>): seq<string> {
    if pieces == [] then []
    else
      var first := Trim(pieces[0]);
      (if first == "" then [] else [first]) + CleanPieces(pieces[1..])
  }

  lemma {:induction false} CleanIdentity(pieces: seq<string>)
    requires forall i :: 0 <= i < |pieces| ==> pieces[i] != "" && Trim(pieces[i]) == pieces[i]
    ensures CleanPieces(pieces) == pieces
  {
    if pieces != [] { CleanIdentity(pieces[1..]); }
  }

  predicate IsDigit(c: char) { '0' <= c <= '9' }

  predicate AllDigits(s: string) { forall i :: 0 <= i < |s| ==> IsDigit(s[i]) }

  function Digit(n: nat): char
    requires n < 10
  {
    "0123456789"[n]
  }

  function DigitValue(c: char): (d: nat)
    requires IsDigit(c)
    ensures d < 10
  {
    c as int - '0' as int
  }

  // The decimal numeral of n, as ToString() and string interpolation print it.
  function Decimal(n: nat): (s: string)
    ensures s != [] && AllDigits(s)
  {
    if n < 10 then [Digit(n)] else Decimal(n / 10) + [Digit(n % 10)]
  }

  function Numeral(i: int): string {
    if i < 0 then "-" + Decimal(-i) else Decimal(i)
  }

  function Value(s: string): nat
    requires AllDigits(s)
  {
    if s == [] then 0 else 10 * Value(s[..|s| - 1]) + DigitValue(s[|s| - 1])
  }

  lemma {:induction false} ValueOfDecimal(n: nat)
    ensures Value(Decimal(n)) == n
  {
    if n >= 10 {
      ValueOfDecimal(n / 10);
      assert Decimal(n)[..|Decimal(n)| - 1] == Decimal(n / 10);
    }
  }

  function DropNulls(s: string): string {
    if s != [] && s[|s| - 1] == '\0' then DropNulls(s[..|s| - 1]) else s
  }

  // TryParse(text, out number) for a signed integer with the given bounds, on text
  // that carries no outer white space: optional sign, digits, then any trailing nulls.
  function TryParse(s: string, least: int, most: int): Option<int> {
    var body := if s != [] && (s[0] == '+' || s[0] == '-') then DropNulls(s[1..]) else DropNulls(s);
    if body == [] || !AllDigits(body) then None
    else
      var magnitude: int := Value(body);
      var v := if s[0] == '-' then -magnitude else magnitude;
      if least <= v <= most then Some(v) else None
  }

  const INT_MIN: int := -0x8000_0000
  const INT_MAX: int := 0x7fff_ffff
  const LONG_MIN: int := -0x8000_0000_0000_0000
  const LONG_MAX: int := 0x7fff_ffff_ffff_ffff

  lemma DecimalVisible(n: nat)
    ensures Trim(Decimal(n)) == Decimal(n)
    ensures forall c :: !IsDigit(c) ==> c !in Decimal(n)
  {
  }

  lemma TryParseDecimal(n: nat, least: int, most: int)
    requires least <= n <= most
    ensures TryParse(Decimal(n), least, most) == Some(n)
  {
    var s := Decimal(n);
    assert IsDigit(s[0]) && IsDigit(s[|s| - 1]);
    assert DropNulls(s) == s;
    ValueOfDecimal(n);
  }
}
