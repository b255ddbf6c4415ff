/** TotpService: the text of a two-factor secret, and the two loops that write and read it. */
module Totp {
  import opened Base32
  import opened Text

  const ALPHABET := "ABCDEFGHIJKLMNOPQRSTUVWXYZ234567"
  const SHORTEST: nat := 16

  // ---- letters and digits ----

  function Letter(d: nat): char
    requires d < 32
  {
    ALPHABET[d]
  }

  function IndexOf(c: char): Option<nat> { FirstIndex(ALPHABET, c, 0) }

  function FirstIndex(s: string, c: char, from: nat): (i: Option<nat>)
    requires from <= |s|
    ensures i.Some? ==> from <= i.value < |s| && s[i.value] == c && forall j :: from <= j < i.value ==> s[j] != c
    ensures i.None? ==> forall j :: from <= j < |s| ==> s[j] != c
    decreases |s| - from
  {
    if from == |s| then None
    else if s[from] == c then Some(from)
    else FirstIndex(s, c, from + 1)
  }

  // A letter's place in the alphabet, by character code.
  function Place(c: char): int { if c >= 'A' then c as int - 'A' as int else 26 + c as int - '2' as int }

  lemma PlaceOfLetter(d: nat)
    requires d < 32
    ensures Place(Letter(d)) == d
    ensures 'A' <= Letter(d) <= 'Z' || '2' <= Letter(d) <= '7'
  {
    assert |ALPHABET| == 32;
  }

  lemma IndexOfLetter(d: nat)
    requires d < 32
    ensures IndexOf(Letter(d)) == Some(d)
  {
    var i := IndexOf(Letter(d));
    assert |ALPHABET| == 32;
    assert ALPHABET[d] == Letter(d);
    PlaceOfLetter(d);
    if i.Some? { PlaceOfLetter(i.value); }
  }

  function Letters(digits: seq<nat>): (s: string)
    requires forall i :: 0 <= i < |digits| ==> digits[i] < 32
    ensures |s| == |digits|
    ensures forall i :: 0 <= i < |s| ==> s[i] == Letter(digits[i])
  {
    seq(|digits|, i requires 0 <= i < |digits| => Letter(digits[i]))
  }

  predicate InAlphabet(s: string) { forall i :: 0 <= i < |s| ==> IndexOf(s[i]).Some? }

  function Indices(s: string): (digits: seq<nat>)
    requires InAlphabet(s)
    ensures |digits| == |s|
    ensures forall i :: 0 <= i < |s| ==> Some(digits[i]) == IndexOf(s[i])
  {
    seq(|s|, i requires 0 <= i < |s| => IndexOf(s[i]).value)
  }

  lemma IndicesOfLetters(digits: seq<nat>)
    requires forall i :: 0 <= i < |digits| ==> digits[i] < 32
    ensures InAlphabet(Letters(digits)) && Indices(Letters(digits)) == digits
  {
    forall i | 0 <= i < |digits| ensures IndexOf(Letters(digits)[i]) == Some(digits[i]) {
      IndexOfLetter(digits[i]);
    }
  }

  // ---- writing ----

  lemma DigitsBelow32(bytes: seq<Byte>)
    ensures forall i :: 0 <= i < |Encode(bytes, true)| ==> Encode(bytes, true)[i] < 32
  {
    EncodeMeetsStandard(bytes, true);
    assert Pow2(5) == 32;
  }

  // The secret GenerateSecret writes for these random bytes.
  function Secret(bytes: seq<Byte>): string {
    DigitsBelow32(bytes);
    Letters(Encode(bytes, true))
  }

  lemma SecretLength(bytes: seq<Byte>)
    ensures |Secret(bytes)| == (8 * |bytes| + 4) / 5
  {
    EncodeMeetsStandard(bytes, true);
    EncodedLength(bytes, Encode(bytes, true));
  }

  // ---- reading ----

  function DropSpaces(s: string): string {
    if s == [] then [] else (if s[0] == ' ' then [] else [s[0]]) + DropSpaces(s[1..])
  }

  // TrimEnd('=')
  function DropPadding(s: string): string {
    if s != [] && s[|s| - 1] == '=' then DropPadding(s[..|s| - 1]) else s
  }

  function UpperCase(c: char): char { if 'a' <= c <= 'z' then c - 'a' + 'A' else c }

  function Upper(s: string): (u: string)
    ensures |u| == |s|
  {
    seq(|s|, i requires 0 <= i < |s| => UpperCase(s[i]))
  }

  function Normalize(secret: string): string { Upper(DropPadding(DropSpaces(Trim(secret)))) }

  // None is the FormatException.
  function Decode(secret: string): Option<seq<nat>> {
    var normalized := Normalize(secret);
    if |normalized| < SHORTEST || !InAlphabet(normalized) then None
    else Some(Regroup(Indices(normalized), 5, 8, true).output)
  }

  predicate IsValidSecret(secret: string) { Decode(secret).Some? && |Decode(secret).value| >= 16 }

  // ---- the way a secret is typed does not matter ----

  lemma UpperUnchanged(s: string)
    requires forall i :: 0 <= i < |s| ==> !('a' <= s[i] <= 'z')
    ensures Upper(s) == s
  {
  }

  lemma {:induction false} NoSpacesToDrop(s: string)
    requires ' ' !in s
    ensures DropSpaces(s) == s
  {
    if s != [] { NoSpacesToDrop(s[1..]); }
  }

  lemma {:induction false} DropSpacesSnoc(s: string, c: char)
    ensures DropSpaces(s + [c]) == DropSpaces(s) + (if c == ' ' then [] else [c])
  {
    if s == [] {
      assert s + [c] == [c];
      assert DropSpaces([c]) == (if c == ' ' then [] else [c]) + DropSpaces([]);
    } else {
      assert (s + [c])[1..] == s[1..] + [c];
      DropSpacesSnoc(s[1..], c);
    }
  }

  // The only white space in s is the plain space.
  predicate PlainSpaces(s: string) { forall i :: 0 <= i < |s| ==> IsSpace(s[i]) ==> s[i] == ' ' }

  lemma {:induction false} DropAfterTrimLeft(s: string)
    requires PlainSpaces(s)
    ensures DropSpaces(TrimLeft(s)) == DropSpaces(s) && PlainSpaces(TrimLeft(s))
  {
    if s != [] && IsSpace(s[0]) { DropAfterTrimLeft(s[1..]); }
  }

  lemma {:induction false} DropAfterTrimRight(s: string)
    requires PlainSpaces(s)
    ensures DropSpaces(TrimRight(s)) == DropSpaces(s)
    decreases |s|
  {
    if s != [] && IsSpace(s[|s| - 1]) {
      var init := s[..|s| - 1];
      assert s == init + [' '];
      DropSpacesSnoc(init, ' ');
      DropAfterTrimRight(init);
    }
  }

  lemma {:induction false} DroppedAreVisible(s: string)
    requires forall i :: 0 <= i < |DropSpaces(s)| ==> !IsSpace(DropSpaces(s)[i])
    ensures PlainSpaces(s)
  {
    if s != [] {
      var first := if s[0] == ' ' then [] else [s[0]];
      assert DropSpaces(s) == first + DropSpaces(s[1..]);
      forall i | 0 <= i < |DropSpaces(s[1..])| ensures !IsSpace(DropSpaces(s[1..])[i]) {
        assert DropSpaces(s)[|first| + i] == DropSpaces(s[1..])[i];
      }
      DroppedAreVisible(s[1..]);
      if s[0] != ' ' { assert DropSpaces(s)[0] == s[0]; }
    }
  }

  function Padding(k: nat): string { seq(k, i => '=') }

  lemma {:induction false} DropPaddingIs(body: string, s: string, k: nat)
    requires Upper(s) == body + Padding(k)
    requires body != [] && body[|body| - 1] != '='
    ensures Upper(DropPadding(s)) == body
    decreases k
  {
    if k == 0 {
      assert Upper(s) == body;
      assert UpperCase(s[|s| - 1]) == body[|body| - 1];
    } else {
      var n := |s| - 1;
      assert UpperCase(s[n]) == (body + Padding(k))[n] == '=';
      assert s[n] == '=';
      assert Upper(s[..n]) == Upper(s)[..n] == body + Padding(k - 1);
      DropPaddingIs(body, s[..n], k - 1);
    }
  }

  lemma LettersAreVisible(bytes: seq<Byte>)
    ensures var s := Secret(bytes); forall i :: 0 <= i < |s| ==> 'A' <= s[i] <= 'Z' || '2' <= s[i] <= '7'
  {
    var digits := Encode(bytes, true);
    DigitsBelow32(bytes);
    forall i | 0 <= i < |digits| ensures 'A' <= Letters(digits)[i] <= 'Z' || '2' <= Letters(digits)[i] <= '7' {
      PlaceOfLetter(digits[i]);
    }
  }

  // Lower case, spaces anywhere and padding signs at the end normalize to the secret itself.
  lemma NormalizesTo(bytes: seq<Byte>, text: string, k: nat)
    requires bytes != []
    requires Upper(DropSpaces(text)) == Secret(bytes) + Padding(k)
    ensures Normalize(text) == Secret(bytes)
  {
    var kept := DropSpaces(text);
    LettersAreVisible(bytes);
    SecretLength(bytes);
    forall i | 0 <= i < |kept| ensures !IsSpace(kept[i]) {
      assert UpperCase(kept[i]) == (Secret(bytes) + Padding(k))[i];
    }
    DroppedAreVisible(text);
    DropAfterTrimLeft(text);
    DropAfterTrimRight(TrimLeft(text));
    DropPaddingIs(Secret(bytes), kept, k);
  }

  lemma DecodeSecretText(bytes: seq<Byte>, text: string)
    requires Normalize(text) == Secret(bytes)
    ensures Decode(text) == if |bytes| >= 10 then Some(bytes) else None
  {
    var digits := Encode(bytes, true);
    EncodeMeetsStandard(bytes, true);
    DigitsBelow32(bytes);
    IndicesOfLetters(digits);
    SecretLength(bytes);
    DecodeInvertsEncoding(bytes, digits, true);
  }

  // Reading a generated secret, however it is typed in, gives back the random bytes exactly
  // when there are at least ten of them; a shorter secret is refused.
  lemma SecretRoundTrip(bytes: seq<Byte>, text: string, k: nat)
    requires Upper(DropSpaces(text)) == Secret(bytes) + Padding(k)
    requires bytes != []
    ensures Decode(text) == if |bytes| >= 10 then Some(bytes) else None
    ensures IsValidSecret(text) <==> |bytes| >= 16
  {
    NormalizesTo(bytes, text, k);
    DecodeSecretText(bytes, text);
  }

  lemma SecretReadsBack(bytes: seq<Byte>)
    ensures Decode(Secret(bytes)) == if |bytes| >= 10 then Some(bytes) else None
  {
    if bytes == [] {
      SecretLength(bytes);
      assert Secret(bytes) == [];
    } else {
      LettersAreVisible(bytes);
      NoSpacesToDrop(Secret(bytes));
      UpperUnchanged(Secret(bytes));
      assert Secret(bytes) + Padding(0) == Secret(bytes);
      SecretRoundTrip(bytes, Secret(bytes), 0);
    }
  }

  // ---- the loops ----

  method GenerateSecret(bytes: seq<Byte>) returns (output: string)
    ensures output == Secret(bytes)
  {
    DigitsBelow32(bytes);
    var digits := WriteDigits(bytes);
    output := Letters(digits);
  }

  method WriteDigits(bytes: seq<Byte>) returns (digits: seq<nat>)
    ensures digits == Encode(bytes, true)
  {
    digits := [];
    var buffer, bits := 0, 0;
    for i := 0 to |bytes|
      invariant 0 <= bits < 5
      invariant Accumulator(buffer, bits, digits) == Regroup(bytes[..i], 8, 5, true)
    {
      RegroupStep(bytes, i, 8, 5, true);
      buffer := Wrap(Shl(buffer, 8) + bytes[i]);
      bits, digits := EmitDigits(buffer, bits + 8, digits);
    }
    assert bytes[..|bytes|] == bytes;
    FlushStep(buffer, bits, digits);
    if bits > 0 {
      digits := digits + [Wrap(Shl(buffer, 5 - bits)) % 32];
    }
  }

  // The inner loop of GenerateSecret.
  method EmitDigits(buffer: int, available: nat, before: seq<nat>) returns (bits: nat, digits: seq<nat>)
    ensures Accumulator(buffer, bits, digits) == Drain(Accumulator(buffer, available, before), 5)
  {
    Widths();
    bits, digits := available, before;
    while bits >= 5
      invariant Drain(Accumulator(buffer, bits, digits), 5) == Drain(Accumulator(buffer, available, before), 5)
    {
      DrainStep(Accumulator(buffer, bits, digits), 5, 32);
      bits := bits - 5;
      digits := digits + [Shr(buffer, bits) % 32];
    }
  }

  lemma FlushStep(buffer: int, bits: nat, digits: seq<nat>)
    requires bits < 5
    ensures Flush(Accumulator(buffer, bits, digits), 5, true)
         == if bits == 0 then digits else digits + [Wrap(Shl(buffer, 5 - bits)) % 32]
  {
  }

  lemma Widths()
    ensures Pow2(5) == 32 && Pow2(8) == 256
  {
  }

  method DecodeSecret(secret: string) returns (result: Option<seq<nat>>)
    ensures result == Decode(secret)
  {
    var normalized := Normalize(secret);
    if |normalized| < SHORTEST || !InAlphabet(normalized) {
      return None;
    }
    var bytes := ReadDigits(Indices(normalized));
    result := Some(bytes);
  }

  method ReadDigits(digits: seq<nat>) returns (bytes: seq<nat>)
    ensures bytes == Regroup(digits, 5, 8, true).output
  {
    Widths();
    bytes := [];
    var buffer, bits := 0, 0;
    for i := 0 to |digits|
      invariant 0 <= bits < 8
      invariant Accumulator(buffer, bits, bytes) == Regroup(digits[..i], 5, 8, true)
    {
      RegroupStep(digits, i, 5, 8, true);
      buffer := Wrap(Shl(buffer, 5) + digits[i]);
      bits := bits + 5;
      if bits >= 8 {
        DrainStep(Accumulator(buffer, bits, bytes), 8, 256);
        bits := bits - 8;
        bytes := bytes + [Shr(buffer, bits) % 256];
      }
    }
    assert digits[..|digits|] == digits;
  }
}
