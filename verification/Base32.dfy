/** TotpService: the Base32 secrets of two-factor login, written and read through a 32-bit
    accumulator (section 6 of RFC 4648, without padding characters). Both directions regroup
    a stream of bits, from n to m bits at a time: 8 to 5 when writing, 5 to 8 when reading. */
module Base32 {
  import opened Arithmetic

  type Byte = b: nat | b < 256

  // ---- integers as the accumulator sees them ----

  function Pow2(k: nat): (p: nat)
    ensures p > 0
  {
    if k == 0 then 1 else 2 * Pow2(k - 1)
  }

  // Shifts; the right shift is arithmetic.
  function Shr(v: int, k: nat): int decreases k { if k == 0 then v else Shr(v / 2, k - 1) }
  function Shl(v: int, k: nat): int decreases k { if k == 0 then v else Shl(2 * v, k - 1) }

  // A signed 32-bit integer.
  function Wrap(v: int): int { (v + 0x8000_0000) % 0x1_0000_0000 - 0x8000_0000 }

  // What an accumulator keeps of a value: 32 bits of it, or all of it.
  function Stored(v: int, wraps: bool): int { if wraps then Wrap(v) else v }

  // ---- bit strings ----

  // The low k bits of v, most significant first.
  function Bits(v: int, k: nat): (b: seq<bool>)
    ensures |b| == k
    decreases k
  {
    if k == 0 then [] else Bits(v / 2, k - 1) + [v % 2 == 1]
  }

  function Stream(groups: seq<nat>, n: nat): seq<bool> {
    if groups == [] then [] else Stream(groups[..|groups| - 1], n) + Bits(groups[|groups| - 1], n)
  }

  lemma {:induction false} StreamLength(groups: seq<nat>, n: nat)
    ensures |Stream(groups, n)| == n * |groups|
  {
    if groups != [] {
      StreamLength(groups[..|groups| - 1], n);
      assert n * |groups| == n * (|groups| - 1) + n;
    }
  }

  predicate Fits(groups: seq<nat>, n: nat) { forall i :: 0 <= i < |groups| ==> groups[i] < Pow2(n) }

  function Zeros(k: nat): seq<bool> { seq(k, i => false) }

  // Section 6 of RFC 4648: the bits of the input, filled up with zeros to a multiple of five.
  predicate Encodes(bytes: seq<Byte>, digits: seq<nat>) {
    Fits(digits, 5) && exists p :: 0 <= p < 5 && Stream(digits, 5) == Stream(bytes, 8) + Zeros(p)
  }

  // ---- facts about bits ----

  lemma {:induction false} SplitBits(v: int, a: nat, b: nat)
    ensures Bits(v, a + b) == Bits(Shr(v, b), a) + Bits(v, b)
    decreases b
  {
    if b > 0 {
      SplitBits(v / 2, a, b - 1);
    }
  }

  lemma {:induction false} LowBits(v: int, m: int, j: nat, k: nat)
    requires k <= j
    ensures Bits(v + m * Pow2(j), k) == Bits(v, k)
    decreases k
  {
    if k > 0 {
      var h := m * Pow2(j - 1);
      assert m * Pow2(j) == 2 * h by { assert Pow2(j) == 2 * Pow2(j - 1); }
      assert (v + 2 * h) / 2 == v / 2 + h && (v + 2 * h) % 2 == v % 2;
      LowBits(v / 2, m, j - 1, k - 1);
    }
  }

  lemma {:induction false} ShlIs(v: int, k: nat)
    ensures Shl(v, k) == v * Pow2(k)
    decreases k
  {
    if k > 0 { ShlIs(2 * v, k - 1); }
  }

  // Shifting left and adding k fresh low bits appends those bits.
  lemma {:induction false} AppendBits(v: int, w: nat, k: nat, a: nat)
    requires w < Pow2(k)
    ensures Bits(v * Pow2(k) + w, a + k) == Bits(v, a) + Bits(w, k)
    decreases k
  {
    if k > 0 {
      var h := v * Pow2(k - 1);
      assert v * Pow2(k) == 2 * h;
      assert (2 * h + w) / 2 == h + w / 2 && (2 * h + w) % 2 == w % 2;
      AppendBits(v, w / 2, k - 1, a);
    }
  }

  lemma {:induction false} ZeroBits(k: nat)
    ensures Bits(0, k) == Zeros(k)
  {
    if k > 0 { ZeroBits(k - 1); }
  }

  lemma ModBits(v: int, k: nat)
    ensures 0 <= v % Pow2(k) < Pow2(k)
    ensures Bits(v % Pow2(k), k) == Bits(v, k)
  {
    DivMod(v, Pow2(k));
    LowBits(v % Pow2(k), v / Pow2(k), k, k);
  }

  lemma {:induction false} BitsInjective(v: nat, w: nat, k: nat)
    requires v < Pow2(k) && w < Pow2(k) && Bits(v, k) == Bits(w, k)
    ensures v == w
  {
    if k > 0 {
      assert Bits(v, k)[..k - 1] == Bits(v / 2, k - 1) && Bits(w, k)[..k - 1] == Bits(w / 2, k - 1);
      assert Bits(v, k)[k - 1] == Bits(w, k)[k - 1];
      BitsInjective(v / 2, w / 2, k - 1);
    }
  }

  lemma StreamSnoc(init: seq<nat>, g: nat, n: nat)
    ensures Stream(init + [g], n) == Stream(init, n) + Bits(g, n)
  {
  }

  lemma StreamParts(groups: seq<nat>, n: nat)
    requires groups != []
    ensures Stream(groups, n) == Stream(groups[..|groups| - 1], n) + Bits(groups[|groups| - 1], n)
  {
  }

  lemma {:induction false} StreamInjective(a: seq<nat>, b: seq<nat>, n: nat)
    requires Fits(a, n) && Fits(b, n) && |a| == |b| && Stream(a, n) == Stream(b, n)
    ensures a == b
  {
    if a != [] {
      var i := |a| - 1;
      StreamParts(a, n);
      StreamParts(b, n);
      StreamLength(a[..i], n);
      StreamLength(b[..i], n);
      SameParts(Stream(a[..i], n), Bits(a[i], n), Stream(b[..i], n), Bits(b[i], n));
      StreamInjective(a[..i], b[..i], n);
      BitsInjective(a[i], b[i], n);
    }
  }

  lemma Associative<T>(a: seq<T>, b: seq<T>, c: seq<T>)
    ensures a + (b + c) == (a + b) + c
  {
  }

  lemma SameParts<T>(a: seq<T>, b: seq<T>, c: seq<T>, d: seq<T>)
    requires |a| == |c| && a + b == c + d
    ensures a == c && b == d
  {
    assert (a + b)[..|a|] == a && (c + d)[..|c|] == c;
    assert (a + b)[|a|..] == b && (c + d)[|c|..] == d;
  }

  lemma Pow2Of32()
    ensures Pow2(32) == 0x1_0000_0000
  {
    assert Pow2(8) == 256;
    assert Pow2(16) == 65536;
    assert Pow2(24) == 0x100_0000;
  }

  lemma WrapIs(v: int) returns (m: int)
    ensures Wrap(v) == v + m * 0x1_0000_0000
  {
    m := -((v + 0x8000_0000) / 0x1_0000_0000);
  }

  lemma StoredBits(v: int, wraps: bool, k: nat)
    requires k <= 32
    ensures Bits(Stored(v, wraps), k) == Bits(v, k)
  {
    if wraps {
      var m := WrapIs(v);
      assert Bits(v + m * 0x1_0000_0000, k) == Bits(v, k) by {
        Pow2Of32();
        LowBits(v, m, 32, k);
      }
    }
  }

  // ---- regrouping ----

  datatype Accumulator = Accumulator(buffer: int, bits: nat, output: seq<nat>)

  // The inner loop: emit m bits at a time.
  function Drain(a: Accumulator, m: nat): (r: Accumulator)
    requires m > 0
    ensures r.bits < m
    decreases a.bits
  {
    if a.bits < m then a
    else
      Drain(Accumulator(a.buffer, a.bits - m, a.output + [Shr(a.buffer, a.bits - m) % Pow2(m)]), m)
  }

  // One turn of the outer loop.
  function Feed(a: Accumulator, g: nat, n: nat, m: nat, wraps: bool): (r: Accumulator)
    requires m > 0
    ensures r.bits < m
  {
    Drain(Accumulator(Stored(Shl(a.buffer, n) + g, wraps), a.bits + n, a.output), m)
  }

  function Regroup(groups: seq<nat>, n: nat, m: nat, wraps: bool): (r: Accumulator)
    requires m > 0
    ensures r.bits < m
  {
    if groups == [] then Accumulator(0, 0, [])
    else Feed(Regroup(groups[..|groups| - 1], n, m, wraps), groups[|groups| - 1], n, m, wraps)
  }

  lemma DrainStep(a: Accumulator, m: nat, modulus: nat)
    requires 0 < m <= a.bits && modulus == Pow2(m)
    ensures Drain(a, m) == Drain(Accumulator(a.buffer, a.bits - m, a.output + [Shr(a.buffer, a.bits - m) % modulus]), m)
  {
  }

  lemma RegroupStep(groups: seq<nat>, i: nat, n: nat, m: nat, wraps: bool)
    requires m > 0 && i < |groups|
    ensures Regroup(groups[..i + 1], n, m, wraps) == Feed(Regroup(groups[..i], n, m, wraps), groups[i], n, m, wraps)
  {
    assert groups[..i + 1][..i] == groups[..i];
  }

  // What was emitted, followed by what is still in the accumulator.
  function Held(a: Accumulator, m: nat): seq<bool> { Stream(a.output, m) + Bits(a.buffer, a.bits) }

  lemma {:induction false} DrainFits(a: Accumulator, m: nat)
    requires m > 0 && Fits(a.output, m)
    ensures Fits(Drain(a, m).output, m)
    decreases a.bits
  {
    if a.bits >= m {
      DivMod(Shr(a.buffer, a.bits - m), Pow2(m));
      DrainFits(Accumulator(a.buffer, a.bits - m, a.output + [Shr(a.buffer, a.bits - m) % Pow2(m)]), m);
    }
  }

  lemma {:induction false} RegroupFits(groups: seq<nat>, n: nat, m: nat, wraps: bool)
    requires m > 0
    ensures Fits(Regroup(groups, n, m, wraps).output, m)
  {
    if groups != [] {
      var a := Regroup(groups[..|groups| - 1], n, m, wraps);
      RegroupFits(groups[..|groups| - 1], n, m, wraps);
      DrainFits(Accumulator(Stored(Shl(a.buffer, n) + groups[|groups| - 1], wraps), a.bits + n, a.output), m);
    }
  }

  lemma EmitKeeps(a: Accumulator, m: nat, rest: nat, d: nat)
    requires a.bits == m + rest && d == Shr(a.buffer, rest) % Pow2(m)
    ensures Held(Accumulator(a.buffer, rest, a.output + [d]), m) == Held(a, m)
  {
    assert Bits(a.buffer, a.bits) == Bits(d, m) + Bits(a.buffer, rest) by {
      ModBits(Shr(a.buffer, rest), m);
      SplitBits(a.buffer, m, rest);
    }
    StreamSnoc(a.output, d, m);
    Associative(Stream(a.output, m), Bits(d, m), Bits(a.buffer, rest));
  }

  lemma {:induction false} DrainKeeps(a: Accumulator, m: nat)
    requires m > 0
    ensures Held(Drain(a, m), m) == Held(a, m)
    decreases a.bits
  {
    if a.bits >= m {
      var rest := a.bits - m;
      var d := Shr(a.buffer, rest) % Pow2(m);
      EmitKeeps(a, m, rest, d);
      DrainKeeps(Accumulator(a.buffer, rest, a.output + [d]), m);
    }
  }

  lemma ShiftedIn(buffer: int, bits: nat, g: nat, n: nat, wraps: bool)
    requires g < Pow2(n) && bits + n <= 32
    ensures Bits(Stored(Shl(buffer, n) + g, wraps), bits + n) == Bits(buffer, bits) + Bits(g, n)
  {
    StoredBits(Shl(buffer, n) + g, wraps, bits + n);
    ShlIs(buffer, n);
    AppendBits(buffer, g, n, bits);
  }

  lemma ShiftKeeps(a: Accumulator, m: nat, g: nat, n: nat, wraps: bool, fed: Accumulator)
    requires g < Pow2(n) && a.bits + n <= 32
    requires fed == Accumulator(Stored(Shl(a.buffer, n) + g, wraps), a.bits + n, a.output)
    ensures Held(fed, m) == Held(a, m) + Bits(g, n)
  {
    ShiftedIn(a.buffer, a.bits, g, n, wraps);
    Associative(Stream(a.output, m), Bits(a.buffer, a.bits), Bits(g, n));
  }

  lemma FeedIs(a: Accumulator, g: nat, n: nat, m: nat, wraps: bool, fed: Accumulator)
    requires m > 0 && fed == Accumulator(Stored(Shl(a.buffer, n) + g, wraps), a.bits + n, a.output)
    ensures Feed(a, g, n, m, wraps) == Drain(fed, m)
  {
  }

  lemma FeedKeeps(a: Accumulator, m: nat, g: nat, n: nat, wraps: bool, fed: Accumulator)
    requires m > 0 && g < Pow2(n) && a.bits + n <= 32
    requires fed == Accumulator(Stored(Shl(a.buffer, n) + g, wraps), a.bits + n, a.output)
    ensures Held(Drain(fed, m), m) == Held(a, m) + Bits(g, n)
  {
    ShiftKeeps(a, m, g, n, wraps, fed);
    DrainKeeps(fed, m);
  }

  // Regrouping neither loses nor invents a bit, whether or not the accumulator wraps on the
  // way.
  lemma {:induction false} RegroupKeeps(groups: seq<nat>, n: nat, m: nat, wraps: bool)
    requires m > 0 && n + m <= 33 && Fits(groups, n)
    ensures Held(Regroup(groups, n, m, wraps), m) == Stream(groups, n)
  {
    if groups != [] {
      var init, g := groups[..|groups| - 1], groups[|groups| - 1];
      var a := Regroup(init, n, m, wraps);
      var fed := Accumulator(Stored(Shl(a.buffer, n) + g, wraps), a.bits + n, a.output);
      RegroupKeeps(init, n, m, wraps);
      FeedKeeps(a, m, g, n, wraps, fed);
      FeedIs(a, g, n, m, wraps, fed);
    }
  }

  // ---- writing a secret ----

  // What is left over becomes one more group, filled with zeros on the right.
  function Flush(a: Accumulator, m: nat, wraps: bool): seq<nat>
    requires a.bits <= m
  {
    if a.bits == 0 then a.output else a.output + [Stored(Shl(a.buffer, m - a.bits), wraps) % Pow2(m)]
  }

  function Encode(bytes: seq<Byte>, wraps: bool): seq<nat> {
    Flush(Regroup(bytes, 8, 5, wraps), 5, wraps)
  }

  lemma FlushKeeps(a: Accumulator, m: nat, wraps: bool)
    requires a.bits < m <= 32 && Fits(a.output, m)
    ensures Fits(Flush(a, m, wraps), m)
    ensures Stream(Flush(a, m, wraps), m) == Held(a, m) + Zeros(if a.bits == 0 then 0 else m - a.bits)
  {
    if a.bits > 0 {
      var p := m - a.bits;
      var shifted := Shl(a.buffer, p);
      ShlIs(a.buffer, p);
      ModBits(Stored(shifted, wraps), m);
      StoredBits(shifted, wraps, m);
      AppendBits(a.buffer, 0, p, a.bits);
      ZeroBits(p);
      StreamSnoc(a.output, Stored(shifted, wraps) % Pow2(m), m);
    }
  }

  lemma BytesFit(bytes: seq<Byte>)
    ensures Fits(bytes, 8)
  {
  }

  // The loop computes the encoding of the standard.
  lemma EncodeMeetsStandard(bytes: seq<Byte>, wraps: bool)
    ensures Encodes(bytes, Encode(bytes, wraps))
  {
    BytesFit(bytes);
    RegroupFits(bytes, 8, 5, wraps);
    RegroupKeeps(bytes, 8, 5, wraps);
    FlushKeeps(Regroup(bytes, 8, 5, wraps), 5, wraps);
  }

  lemma EncodedLength(bytes: seq<Byte>, digits: seq<nat>)
    requires Encodes(bytes, digits)
    ensures |digits| == (8 * |bytes| + 4) / 5
  {
    StreamLength(digits, 5);
    StreamLength(bytes, 8);
    var p :| 0 <= p < 5 && Stream(digits, 5) == Stream(bytes, 8) + Zeros(p);
  }

  lemma SamePadding(a: seq<nat>, b: seq<nat>, n: nat, read: seq<bool>, p: nat, q: nat)
    requires Fits(a, n) && Fits(b, n) && |a| == |b|
    requires Stream(a, n) == read + Zeros(p) && Stream(b, n) == read + Zeros(q)
    ensures a == b
  {
    StreamLength(a, n);
    StreamLength(b, n);
    assert p == q;
    StreamInjective(a, b, n);
  }

  lemma EncodingIsUnique(bytes: seq<Byte>, a: seq<nat>, b: seq<nat>)
    requires Encodes(bytes, a) && Encodes(bytes, b)
    ensures a == b
  {
    EncodedLength(bytes, a);
    EncodedLength(bytes, b);
    var p :| 0 <= p < 5 && Stream(a, 5) == Stream(bytes, 8) + Zeros(p);
    var q :| 0 <= q < 5 && Stream(b, 5) == Stream(bytes, 8) + Zeros(q);
    SamePadding(a, b, 5, Stream(bytes, 8), p, q);
  }

  // The 32-bit accumulator writes the same secret as an unbounded one.
  lemma WrappingDoesNotMatter(bytes: seq<Byte>)
    ensures Encode(bytes, true) == Encode(bytes, false)
  {
    EncodeMeetsStandard(bytes, true);
    EncodeMeetsStandard(bytes, false);
    EncodingIsUnique(bytes, Encode(bytes, true), Encode(bytes, false));
  }

  // ---- reading a secret ----

  lemma DecodeInvertsEncoding(bytes: seq<Byte>, digits: seq<nat>, wraps: bool)
    requires Encodes(bytes, digits)
    ensures Regroup(digits, 5, 8, wraps).output == bytes
  {
    var a := Regroup(digits, 5, 8, wraps);
    RegroupFits(digits, 5, 8, wraps);
    RegroupKeeps(digits, 5, 8, wraps);
    BytesFit(bytes);
    var p :| 0 <= p < 5 && Stream(digits, 5) == Stream(bytes, 8) + Zeros(p);
    SameBytes(a.output, Bits(a.buffer, a.bits), bytes, Zeros(p), 8);
  }

  lemma SameBytes(a: seq<nat>, rest: seq<bool>, b: seq<nat>, padding: seq<bool>, n: nat)
    requires Fits(a, n) && Fits(b, n) && |rest| < n && |padding| < n
    requires Stream(a, n) + rest == Stream(b, n) + padding
    ensures a == b
  {
    StreamLength(a, n);
    StreamLength(b, n);
    SameQuotient(n, |a|, |rest|, |b|, |padding|);
    SameParts(Stream(a, n), rest, Stream(b, n), padding);
    StreamInjective(a, b, n);
  }
}
