/** Uniform local binary patterns: the table of bins, the codes of an image, and the histogram. */
module Lbp {

  const BINS := 59
  const MIXED_BIN := 58

  // ---------- bits ----------

  /** (code >> i) & 1 */
  predicate Bit(code: nat, i: nat) {
    if i == 0 then code % 2 == 1 else Bit(code / 2, i - 1)
  }

  function Pow2(i: nat): nat {
    if i == 0 then 1 else 2 * Pow2(i - 1)
  }

  /** code | (1 << i) */
  function SetBit(code: nat, i: nat): nat {
    if Bit(code, i) then code else code + Pow2(i)
  }

  /** The number with these bits, lowest first. */
  function Value(bits: seq<bool>): (v: nat)
    ensures v < Pow2(|bits|)
  {
    if bits == [] then 0 else (if bits[0] then 1 else 0) + 2 * Value(bits[1..])
  }

  lemma {:induction false} BitOfValue(bits: seq<bool>, i: nat)
    ensures Bit(Value(bits), i) == (i < |bits| && bits[i])
    decreases i
  {
    if bits == [] {
      NoBits(i);
    } else {
      assert Value(bits) / 2 == Value(bits[1..]);
      if i > 0 { BitOfValue(bits[1..], i - 1); }
    }
  }

  lemma {:induction false} NoBits(i: nat)
    ensures !Bit(0, i)
  {
    if i > 0 { NoBits(i - 1); }
  }

  lemma {:induction false} ValueSnoc(bits: seq<bool>, b: bool)
    ensures Value(bits + [b]) == Value(bits) + if b then Pow2(|bits|) else 0
  {
    if bits != [] {
      assert (bits + [b])[1..] == bits[1..] + [b];
      ValueSnoc(bits[1..], b);
    }
  }

  /** The eight bits of a code. */
  function BitsOf(code: nat): (bits: seq<bool>)
    ensures |bits| == 8
  {
    seq(8, i requires 0 <= i => Bit(code, i))
  }

  lemma BitsOfValue(bits: seq<bool>)
    requires |bits| == 8
    ensures BitsOf(Value(bits)) == bits && Value(bits) < 256
  {
    assert Pow2(8) == 256;
    forall i | 0 <= i < 8
      ensures BitsOf(Value(bits))[i] == bits[i]
    {
      BitOfValue(bits, i);
    }
  }

  lemma {:induction false} ValueOfBits(code: nat, n: nat)
    requires code < Pow2(n)
    ensures Value(seq(n, i requires 0 <= i => Bit(code, i))) == code
  {
    if n > 0 {
      var bits := seq(n, i requires 0 <= i => Bit(code, i));
      var rest := seq(n - 1, i requires 0 <= i => Bit(code / 2, i));
      ValueOfBits(code / 2, n - 1);
      assert bits[1..] == rest;
    }
  }

  lemma ValueOfBitsOf(code: nat)
    requires code < 256
    ensures Value(BitsOf(code)) == code
  {
    assert Pow2(8) == 256;
    ValueOfBits(code, 8);
    assert BitsOf(code) == seq(8, i requires 0 <= i => Bit(code, i));
  }

  // ---------- the table ----------

  /** How often neighbouring bits differ around the circle of eight, among the first n. */
  function Transitions(bits: seq<bool>, n: nat): nat
    requires |bits| == 8 && n <= 8
  {
    if n == 0 then 0 else Transitions(bits, n - 1) + if bits[n - 1] != bits[n % 8] then 1 else 0
  }

  predicate Uniform(code: nat) {
    Transitions(BitsOf(code), 8) <= 2
  }

  function UniformIn(lo: nat, hi: nat): (n: nat)
    requires lo <= hi
    ensures n <= hi - lo
    decreases hi - lo
  {
    if lo == hi then 0 else (if Uniform(lo) then 1 else 0) + UniformIn(lo + 1, hi)
  }

  /** The bin of a code: how many uniform codes come before it, or the last bin. */
  function BinOf(code: nat): nat {
    if Uniform(code) then UniformIn(0, code) else MIXED_BIN
  }

  lemma {:induction false} UniformConcat(lo: nat, mid: nat, hi: nat)
    requires lo <= mid <= hi
    ensures UniformIn(lo, hi) == UniformIn(lo, mid) + UniformIn(mid, hi)
    decreases mid - lo
  {
    if lo < mid { UniformConcat(lo + 1, mid, hi); }
  }

  /** For each code in turn: the next bin if it is uniform, the last bin otherwise. */
  method BuildUniformLbpLut() returns (lut: array<nat>)
    ensures lut.Length == 256
    ensures forall code :: 0 <= code < 256 ==> lut[code] == BinOf(code)
  {
    hide BitsOf;
    lut := new nat[256](_ => 0);
    var nextBin := 0;
    for code := 0 to 256
      invariant nextBin == UniformIn(0, code)
      invariant forall c :: 0 <= c < code ==> lut[c] == BinOf(c)
    {
      var transitions := 0;
      var bits := BitsOf(code);
      for i := 0 to 8
        invariant transitions == Transitions(bits, i)
      {
        if bits[i] != bits[(i + 1) % 8] { transitions := transitions + 1; }
      }
      UniformConcat(0, code, code + 1);
      assert UniformIn(code + 1, code + 1) == 0;
      assert transitions <= 2 <==> Uniform(code);
      if transitions <= 2 {
        lut[code] := nextBin;
        nextBin := nextBin + 1;
      } else {
        lut[code] := MIXED_BIN;
      }
    }
  }

  // ---------- fifty-eight uniform codes ----------

  function Differ(a: bool, b: bool): nat {
    if a == b then 0 else 1
  }

  /** Changes between neighbours along a row of bits, not around it. */
  function Changes(bits: seq<bool>): nat {
    if |bits| < 2 then 0 else Differ(bits[0], bits[1]) + Changes(bits[1..])
  }

  /** How many ways there are to put k more bits before a row with this many changes, first and last bit. */
  function Ways(k: nat, changes: nat, first: bool, last: bool): nat {
    if changes > 2 then 0
    else if k == 0 then (if changes + Differ(first, last) <= 2 then 1 else 0)
    else
      Ways(k - 1, changes + Differ(false, first), false, last) + Ways(k - 1, changes + Differ(true, first), true, last)
  }

  lemma {:induction false} ChangesSnoc(bits: seq<bool>, b: bool)
    requires bits != []
    ensures Changes(bits + [b]) == Changes(bits) + Differ(bits[|bits| - 1], b)
  {
    if |bits| > 1 {
      assert (bits + [b])[1..] == bits[1..] + [b];
      ChangesSnoc(bits[1..], b);
    } else {
      assert (bits + [b])[1..] == [b];
    }
  }

  lemma {:induction false} TransitionsAreChanges(bits: seq<bool>, n: nat)
    requires |bits| == 8 && n < 8
    ensures Transitions(bits, n) == Changes(bits[..n + 1])
  {
    if n > 0 {
      TransitionsAreChanges(bits, n - 1);
      assert bits[..n + 1] == bits[..n] + [bits[n]];
      ChangesSnoc(bits[..n], bits[n]);
    }
  }

  lemma CircleOfEight(bits: seq<bool>)
    requires |bits| == 8
    ensures Transitions(bits, 8) == Changes(bits) + Differ(bits[0], bits[7])
  {
    TransitionsAreChanges(bits, 7);
    assert bits[..8] == bits;
  }

  lemma WaysStep(k: nat, changes: nat, first: bool, last: bool)
    requires k > 0
    ensures Ways(k, changes, first, last)
            == Ways(k - 1, changes + Differ(false, first), false, last)
               + Ways(k - 1, changes + Differ(true, first), true, last)
  {
  }

  lemma WaysEnd(changes: nat, first: bool, last: bool)
    ensures Ways(0, changes, first, last) == if changes + Differ(first, last) <= 2 then 1 else 0
  {
  }

  lemma NoWays(k: nat, first: bool, last: bool)
    ensures Ways(k, 3, first, last) == 0
  {
  }

  /** After two changes every bit more must repeat. */
  lemma {:induction false} WaysAfterTwo(k: nat, a: bool)
    ensures Ways(k, 2, a, a) == 1
  {
    hide Ways;
    if k == 0 {
      WaysEnd(2, a, a);
    } else {
      WaysStep(k, 2, a, a);
      WaysAfterTwo(k - 1, a);
      NoWays(k - 1, !a, a);
    }
  }

  /** After one, the row may change back at any place or not at all. */
  lemma {:induction false} WaysAfterOne(k: nat, a: bool)
    ensures Ways(k, 1, !a, a) == k + 1
  {
    hide Ways;
    if k == 0 {
      WaysEnd(1, !a, a);
    } else {
      WaysStep(k, 1, !a, a);
      WaysAfterOne(k - 1, a);
      WaysAfterTwo(k - 1, a);
    }
  }

  lemma {:induction false} WaysFromNone(k: nat, a: bool)
    ensures 2 * Ways(k, 0, a, a) == k * k + k + 2
  {
    hide Ways;
    if k == 0 {
      WaysEnd(0, a, a);
    } else {
      WaysStep(k, 0, a, a);
      WaysFromNone(k - 1, a);
      WaysAfterOne(k - 1, a);
    }
  }

  lemma UniformOne(code: nat)
    ensures UniformIn(code, code + 1) == if Uniform(code) then 1 else 0
  {
    hide Uniform;
    assert UniformIn(code + 1, code + 1) == 0;
  }

  lemma ValueCons(b: bool, bits: seq<bool>)
    ensures Value([b] + bits) == (if b then 1 else 0) + 2 * Value(bits)
  {
    assert ([b] + bits)[1..] == bits;
  }

  lemma ChangesCons(b: bool, bits: seq<bool>)
    requires bits != []
    ensures Changes([b] + bits) == Differ(b, bits[0]) + Changes(bits)
  {
    assert ([b] + bits)[1..] == bits;
  }

  /** The uniform codes among those with these high bits, which begin at lo. */
  lemma {:induction false} UniformBelowTops(k: nat, tops: seq<bool>, lo: nat)
    requires k < 8 && |tops| == 8 - k && lo == Pow2(k) * Value(tops)
    ensures UniformIn(lo, lo + Pow2(k)) == Ways(k, Changes(tops), tops[0], tops[|tops| - 1])
    decreases k
  {
    hide BitsOf, Value, Changes, UniformIn;
    hide Ways;
    if k == 0 {
      BitsOfValue(tops);
      CircleOfEight(tops);
      UniformOne(lo);
      WaysEnd(Changes(tops), tops[0], tops[7]);
    } else {
      var half := Pow2(k - 1);
      ValueCons(false, tops);
      ValueCons(true, tops);
      ChangesCons(false, tops);
      ChangesCons(true, tops);
      Halves(half, Value(tops));
      UniformBelowTops(k - 1, [false] + tops, lo);
      UniformBelowTops(k - 1, [true] + tops, lo + half);
      UniformConcat(lo, lo + half, lo + half + half);
      WaysStep(k, Changes(tops), tops[0], tops[|tops| - 1]);
    }
  }

  lemma Halves(half: nat, v: nat)
    ensures half * (2 * v) == 2 * half * v && half * (1 + 2 * v) == 2 * half * v + half
  {
  }

  /** Exactly 58 of the 256 codes are uniform. */
  lemma FiftyEight()
    ensures UniformIn(0, 256) == 58
  {
    hide Uniform, Ways, UniformIn;
    assert Pow2(7) == 128;
    UniformBelowTops(7, [false], 0);
    UniformBelowTops(7, [true], 128);
    UniformConcat(0, 128, 256);
    WaysFromNone(7, false);
    WaysFromNone(7, true);
  }

  // ---------- bins ----------

  lemma BinRange(code: nat)
    requires code < 256
    ensures BinOf(code) < BINS && (BinOf(code) == MIXED_BIN <==> !Uniform(code))
  {
    hide Uniform;
    FiftyEight();
    UniformConcat(0, code, 256);
    UniformConcat(code, code + 1, 256);
    UniformOne(code);
  }

  lemma BinsIncrease(c: nat, d: nat)
    requires c < d < 256 && Uniform(c) && Uniform(d)
    ensures BinOf(c) < BinOf(d)
  {
    hide Uniform;
    UniformConcat(0, c, d);
    UniformConcat(c, c + 1, d);
    UniformOne(c);
  }

  /** The uniform code that is b places after the uniform codes from lo on begin. */
  function CodeFrom(lo: nat, b: nat): (code: nat)
    requires lo <= 256 && b < UniformIn(lo, 256)
    ensures lo <= code < 256 && Uniform(code) && UniformIn(lo, code) == b
    decreases 256 - lo
  {
    if Uniform(lo) && b == 0 then lo else CodeFrom(lo + 1, if Uniform(lo) then b - 1 else b)
  }

  /** The one uniform code with this bin. */
  function CodeOf(b: nat): (code: nat)
    requires b < MIXED_BIN
    ensures code < 256 && Uniform(code) && BinOf(code) == b
  {
    FiftyEight();
    CodeFrom(0, b)
  }

  lemma CodeOfBin(code: nat)
    requires code < 256 && Uniform(code)
    ensures BinOf(code) < MIXED_BIN && CodeOf(BinOf(code)) == code
  {
    hide Uniform, CodeOf;
    BinRange(code);
    var other := CodeOf(BinOf(code));
    if other < code { BinsIncrease(other, code); }
    if code < other { BinsIncrease(code, other); }
  }

  // ---------- a quarter turn ----------

  /** The bits two places on around the circle. */
  function Turn(bits: seq<bool>): (r: seq<bool>)
    requires |bits| == 8
    ensures |r| == 8 && forall i :: 0 <= i < 8 ==> r[i] == bits[(i + 6) % 8]
  {
    bits[6..] + bits[..6]
  }

  lemma EightTerms(bits: seq<bool>)
    requires |bits| == 8
    ensures Transitions(bits, 8)
            == Differ(bits[0], bits[1]) + Differ(bits[1], bits[2]) + Differ(bits[2], bits[3]) + Differ(bits[3], bits[4])
               + Differ(bits[4], bits[5]) + Differ(bits[5], bits[6])
               + Differ(bits[6], bits[7]) + Differ(bits[7], bits[0])
  {
    assert Transitions(bits, 1) == Differ(bits[0], bits[1]);
    assert Transitions(bits, 2) == Transitions(bits, 1) + Differ(bits[1], bits[2]);
    assert Transitions(bits, 3) == Transitions(bits, 2) + Differ(bits[2], bits[3]);
    assert Transitions(bits, 4) == Transitions(bits, 3) + Differ(bits[3], bits[4]);
    assert Transitions(bits, 5) == Transitions(bits, 4) + Differ(bits[4], bits[5]);
    assert Transitions(bits, 6) == Transitions(bits, 5) + Differ(bits[5], bits[6]);
    assert Transitions(bits, 7) == Transitions(bits, 6) + Differ(bits[6], bits[7]);
  }

  function TurnCode(code: nat): (r: nat)
    requires code < 256
    ensures r < 256 && BitsOf(r) == Turn(BitsOf(code))
  {
    BitsOfValue(Turn(BitsOf(code)));
    Value(Turn(BitsOf(code)))
  }

  lemma TurnKeepsUniform(code: nat)
    requires code < 256
    ensures Uniform(TurnCode(code)) <==> Uniform(code)
  {
    hide BitsOf, Transitions;
    EightTerms(BitsOf(code));
    EightTerms(Turn(BitsOf(code)));
  }

  lemma TurnIsInjective(c: nat, d: nat)
    requires c < 256 && d < 256 && TurnCode(c) == TurnCode(d)
    ensures c == d
  {
    hide BitsOf, TurnCode;
    var x, y := BitsOf(c), BitsOf(d);
    assert Turn(x)[..2] == x[6..] && Turn(x)[2..] == x[..6];
    assert Turn(y)[..2] == y[6..] && Turn(y)[2..] == y[..6];
    assert x == x[..6] + x[6..] && y == y[..6] + y[6..];
    ValueOfBitsOf(c);
    ValueOfBitsOf(d);
  }

  /** Where a quarter turn of the image moves the counts of a bin. */
  function TurnedBin(b: nat): (r: nat)
    requires b < BINS
    ensures r < BINS
  {
    if b == MIXED_BIN then MIXED_BIN
    else
      BinRange(TurnCode(CodeOf(b)));
      BinOf(TurnCode(CodeOf(b)))
  }

  lemma TurnedBinOfCode(code: nat)
    requires code < 256
    ensures BinOf(code) < BINS && TurnedBin(BinOf(code)) == BinOf(TurnCode(code))
  {
    hide Uniform, CodeOf, TurnCode;
    BinRange(code);
    TurnKeepsUniform(code);
    if Uniform(code) { CodeOfBin(code); }
  }

  /** It is a permutation of the 58 uniform bins that leaves the last bin where it is. */
  lemma TurnedBinPermutes(b: nat, c: nat)
    requires b < BINS && c < BINS
    ensures TurnedBin(b) == MIXED_BIN <==> b == MIXED_BIN
    ensures TurnedBin(b) == TurnedBin(c) ==> b == c
  {
    hide Uniform, CodeOf, TurnCode, BinOf;
    if b < MIXED_BIN {
      TurnKeepsUniform(CodeOf(b));
      BinRange(TurnCode(CodeOf(b)));
    }
    if c < MIXED_BIN {
      TurnKeepsUniform(CodeOf(c));
      BinRange(TurnCode(CodeOf(c)));
    }
    if b < MIXED_BIN && c < MIXED_BIN && TurnedBin(b) == TurnedBin(c) {
      CodeOfBin(TurnCode(CodeOf(b)));
      CodeOfBin(TurnCode(CodeOf(c)));
      TurnIsInjective(CodeOf(b), CodeOf(c));
    }
  }

  /** A code is uniform exactly if at most two neighbours around the circle of its eight bits differ. */
  lemma UniformExactly(code: nat)
    requires code < 256
    ensures var a, b, c, d := code % 2, code / 2 % 2, code / 4 % 2, code / 8 % 2;
            var e, f, g, h := code / 16 % 2, code / 32 % 2, code / 64 % 2, code / 128 % 2;
            Uniform(code) <==>
            (if a != b then 1 else 0) + (if b != c then 1 else 0) + (if c != d then 1 else 0)
            + (if d != e then 1 else 0) + (if e != f then 1 else 0) + (if f != g then 1 else 0)
            + (if g != h then 1 else 0) + (if h != a then 1 else 0)
            <= 2
  {
    hide BitsOf, Bit;
    EightBits(code);
    var s := BitsOf(code);
    assert Transitions(s, 4) == Transitions(s, 3) + if s[3] != s[4] then 1 else 0;
    assert Transitions(s, 8) == Transitions(s, 7) + if s[7] != s[0] then 1 else 0;
  }

  lemma EightBits(code: nat)
    requires code < 256
    ensures var s := BitsOf(code);
            && s[0] == (code % 2 == 1) && s[1] == (code / 2 % 2 == 1) && s[2] == (code / 4 % 2 == 1)
            && s[3] == (code / 8 % 2 == 1) && s[4] == (code / 16 % 2 == 1) && s[5] == (code / 32 % 2 == 1)
            && s[6] == (code / 64 % 2 == 1) && s[7] == (code / 128 % 2 == 1)
  {
    FourBits(code);
    FourBits(code / 16);
    assert Bit(code, 4) == Bit(code / 16, 0) by { NextBits(code, 0); }
    NextBits(code, 1);
    NextBits(code, 2);
    NextBits(code, 3);
    assert code / 16 / 2 == code / 32 && code / 16 / 4 == code / 64 && code / 16 / 8 == code / 128;
  }

  lemma FourBits(code: nat)
    ensures Bit(code, 0) == (code % 2 == 1) && Bit(code, 1) == (code / 2 % 2 == 1)
    ensures Bit(code, 2) == (code / 4 % 2 == 1) && Bit(code, 3) == (code / 8 % 2 == 1)
  {
    var half, quarter := code / 2, code / 4;
    assert half / 2 == quarter && quarter / 2 == code / 8;
    assert Bit(code, 2) == Bit(half, 1) == Bit(quarter, 0);
    assert Bit(code, 3) == Bit(half, 2) == Bit(quarter, 1) == Bit(code / 8, 0);
  }

  /** Shifting by four. */
  lemma NextBits(code: nat, i: nat)
    ensures Bit(code, i + 4) == Bit(code / 16, i)
  {
    var a, b, c := code / 2, code / 4, code / 8;
    assert a / 2 == b && b / 2 == c && c / 2 == code / 16;
    assert Bit(code, i + 4) == Bit(a, i + 3) == Bit(b, i + 2) == Bit(c, i + 1);
  }
}
