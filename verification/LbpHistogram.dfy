/** The histogram of the uniform patterns of an image, and its symmetries. */
module LbpHistogram {
  import opened Lbp

  /** Grey levels by row. */
  datatype Image = Image(rows: seq<seq<int>>)

  predicate Valid(g: Image) {
    |g.rows| >= 3 && |g.rows[0]| >= 3 && forall y :: 0 <= y < |g.rows| ==> |g.rows[y]| == |g.rows[0]|
  }

  function Height(g: Image): nat { |g.rows| }

  function Width(g: Image): nat
    requires Valid(g)
  {
    |g.rows[0]|
  }

  predicate Interior(g: Image, y: int, x: int)
    requires Valid(g)
  {
    1 <= y < Height(g) - 1 && 1 <= x < Width(g) - 1
  }

  const OFFSETS: seq<(int, int)> := [(-1, -1), (-1, 0), (-1, 1), (0, 1), (1, 1), (1, 0), (1, -1), (0, -1)]

  /** Whether the i-th neighbour is not darker than the centre. */
  predicate NotDarker(g: Image, y: int, x: int, i: nat)
    requires Valid(g) && Interior(g, y, x) && i < 8
  {
    g.rows[y + OFFSETS[i].0][x + OFFSETS[i].1] >= g.rows[y][x]
  }

  function Signs(g: Image, y: int, x: int, n: nat): (s: seq<bool>)
    requires Valid(g) && Interior(g, y, x) && n <= 8
    ensures |s| == n
    ensures forall i :: 0 <= i < n ==> s[i] == NotDarker(g, y, x, i)
  {
    if n == 0 then [] else Signs(g, y, x, n - 1) + [NotDarker(g, y, x, n - 1)]
  }

  function CodeAt(g: Image, y: int, x: int): (code: nat)
    requires Valid(g) && Interior(g, y, x)
    ensures code < 256 && BitsOf(code) == Signs(g, y, x, 8)
  {
    BitsOfValue(Signs(g, y, x, 8));
    Value(Signs(g, y, x, 8))
  }

  /** The interior pixels whose code falls into a bin. */
  function Pixels(g: Image, b: nat): set<(int, int)>
    requires Valid(g)
  {
    set y, x | 1 <= y < Height(g) - 1 && 1 <= x < Width(g) - 1 && BinOf(CodeAt(g, y, x)) == b :: (y, x)
  }

  /** The raw counts of the histogram. */
  function Histogram(g: Image): (h: seq<nat>)
    requires Valid(g)
    ensures |h| == BINS && forall b :: 0 <= b < BINS ==> h[b] == |Pixels(g, b)|
  {
    seq(BINS, b requires 0 <= b => |Pixels(g, b)|)
  }

  // ---------- the code that computes it ----------

  /** Bit i of the codes of all pixels at once, for each neighbour in turn. */
  method Codes(g: Image) returns (codes: array2<nat>)
    requires Valid(g)
    ensures codes.Length0 == Height(g) - 2 && codes.Length1 == Width(g) - 2
    ensures forall y, x :: Interior(g, y, x) ==> codes[y - 1, x - 1] == CodeAt(g, y, x)
  {
    hide Signs, Bit, Pow2;
    codes := new nat[Height(g) - 2, Width(g) - 2]((_, _) => 0);
    for i := 0 to 8
      invariant forall y, x :: Interior(g, y, x) ==> codes[y - 1, x - 1] == Value(Signs(g, y, x, i))
    {
      forall y, x | Interior(g, y, x)
        ensures Value(Signs(g, y, x, i + 1))
                == if NotDarker(g, y, x, i) then SetBit(codes[y - 1, x - 1], i) else codes[y - 1, x - 1]
      {
        OneMoreBit(g, y, x, i);
      }
      forall r, c | 0 <= r < codes.Length0 && 0 <= c < codes.Length1 {
        codes[r, c] := if NotDarker(g, r + 1, c + 1, i) then SetBit(codes[r, c], i) else codes[r, c];
      }
    }
  }

  lemma OneMoreBit(g: Image, y: int, x: int, i: nat)
    requires Valid(g) && Interior(g, y, x) && i < 8
    ensures Value(Signs(g, y, x, i + 1))
            == if NotDarker(g, y, x, i) then SetBit(Value(Signs(g, y, x, i)), i) else Value(Signs(g, y, x, i))
  {
    hide Value, Bit;
    var s := Signs(g, y, x, i);
    ValueSnoc(s, NotDarker(g, y, x, i));
    BitOfValue(s, i);
  }

  /** Those before (y, x), row by row. */
  function Earlier(s: set<(int, int)>, y: int, x: int): set<(int, int)> {
    set p | p in s && (p.0 < y || (p.0 == y && p.1 < x))
  }

  function PixelsBefore(g: Image, b: nat, y: int, x: int): set<(int, int)>
    requires Valid(g)
  {
    Earlier(Pixels(g, b), y, x)
  }

  lemma EarlierStep(s: set<(int, int)>, y: int, x: int)
    ensures |Earlier(s, y, x + 1)| == |Earlier(s, y, x)| + if (y, x) in s then 1 else 0
  {
    if (y, x) in s {
      assert Earlier(s, y, x + 1) == Earlier(s, y, x) + {(y, x)};
    } else {
      assert Earlier(s, y, x + 1) == Earlier(s, y, x);
    }
  }

  lemma OneMorePixel(g: Image, b: nat, y: int, x: int)
    requires Valid(g) && Interior(g, y, x)
    ensures |PixelsBefore(g, b, y, x + 1)| == |PixelsBefore(g, b, y, x)| + if BinOf(CodeAt(g, y, x)) == b then 1 else 0
  {
    hide BinOf, CodeAt, Earlier;
    EarlierStep(Pixels(g, b), y, x);
  }

  lemma NextRow(g: Image, b: nat, y: int)
    requires Valid(g)
    ensures PixelsBefore(g, b, y, Width(g) - 1) == PixelsBefore(g, b, y + 1, 1)
    ensures PixelsBefore(g, b, 1, 1) == {}
    ensures PixelsBefore(g, b, Height(g) - 1, 1) == Pixels(g, b)
  {
    hide BinOf, CodeAt;
  }

  /** Counting the bins of all pixels. */
  method BinCount(g: Image) returns (hist: array<nat>)
    requires Valid(g)
    ensures hist[..] == Histogram(g)
  {
    hide BinOf, PixelsBefore, Pixels, CodeAt, Bit;
    var codes := Codes(g);
    var lut := BuildUniformLbpLut();
    hist := new nat[BINS](_ => 0);
    forall b | 0 <= b < BINS
      ensures PixelsBefore(g, b, 1, 1) == {}
    {
      NextRow(g, b, 1);
    }
    for y := 1 to Height(g) - 1
      invariant forall b :: 0 <= b < BINS ==> hist[b] == |PixelsBefore(g, b, y, 1)|
      modifies hist
    {
      var last, next := Width(g) - 1, y + 1;
      for x := 1 to last
        modifies hist
        invariant forall b :: 0 <= b < BINS ==> hist[b] == |PixelsBefore(g, b, y, x)|
      {
        assert Interior(g, y, x);
        var bin := lut[codes[y - 1, x - 1]];
        BinRange(CodeAt(g, y, x));
        forall b | 0 <= b < BINS
          ensures |PixelsBefore(g, b, y, x + 1)| == |PixelsBefore(g, b, y, x)| + if bin == b then 1 else 0
        {
          OneMorePixel(g, b, y, x);
        }
        hist[bin] := hist[bin] + 1;
      }
      forall b | 0 <= b < BINS
        ensures PixelsBefore(g, b, y, last) == PixelsBefore(g, b, next, 1)
      {
        NextRow(g, b, y);
      }
    }
    var end := Height(g) - 1;
    forall b | 0 <= b < BINS
      ensures PixelsBefore(g, b, end, 1) == Pixels(g, b)
    {
      NextRow(g, b, 1);
    }
  }

  // ---------- the counts add up ----------

  function Sum(h: seq<nat>): nat {
    if h == [] then 0 else Sum(h[..|h| - 1]) + h[|h| - 1]
  }

  function CountsBefore(g: Image, y: int, x: int, n: nat): (h: seq<nat>)
    requires Valid(g)
    ensures |h| == n && forall b :: 0 <= b < n ==> h[b] == |PixelsBefore(g, b, y, x)|
  {
    seq(n, b requires 0 <= b => |PixelsBefore(g, b, y, x)|)
  }

  lemma {:induction false} SumStep(h: seq<nat>, h': seq<nat>, k: nat)
    requires |h| == |h'| && forall b :: 0 <= b < |h| ==> h'[b] == h[b] + if b == k then 1 else 0
    ensures Sum(h') == Sum(h) + if k < |h| then 1 else 0
  {
    if h != [] { SumStep(h[..|h| - 1], h'[..|h| - 1], k); }
  }

  lemma {:induction false} SumOfZeros(h: seq<nat>)
    requires forall b :: 0 <= b < |h| ==> h[b] == 0
    ensures Sum(h) == 0
  {
    if h != [] { SumOfZeros(h[..|h| - 1]); }
  }

  lemma CountsStep(g: Image, y: int, x: int)
    requires Valid(g) && Interior(g, y, x)
    ensures Sum(CountsBefore(g, y, x + 1, BINS)) == Sum(CountsBefore(g, y, x, BINS)) + 1
  {
    hide BinOf, CodeAt, PixelsBefore, Sum;
    var bin := BinOf(CodeAt(g, y, x));
    BinRange(CodeAt(g, y, x));
    forall b: nat
      ensures |PixelsBefore(g, b, y, x + 1)| == |PixelsBefore(g, b, y, x)| + if b == bin then 1 else 0
    {
      OneMorePixel(g, b, y, x);
    }
    SumStep(CountsBefore(g, y, x, BINS), CountsBefore(g, y, x + 1, BINS), bin);
  }

  lemma CountsNextRow(g: Image, y: int)
    requires Valid(g)
    ensures CountsBefore(g, y, Width(g) - 1, BINS) == CountsBefore(g, y + 1, 1, BINS)
    ensures Sum(CountsBefore(g, 1, 1, BINS)) == 0
    ensures CountsBefore(g, Height(g) - 1, 1, BINS) == Histogram(g)
  {
    hide PixelsBefore, Pixels;
    var last, next, end := Width(g) - 1, y + 1, Height(g) - 1;
    forall b: nat
      ensures PixelsBefore(g, b, y, last) == PixelsBefore(g, b, next, 1)
      ensures PixelsBefore(g, b, 1, 1) == {}
      ensures PixelsBefore(g, b, end, 1) == Pixels(g, b)
    {
      NextRow(g, b, y);
    }
    assert CountsBefore(g, y, last, BINS) == CountsBefore(g, next, 1, BINS);
    SumOfZeros(CountsBefore(g, 1, 1, BINS));
  }

  /** Every interior pixel is counted in exactly one of the 59 bins. */
  lemma CountsSumToArea(g: Image)
    requires Valid(g)
    ensures Sum(Histogram(g)) == (Height(g) - 2) * (Width(g) - 2)
  {
    hide CountsBefore, Sum, Histogram;
    CountsNextRow(g, 1);
    var w := Width(g) - 2;
    for y := 1 to Height(g) - 1
      invariant Sum(CountsBefore(g, y, 1, BINS)) == (y - 1) * w
    {
      for x := 1 to Width(g) - 1
        invariant Sum(CountsBefore(g, y, x, BINS)) == (y - 1) * w + (x - 1)
      {
        CountsStep(g, y, x);
      }
      CountsNextRow(g, y);
      assert (y - 1) * w + w == y * w;
    }
  }

  // ---------- grey levels ----------

  function Remapped(g: Image, f: int -> int): Image {
    Image(seq(|g.rows|, y requires 0 <= y < |g.rows| =>
      seq(|g.rows[y]|, x requires 0 <= x < |g.rows[y]| => f(g.rows[y][x]))))
  }

  ghost predicate StrictlyIncreasing(f: int -> int) {
    forall a, b :: a < b ==> f(a) < f(b)
  }

  lemma RemapKeepsCodes(g: Image, f: int -> int, y: int, x: int)
    requires Valid(g) && StrictlyIncreasing(f) && Interior(g, y, x)
    ensures Valid(Remapped(g, f)) && CodeAt(Remapped(g, f), y, x) == CodeAt(g, y, x)
  {
    hide Value;
    var g' := Remapped(g, f);
    forall i | 0 <= i < 8
      ensures NotDarker(g', y, x, i) == NotDarker(g, y, x, i)
    {
      var v, c := g.rows[y + OFFSETS[i].0][x + OFFSETS[i].1], g.rows[y][x];
      assert g'.rows[y + OFFSETS[i].0][x + OFFSETS[i].1] == f(v) && g'.rows[y][x] == f(c);
      assert v < c ==> f(v) < f(c);
      assert c < v ==> f(c) < f(v);
    }
    assert Signs(g', y, x, 8) == Signs(g, y, x, 8);
  }

  /** No strictly increasing change of the grey levels changes a count. */
  lemma RemapKeepsHistogram(g: Image, f: int -> int)
    requires Valid(g) && StrictlyIncreasing(f)
    ensures Valid(Remapped(g, f)) && Histogram(Remapped(g, f)) == Histogram(g)
  {
    hide CodeAt, BinOf, StrictlyIncreasing;
    var g' := Remapped(g, f);
    assert Valid(g');
    forall b | 0 <= b < BINS
      ensures Pixels(g', b) == Pixels(g, b)
    {
      forall y, x | Interior(g, y, x)
        ensures CodeAt(g', y, x) == CodeAt(g, y, x)
      {
        RemapKeepsCodes(g, f, y, x);
      }
    }
  }

  // ---------- a quarter turn ----------

  /** The image turned clockwise. */
  function Rotated(g: Image): (r: Image)
    requires Valid(g)
    ensures Valid(r) && Height(r) == Width(g) && Width(r) == Height(g)
    ensures forall y, x :: 0 <= y < Width(g) && 0 <= x < Height(g) ==> r.rows[y][x] == g.rows[Height(g) - 1 - x][y]
  {
    Image(seq(Width(g), y requires 0 <= y < Width(g) =>
      seq(Height(g), x requires 0 <= x < Height(g) => g.rows[Height(g) - 1 - x][y])))
  }

  lemma OffsetsTurn(i: nat)
    requires i < 8
    ensures OFFSETS[(i + 6) % 8] == (-OFFSETS[i].1, OFFSETS[i].0)
    ensures -1 <= OFFSETS[i].0 <= 1 && -1 <= OFFSETS[i].1 <= 1
  {
  }

  lemma TurnedNeighbour(g: Image, y: int, x: int, i: nat)
    requires Valid(g) && Interior(Rotated(g), y, x) && i < 8
    ensures NotDarker(Rotated(g), y, x, i) == NotDarker(g, Height(g) - 1 - x, y, (i + 6) % 8)
  {
    OffsetsTurn(i);
    var d := OFFSETS[i];
    assert Rotated(g).rows[y + d.0][x + d.1] == g.rows[Height(g) - 1 - x - d.1][y + d.0];
  }

  /** Neighbour i of a turned pixel is neighbour i - 2 of the pixel it came from. */
  lemma TurnedSigns(g: Image, y: int, x: int)
    requires Valid(g) && Interior(Rotated(g), y, x)
    ensures Interior(g, Height(g) - 1 - x, y)
    ensures Signs(Rotated(g), y, x, 8) == Turn(Signs(g, Height(g) - 1 - x, y, 8))
  {
    hide Turn, NotDarker;
    var r, y', x' := Rotated(g), Height(g) - 1 - x, y;
    forall i | 0 <= i < 8
      ensures NotDarker(r, y, x, i) == NotDarker(g, y', x', (i + 6) % 8)
    {
      TurnedNeighbour(g, y, x, i);
    }
  }

  lemma TurnedCode(g: Image, y: int, x: int)
    requires Valid(g) && Interior(Rotated(g), y, x)
    ensures Interior(g, Height(g) - 1 - x, y)
    ensures CodeAt(Rotated(g), y, x) == TurnCode(CodeAt(g, Height(g) - 1 - x, y))
  {
    hide Value, BitsOf, Turn;
    TurnedSigns(g, y, x);
    ValueOfBitsOf(CodeAt(Rotated(g), y, x));
    ValueOfBitsOf(TurnCode(CodeAt(g, Height(g) - 1 - x, y)));
  }

  /** Sets that a map takes onto each other one to one have the same size. */
  lemma {:induction false} SameSize<A, B>(s: set<A>, t: set<B>, f: A -> B)
    requires forall a :: a in s ==> f(a) in t
    requires forall b :: b in t ==> exists a :: a in s && f(a) == b
    requires forall a, a' :: a in s && a' in s && f(a) == f(a') ==> a == a'
    ensures |s| == |t|
    decreases |s|
  {
    if s != {} {
      var a :| a in s;
      forall b | b in t - {f(a)}
        ensures exists a' :: a' in s - {a} && f(a') == b
      {
        var a' :| a' in s && f(a') == b;
        assert a' in s - {a};
      }
      SameSize(s - {a}, t - {f(a)}, f);
    } else {
      assert t == {};
    }
  }

  /** A quarter turn takes the pixels of a bin to those of its turned bin. */
  lemma TurnedPixels(g: Image, b: nat)
    requires Valid(g) && b < BINS
    ensures |Pixels(Rotated(g), TurnedBin(b))| == |Pixels(g, b)|
  {
    hide CodeAt, BinOf, TurnedBin, TurnCode, Signs;
    var r, h := Rotated(g), Height(g);
    forall y, x | Interior(r, y, x)
      ensures Interior(g, h - 1 - x, y)
      ensures BinOf(CodeAt(r, y, x)) == TurnedBin(b) <==> BinOf(CodeAt(g, h - 1 - x, y)) == b
    {
      TurnedCode(g, y, x);
      var code := CodeAt(g, h - 1 - x, y);
      TurnedBinOfCode(code);
      TurnedBinPermutes(b, BinOf(code));
    }
    var back := (p: (int, int)) => (h - 1 - p.1, p.0);
    forall q | q in Pixels(g, b)
      ensures exists p :: p in Pixels(r, TurnedBin(b)) && back(p) == q
    {
      var p := (q.1, h - 1 - q.0);
      assert Interior(r, p.0, p.1) && back(p) == q;
      assert p in Pixels(r, TurnedBin(b));
    }
    SameSize(Pixels(r, TurnedBin(b)), Pixels(g, b), back);
  }

  /** A quarter turn keeps the last bin and permutes the others by one permutation, whatever the image. */
  lemma RotationPermutesHistogram(g: Image, b: nat)
    requires Valid(g) && b < BINS
    ensures Histogram(Rotated(g))[TurnedBin(b)] == Histogram(g)[b]
    ensures Histogram(Rotated(g))[MIXED_BIN] == Histogram(g)[MIXED_BIN]
  {
    hide Pixels, TurnedBin;
    TurnedPixels(g, b);
    TurnedPixels(g, MIXED_BIN);
    TurnedBinPermutes(MIXED_BIN, MIXED_BIN);
  }

  /** The code of a pixel: the bits of the neighbours that are not darker, clockwise from the upper left. */
  lemma CodeExactly(g: Image, y: int, x: int)
    requires Valid(g) && Interior(g, y, x)
    ensures var c := g.rows[y][x];
            CodeAt(g, y, x)
            == (if g.rows[y - 1][x - 1] >= c then 1 else 0) + (if g.rows[y - 1][x] >= c then 2 else 0)
             + (if g.rows[y - 1][x + 1] >= c then 4 else 0) + (if g.rows[y][x + 1] >= c then 8 else 0)
             + (if g.rows[y + 1][x + 1] >= c then 16 else 0) + (if g.rows[y + 1][x] >= c then 32 else 0)
             + (if g.rows[y + 1][x - 1] >= c then 64 else 0) + (if g.rows[y][x - 1] >= c then 128 else 0)
  {
    hide Value, BitsOf;
    var s := Signs(g, y, x, 8);
    EightBits(s);
    assert CodeAt(g, y, x) == Value(s);
    hide CodeAt, Signs;
    assert OFFSETS[0] == (-1, -1) && OFFSETS[1] == (-1, 0) && OFFSETS[2] == (-1, 1) && OFFSETS[3] == (0, 1);
    assert OFFSETS[4] == (1, 1) && OFFSETS[5] == (1, 0) && OFFSETS[6] == (1, -1) && OFFSETS[7] == (0, -1);
  }

  lemma EightBits(s: seq<bool>)
    requires |s| == 8
    ensures Value(s)
            == (if s[0] then 1 else 0) + (if s[1] then 2 else 0) + (if s[2] then 4 else 0) + (if s[3] then 8 else 0)
             + (if s[4] then 16 else 0) + (if s[5] then 32 else 0)
             + (if s[6] then 64 else 0) + (if s[7] then 128 else 0)
  {
    hide Value;
    FourBitsFirst(s);
    FourBitsFirst(s[4..]);
    assert s[4..][4..] == [];
    NoBitsValue();
  }

  lemma NoBitsValue()
    ensures Value([]) == 0
  {
  }

  lemma FourBitsFirst(s: seq<bool>)
    requires |s| >= 4
    ensures Value(s) == (if s[0] then 1 else 0) + (if s[1] then 2 else 0) + (if s[2] then 4 else 0)
                        + (if s[3] then 8 else 0) + 16 * Value(s[4..])
  {
    var a, b, c := s[1..], s[2..], s[3..];
    assert a[1..] == b && b[1..] == c && c[1..] == s[4..];
    assert Value(a) == (if s[1] then 1 else 0) + 2 * Value(b);
    assert Value(b) == (if s[2] then 1 else 0) + 2 * Value(c);
    assert Value(c) == (if s[3] then 1 else 0) + 2 * Value(s[4..]);
  }
}
