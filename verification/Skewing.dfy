/** The skewing functions of the skewed-associative index, on words of `n >= 2` bits.

A word is a `seq<bool>`, least significant bit first. `Hash` is one step of a linear feedback
shift register whose feedback is the top bit xor the bottom bit; `Dehash` runs it backwards. */
module Skewing {

  type Bits = seq<bool>

  function Xor(a: Bits, b: Bits): (r: Bits)
    requires |a| == |b|
  {
    seq(|a|, i requires 0 <= i < |a| => a[i] != b[i])
  }

  function Hash(x: Bits): (y: Bits)
    requires |x| >= 2
    ensures |y| == |x|
  {
    x[1..] + [x[|x| - 1] != x[0]]
  }

  function Dehash(y: Bits): (x: Bits)
    requires |y| >= 2
    ensures |x| == |y|
  {
    [y[|y| - 2] != y[|y| - 1]] + y[..|y| - 1]
  }

  function HashTimes(x: Bits, k: nat): (y: Bits)
    requires |x| >= 2
    ensures |y| == |x|
  {
    if k == 0 then x else Hash(HashTimes(x, k - 1))
  }

  function DehashTimes(y: Bits, k: nat): (x: Bits)
    requires |y| >= 2
    ensures |x| == |y|
  {
    if k == 0 then y else Dehash(DehashTimes(y, k - 1))
  }

  // ----- hash and dehash are mutually inverse

  lemma HashDehash(x: Bits)
    requires |x| >= 2
    ensures Dehash(Hash(x)) == x
    ensures Hash(Dehash(x)) == x
  {
  }

  lemma {:induction false} DehashTimesUndoes(x: Bits, k: nat)
    requires |x| >= 2
    ensures DehashTimes(HashTimes(x, k), k) == x
    ensures HashTimes(DehashTimes(x, k), k) == x
  {
    if k != 0 {
      HashDehash(HashTimes(x, k - 1));
      HashDehash(DehashTimes(x, k - 1));
      DehashTimesShift(HashTimes(x, k), k - 1);
      HashTimesShift(DehashTimes(x, k), k - 1);
      DehashTimesUndoes(x, k - 1);
    }
  }

  lemma {:induction false} HashTimesShift(x: Bits, k: nat)
    requires |x| >= 2
    ensures HashTimes(Hash(x), k) == Hash(HashTimes(x, k))
  {
    if k != 0 {
      HashTimesShift(x, k - 1);
    }
  }

  lemma {:induction false} DehashTimesShift(x: Bits, k: nat)
    requires |x| >= 2
    ensures DehashTimes(Dehash(x), k) == Dehash(DehashTimes(x, k))
  {
    if k != 0 {
      DehashTimesShift(x, k - 1);
    }
  }

  // ----- hash is linear over GF(2)

  lemma {:induction false} HashTimesLinear(a: Bits, b: Bits, k: nat)
    requires |a| == |b| >= 2
    ensures HashTimes(Xor(a, b), k) == Xor(HashTimes(a, k), HashTimes(b, k))
  {
    if k != 0 {
      HashTimesLinear(a, b, k - 1);
      var p, q := HashTimes(a, k - 1), HashTimes(b, k - 1);
      assert Hash(Xor(p, q)) == Xor(Hash(p), Hash(q));
    }
  }

  // ----- the recurrence hash^n == hash^(n-1) xor identity

  /** The bit stream the register shifts out when it starts as `x`. */
  function Stream(x: Bits, k: nat): (b: bool)
    requires |x| >= 2
  {
    if k < |x| then x[k] else Stream(x, k - 1) != Stream(x, k - |x|)
  }

  /** After `k` steps the register holds the window of the stream that starts at `k`. */
  lemma {:induction false} HashTimesIsWindow(x: Bits, k: nat, i: nat)
    requires i < |x| && |x| >= 2
    ensures HashTimes(x, k)[i] == Stream(x, k + i)
    decreases k, i
  {
    if k != 0 {
      var p := HashTimes(x, k - 1);
      if i < |x| - 1 {
        HashTimesIsWindow(x, k - 1, i + 1);
      } else {
        HashTimesIsWindow(x, k - 1, 0);
        HashTimesIsWindow(x, k - 1, |x| - 1);
      }
    }
  }

  lemma {:induction false} Recurrence(x: Bits)
    requires |x| >= 2
    ensures Xor(HashTimes(x, |x|), HashTimes(x, |x| - 1)) == x
  {
    var n := |x|;
    forall i | 0 <= i < n
      ensures (HashTimes(x, n)[i] != HashTimes(x, n - 1)[i]) == x[i]
    {
      HashTimesIsWindow(x, n, i);
      HashTimesIsWindow(x, n - 1, i);
    }
  }

  // ----- the eight skewing functions, repeated with extra hashes for ways >= 8

  const SKEWING_FUNCTIONS: nat := 8

  function SkewOnce(a: Bits, b: Bits, f: nat): (y: Bits)
    requires |a| == |b| >= 2 && f < SKEWING_FUNCTIONS
    ensures |y| == |a|
  {
    var ha := if f < 4 then Hash(a) else Dehash(a);
    var hb := if f % 4 < 2 then Hash(b) else Dehash(b);
    Xor(Xor(ha, hb), if f % 2 == 0 then b else a)
  }

  function DeskewOnce(y: Bits, b: Bits, f: nat): (a: Bits)
    requires |y| == |b| >= 2 && f < SKEWING_FUNCTIONS
    ensures |a| == |y|
  {
    var hb := if f % 4 < 2 then Hash(b) else Dehash(b);
    if f % 2 == 0 then
      var z := Xor(Xor(y, hb), b);
      if f < 4 then Dehash(z) else Hash(z)
    else
      HashTimes(Xor(y, hb), if f < 4 then |y| - 1 else |y|)
  }

  /** Skewed set index of the low word `a` with upper word `b` in `way`. */
  function Skew(a: Bits, b: Bits, way: nat): (y: Bits)
    requires |a| == |b| >= 2
    ensures |y| == |a|
  {
    HashTimes(SkewOnce(a, b, way % SKEWING_FUNCTIONS), way / SKEWING_FUNCTIONS)
  }

  function Deskew(y: Bits, b: Bits, way: nat): (a: Bits)
    requires |y| == |b| >= 2
    ensures |a| == |y|
  {
    DeskewOnce(DehashTimes(y, way / SKEWING_FUNCTIONS), b, way % SKEWING_FUNCTIONS)
  }

  /** Applying `hash^k` to `hash(z) xor z` gives `hash^(k+1)(z) xor hash^k(z)`. */
  lemma HashTimesOfStep(z: Bits, k: nat)
    requires |z| >= 2
    ensures HashTimes(Xor(Hash(z), z), k) == Xor(HashTimes(z, k + 1), HashTimes(z, k))
  {
    HashTimesLinear(Hash(z), z, k);
    HashTimesShift(z, k);
  }

  lemma XorCancels(p: Bits, q: Bits, r: Bits)
    requires |p| == |q| == |r|
    ensures Xor(Xor(Xor(p, q), r), q) == Xor(p, r)
    ensures Xor(Xor(p, r), r) == p
  {
  }

  /** `hash(z) xor z` determines `z`: `n - 1` further hashes recover `hash(z) xor z`'s root. */
  lemma StepRecovers(z: Bits)
    requires |z| >= 2
    ensures HashTimes(Xor(Hash(z), z), |z| - 1) == z
    ensures HashTimes(Xor(Hash(z), z), |z|) == Hash(z)
  {
    var w, n := Xor(Hash(z), z), |z|;
    assert HashTimes(w, n - 1) == z by {
      HashTimesOfStep(z, n - 1);
      Recurrence(z);
    }
    assert HashTimes(w, n) == Hash(HashTimes(w, n - 1));
  }

  lemma StepUndone(a: Bits, forward: bool)
    requires |a| >= 2
    ensures forward ==> HashTimes(Xor(Hash(a), a), |a| - 1) == a
    ensures !forward ==> HashTimes(Xor(Dehash(a), a), |a|) == a
  {
    if forward {
      StepRecovers(a);
    } else {
      HashDehash(a);
      StepRecovers(Dehash(a));
      XorCommutes(Dehash(a), a);
    }
  }

  lemma DeskewOnceUndoesSkewOnce(a: Bits, b: Bits, f: nat)
    requires |a| == |b| >= 2 && f < SKEWING_FUNCTIONS
    ensures DeskewOnce(SkewOnce(a, b, f), b, f) == a
  {
    var ha := if f < 4 then Hash(a) else Dehash(a);
    var hb := if f % 4 < 2 then Hash(b) else Dehash(b);
    if f % 2 == 0 {
      HashDehash(a);
      XorCancels(ha, hb, b);
    } else {
      XorCancels(ha, hb, a);
      StepUndone(a, f < 4);
    }
  }

  lemma XorCommutes(p: Bits, q: Bits)
    requires |p| == |q|
    ensures Xor(p, q) == Xor(q, p)
  {
  }

  lemma XorRestores(y: Bits, p: Bits, q: Bits)
    requires |y| == |p| == |q|
    ensures Xor(Xor(Xor(Xor(y, p), q), p), q) == y
    ensures Xor(Xor(y, p), p) == y
    ensures Xor(Xor(y, p), q) == Xor(Xor(y, q), p)
  {
  }

  lemma SkewOnceUndoesDeskewOnce(y: Bits, b: Bits, f: nat)
    requires |y| == |b| >= 2 && f < SKEWING_FUNCTIONS
    ensures SkewOnce(DeskewOnce(y, b, f), b, f) == y
  {
    var hb := if f % 4 < 2 then Hash(b) else Dehash(b);
    if f % 2 == 0 {
      HashDehash(Xor(Xor(y, hb), b));
      XorRestores(y, hb, b);
    } else {
      var z := Xor(y, hb);
      var a := DeskewOnce(y, b, f);
      var ha := if f < 4 then Hash(a) else Dehash(a);
      StepOfRoot(z, f < 4);
      XorRestores(ha, a, hb);
      XorRestores(y, hb, hb);
    }
  }

  lemma StepOfRoot(z: Bits, forward: bool)
    requires |z| >= 2
    ensures forward ==> var a := HashTimes(z, |z| - 1); Xor(Hash(a), a) == z
    ensures !forward ==> var a := HashTimes(z, |z|); Xor(Dehash(a), a) == z
  {
    Recurrence(z);
    var p := HashTimes(z, |z| - 1);
    HashDehash(p);
    XorCommutes(Hash(p), p);
  }

  /** For every width, every upper word and every way, `deskew` inverts `skew` on both sides:
  with the upper word fixed, each way permutes the sets. */
  lemma SkewIsBijective(a: Bits, b: Bits, way: nat)
    requires |a| == |b| >= 2
    ensures Deskew(Skew(a, b, way), b, way) == a
    ensures Skew(Deskew(a, b, way), b, way) == a
  {
    var f, k := way % SKEWING_FUNCTIONS, way / SKEWING_FUNCTIONS;
    DehashTimesUndoes(SkewOnce(a, b, f), k);
    DeskewOnceUndoesSkewOnce(a, b, f);
    SkewOnceUndoesDeskewOnce(DehashTimes(a, k), b, f);
    DehashTimesUndoes(a, k);
  }

  /** Each further round of eight ways is the round before it, hashed once more. */
  lemma NextRound(a: Bits, b: Bits, way: nat)
    requires |a| == |b| >= 2
    ensures Skew(a, b, way + 8) == Hash(Skew(a, b, way))
  {
    assert (way + 8) / 8 == way / 8 + 1 && (way + 8) % 8 == way % 8;
  }

  // ----- which of the eight functions differ

  function Zero(n: nat): (x: Bits) {
    seq(n, _ => false)
  }

  /** The word with only bit 1 set. */
  function Unit(n: nat): (x: Bits) {
    seq(n, i => i == 1)
  }

  lemma FirstRound(a: Bits, b: Bits, f: nat)
    requires |a| == |b| >= 2 && f < 8
    ensures Skew(a, b, f) == SkewOnce(a, b, f)
  {
    assert f / 8 == 0 && f % 8 == f;
  }

  lemma SingleBits(n: nat)
    requires n >= 3
    ensures Hash(Zero(n)) == Dehash(Zero(n)) == Zero(n)
    ensures !Hash(Unit(n))[1] && !Hash(Unit(n))[2] && !Dehash(Unit(n))[1] && Dehash(Unit(n))[2]
  {
  }

  /** With more than four sets the function can be read off its answers to a single set bit: bit 1
  tells which word is mixed in as it is, bit 2 which words are shifted up. */
  lemma ReadsOff(n: nat, f: nat)
    requires n >= 3 && f < 8
    ensures
      var low, high := Skew(Unit(n), Zero(n), f), Skew(Zero(n), Unit(n), f);
      && low[2] == (f >= 4) && high[2] == (f % 4 >= 2)
      && low[1] == (f % 2 == 1) && high[1] == (f % 2 == 0)
  {
    SingleBits(n);
    FirstRound(Unit(n), Zero(n), f);
    FirstRound(Zero(n), Unit(n), f);
  }

  /** With four sets, a hash undone is a hash xor its argument, so the eight functions are four: each
  is the same as its mirror image. */
  lemma FourSetsFold(a: Bits, b: Bits, f: nat)
    requires |a| == |b| == 2 && f < 8
    ensures Skew(a, b, f) == Skew(a, b, 7 - f)
  {
    assert f / 8 == 0 && f % 8 == f;
  }

  ghost predicate Differ(n: nat, f: nat, g: nat)
    requires n >= 2
  {
    exists a, b :: |a| == |b| == n && Skew(a, b, f) != Skew(a, b, g)
  }

  /** What four sets still tell about a function. */
  lemma FourSetsReadOff(f: nat)
    requires f < 8
    ensures
      var zero, one := [false, false], [true, false];
      && Skew(one, zero, f)[0] == (f == 1 || f == 3 || f == 4 || f == 6)
      && Skew(zero, one, f)[0] == (f == 0 || f == 3 || f == 4 || f == 7)
  {
    assert f / 8 == 0 && f % 8 == f;
  }

  lemma DifferAt(n: nat, f: nat, g: nat, a: Bits, b: Bits, i: nat)
    requires |a| == |b| == n >= 2 && i < n && Skew(a, b, f)[i] != Skew(a, b, g)[i]
    ensures Differ(n, f, g)
  {
  }

  lemma BitsTell(f: nat, g: nat)
    requires f < g < 8
    ensures (f >= 4) != (g >= 4) || (f % 2 == 1) != (g % 2 == 1) || (f % 4 >= 2) != (g % 4 >= 2)
  {
  }

  lemma ManySetsDiffer(n: nat, f: nat, g: nat)
    requires n >= 3 && f < g < 8
    ensures Differ(n, f, g)
  {
    BitsTell(f, g);
    var u, z := Unit(n), Zero(n);
    var lowF, lowG, highF, highG := Skew(u, z, f), Skew(u, z, g), Skew(z, u, f), Skew(z, u, g);
    assert lowF[2] != lowG[2] || lowF[1] != lowG[1] || highF[2] != highG[2] by {
      ReadsOff(n, f);
      ReadsOff(n, g);
    }
    if lowF[2] != lowG[2] {
      DifferAt(n, f, g, u, z, 2);
    } else if lowF[1] != lowG[1] {
      DifferAt(n, f, g, u, z, 1);
    } else {
      DifferAt(n, f, g, z, u, 2);
    }
  }

  lemma FourSetsDiffer(f: nat, g: nat)
    requires f < g < 8 && f + g != 7
    ensures Differ(2, f, g)
  {
    FourSetsReadOff(f);
    FourSetsReadOff(g);
    var zero, one := [false, false], [true, false];
    if Skew(one, zero, f) == Skew(one, zero, g) {
      assert Skew(zero, one, f) != Skew(zero, one, g);
    }
  }

  /** Two of the eight functions differ somewhere, except that with four sets mirror images agree. */
  lemma DifferIff(n: nat, f: nat, g: nat)
    requires n >= 2 && f < g < 8
    ensures Differ(n, f, g) <==> n >= 3 || f + g != 7
  {
    if n >= 3 {
      ManySetsDiffer(n, f, g);
    } else if f + g != 7 {
      FourSetsDiffer(f, g);
    } else {
      forall a, b | |a| == |b| == 2
        ensures Skew(a, b, f) == Skew(a, b, g)
      {
        FourSetsFold(a, b, f);
      }
    }
  }
}
