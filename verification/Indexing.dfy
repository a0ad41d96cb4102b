/** Cache indexing policies: where a line may live, and how its address is recovered from where
it lives. Machine words are 64-bit `seq<bool>`s, least significant bit first. */
module Indexing {
  import opened Common
  import opened Skewing

  type Word = w: Bits | |w| == 64 witness seq(64, _ => false)

  function Zeros(n: nat): (z: Bits)
  {
    seq(n, _ => false)
  }

  // ----- word operations (shifts by 64 or more give zero)

  function RightShift(w: Word, s: nat): (r: Word) {
    if s >= 64 then Zeros(64) else w[s..] + Zeros(s)
  }

  function LeftShift(w: Word, s: nat): (r: Word) {
    if s >= 64 then Zeros(64) else Zeros(s) + w[..64 - s]
  }

  function Bit(w: Word, i: nat): (b: bool) {
    RightShift(w, i)[0]
  }

  function LowerBits(w: Word, count: nat): (r: Word) {
    if count >= 64 then w else w[..count] + Zeros(64 - count)
  }

  function BitField(w: Word, high: nat, low: nat): (r: Word)
    requires low <= high
  {
    LowerBits(RightShift(w, low), high - low + 1)
  }

  function SetBit(w: Word, i: nat, b: bool): (r: Word) {
    if i >= 64 then w else w[i := b]
  }

  function Or(a: Word, b: Word): (r: Word) {
    seq(64, i requires 0 <= i < 64 => a[i] || b[i])
  }

  // ----- words as numbers

  function ToNat(b: Bits): (x: nat) {
    if b == [] then 0 else (if b[0] then 1 else 0) + 2 * ToNat(b[1..])
  }

  function FromNat(n: nat, x: nat): (b: Bits)
    ensures |b| == n
  {
    if n == 0 then [] else [x % 2 == 1] + FromNat(n - 1, x / 2)
  }

  lemma {:induction false} ToNatBelow(b: Bits)
    ensures ToNat(b) < Pow2(|b|)
  {
    if b != [] {
      ToNatBelow(b[1..]);
    }
  }

  lemma {:induction false} FromNatZero(n: nat)
    ensures FromNat(n, 0) == Zeros(n)
  {
    if n != 0 {
      FromNatZero(n - 1);
    }
  }

  lemma {:induction false} FromNatToNat(b: Bits, m: nat)
    ensures FromNat(|b| + m, ToNat(b)) == b + Zeros(m)
  {
    if b == [] {
      FromNatZero(m);
      assert b + Zeros(m) == Zeros(m);
    } else {
      FromNatToNat(b[1..], m);
      assert b + Zeros(m) == [b[0]] + (b[1..] + Zeros(m));
    }
  }

  lemma {:induction false} ToNatModPow2(b: Bits, n: nat)
    requires n <= |b|
    ensures ToNat(b) % Pow2(n) == ToNat(b[..n])
  {
    if n == 0 {
    } else {
      ToNatModPow2(b[1..], n - 1);
      assert b[..n][1..] == b[1..][..n - 1];
      DoubleMod(if b[0] then 1 else 0, ToNat(b[1..]), Pow2(n - 1));
    }
  }

  lemma {:induction false} ToNatDivPow2(b: Bits, n: nat)
    requires n <= |b|
    ensures ToNat(b) / Pow2(n) == ToNat(b[n..])
  {
    if n == 0 {
      assert b[0..] == b;
    } else {
      ToNatDivPow2(b[1..], n - 1);
      assert b[1..][n - 1..] == b[n..];
      HalveDiv(if b[0] then 1 else 0, ToNat(b[1..]), Pow2(n - 1));
    }
  }

  lemma HalveDiv(bit: nat, x: nat, m: nat)
    requires bit < 2 && m > 0
    ensures (bit + 2 * x) / (2 * m) == x / m
  {
    var q, r := x / m, x % m;
    assert bit + 2 * x == q * (2 * m) + (bit + 2 * r);
    ModUnique(bit + 2 * x, 2 * m, q, bit + 2 * r);
  }

  lemma DoubleMod(bit: nat, x: nat, m: nat)
    requires bit < 2 && m > 0
    ensures (bit + 2 * x) % (2 * m) == bit + 2 * (x % m)
  {
    var q, r := x / m, x % m;
    assert x == q * m + r;
    assert bit + 2 * x == q * (2 * m) + (bit + 2 * r);
    ModUnique(bit + 2 * x, 2 * m, q, bit + 2 * r);
  }

  function TrailingZeros(x: nat): (n: nat)
    requires x > 0
  {
    if x % 2 == 1 then 0 else 1 + TrailingZeros(x / 2)
  }

  lemma {:induction false} PowerOfTrailingZeros(x: nat)
    requires IsPow2(x)
    ensures x == Pow2(TrailingZeros(x))
  {
    if x > 1 {
      PowerOfTrailingZeros(x / 2);
    }
  }

  lemma {:induction false} Pow2Reflects(m: nat, n: nat)
    requires Pow2(m) < Pow2(n)
    ensures m < n
  {
    if m != 0 && n != 0 {
      Pow2Reflects(m - 1, n - 1);
    }
  }

  // ----- policy configuration

  datatype Kind = SetAssociative | SkewedAssociative

  datatype Location = Location(set_: nat, way: nat)

  datatype Config = Config(kind: Kind, setShift: nat, setBits: nat, sets: nat, ways: nat)

  datatype IndexingError =
    | ZeroSets
    | ZeroWays
    | SetsNotPowerOfTwo
    | SkewedAssociativeTooFewSets
    | SkewedAssociativeAddressBitsTooWide
    | UnknownSet
    | UnknownWay

  /** Line sizes that `CacheLineLayout` admits. */
  predicate IsLineSize(bytes: nat) {
    IsPow2(bytes) && bytes <= ISIZE_MAX
  }

  predicate Valid(c: Config) {
    && c.sets == Pow2(c.setBits)
    && c.ways > 0
    && c.setShift < 63 && c.setBits < 64
    && (c.kind.SkewedAssociative? ==> c.setBits >= 2 && c.setShift + 2 * c.setBits <= 64)
  }

  function NewConfig(kind: Kind, lineBytes: nat, sets: nat, ways: nat): (r: Result<Config, IndexingError>)
    requires IsLineSize(lineBytes) && sets <= USIZE_MAX
    ensures r.Ok? <==>
      && ways > 0
      && IsPow2(sets)
      && (kind.SkewedAssociative? ==> sets > 2 && TrailingZeros(lineBytes) + 2 * TrailingZeros(sets) <= 64)
    ensures r.Ok? ==>
      && Valid(r.value)
      && r.value.kind == kind && r.value.ways == ways && r.value.sets == sets
      && Pow2(r.value.setShift) == lineBytes
  {
    if sets == 0 then Err(ZeroSets)
    else if ways == 0 then Err(ZeroWays)
    else if !IsPow2(sets) then Err(SetsNotPowerOfTwo)
    else
      var setShift, setBits := TrailingZeros(lineBytes), TrailingZeros(sets);
      assert setShift < 63 && setBits < 64 by { ShiftsFit(lineBytes, sets); }
      assert sets > 2 ==> setBits >= 2 by { PowerOfTrailingZeros(sets); }
      if kind.SkewedAssociative? && sets <= 2 then Err(SkewedAssociativeTooFewSets)
      else if kind.SkewedAssociative? && setShift + 2 * setBits > 64 then Err(SkewedAssociativeAddressBitsTooWide)
      else
        PowerOfTrailingZeros(lineBytes);
        PowerOfTrailingZeros(sets);
        Ok(Config(kind, setShift, setBits, sets, ways))
  }

  lemma ShiftsFit(lineBytes: nat, sets: nat)
    requires IsLineSize(lineBytes) && IsPow2(sets) && sets <= USIZE_MAX
    ensures TrailingZeros(lineBytes) < 63 && TrailingZeros(sets) < 64
  {
    PowerOfTrailingZeros(lineBytes);
    PowerOfTrailingZeros(sets);
    Pow2Values();
    Pow2Reflects(TrailingZeros(lineBytes), 63);
    Pow2Reflects(TrailingZeros(sets), 64);
  }

  // ----- addresses

  /** The address with its offset inside the line cleared. */
  function LineAddress(c: Config, address: Word): (line: Word)
    requires Valid(c)
  {
    Zeros(c.setShift) + address[c.setShift..]
  }

  function BlockAddress(c: Config, address: Word): (block: Word)
    requires Valid(c)
  {
    RightShift(LineAddress(c, address), c.setShift)
  }

  function ExtractTag(c: Config, address: Word): (tag: Word)
    requires Valid(c)
  {
    RightShift(LineAddress(c, address), c.setShift + c.setBits)
  }

  function HashWord(n: nat, value: Word): (r: Word)
    requires 2 <= n
  {
    SetBit(RightShift(value, 1), n - 1, Bit(value, n - 1) != Bit(value, 0))
  }

  function DehashWord(n: nat, value: Word): (r: Word)
    requires 2 <= n
  {
    SetBit(LeftShift(LowerBits(value, n - 1), 1), 0, Bit(value, n - 2) != Bit(value, n - 1))
  }

  /** An `n`-bit word held in a 64-bit register. */
  function Widen(x: Bits): (w: Word)
    requires |x| <= 64
  {
    x + Zeros(64 - |x|)
  }

  lemma ShiftedOnce(w: Word, i: nat)
    requires i < 64
    ensures RightShift(w, 1)[i] == (i < 63 && w[i + 1])
  {
  }

  lemma WidenHash(x: Bits)
    requires 2 <= |x| <= 64
    ensures HashWord(|x|, Widen(x)) == Widen(Hash(x))
  {
    var n, w, h := |x|, Widen(x), Hash(x);
    assert Bit(w, 0) == x[0] && Bit(w, n - 1) == x[n - 1];
    var shifted := RightShift(w, 1)[n - 1 := h[n - 1]];
    forall i | 0 <= i < 64
      ensures shifted[i] == Widen(h)[i]
    {
      ShiftedOnce(w, i);
      assert i < n - 1 ==> h[i] == x[i + 1];
    }
  }

  lemma WidenLower(x: Bits)
    requires 0 < |x| <= 64
    ensures LowerBits(Widen(x), |x| - 1) == Widen(x[..|x| - 1])
  {
  }

  lemma ShiftedDehash(x: Bits, d: Bits)
    requires 2 <= |x| <= 64 && d == Dehash(x)
    ensures LeftShift(Widen(x[..|x| - 1]), 1)[0 := d[0]] == Widen(d)
  {
    var shifted := LeftShift(Widen(x[..|x| - 1]), 1)[0 := d[0]];
    forall i | 0 <= i < 64
      ensures shifted[i] == Widen(d)[i]
    {
    }
  }

  lemma WidenDehash(x: Bits)
    requires 2 <= |x| <= 64
    ensures DehashWord(|x|, Widen(x)) == Widen(Dehash(x))
  {
    var n, w, d := |x|, Widen(x), Dehash(x);
    assert Bit(w, n - 2) == x[n - 2] && Bit(w, n - 1) == x[n - 1];
    assert LowerBits(w, n - 1) == Widen(x[..n - 1]) by {
      WidenLower(x);
    }
    ShiftedDehash(x, d);
  }

  lemma WidenXor(x: Bits, y: Bits)
    requires |x| == |y| <= 64
    ensures Xor(Widen(x), Widen(y)) == Widen(Xor(x, y))
  {
  }

  function SkewWord(c: Config, block: Word, way: nat): (r: Word)
    requires Valid(c) && c.kind.SkewedAssociative?
  {
    Widen(Skew(block[..c.setBits], block[c.setBits..2 * c.setBits], way))
  }

  function DeskewWord(c: Config, block: Word, way: nat): (r: Word)
    requires Valid(c) && c.kind.SkewedAssociative?
  {
    Widen(Deskew(block[..c.setBits], block[c.setBits..2 * c.setBits], way))
  }

  /** The mix of hashes that the match on `way % 8` selects. */
  function MixWords(n: nat, addr1: Word, addr2: Word, f: nat): (r: Word)
    requires 2 <= n <= 64 && f < SKEWING_FUNCTIONS
  {
    var h1 := if f < 4 then HashWord(n, addr1) else DehashWord(n, addr1);
    var h2 := if f % 4 < 2 then HashWord(n, addr2) else DehashWord(n, addr2);
    Xor(Xor(h1, h2), if f % 2 == 0 then addr2 else addr1)
  }

  lemma WidenMix(a: Bits, b: Bits, f: nat)
    requires 2 <= |a| == |b| <= 64 && f < SKEWING_FUNCTIONS
    ensures MixWords(|a|, Widen(a), Widen(b), f) == Widen(SkewOnce(a, b, f))
  {
    var ga := if f < 4 then Hash(a) else Dehash(a);
    var gb := if f % 4 < 2 then Hash(b) else Dehash(b);
    WidenHash(a);
    WidenHash(b);
    WidenDehash(a);
    WidenDehash(b);
    WidenXor(ga, gb);
    WidenXor(Xor(ga, gb), if f % 2 == 0 then b else a);
  }

  method HashRounds(n: nat, start: Word, rounds: nat, ghost x: Bits) returns (addr1: Word)
    requires 2 <= n <= 64 && |x| == n && start == Widen(x)
    ensures addr1 == Widen(HashTimes(x, rounds))
  {
    addr1 := start;
    for i := 0 to rounds
      invariant addr1 == Widen(HashTimes(x, i))
    {
      WidenHash(HashTimes(x, i));
      addr1 := HashWord(n, addr1);
    }
  }

  lemma SplitBlock(n: nat, block: Word)
    requires 2 <= n && 2 * n <= 64
    ensures LowerBits(block, n) == Widen(block[..n])
    ensures BitField(block, 2 * n - 1, n) == Widen(block[n..2 * n])
  {
  }

  /** `skew` as the register program: pick one of eight mixes, then hash once per eight ways. */
  method ComputeSkew(c: Config, block: Word, way: nat) returns (addr1: Word)
    requires Valid(c) && c.kind.SkewedAssociative?
    ensures addr1 == SkewWord(c, block, way)
  {
    var n := c.setBits;
    addr1 := LowerBits(block, n);
    var addr2 := BitField(block, 2 * n - 1, n);
    ghost var a, b := block[..n], block[n..2 * n];
    SplitBlock(n, block);
    var f := way % SKEWING_FUNCTIONS;
    WidenMix(a, b, f);
    addr1 := MixWords(n, addr1, addr2, f);
    addr1 := HashRounds(n, addr1, way / SKEWING_FUNCTIONS, SkewOnce(a, b, f));
  }

  method DehashRounds(n: nat, start: Word, rounds: nat, ghost x: Bits) returns (addr1: Word)
    requires 2 <= n <= 64 && |x| == n && start == Widen(x)
    ensures addr1 == Widen(DehashTimes(x, rounds))
  {
    addr1 := start;
    for i := 0 to rounds
      invariant addr1 == Widen(DehashTimes(x, i))
    {
      WidenDehash(DehashTimes(x, i));
      addr1 := DehashWord(n, addr1);
    }
  }

  /** `deskew` as the register program: dehash once per eight ways, then undo one of eight mixes. */
  method ComputeDeskew(c: Config, block: Word, way: nat) returns (addr1: Word)
    requires Valid(c) && c.kind.SkewedAssociative?
    ensures addr1 == DeskewWord(c, block, way)
  {
    var n := c.setBits;
    addr1 := LowerBits(block, n);
    var addr2 := BitField(block, 2 * n - 1, n);
    ghost var y, b := block[..n], block[n..2 * n];
    SplitBlock(n, block);
    addr1 := DehashRounds(n, addr1, way / SKEWING_FUNCTIONS, y);
    ghost var d := DehashTimes(y, way / SKEWING_FUNCTIONS);
    var f := way % SKEWING_FUNCTIONS;
    addr1 := UndoMix(n, addr1, addr2, f, d, b);
  }

  method UndoMix(n: nat, start: Word, addr2: Word, f: nat, ghost d: Bits, ghost b: Bits) returns (addr1: Word)
    requires 2 <= n <= 64 && |d| == |b| == n && f < SKEWING_FUNCTIONS
    requires start == Widen(d) && addr2 == Widen(b)
    ensures addr1 == Widen(DeskewOnce(d, b, f))
  {
    WidenHash(b);
    WidenDehash(b);
    var h2 := if f % 4 < 2 then HashWord(n, addr2) else DehashWord(n, addr2);
    ghost var gb := if f % 4 < 2 then Hash(b) else Dehash(b);
    WidenXor(d, gb);
    addr1 := Xor(start, h2);
    ghost var z := Xor(d, gb);
    if f % 2 == 0 {
      WidenXor(z, b);
      WidenHash(Xor(z, b));
      WidenDehash(Xor(z, b));
      addr1 := Xor(addr1, addr2);
      addr1 := if f < 4 then DehashWord(n, addr1) else HashWord(n, addr1);
    } else {
      addr1 := HashRounds(n, addr1, if f < 4 then n - 1 else n, z);
    }
  }

  /** The set an address maps to in `way`. */
  function SetFor(c: Config, address: Word, way: nat): (set_: nat)
    requires Valid(c)
    ensures set_ < c.sets
  {
    var block := BlockAddress(c, address);
    match c.kind
    case SetAssociative => ToNat(block) % c.sets
    case SkewedAssociative =>
      var s := LowerBits(SkewWord(c, block, way), c.setBits);
      assert s[..c.setBits] + Zeros(64 - c.setBits) == s;
      NarrowBelow(s[..c.setBits]);
      ToNat(s)
  }

  lemma NarrowBelow(x: Bits)
    requires |x| <= 64
    ensures ToNat(Widen(x)) == ToNat(x) < Pow2(|x|)
  {
    ToNatBelow(x);
    WidenKeepsValue(x, 64 - |x|);
  }

  lemma {:induction false} WidenKeepsValue(x: Bits, m: nat)
    ensures ToNat(x + Zeros(m)) == ToNat(x)
  {
    if x != [] {
      assert (x + Zeros(m))[1..] == x[1..] + Zeros(m);
      WidenKeepsValue(x[1..], m);
    } else if m != 0 {
      assert (x + Zeros(m))[1..] == x + Zeros(m - 1);
      WidenKeepsValue(x, m - 1);
    }
  }

  function CandidateLocations(c: Config, address: Word): (r: seq<Location>)
    requires Valid(c)
  {
    seq(c.ways, way requires 0 <= way => Location(SetFor(c, address, way), way))
  }

  function RegenerateAddress(c: Config, tag: Word, location: Location): (r: Result<Word, IndexingError>)
    requires Valid(c)
  {
    if location.set_ >= c.sets then Err(UnknownSet)
    else if location.way >= c.ways then Err(UnknownWay)
    else
      var located: Word := FromNat(64, location.set_);
      var set_ :=
        match c.kind
        case SetAssociative => located
        case SkewedAssociative =>
          LowerBits(DeskewWord(c, Or(LeftShift(tag, c.setBits), located), location.way), c.setBits);
      Ok(Or(LeftShift(tag, c.setShift + c.setBits), LeftShift(set_, c.setShift)))
  }

  // ----- what the policy promises

  /** The set bits of an address as `regenerate_address` must find them again. */
  function SetField(c: Config, address: Word): (r: Bits)
    requires Valid(c)
  {
    BlockAddress(c, address)[..c.setBits]
  }

  lemma Reassemble(c: Config, address: Word)
    requires Valid(c)
    ensures Or(LeftShift(ExtractTag(c, address), c.setShift + c.setBits),
               LeftShift(Widen(SetField(c, address)), c.setShift)) == LineAddress(c, address)
  {
    var k, n, line := c.setShift, c.setBits, LineAddress(c, address);
    var upper, lower := LeftShift(ExtractTag(c, address), k + n), LeftShift(Widen(SetField(c, address)), k);
    forall i | 0 <= i < 64
      ensures upper[i] == (i >= k + n && line[i]) && lower[i] == (k <= i < k + n && line[i])
    {
    }
    assert Or(upper, lower) == line;
  }

  lemma PlainSetFieldRecovered(c: Config, address: Word, way: nat)
    requires Valid(c) && c.kind.SetAssociative?
    ensures FromNat(64, SetFor(c, address, way)) == Widen(SetField(c, address))
  {
    ToNatModPow2(BlockAddress(c, address), c.setBits);
    FromNatToNat(SetField(c, address), 64 - c.setBits);
  }

  lemma SkewedSetFieldRecovered(c: Config, address: Word, way: nat)
    requires Valid(c) && c.kind.SkewedAssociative?
    ensures
      var located: Word := FromNat(64, SetFor(c, address, way));
      LowerBits(DeskewWord(c, Or(LeftShift(ExtractTag(c, address), c.setBits), located), way), c.setBits)
        == Widen(SetField(c, address))
  {
    var n, block := c.setBits, BlockAddress(c, address);
    var a, b := block[..n], block[n..2 * n];
    var y := Skew(a, b, way);
    assert SetFor(c, address, way) == ToNat(Widen(y)) by {
      assert LowerBits(Widen(y), n) == Widen(y);
    }
    NarrowBelow(y);
    FromNatToNat(y, 64 - n);
    var skewed := Or(LeftShift(ExtractTag(c, address), n), Widen(y));
    TagKeepsUpperBits(c, address, y);
    SkewIsBijective(a, b, way);
    assert LowerBits(Widen(a), n) == Widen(a);
  }

  lemma TagKeepsUpperBits(c: Config, address: Word, y: Bits)
    requires Valid(c) && c.kind.SkewedAssociative? && |y| == c.setBits
    ensures
      var n, skewed := c.setBits, Or(LeftShift(ExtractTag(c, address), c.setBits), Widen(y));
      skewed[..n] == y && skewed[n..2 * n] == BlockAddress(c, address)[n..2 * n]
  {
    var n, k, line := c.setBits, c.setShift, LineAddress(c, address);
    var tag := ExtractTag(c, address);
    var skewed := Or(LeftShift(tag, n), Widen(y));
    forall i | n <= i < 2 * n
      ensures skewed[i] == BlockAddress(c, address)[i]
    {
      assert LeftShift(tag, n)[i] == tag[i - n] == line[k + i];
    }
  }

  /** A word without its lowest bits is the quotient by their range. */
  lemma ShiftedValue(w: Word, s: nat)
    ensures ToNat(RightShift(w, s)) == ToNat(w) / Pow2(s)
  {
    if s < 64 {
      WidenKeepsValue(w[s..], s);
      ToNatDivPow2(w, s);
    } else {
      ToNatBelow(w);
      Pow2Grows(64, s);
      ModUnique(ToNat(w), Pow2(s), 0, ToNat(w));
      WidenKeepsValue([], 64);
      assert [] + Zeros(64) == Zeros(64);
    }
  }

  lemma {:induction false} Pow2Grows(m: nat, n: nat)
    requires m <= n
    ensures Pow2(m) <= Pow2(n)
  {
    if m < n {
      Pow2Grows(m, n - 1);
    }
  }

  lemma LineValue(c: Config, address: Word)
    requires Valid(c)
    ensures RightShift(LineAddress(c, address), c.setShift) == RightShift(address, c.setShift)
    ensures RightShift(LineAddress(c, address), c.setShift + c.setBits) == RightShift(address, c.setShift + c.setBits)
  {
  }

  /** In numbers: the tag is the address divided by the bytes of all sets, and with plain indexing the
  set is the line number modulo the sets, whatever the way. */
  lemma PartsOfAddress(c: Config, address: Word, way: nat)
    requires Valid(c)
    ensures ToNat(ExtractTag(c, address)) == ToNat(address) / Pow2(c.setShift + c.setBits)
    ensures c.kind.SetAssociative? ==> SetFor(c, address, way) == ToNat(address) / Pow2(c.setShift) % c.sets
  {
    LineValue(c, address);
    ShiftedValue(address, c.setShift);
    ShiftedValue(address, c.setShift + c.setBits);
  }

  /** For either kind of indexing and any way, an address's tag and location give back its line. */
  lemma RegenerateInvertsLocation(c: Config, address: Word, way: nat)
    requires Valid(c) && way < c.ways
    ensures RegenerateAddress(c, ExtractTag(c, address), CandidateLocations(c, address)[way])
         == Ok(LineAddress(c, address))
  {
    assert CandidateLocations(c, address)[way] == Location(SetFor(c, address, way), way);
    RegenerateAt(c, address, way);
  }

  lemma RegenerateAt(c: Config, address: Word, way: nat)
    requires Valid(c) && way < c.ways
    ensures RegenerateAddress(c, ExtractTag(c, address), Location(SetFor(c, address, way), way))
         == Ok(LineAddress(c, address))
  {
    Reassemble(c, address);
    if c.kind.SetAssociative? {
      PlainSetFieldRecovered(c, address, way);
    } else {
      SkewedSetFieldRecovered(c, address, way);
    }
  }

  /** Two lines that share a tag and a location are the same line. */
  lemma TagAndLocationIdentifyLine(c: Config, left: Word, right: Word, way: nat)
    requires Valid(c) && way < c.ways
    requires ExtractTag(c, left) == ExtractTag(c, right)
    requires CandidateLocations(c, left)[way] == CandidateLocations(c, right)[way]
    ensures LineAddress(c, left) == LineAddress(c, right)
  {
    RegenerateInvertsLocation(c, left, way);
    RegenerateInvertsLocation(c, right, way);
  }
}
