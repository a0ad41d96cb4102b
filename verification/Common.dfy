/** Result types and machine-integer bounds shared by every model. */
module Common {

  datatype Option<+T> = None | Some(value: T)

  datatype Result<+T, +E> = Ok(value: T) | Err(error: E)
  {
    predicate IsFailure() {
      Err?
    }

    function PropagateFailure<U>(): (r: Result<U, E>)
      requires Err?
    {
      Err(error)
    }

    function Extract(): (t: T)
      requires Ok?
    {
      value
    }
  }

  /** Largest `u64`; `usize` has the same width on the modelled hosts. */
  const U64_MAX: nat := 0xFFFF_FFFF_FFFF_FFFF

  const USIZE_MAX: nat := U64_MAX

  /** Largest `isize`: no Rust vector is longer than this many bytes. */
  const ISIZE_MAX: nat := 0x7FFF_FFFF_FFFF_FFFF

  /** `u64::saturating_add(1)`. */
  function SaturatingNext(x: nat): (y: nat) {
    if x < U64_MAX then x + 1 else x
  }

  function Min(a: int, b: int): (m: int) {
    if a <= b then a else b
  }

  function Max(a: int, b: int): (m: int) {
    if a >= b then a else b
  }

  // ----- division

  lemma ModUnique(x: int, d: int, q: int, r: int)
    requires d > 0 && 0 <= r < d && x == q * d + r
    ensures x % d == r && x / d == q
  {
    var q', r' := x / d, x % d;
    var e := q - q';
    assert e * d == q * d - q' * d == r' - r;
    if e > 0 {
      MulAtLeast(e, d);
    } else if e < 0 {
      MulAtLeast(-e, d);
    }
  }

  lemma MulAtLeast(e: int, d: int)
    requires e > 0 && d > 0
    ensures e * d >= d
  {
  }

  lemma MultipleMod(q: nat, m: nat)
    requires m > 0
    ensures (q * m) % m == 0 && (q * m) / m == q
  {
    ModUnique(q * m, m, q, 0);
  }

  lemma MulAtMost(a: int, b: int, k: int)
    requires a <= b && k >= 0
    ensures a * k <= b * k
  {
  }

  lemma MulLess(a: int, b: int, k: int)
    requires a < b && k > 0
    ensures a * k < b * k
  {
  }

  // ----- lines

  /** The start of the line of `lineBytes` bytes that holds the address. */
  function LineOf(a: nat, lineBytes: nat): (line: nat)
    requires lineBytes > 0
  {
    a - a % lineBytes
  }

  lemma LineAligned(a: nat, lineBytes: nat)
    requires lineBytes > 0
    ensures LineOf(a, lineBytes) % lineBytes == 0
  {
    MultipleMod(a / lineBytes, lineBytes);
    assert LineOf(a, lineBytes) == (a / lineBytes) * lineBytes;
  }

  // ----- powers of two

  function Pow2(n: nat): (p: nat)
    ensures p > 0
  {
    if n == 0 then 1 else 2 * Pow2(n - 1)
  }

  predicate IsPow2(x: nat) {
    x == 1 || (x > 1 && x % 2 == 0 && IsPow2(x / 2))
  }

  lemma Pow2Values()
    ensures Pow2(32) == 0x1_0000_0000 && Pow2(63) == ISIZE_MAX + 1 && Pow2(64) == U64_MAX + 1
  {
    assert Pow2(8) == 256;
    assert Pow2(16) == 0x1_0000;
    assert Pow2(24) == 0x100_0000;
    assert Pow2(32) == 0x1_0000_0000;
    assert Pow2(40) == 0x100_0000_0000;
    assert Pow2(48) == 0x1_0000_0000_0000;
    assert Pow2(56) == 0x100_0000_0000_0000;
    assert Pow2(63) == 0x8000_0000_0000_0000;
  }

  // ----- sequences

  function Joined<T>(parts: seq<seq<T>>): (whole: seq<T>) {
    if parts == [] then [] else parts[0] + Joined(parts[1..])
  }
}
