/** Memory requests, responses and cache-line geometry. */
module Memory {
  import opened Common

  type Byte = x: int | 0 <= x < 256

  datatype Operation =
    | NoAccess
    | InstructionFetch
    | ReadShared
    | ReadUnique
    | LoadLocked
    | LockedRmwRead
    | LockedRmwWrite
    | Write
    | CacheBlockZero
    | StoreConditional
    | StoreConditionalFail
    | StoreConditionalUpgrade
    | StoreConditionalUpgradeFail
    | Upgrade
    | Atomic
    | AtomicNoReturn
    | PrefetchRead
    | PrefetchWrite
    | WriteClean
    | WritebackClean
    | WritebackDirty
    | CleanShared
    | CleanEvict
    | Invalidate
    | InvalidateWritable
  {
    predicate IsAtomic() {
      Atomic? || AtomicNoReturn?
    }

    predicate IsWriteback() {
      WriteClean? || WritebackClean? || WritebackDirty?
    }

    predicate RequiresResponse() {
      !PrefetchRead? && !PrefetchWrite? && !IsWriteback() && !CleanEvict?
    }

    predicate ReturnsData() {
      InstructionFetch? || ReadShared? || ReadUnique? || LoadLocked? || LockedRmwRead?
      || StoreConditionalUpgradeFail? || Atomic?
    }

    predicate HasByteMask() {
      Write? || StoreConditional? || StoreConditionalFail? || LockedRmwWrite? || IsAtomic()
    }

    predicate CarriesData() {
      HasByteMask() || IsWriteback()
    }

    predicate ReadsForOrdering() {
      InstructionFetch? || ReadShared? || ReadUnique? || LoadLocked? || LockedRmwRead?
      || StoreConditionalUpgradeFail? || IsAtomic() || PrefetchRead?
    }

    predicate WritesForOrdering() {
      !NoAccess? && !InstructionFetch? && !ReadShared? && !LoadLocked? && !PrefetchRead?
    }
  }

  datatype AtomicOp =
    Swap | CompareSwap | Add | BitXor | BitOr | BitAnd | MinSigned | MaxSigned | MinUnsigned | MaxUnsigned

  datatype Barrier = Barrier(read: bool, write: bool) {
    predicate Matches(op: Operation) {
      (read && op.ReadsForOrdering()) || (write && op.WritesForOrdering())
    }
  }

  datatype Request = Request(
    agent: nat,
    sequence: nat,
    operation: Operation,
    address: nat,
    size: nat,
    data: Option<seq<Byte>>,
    mask: Option<seq<bool>>,
    atomicOp: Option<AtomicOp>,
    compare: Option<seq<Byte>>,
    barrierBefore: Option<Barrier>,
    barrierAfter: Option<Barrier>,
    uncacheable: bool,
    strictOrder: bool,
    responseRequired: bool)
  {
    /** What every constructor of a memory request checks. */
    predicate WellFormed() {
      && size > 0
      && address + size <= U64_MAX
      && data.Some? == operation.CarriesData()
      && (data.Some? ==> |data.value| == size)
      && mask.Some? == operation.HasByteMask()
      && (mask.Some? ==> |mask.value| == size)
      && atomicOp.Some? == operation.IsAtomic()
      && compare.Some? == (atomicOp == Some(CompareSwap))
      && (compare.Some? ==> |compare.value| == size)
      && (operation.RequiresResponse() ==> responseRequired)
    }

    /** The access stays inside one line of `lineBytes` bytes. */
    predicate InLine(lineBytes: nat) {
      lineBytes > 0 && address % lineBytes + size <= lineBytes
    }

    function LineAddress(lineBytes: nat): (line: nat)
      requires lineBytes > 0
    {
      LineOf(address, lineBytes)
    }

    /** The 16-byte granule a load-locked reserves. */
    function Granule(): (g: nat) {
      LineOf(address, RESERVATION_BYTES)
    }

    predicate OverlapsGranule(g: nat) {
      address < Min(g + RESERVATION_BYTES, U64_MAX) && g < address + size
    }

    predicate OrdersBefore(later: Request) {
      && agent == later.agent
      && (strictOrder || later.strictOrder
          || (later.barrierBefore.Some? && later.barrierBefore.value.Matches(operation))
          || (barrierAfter.Some? && barrierAfter.value.Matches(later.operation)))
    }
  }

  const RESERVATION_BYTES: nat := 16

  datatype Status = Completed | Retry | StoreConditionalFailed

  datatype Response = Response(agent: nat, sequence: nat, status: Status, data: Option<seq<Byte>>)

  datatype MemoryError =
    | ResponseNotExpected
    | PayloadSizeMismatch
    | MissingResponseData
    | UnexpectedResponseData
    | InvalidStoreConditionalFailureResponse
    | UnsupportedAtomicAccessSize
    | AddressOverflow

  function Complete(r: Request, data: Option<seq<Byte>>): (reply: Result<Response, MemoryError>) {
    if !r.responseRequired then Err(ResponseNotExpected)
    else if r.operation.ReturnsData() && data.None? then Err(MissingResponseData)
    else if r.operation.ReturnsData() && |data.value| != r.size then Err(PayloadSizeMismatch)
    else if !r.operation.ReturnsData() && data.Some? then Err(UnexpectedResponseData)
    else Ok(Response(r.agent, r.sequence, Completed, data))
  }

  function FailStoreConditional(r: Request): (reply: Result<Response, MemoryError>) {
    if r.operation.StoreConditional? || r.operation.StoreConditionalFail? || r.operation.StoreConditionalUpgrade?
    then Ok(Response(r.agent, r.sequence, StoreConditionalFailed, None))
    else Err(InvalidStoreConditionalFailureResponse)
  }

  /** A barrier orders only its own side, and only the accesses of its kind. */
  predicate Fences(barrier: Barrier, op: Operation) {
    var reading := {InstructionFetch, ReadShared, ReadUnique, LoadLocked, LockedRmwRead, StoreConditionalUpgradeFail,
                    Atomic, AtomicNoReturn, PrefetchRead};
    var onlyRead := {InstructionFetch, ReadShared, LoadLocked, PrefetchRead};
    || (barrier.read && op in reading)
    || (barrier.write && op != NoAccess && op !in onlyRead)
  }

  /** Requests of one agent are ordered by strictness on either side, by a barrier after the earlier
  one that the later operation is subject to, or by a barrier before the later one that the earlier
  operation is subject to, and by nothing else. */
  lemma OrderedIff(earlier: Request, later: Request)
    ensures earlier.OrdersBefore(later) <==>
      && earlier.agent == later.agent
      && (earlier.strictOrder || later.strictOrder
          || (exists b :: earlier.barrierAfter == Some(b) && Fences(b, later.operation))
          || (exists b :: later.barrierBefore == Some(b) && Fences(b, earlier.operation)))
  {
  }

  // ----- line data

  function Slice(line: seq<Byte>, offset: nat, size: nat): (bytes: seq<Byte>)
    requires offset + size <= |line|
  {
    line[offset..offset + size]
  }

  predicate Writes(mask: Option<seq<bool>>, payload: seq<Byte>, offset: nat, i: int)
    requires mask.Some? ==> |mask.value| == |payload|
  {
    offset <= i < offset + |payload| && (mask.Some? ==> mask.value[i - offset])
  }

  /** The line with the unmasked payload bytes stored at `offset`. */
  function Stored(line: seq<Byte>, offset: nat, payload: seq<Byte>, mask: Option<seq<bool>>): (line': seq<Byte>)
    requires offset + |payload| <= |line|
    requires mask.Some? ==> |mask.value| == |payload|
  {
    seq(|line|, i requires 0 <= i < |line| => if Writes(mask, payload, offset, i) then payload[i - offset] else line[i])
  }

  // ----- atomic operations

  function FromLittleEndian(bytes: seq<Byte>): (x: nat) {
    if bytes == [] then 0 else bytes[0] + 256 * FromLittleEndian(bytes[1..])
  }

  function ToLittleEndian(x: nat, width: nat): (bytes: seq<Byte>)
    ensures |bytes| == width
  {
    if width == 0 then [] else [x % 256] + ToLittleEndian(x / 256, width - 1)
  }

  /** The numbers that `width` bytes can hold are those below this. */
  function Range(width: nat): (limit: nat)
    ensures limit > 0
  {
    if width == 0 then 1 else 256 * Range(width - 1)
  }

  /** In little-endian order the last byte weighs most. */
  lemma {:induction false} LittlePlaceValue(bytes: seq<Byte>, b: Byte)
    ensures FromLittleEndian(bytes + [b]) == FromLittleEndian(bytes) + b * Range(|bytes|)
  {
    var whole := bytes + [b];
    if bytes == [] {
      assert whole[1..] == bytes;
    } else {
      var n := |bytes| - 1;
      LittlePlaceValue(bytes[1..], b);
      assert whole[1..] == bytes[1..] + [b];
      Shift(b, Range(n));
    }
  }

  lemma Shift(b: nat, range: nat)
    ensures 256 * (b * range) == b * (256 * range)
  {
  }

  function SignedValue(bytes: seq<Byte>): (x: int)
    requires bytes != []
  {
    var x := FromLittleEndian(bytes);
    if bytes[|bytes| - 1] < 128 then x else x - FromLittleEndian(seq(|bytes|, _ => 255)) - 1
  }

  function CombineBytes(op: AtomicOp, a: Byte, b: Byte): (c: Byte) {
    var x, y := a as bv8, b as bv8;
    (match op
     case BitXor => x ^ y
     case BitOr => x | y
     case _ => x & y) as int
  }

  function Combine(op: AtomicOp, a: seq<Byte>, b: seq<Byte>): (c: seq<Byte>)
    requires |a| == |b|
    ensures |c| == |a|
  {
    if a == [] then [] else [CombineBytes(op, a[0], b[0])] + Combine(op, a[1..], b[1..])
  }

  function Arithmetic(op: AtomicOp, prior: seq<Byte>, payload: seq<Byte>): (bytes: seq<Byte>)
    requires prior != [] && |prior| == |payload|
    ensures |bytes| == |prior|
  {
    // for Add, dropping the carry out of the top byte is addition modulo 2^(8 * size)
    if op.Add? then ToLittleEndian(FromLittleEndian(prior) + FromLittleEndian(payload), |prior|)
    else if op.MinSigned? then (if SignedValue(prior) <= SignedValue(payload) then prior else payload)
    else if op.MaxSigned? then (if SignedValue(prior) >= SignedValue(payload) then prior else payload)
    else if op.MinUnsigned? then (if FromLittleEndian(prior) <= FromLittleEndian(payload) then prior else payload)
    else if op.MaxUnsigned? then (if FromLittleEndian(prior) >= FromLittleEndian(payload) then prior else payload)
    else Combine(op, prior, payload)
  }

  /** The bytes an atomic request stores over `prior`; odd widths are refused. */
  function AtomicData(r: Request, prior: seq<Byte>): (bytes: Result<seq<Byte>, MemoryError>)
    requires r.WellFormed() && r.operation.IsAtomic() && |prior| == r.size
    ensures bytes.Ok? ==> |bytes.value| == r.size
  {
    var payload := r.data.value;
    var numeric := r.size == 1 || r.size == 2 || r.size == 4 || r.size == 8;
    match r.atomicOp.value
    case Swap => Ok(payload)
    case CompareSwap =>
      if r.size != 4 && r.size != 8 then Err(UnsupportedAtomicAccessSize)
      else Ok(if r.compare.value == prior then payload else prior)
    case op => if !numeric then Err(UnsupportedAtomicAccessSize) else Ok(Arithmetic(op, prior, payload))
  }

  // ----- what an atomic operation computes

  /** The number that bytes stand for in two's complement. */
  function TwosComplement(bytes: seq<Byte>): (x: int) {
    var x := FromLittleEndian(bytes);
    if 2 * x < Range(|bytes|) then x else x - Range(|bytes|)
  }

  /** Bytes that may follow `prior` when an operation brings `payload`: numbers are little-endian, and
  sums are taken modulo the width. */
  predicate Computes(op: AtomicOp, compare: Option<seq<Byte>>, prior: seq<Byte>, payload: seq<Byte>, bytes: seq<Byte>) {
    && |bytes| == |prior| == |payload|
    && match op
       case Swap => bytes == payload
       case CompareSwap => bytes == if compare == Some(prior) then payload else prior
       case Add => FromLittleEndian(bytes) == (FromLittleEndian(prior) + FromLittleEndian(payload)) % Range(|prior|)
       case BitXor => forall i :: 0 <= i < |bytes| ==> bytes[i] as bv8 == prior[i] as bv8 ^ payload[i] as bv8
       case BitOr => forall i :: 0 <= i < |bytes| ==> bytes[i] as bv8 == prior[i] as bv8 | payload[i] as bv8
       case BitAnd => forall i :: 0 <= i < |bytes| ==> bytes[i] as bv8 == prior[i] as bv8 & payload[i] as bv8
       case MinSigned => PicksLess(prior, TwosComplement(prior), payload, TwosComplement(payload), bytes)
       case MaxSigned => PicksMore(prior, TwosComplement(prior), payload, TwosComplement(payload), bytes)
       case MinUnsigned => PicksLess(prior, FromLittleEndian(prior), payload, FromLittleEndian(payload), bytes)
       case MaxUnsigned => PicksMore(prior, FromLittleEndian(prior), payload, FromLittleEndian(payload), bytes)
  }

  /** Of `a` worth `x` and `b` worth `y`, the bytes are one that is worth no more than the other. */
  predicate PicksLess(a: seq<Byte>, x: int, b: seq<Byte>, y: int, bytes: seq<Byte>) {
    (bytes == a || bytes == b) && (bytes == a ==> x <= y) && (bytes == b ==> y <= x)
  }

  predicate PicksMore(a: seq<Byte>, x: int, b: seq<Byte>, y: int, bytes: seq<Byte>) {
    (bytes == a || bytes == b) && (bytes == a ==> x >= y) && (bytes == b ==> y >= x)
  }

  lemma {:induction false} LittleBelowRange(bytes: seq<Byte>)
    ensures FromLittleEndian(bytes) < Range(|bytes|)
  {
    if bytes != [] {
      LittleBelowRange(bytes[1..]);
    }
  }

  lemma {:induction false} AllOnes(n: nat)
    ensures FromLittleEndian(seq(n, _ => 255)) == Range(n) - 1
  {
    if n > 0 {
      var ones: seq<Byte> := seq(n, _ => 255);
      AllOnes(n - 1);
      assert ones[1..] == seq(n - 1, _ => 255);
    }
  }

  lemma {:induction false} ToLittleIsModulo(x: nat, width: nat)
    ensures FromLittleEndian(ToLittleEndian(x, width)) == x % Range(width)
  {
    if width > 0 {
      ToLittleIsModulo(x / 256, width - 1);
      assert ToLittleEndian(x, width)[1..] == ToLittleEndian(x / 256, width - 1);
      DigitModulo(x, Range(width - 1));
    }
  }

  lemma DigitModulo(x: nat, m: nat)
    requires m > 0
    ensures x % (256 * m) == x % 256 + 256 * ((x / 256) % m)
  {
    var q, r := x / 256, (x / 256) % m;
    var d := q / m;
    assert q == d * m + r;
    assert 256 * (d * m) == d * (256 * m);
    ModUnique(x, 256 * m, d, x % 256 + 256 * r);
  }

  lemma SignedIsTwosComplement(bytes: seq<Byte>)
    requires bytes != []
    ensures SignedValue(bytes) == TwosComplement(bytes)
  {
    var n := |bytes| - 1;
    var low, top := bytes[..n], bytes[n];
    assert low + [top] == bytes;
    LittlePlaceValue(low, top);
    LittleBelowRange(low);
    AllOnes(|bytes|);
    TopBit(FromLittleEndian(low), top, Range(n));
  }

  lemma TopBit(low: nat, top: nat, range: nat)
    requires low < range && top < 256
    ensures 2 * (low + top * range) < 256 * range <==> top < 128
  {
    if top < 128 {
      MulAtMost(top, 127, range);
    } else {
      MulAtMost(128, top, range);
    }
  }

  lemma {:induction false} CombineIs(op: AtomicOp, a: seq<Byte>, b: seq<Byte>, i: nat)
    requires |a| == |b| && i < |a|
    ensures Combine(op, a, b)[i] == CombineBytes(op, a[i], b[i])
  {
    if i > 0 {
      CombineIs(op, a[1..], b[1..], i - 1);
    }
  }

  lemma CombinesBits(op: AtomicOp, a: Byte, b: Byte)
    ensures op.BitXor? ==> CombineBytes(op, a, b) as bv8 == a as bv8 ^ b as bv8
    ensures op.BitOr? ==> CombineBytes(op, a, b) as bv8 == a as bv8 | b as bv8
    ensures op.BitAnd? ==> CombineBytes(op, a, b) as bv8 == a as bv8 & b as bv8
  {
  }

  lemma AddComputes(prior: seq<Byte>, payload: seq<Byte>)
    requires prior != [] && |prior| == |payload|
    ensures Computes(Add, None, prior, payload, Arithmetic(Add, prior, payload))
  {
    ToLittleIsModulo(FromLittleEndian(prior) + FromLittleEndian(payload), |prior|);
  }

  lemma BitsCompute(op: AtomicOp, prior: seq<Byte>, payload: seq<Byte>, bytes: seq<Byte>)
    requires |prior| == |payload| && bytes == Combine(op, prior, payload) && (op.BitXor? || op.BitOr? || op.BitAnd?)
    ensures Computes(op, None, prior, payload, bytes)
  {
    forall i | 0 <= i < |bytes|
      ensures op.BitXor? ==> bytes[i] as bv8 == prior[i] as bv8 ^ payload[i] as bv8
      ensures op.BitOr? ==> bytes[i] as bv8 == prior[i] as bv8 | payload[i] as bv8
      ensures op.BitAnd? ==> bytes[i] as bv8 == prior[i] as bv8 & payload[i] as bv8
    {
      CombineIs(op, prior, payload, i);
      CombinesBits(op, prior[i], payload[i]);
    }
  }

  lemma ExtremesCompute(op: AtomicOp, prior: seq<Byte>, payload: seq<Byte>, bytes: seq<Byte>)
    requires prior != [] && |prior| == |payload| && bytes == Arithmetic(op, prior, payload)
    requires op.MinSigned? || op.MaxSigned? || op.MinUnsigned? || op.MaxUnsigned?
    ensures Computes(op, None, prior, payload, bytes)
  {
    SignedIsTwosComplement(prior);
    SignedIsTwosComplement(payload);
  }

  lemma ArithmeticComputes(op: AtomicOp, prior: seq<Byte>, payload: seq<Byte>)
    requires prior != [] && |prior| == |payload| && !op.Swap? && !op.CompareSwap?
    ensures Computes(op, None, prior, payload, Arithmetic(op, prior, payload))
  {
    if op.Add? {
      AddComputes(prior, payload);
    } else if op.BitXor? || op.BitOr? || op.BitAnd? {
      BitsCompute(op, prior, payload, Arithmetic(op, prior, payload));
    } else {
      ExtremesCompute(op, prior, payload, Arithmetic(op, prior, payload));
    }
  }

  /** An atomic request is refused exactly for the widths it does not support, and otherwise stores
  what its operation computes. */
  lemma AtomicDataComputes(r: Request, prior: seq<Byte>)
    requires r.WellFormed() && r.operation.IsAtomic() && |prior| == r.size
    ensures AtomicData(r, prior).Ok? <==>
      match r.atomicOp.value
      case Swap => true
      case CompareSwap => r.size == 4 || r.size == 8
      case _ => r.size == 1 || r.size == 2 || r.size == 4 || r.size == 8
    ensures AtomicData(r, prior).Ok? ==>
      Computes(r.atomicOp.value, r.compare, prior, r.data.value, AtomicData(r, prior).value)
  {
    var op := r.atomicOp.value;
    if !op.Swap? && !op.CompareSwap? {
      ArithmeticComputes(op, prior, r.data.value);
    }
  }

  // ----- reservation granules

  /** A granule is the aligned 16 bytes around the first byte of the access. */
  lemma GranuleIs(r: Request)
    ensures r.Granule() % 16 == 0 && r.Granule() <= r.address < r.Granule() + 16
  {
    LineAligned(r.address, 16);
  }

  /** An access overlaps a granule when they have a byte in common. */
  lemma OverlapIs(r: Request, g: nat)
    requires r.WellFormed()
    ensures r.OverlapsGranule(g) <==> exists a: nat :: Touches(r, a) && g <= a < g + 16
  {
    if r.OverlapsGranule(g) {
      assert Touches(r, Max(r.address, g));
    }
  }

  predicate Touches(r: Request, a: nat) {
    r.address <= a < r.address + r.size
  }
}
