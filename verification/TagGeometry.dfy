/** The address geometry of the compressed tags: lines, superblocks and candidate sets. */
module TagGeometry {
  import opened Common
  import Indexing
  import opened CompressedTags

  function SuperblockBase(lineBytes: nat, ratio: nat, a: nat): (base: nat)
    requires lineBytes > 0 && ratio > 0
  {
    MulAtLeast(ratio, lineBytes);
    LineOf(a, lineBytes * ratio)
  }

  function SuperblockOffset(lineBytes: nat, ratio: nat, a: nat): (offset: int)
    requires lineBytes > 0 && ratio > 0
  {
    (LineOf(a, lineBytes) - SuperblockBase(lineBytes, ratio, a)) / lineBytes
  }

  /** The block number `a / lineBytes` carries everything. */
  lemma AddressParts(lineBytes: nat, ratio: nat, a: nat)
    requires lineBytes > 0 && ratio > 0
    ensures
      var q := a / lineBytes;
      && LineOf(a, lineBytes) == q * lineBytes
      && SuperblockBase(lineBytes, ratio, a) == (q / ratio * ratio) * lineBytes
      && SuperblockOffset(lineBytes, ratio, a) == q % ratio
  {
    var q := a / lineBytes;
    var r, big := q / ratio, lineBytes * ratio;
    var rest := (q % ratio) * lineBytes + a % lineBytes;
    BlockWithin(q % ratio, ratio, lineBytes, a % lineBytes);
    assert a == q * lineBytes + a % lineBytes;
    Regroup(q, r, ratio, lineBytes);
    ModUnique(a, big, r, rest);
    assert LineOf(a, lineBytes) == q * lineBytes;
    assert SuperblockBase(lineBytes, ratio, a) == a - rest == r * big;
    assert LineOf(a, lineBytes) - SuperblockBase(lineBytes, ratio, a) == (q % ratio) * lineBytes;
    MultipleMod(q % ratio, lineBytes);
  }

  lemma BlockWithin(o: nat, ratio: nat, lineBytes: nat, x: nat)
    requires o < ratio && x < lineBytes
    ensures o * lineBytes + x < lineBytes * ratio
  {
    assert (o + 1) * lineBytes <= ratio * lineBytes;
    assert (o + 1) * lineBytes == o * lineBytes + lineBytes;
  }

  lemma Regroup(q: nat, r: nat, ratio: nat, lineBytes: nat)
    requires ratio > 0 && r == q / ratio
    ensures q * lineBytes == r * (lineBytes * ratio) + (q % ratio) * lineBytes
    ensures r * (lineBytes * ratio) == (r * ratio) * lineBytes
  {
    assert q == r * ratio + q % ratio;
    assert q * lineBytes == (r * ratio) * lineBytes + (q % ratio) * lineBytes;
    assert r * (lineBytes * ratio) == (r * ratio) * lineBytes;
  }

  lemma OffsetBelow(lineBytes: nat, ratio: nat, a: nat)
    requires lineBytes > 0 && ratio > 0
    ensures 0 <= SuperblockOffset(lineBytes, ratio, a) < ratio
  {
    AddressParts(lineBytes, ratio, a);
  }

  function OffsetOf(lineBytes: nat, ratio: nat, a: nat): (offset: nat)
    requires lineBytes > 0 && ratio > 0
  {
    OffsetBelow(lineBytes, ratio, a);
    SuperblockOffset(lineBytes, ratio, a)
  }

  /** The tags over a line size, a compression ratio and an indexing policy for superblocks. */
  function TagConfig(lineBytes: nat, ratio: nat, indexing: Indexing.Config): (c: Config)
    requires lineBytes > 0 && ratio > 0 && Indexing.Valid(indexing)
  {
    Config(lineBytes, ratio, indexing.sets, indexing.ways,
           (a: nat) => LineOf(a, lineBytes),
           (a: nat) => SuperblockBase(lineBytes, ratio, a),
           (a: nat) => OffsetOf(lineBytes, ratio, a),
           (base: nat, way: nat) => Indexing.SetFor(indexing, Indexing.FromNat(64, base), way))
  }

  /** The number of a block, seen from its line. */
  lemma LineKeepsParts(lineBytes: nat, ratio: nat, a: nat)
    requires lineBytes > 0 && ratio > 0
    ensures
      var line := LineOf(a, lineBytes);
      && LineOf(line, lineBytes) == line
      && SuperblockBase(lineBytes, ratio, line) == SuperblockBase(lineBytes, ratio, a)
      && OffsetOf(lineBytes, ratio, line) == OffsetOf(lineBytes, ratio, a)
  {
    AddressParts(lineBytes, ratio, a);
    MultipleMod(a / lineBytes, lineBytes);
    AddressParts(lineBytes, ratio, LineOf(a, lineBytes));
  }

  lemma BaseKeepsBase(lineBytes: nat, ratio: nat, a: nat)
    requires lineBytes > 0 && ratio > 0
    ensures
      var base := SuperblockBase(lineBytes, ratio, a);
      SuperblockBase(lineBytes, ratio, base) == base
  {
    var r := a / lineBytes / ratio;
    var base := SuperblockBase(lineBytes, ratio, a);
    AddressParts(lineBytes, ratio, a);
    AddressParts(lineBytes, ratio, base);
    MultipleMod(r * ratio, lineBytes);
    MultipleMod(r, ratio);
  }

  lemma PartsTell(lineBytes: nat, ratio: nat, x: nat, y: nat)
    requires lineBytes > 0 && ratio > 0
    requires SuperblockBase(lineBytes, ratio, x) == SuperblockBase(lineBytes, ratio, y)
    requires OffsetOf(lineBytes, ratio, x) == OffsetOf(lineBytes, ratio, y)
    ensures LineOf(x, lineBytes) == LineOf(y, lineBytes)
  {
    AddressParts(lineBytes, ratio, x);
    AddressParts(lineBytes, ratio, y);
    var qx, qy := x / lineBytes, y / lineBytes;
    MultipleMod(qx / ratio * ratio, lineBytes);
    MultipleMod(qy / ratio * ratio, lineBytes);
    assert qx == qx / ratio * ratio + qx % ratio && qy == qy / ratio * ratio + qy % ratio;
  }

  /** Cutting addresses by line size and superblock size gives lines that their superblock and
  offset tell apart, and candidate sets within range. */
  lemma TagConfigValid(lineBytes: nat, ratio: nat, indexing: Indexing.Config)
    requires lineBytes >= 4 && IsPow2(ratio) && ratio <= USIZE_MAX && Indexing.Valid(indexing)
    ensures ValidConfig(TagConfig(lineBytes, ratio, indexing))
  {
    var c := TagConfig(lineBytes, ratio, indexing);
    forall a
      ensures c.offsetOf(a) < c.ratio
      ensures c.lineOf(c.lineOf(a)) == c.lineOf(a) && c.baseOf(c.lineOf(a)) == c.baseOf(a)
        && c.offsetOf(c.lineOf(a)) == c.offsetOf(a)
      ensures c.baseOf(c.baseOf(a)) == c.baseOf(a)
    {
      OffsetBelow(lineBytes, ratio, a);
      LineKeepsParts(lineBytes, ratio, a);
      BaseKeepsBase(lineBytes, ratio, a);
    }
    forall x, y | c.baseOf(x) == c.baseOf(y) && c.offsetOf(x) == c.offsetOf(y)
      ensures c.lineOf(x) == c.lineOf(y)
    {
      PartsTell(lineBytes, ratio, x, y);
    }
  }
}
