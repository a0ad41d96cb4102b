/** Boot images: segments added in any order, and loaded line by line into a line memory store. */
module Image {
  import opened Common
  import opened Memory

  const TWO64: nat := U64_MAX + 1

  datatype Segment = Segment(start: nat, data: seq<Byte>)

  function End(s: Segment): (end: nat) {
    s.start + |s.data|
  }

  datatype BootError =
    | EmptySegment
    | AddressOverflow
    | OverlappingSegment(existing: Segment, requested: Segment)

  predicate Loadable(s: Segment) {
    s.data != [] && End(s) <= U64_MAX
  }

  function NewSegment(start: nat, data: seq<Byte>): (r: Result<Segment, BootError>) {
    if data == [] then Err(EmptySegment)
    else if start + |data| > U64_MAX then Err(BootError.AddressOverflow)
    else Ok(Segment(start, data))
  }

  predicate Overlaps(a: Segment, b: Segment) {
    a.start < End(b) && b.start < End(a)
  }

  // ----- adding segments

  predicate Sorted(segments: seq<Segment>) {
    forall i, j :: 0 <= i < j < |segments| ==> segments[i].start <= segments[j].start
  }

  /** Sorting a list whose last element alone may be out of place, keeping ties in order. */
  function Placed(segments: seq<Segment>, s: Segment): (placed: seq<Segment>)
    ensures multiset(placed) == multiset(segments) + multiset{s}
  {
    if segments != [] && segments[|segments| - 1].start > s.start then
      var last := |segments| - 1;
      assert segments == segments[..last] + [segments[last]];
      Placed(segments[..last], s) + [segments[last]]
    else
      segments + [s]
  }

  /** Index of the first segment that overlaps `s`, or the number of segments. */
  function FindOverlap(segments: seq<Segment>, s: Segment): (i: nat)
    ensures i <= |segments|
    ensures i < |segments| ==> Overlaps(segments[i], s)
    ensures forall k :: 0 <= k < i ==> !Overlaps(segments[k], s)
  {
    if segments == [] || Overlaps(segments[0], s) then 0 else 1 + FindOverlap(segments[1..], s)
  }

  /** `add_segment`. */
  function AddSegment(segments: seq<Segment>, start: nat, data: seq<Byte>): (r: Result<seq<Segment>, BootError>) {
    match NewSegment(start, data)
    case Err(e) => Err(e)
    case Ok(s) =>
      var i := FindOverlap(segments, s);
      if i < |segments| then Err(OverlappingSegment(segments[i], s)) else Ok(Placed(segments, s))
  }

  /** Adding a whole list, stopping at the first refusal. */
  function AddAll(list: seq<Segment>): (r: Result<seq<Segment>, BootError>) {
    if list == [] then Ok([])
    else
      var last := list[|list| - 1];
      match AddAll(list[..|list| - 1])
      case Err(e) => Err(e)
      case Ok(segments) => AddSegment(segments, last.start, last.data)
  }

  /** Segments that can share an image: loadable, and no two of them overlap. */
  ghost predicate Compatible(segments: multiset<Segment>) {
    && (forall s :: s in segments ==> Loadable(s) && segments[s] == 1)
    && (forall s, t :: s in segments && t in segments && s != t ==> !Overlaps(s, t))
  }

  lemma PlacedMembers(segments: seq<Segment>, s: Segment, x: Segment)
    requires x in Placed(segments, s)
    ensures x in segments || x == s
  {
    assert x in multiset(Placed(segments, s));
  }

  lemma SortedAppend(segments: seq<Segment>, t: Segment)
    requires Sorted(segments) && forall x :: x in segments ==> x.start <= t.start
    ensures Sorted(segments + [t])
  {
  }

  lemma {:induction false} PlacedSorted(segments: seq<Segment>, s: Segment)
    requires Sorted(segments)
    ensures Sorted(Placed(segments, s))
  {
    if segments != [] && segments[|segments| - 1].start > s.start {
      var last := |segments| - 1;
      var front := segments[..last];
      PlacedSorted(front, s);
      forall x | x in Placed(front, s)
        ensures x.start <= segments[last].start
      {
        PlacedMembers(front, s, x);
      }
      SortedAppend(Placed(front, s), segments[last]);
    } else {
      SortedAppend(segments, s);
    }
  }

  lemma PlacedCompatible(segments: seq<Segment>, s: Segment)
    requires Compatible(multiset(segments))
    ensures Compatible(multiset(segments) + multiset{s}) <==> Loadable(s) && FindOverlap(segments, s) == |segments|
  {
    var m, all := multiset(segments), multiset(segments) + multiset{s};
    var i := FindOverlap(segments, s);
    if Compatible(all) {
      assert s in all;
      assert forall k :: 0 <= k < |segments| ==> segments[k] in m && segments[k] != s && !Overlaps(segments[k], s);
    }
    if Loadable(s) && i == |segments| {
      assert Overlaps(s, s);
      forall t | t in m
        ensures !Overlaps(t, s) && t != s
      {
        assert t in segments;
      }
    }
  }

  /** A list of segments is accepted exactly when the segments are compatible, and the image then
  holds them sorted. */
  lemma {:induction false} AddAllAccepts(list: seq<Segment>)
    ensures AddAll(list).Ok? <==> Compatible(multiset(list))
    ensures AddAll(list).Ok? ==> Sorted(AddAll(list).value) && multiset(AddAll(list).value) == multiset(list)
  {
    if list != [] {
      var n := |list| - 1;
      var front, last := list[..n], list[n];
      assert list == front + [last];
      AddAllAccepts(front);
      if AddAll(front).Ok? {
        PlacedCompatible(AddAll(front).value, last);
        PlacedSorted(AddAll(front).value, last);
      } else if Compatible(multiset(list)) {
        FewerCompatible(multiset(front), last);
      }
    }
  }

  lemma FewerCompatible(m: multiset<Segment>, s: Segment)
    requires Compatible(m + multiset{s})
    ensures Compatible(m)
  {
    forall t | t in m
      ensures Loadable(t) && m[t] == 1
    {
      assert t in m + multiset{s};
    }
    forall t, u | t in m && u in m && t != u
      ensures !Overlaps(t, u)
    {
      assert t in m + multiset{s} && u in m + multiset{s};
    }
  }

  lemma HeadIsLeast(segments: seq<Segment>, s: Segment)
    requires segments != [] && Sorted(segments) && s in segments
    ensures segments[0].start <= s.start
  {
  }

  lemma SameHead(a: seq<Segment>, b: seq<Segment>)
    requires a != [] && b != [] && Sorted(a) && Sorted(b) && multiset(a) == multiset(b) && Compatible(multiset(a))
    ensures a[0] == b[0]
  {
    assert a[0] in multiset(a) && b[0] in multiset(b);
    HeadIsLeast(a, b[0]);
    HeadIsLeast(b, a[0]);
    assert Overlaps(a[0], b[0]);
  }

  lemma TailsMatch(a: seq<Segment>, b: seq<Segment>)
    requires a != [] && b != [] && a[0] == b[0] && multiset(a) == multiset(b)
    ensures multiset(a[1..]) == multiset(b[1..])
  {
    assert a == [a[0]] + a[1..] && b == [a[0]] + b[1..];
    assert multiset(a[1..]) == multiset(a) - multiset{a[0]} && multiset(b[1..]) == multiset(b) - multiset{a[0]};
  }

  lemma TailCompatible(a: seq<Segment>)
    requires a != [] && Sorted(a) && Compatible(multiset(a))
    ensures Sorted(a[1..]) && Compatible(multiset(a[1..]))
  {
    assert a == [a[0]] + a[1..];
    assert multiset(a) == multiset(a[1..]) + multiset{a[0]};
    FewerCompatible(multiset(a[1..]), a[0]);
  }

  lemma SameLength(a: seq<Segment>, b: seq<Segment>)
    requires multiset(a) == multiset(b)
    ensures |a| == |b|
  {
    assert |multiset(a)| == |multiset(b)|;
  }

  lemma {:induction false} SortedUnique(a: seq<Segment>, b: seq<Segment>)
    requires Sorted(a) && Sorted(b) && multiset(a) == multiset(b) && Compatible(multiset(a))
    ensures a == b
  {
    SameLength(a, b);
    if a != [] {
      SameHead(a, b);
      TailCompatible(a);
      TailCompatible(b);
      TailsMatch(a, b);
      SortedUnique(a[1..], b[1..]);
      assert a == [a[0]] + a[1..];
    }
  }

  /** The order of the additions does not matter: rearranged, they are all refused together or
  give the same image. */
  lemma AddOrderIrrelevant(list: seq<Segment>, list': seq<Segment>)
    requires multiset(list) == multiset(list')
    ensures AddAll(list).Ok? <==> AddAll(list').Ok?
    ensures AddAll(list).Ok? ==> AddAll(list) == AddAll(list')
  {
    AddAllAccepts(list);
    AddAllAccepts(list');
    if AddAll(list).Ok? {
      SortedUnique(AddAll(list).value, AddAll(list').value);
    }
  }

  /** The segment holds the byte at an address. */
  predicate Covers(s: Segment, a: nat) {
    s.start <= a < End(s)
  }

  ghost predicate Shares(a: Segment, b: Segment) {
    exists x: nat :: Covers(a, x) && Covers(b, x)
  }

  /** Segments overlap exactly when some address lies in both. */
  lemma OverlapsIffShared(a: Segment, b: Segment)
    requires a.data != [] && b.data != []
    ensures Overlaps(a, b) <==> Shares(a, b)
  {
    if Overlaps(a, b) {
      var x := if a.start < b.start then b.start else a.start;
      assert Covers(a, x) && Covers(b, x);
    }
  }

  ghost predicate FirstShared(segments: seq<Segment>, existing: Segment, s: Segment) {
    exists i :: 0 <= i < |segments| && segments[i] == existing && Shares(existing, s)
      && forall k :: 0 <= k < i ==> !Shares(segments[k], s)
  }

  /** A segment is refused when it is empty, when it runs past the address space, or when it shares an
  address with a segment of the image, of which the first is named; and otherwise taken. */
  lemma RefusalNames(segments: seq<Segment>, start: nat, data: seq<Byte>)
    requires forall i :: 0 <= i < |segments| ==> Loadable(segments[i])
    ensures
      match AddSegment(segments, start, data)
      case Err(EmptySegment) => data == []
      case Err(AddressOverflow) => data != [] && start + |data| >= 0x1_0000_0000_0000_0000
      case Err(OverlappingSegment(existing, requested)) =>
        requested == Segment(start, data) && FirstShared(segments, existing, requested)
      case Ok(_) =>
        && 0 < |data| < 0x1_0000_0000_0000_0000 - start
        && forall i :: 0 <= i < |segments| ==> !Shares(segments[i], Segment(start, data))
  {
    if Loadable(Segment(start, data)) {
      forall i | 0 <= i < |segments|
        ensures Overlaps(segments[i], Segment(start, data)) <==> Shares(segments[i], Segment(start, data))
      {
        OverlapsIffShared(segments[i], Segment(start, data));
      }
    }
  }

  // ----- loading, line by line

  type Lines = map<nat, seq<Byte>>

  /** Line sizes are powers of two, so they divide the address space, and fit a vector. */
  predicate ValidLayout(lineBytes: nat) {
    0 < lineBytes <= ISIZE_MAX && TWO64 % lineBytes == 0
  }

  predicate ValidStore(lines: Lines, lineBytes: nat)
    requires lineBytes > 0
  {
    forall line :: line in lines ==> |lines[line]| == lineBytes && line % lineBytes == 0
  }

  /** The line's bytes, zero where nothing was stored. */
  function LineData(lines: Lines, lineBytes: nat, line: nat): (data: seq<Byte>) {
    if line in lines then lines[line] else seq(lineBytes, _ => 0)
  }

  /** The byte a store holds at an address. */
  function ByteAt(lines: Lines, lineBytes: nat, a: nat): (value: Byte)
    requires lineBytes > 0 && ValidStore(lines, lineBytes)
  {
    LineData(lines, lineBytes, LineOf(a, lineBytes))[a % lineBytes]
  }

  datatype LineWrite = LineWrite(line: nat, offset: nat, bytes: nat)

  /** The store after the writes, the writes reported, and whether every line could be stored: the
  last line of the address space cannot, its end being out of range. */
  datatype Loading = Loading(lines: Lines, writes: seq<LineWrite>, complete: bool)

  function ChunkSize(lineBytes: nat, cursor: nat, remaining: nat): (bytes: nat)
    requires lineBytes > 0
    ensures bytes <= remaining && cursor % lineBytes + bytes <= lineBytes
    ensures remaining > 0 ==> bytes > 0
  {
    Min(lineBytes - cursor % lineBytes, remaining)
  }

  /** The store with the bytes written into the cursor's line. */
  function StoreChunk(lines: Lines, lineBytes: nat, cursor: nat, bytes: seq<Byte>): (lines': Lines)
    requires lineBytes > 0 && ValidStore(lines, lineBytes) && cursor % lineBytes + |bytes| <= lineBytes
    ensures ValidStore(lines', lineBytes)
  {
    LineAligned(cursor, lineBytes);
    var line := LineOf(cursor, lineBytes);
    lines[line := Stored(LineData(lines, lineBytes, line), cursor % lineBytes, bytes, None)]
  }

  /** The cursor's line cannot be stored: its end is out of range. */
  predicate Blocked(lineBytes: nat, cursor: nat)
    requires lineBytes > 0
  {
    LineOf(cursor, lineBytes) + lineBytes > U64_MAX
  }

  // `load_segment` with the first `done` bytes of the segment already loaded: the store it leaves,
  // the writes it reports, and whether it gets to the end.

  function StoredFrom(lines: Lines, lineBytes: nat, s: Segment, done: nat): (lines': Lines)
    requires lineBytes > 0 && ValidStore(lines, lineBytes) && done <= |s.data|
    ensures ValidStore(lines', lineBytes)
    decreases |s.data| - done
  {
    if done == |s.data| || Blocked(lineBytes, s.start + done) then lines
    else
      var n := ChunkSize(lineBytes, s.start + done, |s.data| - done);
      StoredFrom(StoreChunk(lines, lineBytes, s.start + done, s.data[done..done + n]), lineBytes, s, done + n)
  }

  function WritesFrom(lineBytes: nat, s: Segment, done: nat): (writes: seq<LineWrite>)
    requires lineBytes > 0 && done <= |s.data|
    decreases |s.data| - done
  {
    if done == |s.data| || Blocked(lineBytes, s.start + done) then []
    else
      var w := ChunkWrite(lineBytes, s.start + done, |s.data| - done);
      [w] + WritesFrom(lineBytes, s, done + w.bytes)
  }

  predicate CompleteFrom(lineBytes: nat, s: Segment, done: nat)
    requires lineBytes > 0 && done <= |s.data|
    decreases |s.data| - done
  {
    done == |s.data|
    || (!Blocked(lineBytes, s.start + done)
        && CompleteFrom(lineBytes, s, done + ChunkSize(lineBytes, s.start + done, |s.data| - done)))
  }

  function ChunkWrite(lineBytes: nat, cursor: nat, remaining: nat): (w: LineWrite)
    requires lineBytes > 0
  {
    LineWrite(LineOf(cursor, lineBytes), cursor % lineBytes, ChunkSize(lineBytes, cursor, remaining))
  }

  function LoadOne(lines: Lines, lineBytes: nat, s: Segment): (r: Loading)
    requires lineBytes > 0 && ValidStore(lines, lineBytes)
    ensures ValidStore(r.lines, lineBytes)
  {
    Loading(StoredFrom(lines, lineBytes, s, 0), WritesFrom(lineBytes, s, 0), CompleteFrom(lineBytes, s, 0))
  }

  /** What is loaded after the writes so far. */
  function After(writes: seq<LineWrite>, r: Loading): (r': Loading) {
    r.(writes := writes + r.writes)
  }

  /** Addresses of one line: the address is the line plus the offset. */
  lemma SameLine(a: nat, b: nat, lineBytes: nat)
    requires lineBytes > 0 && LineOf(a, lineBytes) <= b < LineOf(a, lineBytes) + lineBytes
    ensures LineOf(b, lineBytes) == LineOf(a, lineBytes) && b % lineBytes == b - LineOf(a, lineBytes)
  {
    ModUnique(b, lineBytes, a / lineBytes, b - LineOf(a, lineBytes));
  }

  /** One line written: the bytes of the chunk, and no other, change. */
  lemma ChunkWritten(lines: Lines, lineBytes: nat, cursor: nat, bytes: seq<Byte>, a: nat)
    requires lineBytes > 0 && ValidStore(lines, lineBytes) && cursor % lineBytes + |bytes| <= lineBytes
    ensures ByteAt(StoreChunk(lines, lineBytes, cursor, bytes), lineBytes, a)
         == if cursor <= a < cursor + |bytes| then bytes[a - cursor] else ByteAt(lines, lineBytes, a)
  {
    if cursor <= a < cursor + |bytes| {
      SameLine(cursor, a, lineBytes);
    }
  }

  /** The first address of the line that cannot be stored. */
  function TopLine(lineBytes: nat): (top: nat)
    requires ValidLayout(lineBytes)
  {
    TWO64 - lineBytes
  }

  /** A line below the last one ends at or below it. */
  lemma BelowTop(a: nat, lineBytes: nat)
    requires ValidLayout(lineBytes)
    ensures LineOf(a, lineBytes) + lineBytes > U64_MAX <==> a >= TopLine(lineBytes)
    ensures a < TopLine(lineBytes) ==> LineOf(a, lineBytes) + lineBytes <= TopLine(lineBytes)
  {
    TopArithmetic(a / lineBytes, TWO64 / lineBytes, lineBytes, LineOf(a, lineBytes), TWO64, a);
  }

  lemma TopArithmetic(q: nat, t: nat, m: nat, line: nat, total: nat, a: nat)
    requires m > 0 && line == q * m && total == t * m && line <= a < line + m
    ensures line + m >= total <==> a >= total - m
    ensures a < total - m ==> line + m <= total - m
  {
    if q + 1 < t {
      MulAtMost(q + 2, t, m);
      assert (q + 2) * m == line + 2 * m;
    } else {
      MulAtMost(t, q + 1, m);
      assert (q + 1) * m == line + m;
    }
  }

  lemma AfterNone(r: Loading)
    ensures After([], r) == r
  {
    assert [] + r.writes == r.writes;
  }

  lemma AfterMore(writes: seq<LineWrite>, part: seq<LineWrite>, r: Loading)
    ensures After(writes + part, r) == After(writes, After(part, r))
  {
    assert (writes + part) + r.writes == writes + (part + r.writes);
  }

  lemma ChunkBelowTop(lineBytes: nat, cursor: nat, remaining: nat)
    requires ValidLayout(lineBytes)
    ensures Blocked(lineBytes, cursor) <==> cursor >= TopLine(lineBytes)
    ensures cursor < TopLine(lineBytes) ==> cursor + ChunkSize(lineBytes, cursor, remaining) <= TopLine(lineBytes)
  {
    BelowTop(cursor, lineBytes);
  }

  /** A load is complete exactly when it stays below the last line of the address space. */
  lemma {:induction false} CompleteFromIs(lineBytes: nat, s: Segment, done: nat)
    requires ValidLayout(lineBytes) && done <= |s.data|
    ensures CompleteFrom(lineBytes, s, done) <==> done == |s.data| || End(s) <= TopLine(lineBytes)
    decreases |s.data| - done
  {
    if done < |s.data| {
      var cursor := s.start + done;
      ChunkBelowTop(lineBytes, cursor, |s.data| - done);
      if cursor < TopLine(lineBytes) {
        CompleteFromIs(lineBytes, s, done + ChunkSize(lineBytes, cursor, |s.data| - done));
      }
    }
  }

  /** Byte `a` of a store once the segment's bytes from `done` on are written, up to `top`. */
  function Patched(prior: Byte, s: Segment, done: nat, top: nat, a: nat): (value: Byte) {
    if s.start + done <= a < End(s) && a < top then s.data[a - s.start] else prior
  }

  lemma PatchedTurn(prior: Byte, after: Byte, s: Segment, done: nat, n: nat, top: nat, a: nat)
    requires done + n <= |s.data| && s.start + done + n <= top
    requires after == if s.start + done <= a < s.start + done + n then s.data[a - s.start] else prior
    ensures Patched(after, s, done + n, top, a) == Patched(prior, s, done, top, a)
  {
  }

  lemma ChunkStored(lines: Lines, lineBytes: nat, s: Segment, done: nat, n: nat, a: nat)
    requires lineBytes > 0 && ValidStore(lines, lineBytes) && done + n <= |s.data|
      && (s.start + done) % lineBytes + n <= lineBytes
    ensures ByteAt(StoreChunk(lines, lineBytes, s.start + done, s.data[done..done + n]), lineBytes, a)
         == if s.start + done <= a < s.start + done + n then s.data[a - s.start] else ByteAt(lines, lineBytes, a)
  {
    var bytes := s.data[done..done + n];
    assert forall k :: 0 <= k < n ==> bytes[k] == s.data[done + k];
    ChunkWritten(lines, lineBytes, s.start + done, bytes, a);
  }

  lemma StoredNext(lines: Lines, lineBytes: nat, s: Segment, done: nat, n: nat)
    requires lineBytes > 0 && ValidStore(lines, lineBytes) && done < |s.data| && !Blocked(lineBytes, s.start + done)
    requires n == ChunkSize(lineBytes, s.start + done, |s.data| - done)
    ensures StoredFrom(lines, lineBytes, s, done)
         == StoredFrom(StoreChunk(lines, lineBytes, s.start + done, s.data[done..done + n]), lineBytes, s, done + n)
  {
  }

  lemma ByteTurn(lines: Lines, lineBytes: nat, s: Segment, done: nat, n: nat, a: nat)
    requires ValidLayout(lineBytes) && ValidStore(lines, lineBytes) && done + n <= |s.data|
    requires (s.start + done) % lineBytes + n <= lineBytes && s.start + done + n <= TopLine(lineBytes)
    ensures
      var stored := StoreChunk(lines, lineBytes, s.start + done, s.data[done..done + n]);
      Patched(ByteAt(stored, lineBytes, a), s, done + n, TopLine(lineBytes), a)
      == Patched(ByteAt(lines, lineBytes, a), s, done, TopLine(lineBytes), a)
  {
    ChunkStored(lines, lineBytes, s, done, n, a);
    PatchedTurn(ByteAt(lines, lineBytes, a),
                ByteAt(StoreChunk(lines, lineBytes, s.start + done, s.data[done..done + n]), lineBytes, a),
                s, done, n, TopLine(lineBytes), a);
  }

  lemma StoredDone(lines: Lines, lineBytes: nat, s: Segment, done: nat)
    requires ValidLayout(lineBytes) && ValidStore(lines, lineBytes) && done <= |s.data|
    requires done == |s.data| || s.start + done >= TopLine(lineBytes)
    ensures StoredFrom(lines, lineBytes, s, done) == lines
  {
    if done < |s.data| {
      ChunkBelowTop(lineBytes, s.start + done, |s.data| - done);
    }
  }

  /** One chunk further: the rest of the load, and what it means for byte `a`. */
  lemma ChunkTurn(lines: Lines, lineBytes: nat, s: Segment, done: nat, a: nat) returns (n: nat, stored: Lines)
    requires ValidLayout(lineBytes) && ValidStore(lines, lineBytes) && done < |s.data|
      && s.start + done < TopLine(lineBytes)
    ensures 0 < n <= |s.data| - done && ValidStore(stored, lineBytes)
    ensures StoredFrom(lines, lineBytes, s, done) == StoredFrom(stored, lineBytes, s, done + n)
    ensures Patched(ByteAt(stored, lineBytes, a), s, done + n, TopLine(lineBytes), a)
         == Patched(ByteAt(lines, lineBytes, a), s, done, TopLine(lineBytes), a)
  {
    n := ChunkSize(lineBytes, s.start + done, |s.data| - done);
    stored := StoreChunk(lines, lineBytes, s.start + done, s.data[done..done + n]);
    ChunkBelowTop(lineBytes, s.start + done, |s.data| - done);
    StoredNext(lines, lineBytes, s, done, n);
    ByteTurn(lines, lineBytes, s, done, n, a);
  }

  /** Loading a segment is a flat write of its bytes, up to the last line of the address space. */
  lemma {:induction false} StoredIsFlatWrite(lines: Lines, lineBytes: nat, s: Segment, done: nat, a: nat, r: Lines)
    requires ValidLayout(lineBytes) && ValidStore(lines, lineBytes) && done <= |s.data|
      && r == StoredFrom(lines, lineBytes, s, done)
    ensures ByteAt(r, lineBytes, a) == Patched(ByteAt(lines, lineBytes, a), s, done, TopLine(lineBytes), a)
    decreases |s.data| - done
  {
    if done < |s.data| && s.start + done < TopLine(lineBytes) {
      var n, stored := ChunkTurn(lines, lineBytes, s, done, a);
      StoredIsFlatWrite(stored, lineBytes, s, done + n, a, r);
    } else {
      StoredDone(lines, lineBytes, s, done);
    }
  }

  /** One write at `start`, within one line, as long as the line and the end allow. */
  predicate Tile(w: LineWrite, start: nat, end: nat, lineBytes: nat)
    requires lineBytes > 0
  {
    && w.line == LineOf(start, lineBytes) && w.line + w.offset == start
    && 0 < w.bytes <= end - start
    && w.offset + w.bytes <= lineBytes
    && (w.offset + w.bytes == lineBytes || start + w.bytes == end)
  }

  /** The writes cover `[start, end)` left to right without gap or overlap. */
  predicate Tiles(writes: seq<LineWrite>, start: nat, end: nat, lineBytes: nat)
    requires lineBytes > 0
  {
    if writes == [] then start == end
    else Tile(writes[0], start, end, lineBytes) && Tiles(writes[1..], start + writes[0].bytes, end, lineBytes)
  }

  lemma ChunkIsTile(lineBytes: nat, cursor: nat, remaining: nat)
    requires lineBytes > 0 && remaining > 0
    ensures Tile(ChunkWrite(lineBytes, cursor, remaining), cursor, cursor + remaining, lineBytes)
  {
  }

  /** The writes of a complete load tile the segment exactly. */
  lemma {:induction false} WritesTile(lineBytes: nat, s: Segment, done: nat)
    requires lineBytes > 0 && done <= |s.data| && CompleteFrom(lineBytes, s, done)
    ensures Tiles(WritesFrom(lineBytes, s, done), s.start + done, End(s), lineBytes)
    decreases |s.data| - done
  {
    if done < |s.data| {
      var w := ChunkWrite(lineBytes, s.start + done, |s.data| - done);
      WritesTile(lineBytes, s, done + w.bytes);
      ChunkIsTile(lineBytes, s.start + done, |s.data| - done);
      TilesCons(w, WritesFrom(lineBytes, s, done + w.bytes), s.start + done, End(s), lineBytes);
    }
  }

  lemma TilesCons(w: LineWrite, writes: seq<LineWrite>, start: nat, end: nat, lineBytes: nat)
    requires lineBytes > 0 && Tile(w, start, end, lineBytes) && Tiles(writes, start + w.bytes, end, lineBytes)
    ensures Tiles([w] + writes, start, end, lineBytes)
  {
    assert ([w] + writes)[1..] == writes;
  }

  // ----- loading an image

  /** `load_into_line_store`. */
  function LoadImage(lines: Lines, lineBytes: nat, segments: seq<Segment>): (r: Loading)
    requires lineBytes > 0 && ValidStore(lines, lineBytes)
    ensures ValidStore(r.lines, lineBytes)
    decreases |segments|
  {
    if segments == [] then Loading(lines, [], true)
    else
      var first := LoadOne(lines, lineBytes, segments[0]);
      if !first.complete then first
      else
        var rest := LoadImage(first.lines, lineBytes, segments[1..]);
        After(first.writes, rest)
  }

  /** Every segment ends before the next one starts. */
  predicate LaidOut(segments: seq<Segment>) {
    && (forall i :: 0 <= i < |segments| ==> Loadable(segments[i]))
    && forall i, j :: 0 <= i < j < |segments| ==> End(segments[i]) <= segments[j].start
  }

  /** The byte that the segments put at an address, if any. */
  function Overlay(segments: seq<Segment>, a: nat): (value: Option<Byte>) {
    if segments == [] then None
    else if Covers(segments[0], a) then Some(segments[0].data[a - segments[0].start])
    else Overlay(segments[1..], a)
  }

  lemma {:induction false} OverlayFinds(segments: seq<Segment>, a: nat, i: nat)
    requires LaidOut(segments) && i < |segments| && Covers(segments[i], a)
    ensures Overlay(segments, a) == Some(segments[i].data[a - segments[i].start])
  {
    if i > 0 {
      assert !Covers(segments[0], a);
      OverlayFinds(segments[1..], a, i - 1);
    }
  }

  lemma {:induction false} OverlayMisses(segments: seq<Segment>, a: nat)
    requires forall i :: 0 <= i < |segments| ==> !Covers(segments[i], a)
    ensures Overlay(segments, a) == None
  {
    if segments != [] {
      OverlayMisses(segments[1..], a);
    }
  }

  /** No segment reaches the last line of the address space. */
  predicate BelowTopLine(segments: seq<Segment>, lineBytes: nat)
    requires ValidLayout(lineBytes)
  {
    forall s :: s in segments ==> End(s) <= TopLine(lineBytes)
  }

  lemma {:induction false} LoadImageCompletes(lines: Lines, lineBytes: nat, segments: seq<Segment>)
    requires ValidLayout(lineBytes) && ValidStore(lines, lineBytes) && LaidOut(segments)
    ensures LoadImage(lines, lineBytes, segments).complete <==> BelowTopLine(segments, lineBytes)
    decreases |segments|
  {
    if segments != [] {
      var s := segments[0];
      var first := LoadOne(lines, lineBytes, s);
      CompleteFromIs(lineBytes, s, 0);
      if first.complete {
        LoadImageCompletes(first.lines, lineBytes, segments[1..]);
        assert segments == [s] + segments[1..];
      } else {
        assert s in segments;
      }
    }
  }

  lemma RestIsLaidOut(segments: seq<Segment>)
    requires segments != [] && LaidOut(segments)
    ensures LaidOut(segments[1..])
    ensures forall i :: 0 <= i < |segments| - 1 ==> segments[1..][i].start >= End(segments[0])
  {
  }

  lemma {:induction false} LoadImageBytes(lines: Lines, lineBytes: nat, segments: seq<Segment>, a: nat)
    requires ValidLayout(lineBytes) && ValidStore(lines, lineBytes) && LaidOut(segments)
    ensures ByteAt(LoadImage(lines, lineBytes, segments).lines, lineBytes, a)
         == if a < TopLine(lineBytes) && Overlay(segments, a).Some? then Overlay(segments, a).value
            else ByteAt(lines, lineBytes, a)
    decreases |segments|
  {
    if segments != [] {
      var s, rest := segments[0], segments[1..];
      var first := LoadOne(lines, lineBytes, s);
      RestIsLaidOut(segments);
      CompleteFromIs(lineBytes, s, 0);
      StoredIsFlatWrite(lines, lineBytes, s, 0, a, first.lines);
      if Covers(s, a) || (!first.complete && a < TopLine(lineBytes)) {
        OverlayMisses(rest, a);
      }
      if first.complete {
        LoadImageBytes(first.lines, lineBytes, rest, a);
      }
    }
  }

  lemma CompatibleLaidOut(segments: seq<Segment>)
    requires Sorted(segments) && Compatible(multiset(segments))
    ensures LaidOut(segments)
  {
    forall i | 0 <= i < |segments|
      ensures Loadable(segments[i])
    {
      assert segments[i] in multiset(segments);
    }
    forall i, j | 0 <= i < j < |segments|
      ensures End(segments[i]) <= segments[j].start
    {
      DistinctAt(segments, i, j);
      assert segments[i] in multiset(segments) && segments[j] in multiset(segments);
    }
  }

  lemma DistinctAt(segments: seq<Segment>, i: nat, j: nat)
    requires i < j < |segments| && Compatible(multiset(segments))
    ensures segments[i] != segments[j]
  {
    var a, b := segments[..j], segments[j..];
    assert segments == a + b;
    assert a[i] in multiset(a) && b[0] in multiset(b);
    assert segments[i] in multiset(segments);
  }

  /** The image holds the segments added, laid out. */
  lemma ImageLaidOut(list: seq<Segment>)
    requires AddAll(list).Ok?
    ensures LaidOut(AddAll(list).value) && forall s :: s in list <==> s in AddAll(list).value
  {
    AddAllAccepts(list);
    CompatibleLaidOut(AddAll(list).value);
    SameMembers(list, AddAll(list).value);
  }

  /** Loading an image succeeds exactly when no segment reaches the last line of the address space. */
  lemma LoadingCompletes(list: seq<Segment>, lines: Lines, lineBytes: nat)
    requires ValidLayout(lineBytes) && ValidStore(lines, lineBytes) && AddAll(list).Ok?
    ensures LoadImage(lines, lineBytes, AddAll(list).value).complete <==> BelowTopLine(list, lineBytes)
  {
    ImageLaidOut(list);
    LoadImageCompletes(lines, lineBytes, AddAll(list).value);
  }

  /** Loading an image over any store is a flat write of its segments, whatever lines they share
  and whatever order they were added in. */
  lemma SegmentsLoaded(list: seq<Segment>, lines: Lines, lineBytes: nat, s: Segment, a: nat)
    requires ValidLayout(lineBytes) && ValidStore(lines, lineBytes) && AddAll(list).Ok?
    requires s in list && Covers(s, a) && a < TopLine(lineBytes)
    ensures ByteAt(LoadImage(lines, lineBytes, AddAll(list).value).lines, lineBytes, a) == s.data[a - s.start]
  {
    ImageLaidOut(list);
    OverlayHas(AddAll(list).value, s, a);
    LoadImageBytes(lines, lineBytes, AddAll(list).value, a);
  }

  lemma OverlayHas(segments: seq<Segment>, s: Segment, a: nat)
    requires LaidOut(segments) && s in segments && Covers(s, a)
    ensures Overlay(segments, a) == Some(s.data[a - s.start])
  {
    var i :| 0 <= i < |segments| && segments[i] == s;
    OverlayFinds(segments, a, i);
  }

  /** Everything outside the segments, and in the last line, keeps its value. */
  lemma OthersKept(list: seq<Segment>, lines: Lines, lineBytes: nat, a: nat)
    requires ValidLayout(lineBytes) && ValidStore(lines, lineBytes) && AddAll(list).Ok?
    requires a >= TopLine(lineBytes) || forall s :: s in list ==> !Covers(s, a)
    ensures ByteAt(LoadImage(lines, lineBytes, AddAll(list).value).lines, lineBytes, a) == ByteAt(lines, lineBytes, a)
  {
    ImageLaidOut(list);
    LoadImageBytes(lines, lineBytes, AddAll(list).value, a);
    if a < TopLine(lineBytes) {
      OverlayMisses(AddAll(list).value, a);
    }
  }

  lemma SameMembers(a: seq<Segment>, b: seq<Segment>)
    requires multiset(a) == multiset(b)
    ensures forall s :: s in a <==> s in b
  {
    forall s
      ensures s in a <==> s in b
    {
      assert s in a <==> s in multiset(a);
      assert s in b <==> s in multiset(b);
    }
  }

  /** The last line is really lost: one byte placed there is accepted as an image, and loading it
  into any empty store fails and stores nothing. */
  lemma TopLineLost(lineBytes: nat)
    requires ValidLayout(lineBytes) && lineBytes > 1
    ensures
      var s := Segment(U64_MAX - 1, [1]);
      && AddAll([s]) == Ok([s])
      && LoadImage(map[], lineBytes, [s]) == Loading(map[], [], false)
  {
    var s := Segment(U64_MAX - 1, [1]);
    var none: seq<Segment> := [];
    assert [s][..0] == none && none + [s] == [s];
    assert AddAll(none) == Ok(none);
    CompleteFromIs(lineBytes, s, 0);
    assert Blocked(lineBytes, s.start);
  }

  /** The report of a complete load: the segments' tilings, one after the other. */
  lemma {:induction false} ReportTiles(lines: Lines, lineBytes: nat, segments: seq<Segment>)
    returns (parts: seq<seq<LineWrite>>)
    requires lineBytes > 0 && ValidStore(lines, lineBytes) && LoadImage(lines, lineBytes, segments).complete
    ensures |parts| == |segments| && Joined(parts) == LoadImage(lines, lineBytes, segments).writes
    ensures AllTile(parts, segments, lineBytes)
    decreases |segments|
  {
    parts := [];
    if segments != [] {
      var first := LoadOne(lines, lineBytes, segments[0]);
      WritesTile(lineBytes, segments[0], 0);
      var rest := ReportTiles(first.lines, lineBytes, segments[1..]);
      parts := [first.writes] + rest;
      AllTileCons(first.writes, rest, segments, lineBytes);
      assert parts[1..] == rest;
    }
  }

  predicate AllTile(parts: seq<seq<LineWrite>>, segments: seq<Segment>, lineBytes: nat)
    requires lineBytes > 0 && |parts| == |segments|
  {
    forall i :: 0 <= i < |segments| ==> Tiles(parts[i], segments[i].start, End(segments[i]), lineBytes)
  }

  lemma AllTileCons(writes: seq<LineWrite>, rest: seq<seq<LineWrite>>, segments: seq<Segment>, lineBytes: nat)
    requires lineBytes > 0 && |rest| + 1 == |segments| && AllTile(rest, segments[1..], lineBytes)
    requires Tiles(writes, segments[0].start, End(segments[0]), lineBytes)
    ensures AllTile([writes] + rest, segments, lineBytes)
  {
    forall i | 0 < i < |segments|
      ensures Tiles(([writes] + rest)[i], segments[i].start, End(segments[i]), lineBytes)
    {
      assert segments[i] == segments[1..][i - 1];
    }
  }

  // ----- the store and the image, updated in place

  datatype StoreError = UnalignedLineAddress | PayloadSizeMismatch | LineOverflow

  class LineMemoryStore {
    const lineBytes: nat
    var lines: Lines

    ghost predicate Valid()
      reads this
    {
      ValidLayout(lineBytes) && ValidStore(lines, lineBytes)
    }

    constructor (lineBytes: nat)
      requires ValidLayout(lineBytes)
      ensures Valid() && this.lineBytes == lineBytes && lines == map[]
    {
      this.lineBytes := lineBytes;
      lines := map[];
    }

    /** Any line but the last of the address space can be stored. */
    method InsertLine(line: nat, data: seq<Byte>) returns (r: Result<(), StoreError>)
      requires Valid()
      modifies this
      ensures Valid()
      ensures r.Ok? <==> line % lineBytes == 0 && |data| == lineBytes && line + lineBytes <= U64_MAX
      ensures lines == if r.Ok? then old(lines)[line := data] else old(lines)
    {
      if line % lineBytes != 0 {
        return Err(UnalignedLineAddress);
      }
      if |data| != lineBytes {
        return Err(StoreError.PayloadSizeMismatch);
      }
      if line + lineBytes > U64_MAX {
        return Err(LineOverflow);
      }
      lines := lines[line := data];
      return Ok(());
    }
  }

  /** The load `whole`, seen from where `done` bytes are loaded and `writes` reported. */
  ghost predicate Resumes(whole: Loading, lines: Lines, lineBytes: nat, s: Segment, done: nat, writes: seq<LineWrite>)
    requires lineBytes > 0 && ValidStore(lines, lineBytes) && done <= |s.data|
  {
    && whole.lines == StoredFrom(lines, lineBytes, s, done)
    && whole.writes == writes + WritesFrom(lineBytes, s, done)
    && whole.complete == CompleteFrom(lineBytes, s, done)
  }

  lemma ResumesNext(whole: Loading, lines: Lines, lineBytes: nat, s: Segment, done: nat, writes: seq<LineWrite>,
    w: LineWrite)
    requires lineBytes > 0 && ValidStore(lines, lineBytes) && done < |s.data|
      && Resumes(whole, lines, lineBytes, s, done, writes)
    requires w == ChunkWrite(lineBytes, s.start + done, |s.data| - done) && !Blocked(lineBytes, s.start + done)
    ensures Resumes(whole, StoreChunk(lines, lineBytes, s.start + done, s.data[done..done + w.bytes]), lineBytes, s,
      done + w.bytes, writes + [w])
  {
    StoredNext(lines, lineBytes, s, done, w.bytes);
    JoinOne(writes, w, WritesFrom(lineBytes, s, done + w.bytes));
  }

  lemma ResumesEnds(whole: Loading, lines: Lines, lineBytes: nat, s: Segment, done: nat, writes: seq<LineWrite>)
    requires lineBytes > 0 && ValidStore(lines, lineBytes) && done <= |s.data|
      && Resumes(whole, lines, lineBytes, s, done, writes)
    ensures done == |s.data| ==> whole == Loading(lines, writes, true)
    ensures done < |s.data| && Blocked(lineBytes, s.start + done) ==> whole == Loading(lines, writes, false)
  {
    assert writes + [] == writes;
  }

  /** The cursor loop of `load_segment`. */
  method LoadSegment(store: LineMemoryStore, segment: Segment) returns (writes: seq<LineWrite>, complete: bool)
    requires store.Valid() && Loadable(segment)
    modifies store
    ensures store.Valid()
    ensures Loading(store.lines, writes, complete) == LoadOne(old(store.lines), store.lineBytes, segment)
  {
    var done := 0;
    writes := [];
    ghost var whole := LoadOne(store.lines, store.lineBytes, segment);
    while done < |segment.data|
      invariant store.Valid() && done <= |segment.data|
      invariant Resumes(whole, store.lines, store.lineBytes, segment, done, writes)
    {
      var cursor := segment.start + done;
      var w := ChunkWrite(store.lineBytes, cursor, |segment.data| - done);
      ghost var before := store.lines;
      var stored := StoreBytes(store, cursor, segment.data[done..done + w.bytes]);
      if !stored {
        ResumesEnds(whole, store.lines, store.lineBytes, segment, done, writes);
        return writes, false;
      }
      ResumesNext(whole, before, store.lineBytes, segment, done, writes, w);
      writes := writes + [w];
      done := done + w.bytes;
    }
    ResumesEnds(whole, store.lines, store.lineBytes, segment, done, writes);
    complete := true;
  }

  lemma JoinOne(writes: seq<LineWrite>, w: LineWrite, rest: seq<LineWrite>)
    ensures writes + ([w] + rest) == (writes + [w]) + rest
  {
  }

  /** Reads the cursor's line, or a zero line, patches it and stores it back. */
  method StoreBytes(store: LineMemoryStore, cursor: nat, bytes: seq<Byte>) returns (stored: bool)
    requires store.Valid() && cursor % store.lineBytes + |bytes| <= store.lineBytes
    modifies store
    ensures store.Valid()
    ensures stored <==> LineOf(cursor, store.lineBytes) + store.lineBytes <= U64_MAX
    ensures store.lines
         == if stored then StoreChunk(old(store.lines), store.lineBytes, cursor, bytes) else old(store.lines)
  {
    var line := LineOf(cursor, store.lineBytes);
    LineAligned(cursor, store.lineBytes);
    var inserted := store.InsertLine(line,
      Stored(LineData(store.lines, store.lineBytes, line), cursor % store.lineBytes, bytes, None));
    stored := inserted.Ok?;
  }

  lemma PlacedValid(segments: seq<Segment>, s: Segment)
    requires Sorted(segments) && Compatible(multiset(segments)) && Loadable(s)
    requires forall k :: 0 <= k < |segments| ==> !Overlaps(segments[k], s)
    ensures FindOverlap(segments, s) == |segments|
    ensures Sorted(Placed(segments, s)) && Compatible(multiset(Placed(segments, s)))
  {
    PlacedSorted(segments, s);
    PlacedCompatible(segments, s);
  }

  class BootImage {
    const entry: nat
    var segments: seq<Segment>

    ghost predicate Valid()
      reads this
    {
      Sorted(segments) && Compatible(multiset(segments))
    }

    constructor (entry: nat)
      ensures Valid() && this.entry == entry && segments == []
    {
      this.entry := entry;
      segments := [];
    }

    method Add(start: nat, data: seq<Byte>) returns (r: Result<(), BootError>)
      requires Valid()
      modifies this
      ensures Valid()
      ensures
        match AddSegment(old(segments), start, data)
        case Ok(added) => r == Ok(()) && segments == added
        case Err(e) => r == Err(e) && segments == old(segments)
    {
      var made := NewSegment(start, data);
      if made.Err? {
        return Err(made.error);
      }
      var i := 0;
      while i < |segments|
        invariant i <= |segments| && segments == old(segments)
        invariant forall k :: 0 <= k < i ==> !Overlaps(segments[k], made.value)
      {
        if Overlaps(segments[i], made.value) {
          return Err(OverlappingSegment(segments[i], made.value));
        }
        i := i + 1;
      }
      PlacedValid(segments, made.value);
      segments := Placed(segments, made.value);
      return Ok(());
    }

    method LoadIntoLineStore(store: LineMemoryStore) returns (writes: seq<LineWrite>, complete: bool)
      requires Valid() && store.Valid()
      modifies store
      ensures store.Valid()
      ensures Loading(store.lines, writes, complete) == LoadImage(old(store.lines), store.lineBytes, segments)
    {
      CompatibleLaidOut(segments);
      writes := [];
      var i := 0;
      ghost var whole := LoadImage(store.lines, store.lineBytes, segments);
      assert segments[0..] == segments;
      AfterNone(whole);
      while i < |segments|
        invariant i <= |segments| && store.Valid()
        invariant whole == After(writes, LoadImage(store.lines, store.lineBytes, segments[i..]))
      {
        assert segments[i..][0] == segments[i] && segments[i..][1..] == segments[i + 1..];
        var part, done := LoadSegment(store, segments[i]);
        if !done {
          return writes + part, false;
        }
        AfterMore(writes, part, LoadImage(store.lines, store.lineBytes, segments[i + 1..]));
        writes := writes + part;
        i := i + 1;
      }
      assert segments[i..] == [];
      assert writes + [] == writes;
      complete := true;
    }
  }
}
