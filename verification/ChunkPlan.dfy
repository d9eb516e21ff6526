/** How a byte range of a part is cut into aligned chunk requests. */
module ChunkPlan {
  import opened Bytes

  const MIB := 1048576
  const KIB := 1024

  ghost predicate PowerOfTwo(c: int) {
    c == 1 || (c > 1 && c % 2 == 0 && PowerOfTwo(c / 2))
  }

  /** The largest power of two from 1 KiB to 1 MiB that does not exceed `end - start`, or 1 KiB. */
  ghost predicate IsChunkSize(c: int, start: int, end: int) {
    && PowerOfTwo(c) && MIB % c == 0
    && KIB <= c <= MIB
    && (c > KIB ==> c <= end - start)
    && (c < MIB ==> end - start < 2 * c)
  }

  method CalculateChunkSize(start: int, end: int) returns (chunkSize: int)
    ensures IsChunkSize(chunkSize, start, end)
  {
    chunkSize := MIB;
    assert PowerOfTwo(16) && PowerOfTwo(256) && PowerOfTwo(4096) && PowerOfTwo(65536) && PowerOfTwo(1048576);
    while chunkSize > KIB && chunkSize > end - start
      invariant KIB <= chunkSize <= MIB
      invariant chunkSize in {1024, 2048, 4096, 8192, 16384, 32768, 65536, 131072, 262144, 524288, 1048576}
      invariant PowerOfTwo(chunkSize)
      invariant chunkSize < MIB ==> end - start < 2 * chunkSize
    {
      chunkSize := chunkSize / 2;
    }
  }

  /** The requests for the bytes `start..end` (both included) with a given chunk size. */
  datatype Plan = Plan(start: nat, end: nat, chunkSize: nat) {
    predicate Valid() {
      start <= end && chunkSize > 0
    }

    function Total(): nat
      requires Valid()
    {
      end - start + 1
    }

    /** The first request is aligned down to a multiple of the chunk size. */
    function Base(): nat
      requires Valid()
    {
      start - start % chunkSize
    }

    function LeftCut(): nat
      requires Valid()
    {
      start - Base()
    }

    function RightCut(): nat
      requires Valid()
    {
      end % chunkSize + 1
    }

    function TotalParts(): nat
      requires Valid()
    {
      (end - Base() + chunkSize) / chunkSize
    }

    function RequestOffset(part: nat): nat
      requires Valid()
    {
      Base() + part * chunkSize
    }

    /** What is cut from the chunk of `part`: the left and the right bound within the chunk. */
    function Left(part: nat): nat
      requires Valid()
    {
      if part == 0 then LeftCut() else 0
    }

    function Right(part: nat): nat
      requires Valid()
    {
      if part == TotalParts() - 1 then RightCut() else chunkSize
    }

    /** The file positions that part `part` contributes. */
    function Lo(part: nat): nat
      requires Valid()
    {
      RequestOffset(part) + Left(part)
    }

    function Hi(part: nat): nat
      requires Valid()
    {
      RequestOffset(part) + Right(part)
    }
  }

  lemma {:induction false} MulMonotone(a: nat, b: nat, c: nat)
    requires a <= b
    ensures a * c <= b * c
    ensures a < b ==> a * c + c <= b * c
    decreases b - a
  {
    if a < b {
      MulMonotone(a + 1, b, c);
      assert (a + 1) * c == a * c + c;
    }
  }

  /** The chunk indices of the first and the last byte determine the plan. */
  lemma PlanShape(p: Plan)
    requires p.Valid()
    ensures p.Base() == p.start / p.chunkSize * p.chunkSize
    ensures p.TotalParts() == p.end / p.chunkSize - p.start / p.chunkSize + 1 >= 1
    ensures p.LeftCut() == p.start % p.chunkSize < p.chunkSize
    ensures p.RequestOffset(p.TotalParts() - 1) == p.end / p.chunkSize * p.chunkSize
    ensures p.Base() <= p.start < p.Base() + p.chunkSize
  {
    var c, q0, q1 := p.chunkSize, p.start / p.chunkSize, p.end / p.chunkSize;
    assert p.start == q0 * c + p.start % c && p.end == q1 * c + p.end % c;
    if q1 < q0 {
      MulMonotone(q1, q0, c);
      assert false;
    }
    var n := q1 - q0 + 1;
    assert n * c == q1 * c - q0 * c + c;
    assert p.end - p.Base() + c == n * c + p.end % c;
    DivUnique(p.end - p.Base() + c, c, n, p.end % c);
    assert (n - 1) * c == q1 * c - q0 * c;
  }

  lemma DivUnique(v: nat, d: nat, q: nat, r: nat)
    requires d > 0 && v == q * d + r && r < d
    ensures v / d == q && v % d == r
  {
    var q', r' := v / d, v % d;
    if q' < q {
      MulMonotone(q', q, d);
      assert false;
    } else if q < q' {
      MulMonotone(q, q', d);
      assert false;
    }
  }

  /** The cut requests tile the range: they start at `start`, each begins where the one before ends,
      none is empty, and the last ends after `end`. */
  lemma PiecesTile(p: Plan, part: nat)
    requires p.Valid() && part < p.TotalParts()
    ensures part == 0 ==> p.Lo(part) == p.start
    ensures p.start <= p.Lo(part) < p.Hi(part) <= p.end + 1
    ensures part + 1 < p.TotalParts() ==> p.Lo(part + 1) == p.Hi(part)
    ensures part == p.TotalParts() - 1 <==> p.Hi(part) == p.end + 1
    ensures 0 <= p.Left(part) < p.Right(part) <= p.chunkSize
    ensures p.RequestOffset(part + 1) == p.RequestOffset(part) + p.chunkSize
  {
    PlanShape(p);
    var n := p.TotalParts();
    OffsetsGrow(p, part, part + 1);
    FirstOffset(p);
    if part + 1 < n - 1 {
      OffsetsGrow(p, part + 1, n - 1);
    }
    if part > 1 {
      OffsetsGrow(p, 1, part);
    }
    OffsetsGrow(p, 0, 1);
    LastRequest(p);
    hide Plan.Base, Plan.LeftCut, Plan.RightCut, Plan.TotalParts, Plan.RequestOffset;
  }

  lemma FirstOffset(p: Plan)
    requires p.Valid()
    ensures p.RequestOffset(0) == p.Base() && p.LeftCut() == p.start - p.Base()
  {
    assert 0 * p.chunkSize == 0;
  }

  /** The last request reaches the last byte, and is cut behind it. */
  lemma LastRequest(p: Plan)
    requires p.Valid()
    ensures var last := p.RequestOffset(p.TotalParts() - 1);
            last <= p.end < last + p.chunkSize && p.RightCut() == p.end - last + 1
  {
    PlanShape(p);
    var q, c := p.end / p.chunkSize, p.chunkSize;
    assert p.end == q * c + p.end % c;
  }

  lemma OffsetsGrow(p: Plan, i: nat, j: nat)
    requires p.Valid() && i < j
    ensures p.RequestOffset(i) + p.chunkSize <= p.RequestOffset(j)
    ensures j == i + 1 ==> p.RequestOffset(j) == p.RequestOffset(i) + p.chunkSize
  {
    var c := p.chunkSize;
    MulMonotone(i, j, c);
    assert (i + 1) * c == i * c + c;
  }

  /** A request never crosses a 1 MiB boundary, and small ranges take at most three requests. */
  lemma RequestsAreSmall(p: Plan, part: nat)
    requires p.Valid() && IsChunkSize(p.chunkSize, p.start, p.end)
    ensures p.RequestOffset(part) / MIB == (p.RequestOffset(part) + p.chunkSize - 1) / MIB
    ensures p.end - p.start < MIB ==> p.TotalParts() <= 3
  {
    var c, span := p.chunkSize, p.end - p.start;
    assert MIB % c == 0 && (span < MIB ==> span < 2 * c);
    RequestInWindow(p, part);
    if span < MIB {
      PlanShape(p);
      FewParts(p.start, p.end, c, p.start / c, p.end / c);
    }
  }

  lemma RequestInWindow(p: Plan, part: nat)
    requires p.Valid() && MIB % p.chunkSize == 0
    ensures p.RequestOffset(part) / MIB == (p.RequestOffset(part) + p.chunkSize - 1) / MIB
  {
    PlanShape(p);
    var c, q0 := p.chunkSize, p.start / p.chunkSize;
    assert p.RequestOffset(part) == (q0 + part) * c by {
      assert (q0 + part) * c == q0 * c + part * c;
    }
    AlignedInWindow(q0 + part, c, MIB / c);
  }

  lemma FewParts(start: nat, end: nat, c: nat, q0: nat, q1: nat)
    requires start <= end && q0 * c <= start < q0 * c + c && q1 * c <= end
    requires end - start < 2 * c
    ensures q1 <= q0 + 2
  {
    if q1 > q0 + 2 {
      ThreeMore(q0, q1, c);
      assert false;
    }
  }

  lemma ThreeMore(a: nat, b: nat, c: nat)
    requires b > a + 2
    ensures b * c >= a * c + 3 * c
  {
    MulMonotone(a + 2, b, c);
    assert (a + 2) * c == a * c + 2 * c;
  }

  lemma AlignedInWindow(q: nat, c: nat, m: nat)
    requires c > 0 && m * c == MIB
    ensures q * c / MIB == (q * c + c - 1) / MIB
  {
    var w, r := q / m, q % m;
    assert q == w * m + r;
    assert q * c == w * MIB + r * c by {
      assert (w * m) * c == w * (m * c);
    }
    MulMonotone(r + 1, m, c);
    assert (r + 1) * c == r * c + c;
    DivUnique(q * c, MIB, w, r * c);
    DivUnique(q * c + c - 1, MIB, w, r * c + c - 1);
  }

  /** What the chunk source holds for a request: the bytes of the part, fewer at its end. */
  function FaithfulChunk(data: seq<byte>, offset: nat, limit: nat): seq<byte> {
    data[Min(offset, |data|)..Min(offset + limit, |data|)]
  }

  /** The piece of the range that `part` has to deliver. */
  function Piece(p: Plan, data: seq<byte>, part: nat): (piece: seq<byte>)
    requires p.Valid() && p.end < |data| && part < p.TotalParts()
    ensures piece != []
  {
    PiecesTile(p, part);
    data[p.Lo(part)..p.Hi(part)]
  }

  /** Cutting a faithful chunk, or a prefix of one that is long enough, gives the piece. */
  lemma CutIsPiece(p: Plan, data: seq<byte>, part: nat, chunk: seq<byte>)
    requires p.Valid() && p.end < |data| && part < p.TotalParts()
    requires chunk <= FaithfulChunk(data, p.RequestOffset(part), p.chunkSize)
    requires |chunk| >= p.Right(part)
    ensures p.Left(part) <= p.Right(part) && chunk[p.Left(part)..p.Right(part)] == Piece(p, data, part)
  {
    PiecesTile(p, part);
    CutOfChunk(data, p.RequestOffset(part), p.chunkSize, p.Left(part), p.Right(part), chunk);
  }

  lemma CutOfChunk(data: seq<byte>, offset: nat, size: nat, left: nat, right: nat, chunk: seq<byte>)
    requires left <= right <= size && offset + right <= |data|
    requires chunk <= FaithfulChunk(data, offset, size) && |chunk| >= right
    ensures chunk[left..right] == data[offset + left..offset + right]
  {
    SliceOfPrefix(chunk, FaithfulChunk(data, offset, size), left, right);
  }

  lemma SliceOfPrefix(a: seq<byte>, b: seq<byte>, lo: nat, hi: nat)
    requires a <= b && lo <= hi <= |a|
    ensures a[lo..hi] == b[lo..hi]
  {
    assert a == b[..|a|];
  }

  /** A faithful chunk is never too short for its cut. */
  lemma FaithfulIsLongEnough(p: Plan, data: seq<byte>, part: nat)
    requires p.Valid() && p.end < |data| && part < p.TotalParts()
    ensures |FaithfulChunk(data, p.RequestOffset(part), p.chunkSize)| >= p.Right(part)
    ensures part < p.TotalParts() - 1 ==> |FaithfulChunk(data, p.RequestOffset(part), p.chunkSize)| == p.chunkSize
  {
    PiecesTile(p, part);
    if part < p.TotalParts() - 1 {
      PiecesTile(p, part + 1);
    }
  }

  /** Where the range position stands after `parts` whole pieces. */
  function Boundary(p: Plan, parts: nat): nat
    requires p.Valid() && parts <= p.TotalParts()
  {
    if parts == 0 then p.start else p.Hi(parts - 1)
  }

  /** The next piece moves the boundary by one part. */
  lemma BoundaryStep(p: Plan, data: seq<byte>, parts: nat)
    requires p.Valid() && p.end < |data| && parts < p.TotalParts()
    ensures p.start <= Boundary(p, parts) <= Boundary(p, parts + 1) <= p.end + 1
    ensures data[p.start..Boundary(p, parts)] + Piece(p, data, parts) == data[p.start..Boundary(p, parts + 1)]
    ensures Piece(p, data, parts) + data[Boundary(p, parts + 1)..p.end + 1] == data[Boundary(p, parts)..p.end + 1]
    ensures parts + 1 == p.TotalParts() <==> Boundary(p, parts + 1) == p.end + 1
  {
    PiecesTile(p, parts);
    if parts > 0 {
      PiecesTile(p, parts - 1);
    }
    assert Piece(p, data, parts) == data[Boundary(p, parts)..Boundary(p, parts + 1)];
    hide *;
    Abut(data, p.start, Boundary(p, parts), Boundary(p, parts + 1));
    Abut(data, Boundary(p, parts), Boundary(p, parts + 1), p.end + 1);
  }

  lemma Abut(data: seq<byte>, a: nat, b: nat, c: nat)
    requires a <= b <= c <= |data|
    ensures data[a..b] + data[b..c] == data[a..c]
  {
  }
}
