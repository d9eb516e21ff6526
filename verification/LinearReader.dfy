/** The reader that serves a range request over the parts of a file, plain or encrypted,
    with sequential or parallel part readers. */
module Linear {
  import opened Bytes
  import opened Cipher
  import opened ChunkPlan
  import opened Readers
  import opened Decryption

  /** A part: what is stored, the box for the key derived from its salt, and the sizes on record. */
  datatype Part = Part(stored: seq<byte>, box: SecretBox, size: nat, decryptedSize: nat)

  datatype Range = Range(start: nat, end: int, partNo: nat)

  /** What a part contributes to the file. */
  function PartContent(part: Part, encrypted: bool): seq<byte>
    requires encrypted ==> part.box.Lawful() && |part.stored| >= FILE_HEADER_SIZE
  {
    if encrypted then Content(part.box, part.stored).bytes else part.stored
  }

  function Flatten(contents: seq<seq<byte>>): seq<byte> {
    if contents == [] then [] else contents[0] + Flatten(contents[1..])
  }

  /** All parts but the last have the size of the first, the last is not larger. */
  ghost predicate EqualParts(contents: seq<seq<byte>>, size: nat) {
    && size > 0 && contents != []
    && (forall i | 0 <= i < |contents| - 1 :: |contents[i]| == size)
    && |contents[|contents| - 1]| <= size
  }

  method CalculatePartByteRanges(start: nat, end: nat, partSize: nat) returns (ranges: seq<Range>)
    requires partSize > 0 && start <= end
    ensures IsPlan(ranges, start, end, partSize)
  {
    ranges := [];
    var startPart, endPart := start / partSize, end / partSize;
    QuotientMonotone(start, end, partSize);
    for part := startPart to endPart + 1
      invariant |ranges| == part - startPart
      invariant forall i | 0 <= i < |ranges| :: ranges[i] == PartRange(start, end, partSize, startPart + i)
    {
      var partStart := Max(start - part * partSize, 0);
      var partEnd := Min(partSize - 1, end - part * partSize);
      ranges := ranges + [Range(partStart, partEnd, part)];
    }
  }

  /** `ranges` are the ranges of consecutive parts that cover `start..end`. */
  ghost predicate IsPlan(ranges: seq<Range>, start: nat, end: nat, size: nat) {
    && size > 0 && start <= end
    && |ranges| == end / size - start / size + 1
    && forall i | 0 <= i < |ranges| :: ranges[i] == PartRange(start, end, size, start / size + i)
  }

  function PartRange(start: nat, end: nat, size: nat, part: nat): Range {
    Range(Max(start - part * size, 0), Min(size - 1, end - part * size), part)
  }

  lemma QuotientMonotone(a: nat, b: nat, d: nat)
    requires a <= b && d > 0
    ensures a / d <= b / d
    ensures a / d * d <= a < a / d * d + d && b / d * d <= b < b / d * d + d
  {
    var p, q := a / d, b / d;
    assert a == p * d + a % d && b == q * d + b % d;
    if q < p {
      MulMonotone(q, p, d);
      assert false;
    }
  }

  /** Where part `p` lies in the file. */
  lemma {:induction false} PartOfFile(contents: seq<seq<byte>>, size: nat, p: nat)
    requires EqualParts(contents, size) && p < |contents|
    ensures p * size + |contents[p]| <= |Flatten(contents)|
    ensures Flatten(contents)[p * size..p * size + |contents[p]|] == contents[p]
    ensures p == |contents| - 1 ==> |Flatten(contents)| == p * size + |contents[p]|
    decreases p
  {
    var rest := contents[1..];
    assert Flatten(contents) == contents[0] + Flatten(rest);
    if p == 0 {
      assert 0 * size == 0;
      if |contents| == 1 {
        assert rest == [] && Flatten(rest) == [];
      }
    } else {
      PartOfFile(rest, size, p - 1);
      assert (p - 1) * size + size == p * size;
      SliceAfter(contents[0], Flatten(rest), (p - 1) * size, (p - 1) * size + |contents[p]|);
    }
  }

  lemma SliceAfter(a: seq<byte>, b: seq<byte>, lo: nat, hi: nat)
    requires lo <= hi <= |b|
    ensures (a + b)[|a| + lo..|a| + hi] == b[lo..hi]
  {
  }

  /** The bytes of `s` at positions from `lo` up to `hi`, as far as there are any. */
  function Between(s: seq<byte>, lo: nat, hi: nat): seq<byte> {
    var l, h := Min(lo, |s|), Min(hi, |s|);
    if l <= h then s[l..h] else []
  }

  lemma BetweenSplits(s: seq<byte>, lo: nat, mid: nat, hi: nat)
    requires lo <= mid <= hi
    ensures Between(s, lo, mid) + Between(s, mid, hi) == Between(s, lo, hi)
  {
  }

  /** The bytes of the file that the ranges from `part` on cover: up to `end`, or up to the last byte
      that the recorded parts hold. */
  function Wanted(file: seq<byte>, start: nat, end: nat, size: nat, part: nat): seq<byte> {
    Between(file, Max(start, part * size), end + 1)
  }

  /** The range of one part selects the next stretch of the file: it lies inside the part, is not
      empty, and what remains is what the following parts have to deliver. */
  lemma RangeIsNextStretch(contents: seq<seq<byte>>, size: nat, start: nat, end: nat, part: nat)
    requires EqualParts(contents, size) && start <= end
    requires start / size <= part <= end / size && part < |contents|
    requires end < |Flatten(contents)| || |contents[|contents| - 1]| == size
    ensures var r, content := PartRange(start, end, size, part), contents[part];
            && 0 <= r.start <= r.end < |content|
            && content[r.start..r.end + 1] + Wanted(Flatten(contents), start, end, size, part + 1)
               == Wanted(Flatten(contents), start, end, size, part)
  {
    hide Flatten, Between, EqualParts;
    var file, base, content := Flatten(contents), part * size, contents[part];
    PartPosition(contents, size, start, end, part);
    var m := Min(base + size, end + 1);
    ContentIsBetween(file, content, base, Max(start, base), m);
    BetweenSplits(file, Max(start, base), m, end + 1);
    BetweenFrom(file, m, Max(start, base + size), end + 1);
  }

  lemma PartPosition(contents: seq<seq<byte>>, size: nat, start: nat, end: nat, part: nat)
    requires EqualParts(contents, size) && start <= end
    requires start / size <= part <= end / size && part < |contents|
    requires end < |Flatten(contents)| || |contents[|contents| - 1]| == size
    ensures var base, content, file := part * size, contents[part], Flatten(contents);
            && base <= end && start < base + size && (part + 1) * size == base + size
            && base + |content| <= |file| && content == file[base..base + |content|]
            && |content| <= size && Min(base + size, end + 1) <= base + |content|
  {
    hide Flatten;
    QuotientMonotone(start, end, size);
    MulMonotone(start / size, part, size);
    MulMonotone(part, end / size, size);
    PartOfFile(contents, size, part);
    assert (part + 1) * size == part * size + size;
    if part < |contents| - 1 {
      assert |contents[part]| == size;
    }
  }

  lemma ContentIsBetween(file: seq<byte>, content: seq<byte>, base: nat, lo: nat, hi: nat)
    requires base + |content| <= |file| && content == file[base..base + |content|]
    requires base <= lo <= hi <= base + |content|
    ensures content[lo - base..hi - base] == Between(file, lo, hi)
  {
    var end := base + |content|;
    assert Between(file, lo, hi) == file[lo..hi];
    forall i | 0 <= i < hi - lo
      ensures content[lo - base..hi - base][i] == file[lo..hi][i]
    {
      assert content[lo - base + i] == file[base..end][lo - base + i] == file[lo + i];
    }
  }

  lemma BetweenFrom(s: seq<byte>, lo: nat, lo': nat, hi: nat)
    requires lo == lo' || lo' > hi == lo
    ensures Between(s, lo, hi) == Between(s, lo', hi)
  {
  }

  /** How a file is to be read. */
  datatype Source = Source(
    parts: seq<Part>, encrypted: bool, concurrency: int, threads: nat, buffers: nat, reliable: bool)
  {
    /** The parallel reader accepts its configuration. */
    predicate Accepted() {
      concurrency >= 2 ==> threads > 0
    }

    /** No request fails, and the configuration of the parallel reader is accepted. */
    predicate Steady() {
      reliable && Accepted()
    }

    /** Encrypted parts have the size on record and are long enough to have a header; if requests may fail, no torn
        block of theirs authenticates. */
    ghost predicate Readable() {
      encrypted ==> forall p | p in parts ::
        p.box.Lawful() && p.size == |p.stored| && |p.stored| >= FILE_HEADER_SIZE && (Steady() || HeadedUntearable(p.box, p.stored))
    }

    ghost function Contents(): seq<seq<byte>>
      requires Readable()
    {
      seq(|parts|, i requires 0 <= i < |parts| => PartContent(parts[i], encrypted))
    }

    /** The bytes of the file. */
    ghost function File(): seq<byte>
      requires Readable()
    {
      Flatten(Contents())
    }

    function PartSize(): nat
      requires parts != []
    {
      if encrypted then parts[0].decryptedSize else parts[0].size
    }

    /** The record describes equal parts and their sizes, and if it claims more bytes than the parts
        hold (`end` beyond them), then because whole parts are missing. */
    ghost predicate Recorded(end: nat) {
      && Readable() && parts != [] && EqualParts(Contents(), PartSize()) && PartSize() < 0x8000_0000_0000_0000
      && (end < |File()| || |Contents()[|parts| - 1]| == PartSize())
    }

    /** Nothing fails, and the encrypted parts carry their magic. */
    ghost predicate Working() {
      && Steady()
      && (encrypted ==> forall p | p in parts :: HasHeader(p.stored))
    }
  }

  /** The reader of one part. */
  datatype PartReader = Plain(reader: Reader) | Decrypted(decrypter: Decrypter) {
    ghost function Repr(): set<object>
      reads if Decrypted? then {decrypter} else {}
    {
      match this
      case Plain(r) => {r.Obj()}
      case Decrypted(d) => d.Repr()
    }

    ghost predicate Valid()
      reads if Decrypted? then {decrypter} else {}, Repr()
    {
      match this
      case Plain(r) => r.Valid() && !r.Memory?
      case Decrypted(d) => d.Valid() && d.WithinData() && (d.err in {None, Some(Eof)} || !d.Reliable() || d.owed == [])
    }

    ghost function Owed(): seq<byte>
      reads if Decrypted? then {decrypter} else {}, Repr()
    {
      match this
      case Plain(r) => r.Owed()
      case Decrypted(d) => d.owed
    }

    ghost predicate Reliable()
      reads if Decrypted? then {decrypter} else {}, Repr()
    {
      match this
      case Plain(r) => r.Reliable()
      case Decrypted(d) => d.Reliable()
    }

    method Read(size: nat) returns (data: seq<byte>, e: Option<Error>)
      requires Valid()
      modifies Repr()
      ensures Valid() && Repr() <= old(Repr()) && Reliable() == old(Reliable())
      ensures old(Owed()) == data + Owed() && |data| <= size
      ensures e == Some(Eof) ==> Owed() == []
      ensures old(Owed()) == [] ==> e.Some? && data == [] && (Plain? ==> e == Some(Eof))
      ensures Decrypted? && old(decrypter.err).Some? ==> e == decrypter.err == old(decrypter.err)
      ensures e.Some? && e.value != Eof ==> data == []
      ensures e.None? && old(Owed()) != [] ==> Owed() != [] && (size > 0 ==> data != [])
      ensures e.Some? && Reliable() && old(Owed()) != [] ==> e.value == Eof
    {
      hide Decrypter.Valid, Reader.Valid, Reader.Owed, Reader.Reliable, Reader.Obj, Decrypter.Reliable;
      match this
      case Plain(r) => data, e := r.Read(size);
      case Decrypted(d) => data, e := d.Read(size);
    }

    ghost predicate IsOpen()
      reads if Decrypted? then {decrypter} else {}
    {
      Decrypted? ==> decrypter.err != Some(Closed)
    }

    /** What fetches the chunks for it is cancelled. */
    ghost predicate Cancelled()
      reads if Decrypted? then {decrypter} else {}, Repr()
    {
      match this
      case Plain(r) => r.Cancelled()
      case Decrypted(d) => d.rc.Cancelled()
    }

    method Close()
      requires Valid() && Owed() == []
      modifies Repr()
      ensures Valid() && Owed() == [] && Repr() <= old(Repr())
      ensures Decrypted? ==> decrypter.err == Some(Closed)
      ensures old(IsOpen()) ==> Cancelled()
    {
      hide Decrypter.Valid, Reader.Valid, Reader.Owed, Reader.Reliable, Reader.Obj, Reader.Cancelled, Decrypter.Reliable;
      match this
      case Plain(r) => r.Close();
      case Decrypted(d) => d.Close();
    }
  }

  /** Every end of file comes after the error that says that parts are missing. */
  ghost predicate Announced(errors: seq<Option<Error>>) {
    forall k | 0 <= k < |errors| && errors[k] == Some(Eof) :: Some(PartsMismatch) in errors[..k]
  }

  lemma AnnouncedStep(errors: seq<Option<Error>>, e: Option<Error>)
    ensures Some(Eof) in errors + [e] <==> Some(Eof) in errors || e == Some(Eof)
    ensures Some(PartsMismatch) in errors + [e] <==> Some(PartsMismatch) in errors || e == Some(PartsMismatch)
    ensures Announced([])
    ensures Announced(errors) && (e == Some(Eof) ==> Some(PartsMismatch) in errors) ==> Announced(errors + [e])
  {
    var more := errors + [e];
    forall k | 0 <= k < |errors|
      ensures more[..k] == errors[..k] && more[k] == errors[k]
    {
    }
    assert more[..|errors|] == errors;
  }

  lemma PlanStarts(ranges: seq<Range>, start: nat, end: nat, size: nat)
    requires IsPlan(ranges, start, end, size)
    ensures ranges != [] && ranges[0].partNo == start / size && start <= end && |ranges| == end / size - start / size + 1
  {
    QuotientMonotone(start, end, size);
  }

  /** What a range asks of its part. */
  ghost function RangeOf(source: Source, range: Range): seq<byte>
    requires source.Readable() && range.partNo < |source.parts|
    requires range.start <= range.end < |PartContent(source.parts[range.partNo], source.encrypted)|
  {
    PartContent(source.parts[range.partNo], source.encrypted)[range.start..range.end + 1]
  }

  /** What the parts from `part` on have to contribute to `start..end`. */
  ghost function Stretches(source: Source, start: nat, end: nat, part: nat): seq<byte>
    requires source.Readable() && source.parts != []
  {
    Wanted(source.File(), start, end, source.PartSize(), part)
  }

  /** How many bytes the record claims beyond what its parts hold. */
  ghost function Missing(source: Source, end: nat): nat
    requires source.Readable()
  {
    Max(end + 1 - |source.File()|, 0)
  }

  /** The sizes that the record of a part is given: that of the stored document, and what is left of it when it is
      decrypted, or zero if no encrypted file is that long. */
  predicate IsFetched(part: Part, encrypted: bool) {
    && part.size == |part.stored|
    && (encrypted ==> part.decryptedSize == match DecryptedSize(part.size) case Ok(n) => n case Err(_) => 0)
  }

  /** A file as an upload leaves it: all parts but the last have the same size, the last is not larger. */
  ghost predicate AsUploaded(source: Source) {
    && source.Readable() && source.parts != [] && source.PartSize() > 0
    && (forall p | p in source.parts :: IsFetched(p, source.encrypted) && p.size < 0x8000_0000_0000_0000)
    && (forall i | 0 <= i < |source.parts| - 1 :: source.parts[i].size == source.parts[0].size)
    && source.parts[|source.parts| - 1].size <= source.parts[0].size
  }

  lemma DecryptsTo(part: Part)
    requires part.box.Lawful() && |part.stored| >= FILE_HEADER_SIZE && IsFetched(part, true)
    ensures |PartContent(part, true)| == DataSize(part.size - FILE_HEADER_SIZE)
    ensures part.decryptedSize > 0 ==> |PartContent(part, true)| == part.decryptedSize
  {
    hide Decode, DataSize;
    DecodeSize(part.box, HeaderNonce(part.stored), 0, part.stored[FILE_HEADER_SIZE..]);
    SizesAreInverse(0, part.size);
    hide DecryptedSize;
  }

  lemma DataSizeGrows(a: nat, b: nat)
    requires a <= b
    ensures DataSize(a) <= DataSize(b) <= b
  {
    QuotientMonotone(a, b, BLOCK_SIZE);
  }

  /** A larger part has no shorter content, and it is as long as its record says. */
  lemma ContentSize(part: Part, other: Part, encrypted: bool)
    requires encrypted ==> forall p | p in {part, other} :: p.box.Lawful() && |p.stored| >= FILE_HEADER_SIZE
    requires IsFetched(part, encrypted) && IsFetched(other, encrypted) && part.size <= other.size
    ensures |PartContent(part, encrypted)| <= |PartContent(other, encrypted)| <= other.size
    ensures part.size == other.size ==> |PartContent(part, encrypted)| == |PartContent(other, encrypted)|
    ensures var n := if encrypted then other.decryptedSize else other.size; n > 0 ==> |PartContent(other, encrypted)| == n
  {
    if encrypted {
      DecryptsTo(part);
      DecryptsTo(other);
      assert part.size >= FILE_HEADER_SIZE;
      hide PartContent, DataSize, DecryptedSize;
      DataSizeGrows(part.size - FILE_HEADER_SIZE, other.size - FILE_HEADER_SIZE);
    }
  }

  /** Every range of such a file can be read, and nothing of it is missing. */
  lemma UploadIsRecorded(source: Source, end: nat)
    requires AsUploaded(source) && end < |source.File()|
    ensures source.Recorded(end) && Missing(source, end) == 0
  {
    hide Flatten, PartContent, IsFetched;
    var contents, parts, encrypted := source.Contents(), source.parts, source.encrypted;
    forall i | 0 <= i < |parts|
      ensures contents[i] == PartContent(parts[i], encrypted) && parts[i] in parts
    {
    }
    ContentSize(parts[|parts| - 1], parts[0], encrypted);
    forall i | 0 <= i < |parts| - 1
      ensures |contents[i]| == |contents[0]|
    {
      ContentSize(parts[i], parts[0], encrypted);
    }
  }

  lemma RecordedSize(source: Source, end: nat)
    requires source.Recorded(end)
    ensures source.PartSize() > 0 && source.Readable() && source.parts != []
  {
  }

  lemma ContentOfPart(source: Source, end: nat, p: nat)
    requires source.Recorded(end) && p < |source.parts|
    ensures |source.Contents()| == |source.parts|
    ensures source.Contents()[p] == PartContent(source.parts[p], source.encrypted)
    ensures EqualParts(source.Contents(), source.PartSize()) && source.PartSize() < 0x8000_0000_0000_0000
    ensures end < |Flatten(source.Contents())| || |source.Contents()[|source.parts| - 1]| == source.PartSize()
  {
  }

  /** The range of index `i` lies inside its part, and what it selects is the next stretch of the file. */
  lemma RangeInPart(source: Source, start: nat, end: nat, ranges: seq<Range>, i: nat)
    requires source.Recorded(end) && IsPlan(ranges, start, end, source.PartSize()) && i < |ranges|
    ensures var r, p := ranges[i], start / source.PartSize() + i;
            && r.partNo == p && 0 <= r.start < 0x8000_0000_0000_0000
            && (p < |source.parts| ==>
                  && r.start <= r.end < |PartContent(source.parts[p], source.encrypted)|
                  && RangeOf(source, r) != []
                  && RangeOf(source, r) + Stretches(source, start, end, p + 1) == Stretches(source, start, end, p))
  {
    hide Flatten, Between, Wanted, EqualParts, Source.Readable, Source.Recorded, Source.Contents, PartContent;
    RecordedSize(source, end);
    var size, p := source.PartSize(), start / source.PartSize() + i;
    QuotientMonotone(start, end, size);
    StartInPart(start, p, size);
    ContentOfPart(source, end, 0);
    if p < |source.parts| {
      ContentOfPart(source, end, p);
      RangeIsNextStretch(source.Contents(), size, start, end, p);
    }
  }

  /** The first stretch is the whole request, as far as the recorded parts reach. */
  lemma FirstStretch(source: Source, start: nat, end: nat, p: nat)
    requires source.Recorded(end) && start <= end && p < |source.parts| && p == start / source.PartSize()
    ensures Stretches(source, start, end, p) == Between(source.File(), start, end + 1)
    ensures |Between(source.File(), start, end + 1)| + Missing(source, end) == end - start + 1
  {
    hide Flatten, Source.Contents, Source.Readable, Source.Recorded, EqualParts, PartContent, Source.PartSize, Between;
    RecordedSize(source, end);
    var size := source.PartSize();
    QuotientMonotone(start, end, size);
    StartInPart(start, p, size);
    ContentOfPart(source, end, p);
    PartPosition(source.Contents(), size, start, end, p);
    StartInFile(source, start, end, p);
    BetweenLength(source.File(), start, end + 1);
  }

  lemma FirstRange(source: Source, start: nat, end: nat, ranges: seq<Range>, p: nat)
    requires source.Recorded(end) && IsPlan(ranges, start, end, source.PartSize()) && p == start / source.PartSize()
    ensures ranges != [] && ranges[0].partNo == p && ranges[0].start < 0x8000_0000_0000_0000
    ensures p < |source.parts| ==>
              && ranges[0].start <= ranges[0].end < |PartContent(source.parts[p], source.encrypted)|
              && RangeOf(source, ranges[0]) != []
              && RangeOf(source, ranges[0]) + Stretches(source, start, end, p + 1) == Stretches(source, start, end, p)
  {
    hide Stretches, Source.Recorded, Source.Readable, IsPlan, PartContent, RangeOf;
    RecordedSize(source, end);
    PlanStarts(ranges, start, end, source.PartSize());
    RangeInPart(source, start, end, ranges, 0);
  }

  lemma StartInFile(source: Source, start: nat, end: nat, p: nat)
    requires source.Recorded(end) && start <= end && p < |source.parts| && p == start / source.PartSize()
    ensures start < |source.File()|
  {
    hide Flatten, Source.Contents, Source.Readable, Source.Recorded, EqualParts, PartContent, Source.PartSize;
    RecordedSize(source, end);
    var size := source.PartSize();
    QuotientMonotone(start, end, size);
    StartInPart(start, p, size);
    ContentOfPart(source, end, p);
    PartPosition(source.Contents(), size, start, end, p);
  }

  /** A range that starts behind the last recorded part starts behind the end of the file. */
  lemma StartBeyond(source: Source, start: nat, end: nat)
    requires source.Recorded(end) && start <= end
    ensures source.PartSize() > 0
    ensures start / source.PartSize() >= |source.parts| ==> start >= |source.File()|
  {
    hide Flatten, Source.Contents, Source.Readable, Source.Recorded, EqualParts, PartContent, Source.PartSize;
    RecordedSize(source, end);
    var size, n := source.PartSize(), |source.parts|;
    QuotientMonotone(start, start, size);
    ContentOfPart(source, end, n - 1);
    WholeFile(source.Contents(), size, end);
    if start / size >= n {
      MulMonotone(n, start / size, size);
    }
  }

  lemma BetweenLength(s: seq<byte>, lo: nat, hi: nat)
    requires lo <= hi && lo <= |s|
    ensures |Between(s, lo, hi)| == Min(hi, |s|) - lo
  {
  }

  /** Nothing is left to want behind the last range, nor behind the last recorded part. */
  lemma NothingMore(source: Source, start: nat, end: nat, part: nat)
    requires source.Recorded(end) && start <= end && start / source.PartSize() < part
    ensures part == end / source.PartSize() + 1 && part <= |source.parts| ==> Missing(source, end) == 0
    ensures part == end / source.PartSize() + 1 || part == |source.parts| ==> Stretches(source, start, end, part) == []
    ensures part <= end / source.PartSize() && part >= |source.parts| ==> Missing(source, end) > 0
  {
    hide Flatten, Source.Contents, Source.Readable, Source.Recorded, EqualParts, PartContent, Between;
    RecordedSize(source, end);
    var size, n, q := source.PartSize(), |source.parts|, end / source.PartSize();
    ContentOfPart(source, end, n - 1);
    QuotientMonotone(start, end, size);
    WholeFile(source.Contents(), size, end);
    BetweenIsEmpty(source.File(), Max(start, part * size), end + 1);
    assert (q + 1) * size == q * size + size;
    if part <= n {
      MulMonotone(part, n, size);
    }
    if part <= q {
      MulMonotone(part, q, size);
    }
    if n <= part {
      MulMonotone(n, part, size);
    }
  }

  lemma DropData(data: seq<byte>, rest: seq<byte>, later: seq<byte>)
    ensures (data + rest + later)[|data|..] == rest + later
    ensures data + (rest + later) == data + rest + later
  {
  }

  lemma BetweenIsEmpty(s: seq<byte>, lo: nat, hi: nat)
    ensures lo >= hi || lo >= |s| ==> Between(s, lo, hi) == []
  {
  }

  lemma WholeFile(contents: seq<seq<byte>>, size: nat, end: nat)
    requires EqualParts(contents, size)
    requires end < |Flatten(contents)| || |contents[|contents| - 1]| == size
    ensures |Flatten(contents)| <= |contents| * size
    ensures end < |contents| * size ==> end < |Flatten(contents)|
  {
    hide Flatten;
    var n := |contents|;
    PartOfFile(contents, size, n - 1);
    assert (n - 1) * size + size == n * size;
  }

  lemma StartInPart(start: nat, part: nat, size: nat)
    requires size > 0 && part >= start / size
    ensures start - part * size < size
    ensures part == start / size ==> part * size <= start
  {
    QuotientMonotone(start, start, size);
    MulMonotone(start / size, part, size);
  }

  class LinearReader {
    const source: Source
    ghost const start: nat
    ghost const end: nat
    ghost const missing: nat           // how many bytes the record claims beyond what its parts hold
    const ranges: seq<Range>
    var pos: nat
    var reader: PartReader
    var remaining: int
    ghost var owed: seq<byte>

    ghost function Repr(): set<object>
      reads this, if reader.Decrypted? then {reader.decrypter} else {}
    {
      {this} + reader.Repr()
    }

    /** The part that the current range reads from. */
    ghost function PartNo(): nat
      reads this
      requires source.parts != [] && source.PartSize() > 0
    {
      start / source.PartSize() + pos
    }

    ghost predicate Planned() {
      source.Recorded(end) && IsPlan(ranges, start, end, source.PartSize())
    }

    /** Sound, and if anything is missing, the current part reader has some of it. */
    ghost predicate Valid()
      reads this, if reader.Decrypted? then {reader.decrypter} else {}, reader.Repr()
    {
      Sound() && (remaining > 0 ==> reader.Owed() != [])
    }

    ghost predicate Sound()
      reads this, if reader.Decrypted? then {reader.decrypter} else {}, reader.Repr()
    {
      && Open()
      && (source.Working() ==> reader.Reliable())
      && pos < |ranges| && PartNo() < |source.parts|
      && owed == reader.Owed() + Stretches(source, start, end, PartNo() + 1)
    }

    /** There is a part reader of the right kind, and the books are in order. */
    ghost predicate Open()
      reads this, if reader.Decrypted? then {reader.decrypter} else {}, reader.Repr()
    {
      && Planned() && source.Readable() && source.parts != [] && source.PartSize() > 0
      && this !in reader.Repr() && reader.Valid()
      && (source.encrypted <==> reader.Decrypted?) && (reader.Plain? ==> source.Accepted())
      && remaining == |owed| + missing && missing == Missing(source, end)
    }

    /** The state after the next part could not be opened: the reader of the part before, which is used up and closed,
        is still in place. Plain parts fail to open only behind the last one on record. */
    ghost predicate Lost()
      reads this, if reader.Decrypted? then {reader.decrypter} else {}, reader.Repr()
    {
      && Open() && remaining > 0 && reader.Owed() == []
      && (reader.Decrypted? ==> reader.decrypter.err == Some(Closed))
      && (reader.Plain? ==> owed == [] && PartNo() >= |source.parts|)
    }

    /** The state before the first read, when the reader of the first range has been opened. */
    constructor (source: Source, ghost start: nat, ghost end: nat, ranges: seq<Range>, reader: PartReader, remaining: int,
                 ghost owed: seq<byte>, ghost first: nat)
      requires source.Readable() && source.parts != [] && 0 < source.PartSize()
      requires source.Recorded(end) && IsPlan(ranges, start, end, source.PartSize()) && ranges != []
      requires first == start / source.PartSize() && first < |source.parts|
      requires reader.Valid() && reader.Owed() != [] && (source.Working() ==> reader.Reliable())
      requires (source.encrypted <==> reader.Decrypted?) && (reader.Plain? ==> source.Accepted())
      requires owed == reader.Owed() + Stretches(source, start, end, first + 1)
      requires remaining == |owed| + Missing(source, end)
      ensures Valid() && fresh(this) && this.reader == reader && this.owed == owed
      ensures this.source == source && this.start == start && this.end == end && missing == Missing(source, end)
    {
      hide Stretches, Missing, Source.Recorded, Source.Readable, Source.Working, Source.PartSize, IsPlan, Source.File;
      hide PartReader.Valid, PartReader.Owed, PartReader.Reliable;
      this.source, this.start, this.end, this.ranges := source, start, end, ranges;
      this.reader, this.remaining, this.owed, pos := reader, remaining, owed, 0;
      missing := Missing(source, end);
      new;
      assert this !in this.reader.Repr();
      assert this.reader.Valid() && this.owed == this.reader.Owed() + Stretches(source, start, end, PartNo() + 1);
    }

    /** Starts reading the bytes `start..end` of a file. */
    static method New(source: Source, start: nat, end: nat) returns (r: Result<LinearReader>)
      requires source.Recorded(end) && start <= end
      ensures r.Ok? ==>
        && fresh(r.value.Repr()) && r.value.Valid()
        && r.value.source == source && r.value.start == start && r.value.end == end
        && r.value.owed == Between(source.File(), start, end + 1)
      ensures source.parts != [] && source.PartSize() > 0
      ensures source.Working() ==> (r.Ok? <==> start / source.PartSize() < |source.parts|)
      ensures start / source.PartSize() >= |source.parts| ==> r == Err(PartsMismatch)
      ensures r != Err(Eof)
      ensures r.Ok? ==> r.value.missing == Missing(source, end)
    {
      hide Between, Stretches, Missing, Source.Recorded, Source.Readable, Source.Working, IsPlan, Source.File, PartContent;
      hide Source.PartSize, RangeOf, PartReader.Valid, PartReader.Owed, PartReader.Reliable;
      RecordedSize(source, end);
      var size := source.PartSize();
      var ranges := CalculatePartByteRanges(start, end, size);
      ghost var p := start / size;
      FirstRange(source, start, end, ranges, p);
      var first := GetPartReader(source, ranges[0]);
      if first.Err? {
        return Err(first.error);
      }
      FirstStretch(source, start, end, p);
      var made := new LinearReader(source, start, end, ranges, first.value, end - start + 1,
                                   Between(source.File(), start, end + 1), p);
      r := Ok(made);
    }

    /** Closes the reader of the current part and opens that of the next range. */
    method MoveToNextPart() returns (e: Option<Error>)
      requires remaining > 0 && ((Sound() && reader.Owed() == []) || (Lost() && reader.Plain?))
      modifies Repr()
      ensures owed == old(owed) && pos == old(pos) + 1
      ensures if e.None? then Valid() && pos < |ranges| && fresh(reader.Repr()) else Lost() && reader.Repr() <= old(reader.Repr())
      ensures old(Sound()) && e.Some? ==> pos < |ranges| && e != Some(Eof) && (reader.Plain? ==> e == Some(PartsMismatch))
      ensures old(Sound()) && source.Working() && e.Some? ==> e.value == PartsMismatch && owed == [] && missing > 0
      ensures old(Lost()) && old(reader).Plain? ==>
                reader.Plain? && e == Some(if pos < |ranges| then PartsMismatch else Eof)
      ensures old(reader.IsOpen()) ==> old(reader).Cancelled()
    {
      hide Stretches, Missing, Source.Recorded, Source.Readable, Source.Working, IsPlan, PartContent, RangeOf;
      hide PartReader.Valid, PartReader.Owed, PartReader.Reliable, PartReader.Repr, Source.PartSize, Source.Accepted;
      hide PartReader.IsOpen, PartReader.Cancelled, Decrypter.Repr, Decrypter.Valid, Reader.Valid, Reader.Obj, Reader.Cancelled;
      ghost var p := PartNo() + 1;
      PlanStarts(ranges, start, end, source.PartSize());
      if p <= |source.parts| {
        assert owed == Stretches(source, start, end, p);
        NothingMore(source, start, end, p);
      }
      reader.Close();
      pos := pos + 1;
      if pos >= |ranges| {
        return Some(Eof);
      }
      assert PartNo() == p;
      RangeInPart(source, start, end, ranges, pos);
      assert allocated(reader.Repr()) && (reader.Decrypted? ==> allocated(reader.decrypter));
      var next := GetPartReader(source, ranges[pos]);
      if next.Err? {
        return Some(next.error);
      }
      reader := next.value;
      assert this !in reader.Repr() && reader.Valid();
      return None;
    }

    /** A reader delivers exactly the bytes asked for, once and in order, also when it is read on after an error: no error
        makes it skip anything that is on record. Up to the first error it reports the end of file only after all bytes. If
        the record claims bytes that its parts do not hold, an error says so, after the bytes that there are; whoever
        reads on after that error of a plain file is told the same for every range left, and then the end of file. An
        encrypted file whose next part could not be opened remains closed. */
    method Read(size: nat) returns (data: seq<byte>, e: Option<Error>)
      requires Valid() || Lost()
      modifies Repr()
      ensures Valid() != Lost() && (reader.Repr() <= old(reader.Repr()) || fresh(reader.Repr()))
      ensures old(owed) == data + owed && |data| <= size
      ensures e == Some(Eof) ==> owed == []
      ensures e.None? ==> old(Valid()) && Valid()
      ensures old(Valid()) ==> pos <= |ranges| && pos >= old(pos)
      ensures old(Valid()) ==> (e == Some(Eof) ==> Valid() && missing == 0) && (Lost() && reader.Plain? ==> e == Some(PartsMismatch))
      ensures e.None? && size > 0 ==> data != [] || pos > old(pos)
      ensures old(Valid()) && source.Working() && e.Some? ==> owed == []
      ensures old(Valid()) && source.Working() && e.Some? ==> e.value == if missing == 0 then Eof else PartsMismatch
      ensures old(Lost()) ==> Lost() && data == [] && (reader.Plain? <==> old(reader).Plain?)
      ensures old(Lost()) ==>
        e == Some(if reader.Decrypted? then Closed else if pos < |ranges| then PartsMismatch else Eof)
        && pos == old(pos) + if reader.Plain? then 1 else 0
    {
      assert remaining == |owed| + missing && !(Valid() && Lost());
      hide Source.Working, Sound, Valid, Lost, PartReader.Repr, Decrypter.Repr;
      if remaining <= 0 {
        return [], Some(Eof);
      }
      data, e := ReadPart(size);
      if e == Some(Eof) && remaining > 0 {
        e := MoveToNextPart();
      }
    }

    /** Reads to the first error, with non-empty buffers of arbitrary sizes. */
    method ReadAll() returns (all: seq<byte>, e: Error)
      requires Valid()
      modifies Repr()
      ensures all <= old(owed)
      ensures e == Eof ==> all == old(owed) && missing == 0
      ensures source.Working() ==> all == old(owed) && e == if missing == 0 then Eof else PartsMismatch
    {
      hide Valid, Sound, PartReader.Repr, Decrypter.Repr, Source.Working;
      all := [];
      while true
        invariant Valid() && (reader.Repr() <= old(reader.Repr()) || fresh(reader.Repr()))
        invariant old(owed) == all + owed
        decreases |owed|, |ranges| - pos
      {
        var size: nat :| size > 0;
        var data, e' := Read(size);
        Regroup(all, data, owed);
        all := all + data;
        if e'.Some? {
          return all, e'.value;
        }
      }
    }

    /** Reads `n` times, past any errors. What comes out is still in order and without gaps, and an end of file means that
        all recorded bytes have come; it is reported for an incomplete record only after the error that says so. */
    method ReadOn(n: nat) returns (all: seq<byte>, errors: seq<Option<Error>>)
      requires Valid()
      modifies Repr()
      ensures |errors| == n && old(owed) == all + owed
      ensures Some(Eof) in errors ==> all == old(owed)
      ensures missing > 0 ==> Announced(errors)
    {
      assert !Lost();
      hide Valid, Sound, Lost, Open, PartReader.Repr, Decrypter.Repr, Source.Working, Announced;
      all, errors := [], [];
      AnnouncedStep([], None);
      for i := 0 to n
        invariant Valid() != Lost() && (reader.Repr() <= old(reader.Repr()) || fresh(reader.Repr()))
        invariant |errors| == i && old(owed) == all + owed && (Some(Eof) in errors ==> owed == [])
        invariant Lost() && reader.Plain? ==> Some(PartsMismatch) in errors
        invariant missing > 0 ==> Announced(errors)
      {
        var size: nat := *;
        var data, e := Read(size);
        AnnouncedStep(errors, e);
        Regroup(all, data, owed);
        all, errors := all + data, errors + [e];
      }
    }

    /** End to end: when no request fails and every part has its header, a range request returns exactly
        the bytes `start..end` of the file and then the end of file. In all cases what it returns is a
        prefix of them, and the end of file is reported only after the last of them. */
    static method ReadRange(source: Source, start: nat, end: nat) returns (data: seq<byte>, e: Error)
      requires source.Recorded(end) && start <= end
      ensures source.Working() && end < |source.File()| ==> data == source.File()[start..end + 1] && e == Eof
      ensures source.Working() && end >= |source.File()| ==>
                data == Between(source.File(), start, end + 1) && e == PartsMismatch
      ensures data <= Between(source.File(), start, end + 1)
      ensures e == Eof ==> end < |source.File()| && data == source.File()[start..end + 1]
    {
      hide Source.Recorded, Source.Working, Source.File, Source.PartSize, LinearReader.Valid, Decrypter.Valid;
      RecordedSize(source, end);
      StartBeyond(source, start, end);
      var made := New(source, start, end);
      if made.Err? {
        return [], made.error;
      }
      data, e := made.value.ReadAll();
    }

    /** Reads from the current part. */
    method ReadPart(size: nat) returns (data: seq<byte>, e: Option<Error>)
      requires (Valid() || Lost()) && remaining > 0
      modifies Repr()
      ensures reader == old(reader) && reader.Repr() <= old(reader.Repr()) && pos == old(pos)
      ensures old(owed) == data + owed && |data| <= size
      ensures old(Valid()) ==> pos < |ranges| && (e != Some(Eof) ==> Valid())
      ensures old(Valid()) && e == Some(Eof) ==> Sound() && reader.Owed() == []
      ensures old(Valid()) && e.None? && size > 0 ==> data != []
      ensures old(Valid()) && e == Some(Eof) && remaining <= 0 ==> Valid() && owed == [] && missing == 0
      ensures old(Valid()) && e.Some? && source.Working() ==> e.value == Eof
      ensures old(Lost()) ==> Lost() && data == [] && e == Some(if reader.Plain? then Eof else Closed)
    {
      hide Between, Stretches, Missing, Source.Recorded, Source.Readable, Source.Working, IsPlan, Source.File;
      hide PartReader.Valid, PartReader.Owed, PartReader.Reliable;
      ghost var later := if reader.Owed() != [] then Stretches(source, start, end, PartNo() + 1) else owed;
      data, e := reader.Read(size);
      remaining := remaining - |data|;
      DropData(data, reader.Owed(), later);
      owed := owed[|data|..];
    }

    /** Opens the reader of one range; a part that is not on record is an error. */
    static method GetPartReader(source: Source, range: Range) returns (r: Result<PartReader>)
      requires source.Readable() && range.start < 0x8000_0000_0000_0000
      requires range.partNo < |source.parts| ==>
                 range.start <= range.end < |PartContent(source.parts[range.partNo], source.encrypted)|
      ensures r.Ok? ==>
        && range.partNo < |source.parts|
        && r.value.Valid() && fresh(r.value.Repr())
        && r.value.Owed() == RangeOf(source, range)
        && (source.Working() ==> r.value.Reliable())
        && (source.encrypted <==> r.value.Decrypted?) && (r.value.Plain? ==> source.Accepted())
      ensures range.partNo >= |source.parts| <==> r == Err(PartsMismatch)
      ensures source.Working() && range.partNo < |source.parts| ==> r.Ok?
      ensures !source.encrypted && source.Accepted() && range.partNo < |source.parts| ==> r.Ok?
      ensures r != Err(Eof)
    {
      if range.partNo >= |source.parts| {
        return Err(PartsMismatch);
      }
      var part := source.parts[range.partNo];
      if source.encrypted {
        r := OpenEncrypted(source, part, range.start, range.end);
      } else {
        r := OpenPlain(source, part, range.start, range.end);
      }
    }

    static method OpenEncrypted(source: Source, part: Part, start: nat, end: nat) returns (r: Result<PartReader>)
      requires source.Readable() && source.encrypted && part in source.parts && start < 0x8000_0000_0000_0000
      requires start <= end < |PartContent(part, true)|
      ensures r.Ok? ==> r.value.Valid() && fresh(r.value.Repr()) && r.value.Owed() == PartContent(part, true)[start..end + 1]
      ensures r.Ok? ==> r.value.Decrypted?
      ensures r.Err? ==> IsOpenError(r.error)
      ensures source.Steady() && r.Err? ==> r.error == BadMagic && !HasHeader(part.stored)
      ensures r.Ok? && source.Working() ==> r.value.Reliable()
      ensures source.Working() ==> r.Ok?
      ensures r != Err(Eof)
    {
      hide Decrypter.Valid, HeadedUntearable, HasHeader, Content;
      var open := FromPart(part.stored, part.size, source.concurrency, source.threads, source.buffers, source.reliable);
      var made := Decrypter.NewSeek(part.box, open, start, end - start + 1);
      if made.Err? {
        return Err(made.error);
      }
      r := Ok(Decrypted(made.value));
    }

    static method OpenPlain(source: Source, part: Part, start: nat, end: nat) returns (r: Result<PartReader>)
      requires start <= end < |part.stored|
      ensures r.Ok? ==> r.value.Valid() && fresh(r.value.Repr()) && r.value.Owed() == part.stored[start..end + 1]
      ensures r.Ok? && source.Working() ==> r.value.Reliable()
      ensures (r.Ok? <==> source.Accepted()) && (r.Ok? ==> r.value.Plain?) && (r.Err? ==> r.error == InvalidRange)
      ensures r.Ok? ==> r.value.reader.IsFor(source.concurrency, source.threads, source.buffers)
      ensures r != Err(Eof)
    {
      if source.concurrency < 2 {
        var single := new TgReader(part.stored, start, end, source.reliable);
        r := Ok(Plain(Sequential(single)));
      } else if source.threads <= 0 {
        r := Err(InvalidRange);
      } else {
        var multi := new TgMultiReader(part.stored, start, end, source.threads, source.buffers, source.reliable);
        r := Ok(Plain(Parallel(multi)));
      }
    }
  }

  /** A plain file whose record claims a second part: the first error says so, the second is the bare end of file. */
  method MismatchThenEof(box: SecretBox) returns (first: Option<Error>, second: Option<Error>)
    ensures first == Some(PartsMismatch) && second == Some(Eof)
  {
    var source := Source([Part([7], box, 1, 1)], false, 1, 0, 0, true);
    assert source.Contents() == [[7]];
    assert Flatten([[7]]) == [7] by {
      assert [[7]][1..] == [] && [7] + [] == [7];
    }
    var made := LinearReader.New(source, 0, 1);
    var reader := made.value;
    assert reader.owed == [7] && reader.missing == 1;
    var data;
    data, first := reader.Read(1);
    data, second := reader.Read(1);
  }
}
