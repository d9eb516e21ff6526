/** The decrypting reader with random access. */
module Decryption {
  import opened Bytes
  import opened Nonce
  import opened Cipher
  import opened Readers
  import opened Encryption

  const OPEN_FAILED := Failure(4)

  /** How the underlying file is (re)opened at an offset, with an optional limit. */
  datatype OpenRangeSeek =
    | InMemory(bytes: seq<byte>, broken: bool)
    | FromPart(part: seq<byte>, size: nat, concurrency: int, threads: nat, buffers: nat, reliable: bool)
  {
    function File(): seq<byte> {
      match this
      case InMemory(b, _) => b
      case FromPart(p, _, _, _, _, _) => p
    }

    /** Opening and reading inside the file cannot fail. */
    predicate Reliable() {
      match this
      case InMemory(_, broken) => !broken
      case FromPart(_, _, concurrency, threads, _, reliable) => reliable && (concurrency >= 2 ==> threads > 0)
    }

    /** The recorded size of a part is right. */
    predicate Sized() {
      FromPart? ==> size == |part|
    }

    /** A part is opened as far as it goes only with a limit: without one the range ends at its first byte. */
    predicate Takes(limit: int) {
      FromPart? ==> limit >= 0
    }

    function Opened(offset: nat, limit: int): seq<byte>
      requires Sized() && (Takes(limit) || File() != [])
    {
      if Takes(limit) then Window(File(), offset, limit)
      else if offset == 0 then part[..1] else []
    }

    method Open(offset: nat, limit: int) returns (r: Result<Reader>)
      requires Sized() && (Takes(limit) || File() != [])
      ensures r.Ok? ==> r.value.Valid() && fresh(r.value.Obj()) && r.value.Owed() == Opened(offset, limit)
      ensures Reliable() && r.Ok? ==> r.value.Reliable()
      ensures Reliable() && limit != 0 && offset < |File()| && Takes(limit) ==> r.Ok?
      ensures InMemory? && Reliable() ==> r.Ok?
      ensures r.Err? ==> r.error in {OPEN_FAILED, InvalidRange}
      ensures Reliable() && r.Err? ==> r.error == InvalidRange && Opened(offset, limit) == []
      ensures r.Ok? && FromPart? ==> r.value.IsFor(concurrency, threads, buffers)
    {
      match this
      case InMemory(b, broken) =>
        if broken {
          if * {
            return Err(OPEN_FAILED);
          }
        }
        var stream := new ByteStream(Window(b, offset, limit), if broken then REQUEST_FAILED else Eof);
        r := Ok(Memory(stream));
      case FromPart(part, size, concurrency, threads, buffers, reliable) =>
        var end := if limit >= 0 then Min(size - 1, offset + limit - 1) else 0;
        if limit >= 0 {
          WindowIsRange(part, offset, limit, end);
        }
        if concurrency < 2 {
          var single := new TgReader(part, offset, end, reliable);
          r := Ok(Sequential(single));
        } else if end < offset || threads <= 0 {
          r := Err(InvalidRange);
        } else {
          var multi := new TgMultiReader(part, offset, end, threads, buffers, reliable);
          r := Ok(Parallel(multi));
        }
    }
  }

  lemma WindowIsRange(s: seq<byte>, offset: nat, limit: nat, end: int)
    requires end == Min(|s| - 1, offset + limit - 1)
    ensures Window(s, offset, limit) == if offset <= end then s[offset..end + 1] else []
  {
  }

  /** No block that arrives incompletely, because the connection broke inside it, authenticates. */
  ghost predicate Untearable(box: SecretBox, n0: seq<byte>, k: nat, c: seq<byte>)
    decreases |c|
  {
    && (forall m | BLOCK_HEADER_SIZE < m < Min(|c|, BLOCK_SIZE) :: box.open(c[..m], NonceAt(n0, k)).None?)
    && (|c| > BLOCK_SIZE ==> Untearable(box, n0, k + 1, c[BLOCK_SIZE..]))
  }

  lemma {:induction false} UntearableDrop(box: SecretBox, n0: seq<byte>, k: nat, c: seq<byte>, j: nat)
    requires Untearable(box, n0, k, c) && j * BLOCK_SIZE <= |c|
    ensures Untearable(box, n0, k + j, c[j * BLOCK_SIZE..])
    decreases j
  {
    if j == 0 {
      assert c[0..] == c;
    } else if |c| > BLOCK_SIZE {
      var rest := c[BLOCK_SIZE..];
      UntearableDrop(box, n0, k + 1, rest, j - 1);
      assert rest[(j - 1) * BLOCK_SIZE..] == c[j * BLOCK_SIZE..];
      assert k + 1 + (j - 1) == k + j;
    } else {
      assert c[j * BLOCK_SIZE..] == [];
    }
  }

  lemma {:induction false} UntearableTake(box: SecretBox, n0: seq<byte>, k: nat, c: seq<byte>, j: nat)
    requires Untearable(box, n0, k, c) && j * BLOCK_SIZE <= |c|
    ensures Untearable(box, n0, k, c[..j * BLOCK_SIZE])
    decreases j
  {
    if j > 0 {
      var cut := c[..j * BLOCK_SIZE];
      forall m | BLOCK_HEADER_SIZE < m < Min(|cut|, BLOCK_SIZE)
        ensures box.open(cut[..m], NonceAt(n0, k)).None?
      {
        assert cut[..m] == c[..m];
      }
      if |cut| > BLOCK_SIZE {
        UntearableTake(box, n0, k + 1, c[BLOCK_SIZE..], j - 1);
        assert cut[BLOCK_SIZE..] == c[BLOCK_SIZE..][..(j - 1) * BLOCK_SIZE];
      }
    }
  }

  /** A seek re-opens an untearable file at untearable bytes. */
  lemma UntearableWindow(box: SecretBox, n0: seq<byte>, c: seq<byte>, offset: nat, limit: int)
    requires Untearable(box, n0, 0, c)
    ensures var u := CalculateUnderlying(offset, limit);
            Untearable(box, n0, u.blocks, Window(c, u.offset - FILE_HEADER_SIZE, u.limit))
  {
    hide Untearable;
    var u := CalculateUnderlying(offset, limit);
    var from := u.blocks * BLOCK_SIZE;
    if from <= |c| {
      UntearableDrop(box, n0, 0, c, u.blocks);
      var tail := c[from..];
      if 0 <= u.limit < |tail| {
        UnderlyingIsTight(offset, limit);
        UntearableTake(box, n0, u.blocks, tail, u.limit / BLOCK_SIZE);
      }
    } else {
      assert Window(c, from, u.limit) == [];
      NothingTears(box, n0, u.blocks);
    }
  }

  lemma NonceAtStart(n0: seq<byte>)
    ensures NonceAt(n0, 0) == n0
  {
    DigitsOfValue(n0);
  }

  lemma NothingTears(box: SecretBox, n0: seq<byte>, k: nat)
    ensures Untearable(box, n0, k, [])
  {
  }

  /** With the stand-in, no file that was encrypted can be torn. */
  lemma {:induction false} TaggedBoxCannotBeTorn(n0: seq<byte>, k: nat, p: seq<byte>)
    ensures Untearable(TaggedBox(), n0, k, Encode(TaggedBox(), n0, k, p))
    decreases |p|
  {
    if p != [] {
      var box, n := TaggedBox(), Min(|p|, BLOCK_DATA_SIZE);
      var block, rest := box.seal(p[..n], NonceAt(n0, k)), Encode(box, n0, k + 1, p[n..]);
      TaggedBoxCannotBeTorn(n0, k + 1, p[n..]);
      TaggedBoxRejectsPrefixes(p[..n], NonceAt(n0, k), 0);
      FirstBlockTears(box, n0, k, block, rest, p[..n]);
    }
  }

  lemma FirstBlockTears(box: SecretBox, n0: seq<byte>, k: nat, block: seq<byte>, rest: seq<byte>, p: seq<byte>)
    requires box == TaggedBox() && block == box.seal(p, NonceAt(n0, k)) && |block| == |p| + BLOCK_HEADER_SIZE
    requires 0 < |p| <= BLOCK_DATA_SIZE && (|block| < BLOCK_SIZE ==> rest == []) && Untearable(box, n0, k + 1, rest)
    ensures Untearable(box, n0, k, block + rest)
  {
    hide NonceAt, TaggedBox;
    var c := block + rest;
    forall m | BLOCK_HEADER_SIZE < m < Min(|c|, BLOCK_SIZE)
      ensures box.open(c[..m], NonceAt(n0, k)).None?
    {
      assert c[..m] == block[..m];
      TaggedBoxRejectsPrefixes(p, NonceAt(n0, k), m);
    }
    if |c| > BLOCK_SIZE {
      assert c[BLOCK_SIZE..] == rest;
    }
  }

  /** One round of the decoder: `block` is what a filled read buffer holds, `rest` what follows it. */
  lemma DecodeRound(box: SecretBox, n0: seq<byte>, k: nat, block: seq<byte>, rest: seq<byte>)
    requires box.Lawful() && |block| <= BLOCK_SIZE && (|block| < BLOCK_SIZE ==> rest == [])
    ensures |block| == 0 ==> Decode(box, n0, k, block + rest) == Decoded([], Eof)
    ensures 0 < |block| <= BLOCK_HEADER_SIZE ==> Decode(box, n0, k, block + rest) == Decoded([], BadHeader)
    ensures |block| > BLOCK_HEADER_SIZE ==>
              Decode(box, n0, k, block + rest)
              == Decoded(OpenBlock(box, NonceAt(n0, k), block) + Decode(box, n0, k + 1, rest).bytes,
                         Decode(box, n0, k + 1, rest).end)
    ensures |block| < BLOCK_SIZE ==> Decode(box, n0, k + 1, rest).bytes == []
  {
    var c := block + rest;
    assert Min(|c|, BLOCK_SIZE) == |block|;
    assert c[..|block|] == block && c[|block|..] == rest;
  }

  /** The same for torn blocks. */
  lemma TornRound(box: SecretBox, n0: seq<byte>, k: nat, block: seq<byte>, rest: seq<byte>)
    requires |block| <= BLOCK_SIZE && Untearable(box, n0, k, block + rest)
    ensures |block| == BLOCK_SIZE ==> Untearable(box, n0, k + 1, rest)
    ensures BLOCK_HEADER_SIZE < |block| < BLOCK_SIZE && rest != [] ==> box.open(block, NonceAt(n0, k)).None?
  {
    var c := block + rest;
    assert c[..|block|] == block && c[|block|..] == rest;
    if rest == [] {
      NothingTears(box, n0, k + 1);
    }
  }

  /** What a filled buffer means: either it is a whole round of the decoder, or it is torn and
      does not authenticate. */
  lemma Arrived(box: SecretBox, n0: seq<byte>, k: nat, block: seq<byte>, rest: seq<byte>, reliable: bool)
    requires box.Lawful() && |block| <= BLOCK_SIZE && (reliable || Untearable(box, n0, k, block + rest))
    requires |block| < BLOCK_SIZE ==>
               rest == [] || (!reliable && |block| > BLOCK_HEADER_SIZE && box.open(block, NonceAt(n0, k)).Some?)
    ensures |block| < BLOCK_SIZE ==> rest == []
    ensures |block| > BLOCK_HEADER_SIZE ==> reliable || Untearable(box, n0, k + 1, rest)
    ensures |block| == 0 ==> Decode(box, n0, k, block + rest) == Decoded([], Eof)
    ensures 0 < |block| <= BLOCK_HEADER_SIZE ==> Decode(box, n0, k, block + rest) == Decoded([], BadHeader)
    ensures |block| > BLOCK_HEADER_SIZE ==>
              Decode(box, n0, k, block + rest)
              == Decoded(OpenBlock(box, NonceAt(n0, k), block) + Decode(box, n0, k + 1, rest).bytes,
                         Decode(box, n0, k + 1, rest).end)
    ensures |block| < BLOCK_SIZE ==> Decode(box, n0, k + 1, rest).bytes == []
  {
    hide Decode, Untearable, NonceAt;
    if !reliable {
      TornRound(box, n0, k, block, rest);
      NothingTears(box, n0, k + 1);
    }
    DecodeRound(box, n0, k, block, rest);
  }

  /** Why a file that can be read does not open: it has no header. A parallel part reader refuses an empty range, and a part
      that is opened at its start without a limit shows one byte. */
  predicate HeaderError(open: OpenRangeSeek, offset: nat, lim: int, e: Error) {
    if (offset == 0 && !open.Takes(lim)) || |open.File()| < FILE_HEADER_SIZE
    then e == TooShort || (e == InvalidRange && open.File() == [])
    else e == BadMagic && !HasHeader(open.File())
  }

  /** Why a seek in a file that can be read fails: nothing is left there, or not even a block header, or the block that it
      looks into ends before. */
  predicate SeekError(open: OpenRangeSeek, offset: nat, lim: int, e: Error)
    requires open.Sized() && (open.Takes(lim) || open.File() != [])
  {
    var u := CalculateUnderlying(offset, lim);
    if !open.Takes(u.limit) || |Window(open.File(), u.offset, u.limit)| == 0 then e == Eof || e == InvalidRange
    else if |Window(open.File(), u.offset, u.limit)| <= BLOCK_HEADER_SIZE then e == BadHeader
    else e == BadSeek
  }

  predicate IsOpenError(e: Error) {
    e.Failure? || e in {InvalidRange, TooShort, BadMagic, BadHeader, BadSeek, Eof}
  }

  class Decrypter {
    const box: SecretBox
    const open: Option<OpenRangeSeek>
    const nonce: array<byte>
    const initialNonce: seq<byte>
    var rc: Reader
    var buf: array?<byte>
    var readBuf: array?<byte>
    var bufIndex: nat
    var bufSize: nat
    var err: Option<Error>
    var limit: int
    ghost var nextBlock: nat             // the index of the next block
    ghost var owed: seq<byte>

    ghost function Repr(): set<object>
      reads this
    {
      {this, nonce, rc.Obj()} + (if buf == null then {} else {buf}) + (if readBuf == null then {} else {readBuf})
    }

    ghost predicate Buffers()
      reads this
    {
      && buf != null && readBuf != null && buf.Length == readBuf.Length == BLOCK_SIZE
      && buf != readBuf && buf != nonce && readBuf != nonce
      && rc.Obj() != buf && rc.Obj() != readBuf && rc.Obj() != nonce && rc.Obj() != this
    }

    /** What the blocks still unread will decode to. */
    ghost function Coming(): Decoded
      reads this, rc.Obj()
      requires box.Lawful()
    {
      Decode(box, initialNonce, nextBlock, rc.Owed())
    }

    /** The decoder stands before block `nextBlock` of an intact or damaged, but not torn, ciphertext. */
    ghost predicate Positioned()
      reads this, Repr()
    {
      && box.Lawful() && Buffers() && rc.Valid()
      && nonce[..] == NonceAt(initialNonce, nextBlock)
      && (rc.Reliable() || Untearable(box, initialNonce, nextBlock, rc.Owed()))
    }

    ghost predicate Valid()
      reads this, Repr()
    {
      && box.Lawful() && CanSeek(box, open, initialNonce) && |initialNonce| == nonce.Length == FILE_NONCE_SIZE
      && rc.Obj() != this && rc.Obj() != nonce && rc.Valid()
      && (err == Some(Eof) || err == Some(BadHeader) ==> owed == [])
      && (err.None? ==>
            && Positioned() && bufIndex <= bufSize <= BLOCK_DATA_SIZE
            && owed == Limited(buf[bufIndex..bufSize] + Coming().bytes, limit))
    }

    /** What the end of the stream will report when no limit comes first. */
    ghost function End(): Error
      reads this, rc.Obj()
      requires box.Lawful()
    {
      if err.Some? then err.value else Coming().end
    }

    ghost predicate Reliable()
      reads this, rc.Obj()
    {
      rc.Reliable()
    }

    /** The limit lies within the data, and is not reached yet. */
    ghost predicate WithinData()
      reads this
    {
      err.None? ==> 0 < limit == |owed|
    }

    constructor (box: SecretBox, open: Option<OpenRangeSeek>, rc: Reader, header: seq<byte>)
      requires box.Lawful() && |header| == FILE_HEADER_SIZE && rc.Valid()
      requires rc.Reliable() || Untearable(box, header[FILE_MAGIC_SIZE..], 0, rc.Owed())
      requires CanSeek(box, open, header[FILE_MAGIC_SIZE..])
      ensures Valid() && err.None? && limit < 0 && fresh(Repr() - {rc.Obj()})
      ensures this.box == box && this.open == open && this.rc == rc && initialNonce == header[FILE_MAGIC_SIZE..]
      ensures owed == Decode(box, initialNonce, 0, rc.Owed()).bytes && End() == Decode(box, initialNonce, 0, rc.Owed()).end
      ensures bufSize == 0
    {
      hide Reader.Valid, Reader.Owed, Reader.Reliable;
      hide Decode, Untearable, Digits, Value, NonceAt, CanSeek;
      var n0 := header[FILE_MAGIC_SIZE..];
      var counter, b, r := new byte[|n0|], new byte[BLOCK_SIZE], new byte[BLOCK_SIZE];
      this.box, this.open, this.rc, initialNonce, nonce := box, open, rc, n0, counter;
      buf, readBuf, bufIndex, bufSize, err, limit, nextBlock := b, r, 0, 0, None, -1, 0;
      owed := Decode(box, n0, 0, rc.Owed()).bytes;
      new;
      CopyInto(nonce, n0);
      assert nonce[..] == n0;
      NonceAtStart(n0);
      assert buf[0..0] == [] && [] + Coming().bytes == Coming().bytes == Limited(Coming().bytes, -1);
      hide Limited;
    }

    method Finish(e: Error)
      requires err.None?
      modifies this`err, this`buf, this`readBuf
      ensures err == Some(e) && buf == null && readBuf == null
    {
      err := Some(e);
      buf, readBuf := null, null;
    }

    method UnFinish()
      modifies this`err, this`buf, this`readBuf, this`bufIndex, this`bufSize
      ensures err == None && bufIndex == bufSize == 0
      ensures buf != null && readBuf != null && buf != readBuf && fresh(buf) && fresh(readBuf)
      ensures buf.Length == readBuf.Length == BLOCK_SIZE
    {
      err := None;
      buf, readBuf := new byte[BLOCK_SIZE], new byte[BLOCK_SIZE];
      bufIndex, bufSize := 0, 0;
    }

    /** Reads and opens the next block. */
    method FillBuffer() returns (e: Option<Error>)
      requires Positioned() && nonce.Length == |initialNonce|
      modifies rc.Obj(), buf, readBuf, nonce, this`bufIndex, this`bufSize, this`nextBlock
      ensures box.Lawful() && Buffers() && rc.Valid() && rc.Reliable() == old(rc.Reliable())
      ensures e.None? ==> Positioned() && bufIndex == 0 && 0 < bufSize <= BLOCK_DATA_SIZE
      ensures e.None? ==> buf[..bufSize] + Coming().bytes == old(Coming().bytes) && Coming().end == old(Coming().end)
      ensures e.None? ==> bufSize < BLOCK_DATA_SIZE ==> Coming().bytes == []
      ensures e.Some? && !e.value.Failure? ==> e.value == old(Coming().end) && old(Coming().bytes) == []
      ensures e.Some? && e.value.Failure? ==> !rc.Reliable()
    {
      hide Reader.Valid, Reader.Owed, Reader.Reliable;
      hide Decode, Untearable, Digits, Value, NonceAt, OpenBlock;
      ghost var pending := rc.Owed();
      var n, e' := ReadFill(rc, readBuf, BLOCK_SIZE);
      var block := readBuf[..n];
      assert pending == block + rc.Owed();
      var failed := e'.Some? && e'.value != Eof;
      var plain := if n > BLOCK_HEADER_SIZE then box.open(block, nonce[..]) else None;
      if failed && plain.None? {
        return e';
      }
      Arrived(box, initialNonce, nextBlock, block, rc.Owed(), rc.Reliable());
      if n == 0 {
        return e';
      }
      if n <= BLOCK_HEADER_SIZE {
        return Some(BadHeader);
      }
      Install(n, plain);
      return None;
    }

    /** Puts the opened block, or zeros for one that does not authenticate, into the buffer. */
    method Install(n: nat, plain: Option<seq<byte>>)
      requires box.Lawful() && Buffers() && BLOCK_HEADER_SIZE < n <= BLOCK_SIZE
      requires nonce[..] == NonceAt(initialNonce, nextBlock) && nonce.Length == |initialNonce|
      requires plain == box.open(readBuf[..n], nonce[..])
      modifies buf, nonce, this`bufIndex, this`bufSize, this`nextBlock
      ensures nextBlock == old(nextBlock) + 1 && nonce[..] == NonceAt(initialNonce, nextBlock)
      ensures bufIndex == 0 && bufSize == n - BLOCK_HEADER_SIZE
      ensures buf[..bufSize] == OpenBlock(box, NonceAt(initialNonce, old(nextBlock)), readBuf[..n])
    {
      hide Digits, Value, NonceAt;
      if plain.Some? {
        CopyInto(buf, plain.value);
      } else {
        for i := 0 to n
          modifies buf
          invariant forall j | 0 <= j < i :: buf[j] == 0
        {
          buf[i] := 0;
        }
      }
      bufIndex, bufSize := 0, n - BLOCK_HEADER_SIZE;
      assert nonce[..] == old(nonce[..]);
      NonceSteps(initialNonce, nextBlock, 1);
      Increment(nonce);
      nextBlock := nextBlock + 1;
    }

    method Read(size: nat) returns (data: seq<byte>, e: Option<Error>)
      requires Valid()
      modifies Repr()
      ensures Valid() && Repr() <= old(Repr()) && Reliable() == old(Reliable())
      ensures old(owed) == data + owed && |data| <= size
      ensures e == Some(Eof) || e == Some(BadHeader) ==> owed == []
      ensures e.None? && size > 0 ==> data != []
      ensures e.Some? && !(e == Some(Eof)) ==> data == []
      ensures old(err.None?) && Reliable() && e.Some? ==>
                e.value == old(End()) || (e.value == Eof && old(limit) >= 0)
      ensures e.None? ==> err.None? && End() == old(End()) && (limit < 0 <==> old(limit) < 0)
      ensures old(err.Some?) ==> e == old(err)
      ensures e.Some? ==> err == e
      ensures old(WithinData()) ==> WithinData()
      ensures old(err.None?) && old(owed) != [] && Reliable() ==> e.None? || e == Some(Eof)
    {
      hide Reader.Valid, Reader.Owed, Reader.Reliable;
      hide Decode, Untearable, Digits, Value, NonceAt, CanSeek;
      if err.Some? {
        return [], err;
      }
      if bufIndex >= bufSize {
        assert buf[bufIndex..bufSize] + Coming().bytes == Coming().bytes;
        e := FillBuffer();
        if e.Some? {
          Finish(e.value);
          return [], e;
        }
        assert buf[bufIndex..bufSize] == buf[..bufSize];
      }
      data, e := CopyOut(size);
    }

    /** Hands out buffered bytes, up to the limit. */
    method CopyOut(size: nat) returns (data: seq<byte>, e: Option<Error>)
      requires Valid() && err.None? && bufIndex < bufSize
      modifies this`bufIndex, this`limit, this`err, this`buf, this`readBuf, this`owed
      ensures Valid() && rc == old(rc) && Repr() <= old(Repr())
      ensures old(owed) == data + owed && |data| <= size
      ensures e.Some? ==> e.value == Eof && err == e && owed == [] && old(limit) >= 0
      ensures e.None? && size > 0 ==> data != []
      ensures e.None? ==> err.None? && End() == old(End()) && (limit < 0 <==> old(limit) < 0)
      ensures old(WithinData()) ==> WithinData()
    {
      hide Reader.Valid, Reader.Owed, Reader.Reliable;
      hide Decode, Untearable, Digits, Value, NonceAt, CanSeek, Limited;
      ghost var buffered, coming := buf[bufIndex..bufSize], Coming().bytes;
      var toCopy := bufSize - bufIndex;
      if limit >= 0 && limit < toCopy {
        toCopy := limit;
      }
      var n := Min(size, toCopy);
      data := buf[bufIndex..bufIndex + n];
      assert data == buffered[..n];
      LimitedSplit(buffered, coming, limit, n);
      bufIndex := bufIndex + n;
      assert buf[bufIndex..bufSize] == buffered[n..];
      owed := owed[n..];
      e := None;
      if limit >= 0 {
        limit := limit - n;
        if limit == 0 {
          LimitZero(buffered[n..] + coming);
          Finish(Eof);
          e := Some(Eof);
        }
      }
    }

    /** The error that finishing with `e` leaves behind. */
    method FinishWith(e: Error) returns (left: Error)
      requires Valid() && (e == Eof || e == BadHeader ==> owed == [])
      modifies this`err, this`buf, this`readBuf
      ensures Valid() && Repr() <= old(Repr()) && err == Some(left)
      ensures left == if old(err).Some? then old(err).value else e
    {
      if err.None? {
        Finish(e);
      }
      left := err.value;
    }

    /** Moves to `offset` and limits what follows to `lim` bytes, if `lim` is not negative. Also works
        after the end of file was reached. For an underlying file that does not fail, it succeeds
        exactly for offsets up to the last data byte, and at the very end of the data if that lies
        inside a block. */
    method RangeSeek(offset: nat, fromStart: bool, lim: int) returns (r: Result<nat>)
      requires Valid() && offset < 0x8000_0000_0000_0000
      requires open.Some? ==> open.value.Sized()
      modifies Repr()
      ensures Valid() && fresh(Repr() - old(Repr()))
      ensures r.Ok? ==>
        && r.value == offset && open.Some? && open.value.Takes(lim) && fromStart && old(err) in {None, Some(Eof)}
        && err.None? && limit == lim && offset <= |Content(box, open.value.File()).bytes|
        && owed == Limited(Content(box, open.value.File()).bytes[offset..], lim)
        && (open.value.Reliable() ==> Reliable())
        && (End() == Content(box, open.value.File()).end || (lim >= 0 && End() == Eof))
      ensures open.Some? && open.value.Reliable() && fromStart && old(err) in {None, Some(Eof)} ==>
        (r.Ok? <==> open.value.Takes(lim) && IsSeekable(offset, |Content(box, open.value.File()).bytes|))
      ensures open.Some? && fromStart && r == Err(Eof) ==>
        !(open.value.Takes(lim) && IsSeekable(offset, |Content(box, open.value.File()).bytes|))
      ensures old(err) in {None, Some(Eof)} && open.Some? && fromStart && r.Err? ==>
        if open.value.Reliable() then SeekError(open.value, offset, lim, r.error) else IsOpenError(r.error)
      ensures old(err) !in {None, Some(Eof)} ==> r == Err(old(err).value)
      ensures old(err).None? && (open.None? || !fromStart) ==> r == Err(CannotSeek)
    {
      hide Reader.Valid, Reader.Owed, Reader.Reliable;
      hide Decode, Untearable, Digits, Value, NonceAt, OpenBlock, CanSeek, HeadedUntearable, CalculateUnderlying;
      hide OpenRangeSeek.File, OpenRangeSeek.Reliable, Content, IsSeekable, Limited;
      if open.None? {
        var left := FinishWith(CannotSeek);
        return Err(left);
      }
      if !fromStart {
        var left := FinishWith(CannotSeek);
        return Err(left);
      }
      if err == Some(Eof) {
        UnFinish();
      } else if err.Some? {
        return Err(err.value);
      }
      r := Reopen(offset, lim);
    }

    /** The part of a seek that opens the file again, once it is clear that the decrypter may go on. */
    method Reopen(offset: nat, lim: int) returns (r: Result<nat>)
      requires box.Lawful() && CanSeek(box, open, initialNonce) && |initialNonce| == nonce.Length == FILE_NONCE_SIZE
      requires rc.Obj() != this && rc.Obj() != nonce && rc.Valid() && err.None? && Buffers()
      requires open.Some? && open.value.Sized() && offset < 0x8000_0000_0000_0000
      modifies Repr()
      ensures Valid() && fresh(Repr() - old(Repr()))
      ensures r.Ok? ==>
        && r.value == offset && open.value.Takes(lim) && err.None? && limit == lim
        && offset <= |Content(box, open.value.File()).bytes|
        && owed == Limited(Content(box, open.value.File()).bytes[offset..], lim)
        && (open.value.Reliable() ==> Reliable())
        && (End() == Content(box, open.value.File()).end || (lim >= 0 && End() == Eof))
      ensures open.value.Reliable() ==>
        (r.Ok? <==> open.value.Takes(lim) && IsSeekable(offset, |Content(box, open.value.File()).bytes|))
      ensures r == Err(Eof) ==>
        !(open.value.Takes(lim) && IsSeekable(offset, |Content(box, open.value.File()).bytes|))
      ensures r.Err? ==> if open.value.Reliable() then SeekError(open.value, offset, lim, r.error) else IsOpenError(r.error)
    {
      hide Reader.Valid, Reader.Owed, Reader.Reliable;
      hide Decode, Untearable, Digits, Value, NonceAt, OpenBlock, CanSeek, HeadedUntearable, CalculateUnderlying;
      hide OpenRangeSeek.File, OpenRangeSeek.Reliable, OpenRangeSeek.Takes, OpenRangeSeek.Opened, SeekError;
      hide Content, IsSeekable, Limited;
      var u := CalculateUnderlying(offset, lim);
      ReopenFinds(box, open.value, initialNonce, offset, lim);
      SeekErrors(box, open.value, initialNonce, offset, lim);
      ghost var d := Decode(box, initialNonce, u.blocks, open.value.Opened(u.offset, u.limit));
      SetNonce(u.blocks);
      var reopened := open.value.Open(u.offset, u.limit);
      if reopened.Err? {
        Fail(reopened.error);
        return Err(reopened.error);
      }
      rc := reopened.value;
      var e := FillBuffer();
      if e.Some? {
        Fail(e.value);
        return Err(e.value);
      }
      assert |d.bytes| == bufSize + |Coming().bytes|;
      if u.discard > bufSize {
        Fail(BadSeek);
        return Err(BadSeek);
      }
      Land(u.discard, lim, d.bytes);
      r := Ok(offset);
    }

    method SetNonce(blocks: nat)
      requires |initialNonce| == nonce.Length == FILE_NONCE_SIZE && blocks < Shift(1, 8)
      modifies nonce, this`nextBlock
      ensures nextBlock == blocks && nonce[..] == NonceAt(initialNonce, blocks)
    {
      hide Digits, Value, NonceAt, Shift;
      CopyInto(nonce, initialNonce);
      assert nonce[..] == initialNonce;
      Add(nonce, blocks);
      NonceAtIsAdd(initialNonce, blocks);
      nextBlock := blocks;
    }

    /** A failed seek leaves the decrypter finished. */
    method Fail(e: Error)
      requires err.None? && box.Lawful() && CanSeek(box, open, initialNonce)
      requires |initialNonce| == nonce.Length == FILE_NONCE_SIZE && rc.Obj() != this && rc.Obj() != nonce && rc.Valid()
      modifies this`err, this`buf, this`readBuf, this`owed
      ensures Valid() && err == Some(e) && buf == null && readBuf == null
    {
      hide Reader.Valid, Reader.Owed, Reader.Reliable;
      hide CanSeek;
      owed := [];
      Finish(e);
    }

    /** A successful seek drops the bytes before the offset and sets the limit. */
    method Land(discard: nat, lim: int, ghost found: seq<byte>)
      requires Positioned() && err.None? && discard <= bufSize <= BLOCK_DATA_SIZE && CanSeek(box, open, initialNonce)
      requires |initialNonce| == nonce.Length == FILE_NONCE_SIZE
      requires found == buf[..bufSize] + Coming().bytes
      modifies this`bufIndex, this`limit, this`owed
      ensures Valid() && err.None? && limit == lim && discard <= |found| && owed == Limited(found[discard..], lim)
      ensures Reliable() == old(rc.Reliable()) && End() == old(Coming().end)
    {
      hide Reader.Valid, Reader.Owed, Reader.Reliable;
      hide Decode, Untearable, NonceAt, CanSeek, Limited;
      DropFront(buf[..bufSize], Coming().bytes, discard);
      bufIndex, limit := discard, lim;
      assert buf[..bufSize][bufIndex..] == buf[bufIndex..bufSize];
      owed := Limited(found[discard..], lim);
    }

    /** Reads the header and makes a decrypter for what follows. */
    static method New(box: SecretBox, open: Option<OpenRangeSeek>, rc: Reader) returns (r: Result<Decrypter>)
      requires box.Lawful() && rc.Valid()
      requires rc.Reliable() || HeadedUntearable(box, rc.Owed())
      requires open.Some? ==> SameHeader(rc.Owed(), open.value.File())
      requires open.Some? ==> open.value.Reliable() || HeadedUntearable(box, open.value.File())
      modifies rc.Obj()
      ensures rc.Valid() && rc.Reliable() == old(rc.Reliable())
      ensures r.Ok? ==>
        && HasHeader(old(rc.Owed())) && r.value.Valid() && r.value.err.None? && r.value.limit < 0
        && r.value.bufSize == 0 && fresh(r.value.Repr() - {rc.Obj()})
        && r.value.box == box && r.value.open == open && r.value.rc == rc
        && r.value.initialNonce == HeaderNonce(old(rc.Owed()))
        && r.value.owed == Content(box, old(rc.Owed())).bytes && r.value.End() == Content(box, old(rc.Owed())).end
      ensures old(rc.Reliable()) ==> (r.Ok? <==> HasHeader(old(rc.Owed())))
      ensures old(rc.Reliable()) && r.Err? ==>
                r.error == if |old(rc.Owed())| < FILE_HEADER_SIZE then TooShort else BadMagic
      ensures r.Err? ==> r.error != Eof && IsOpenError(r.error)
    {
      hide Reader.Valid, Reader.Owed, Reader.Reliable;
      hide Decode, Untearable, Digits, Value, CanSeek, SameHeader, OpenRangeSeek.Reliable, OpenRangeSeek.File;
      ghost var all := rc.Owed();
      var headerBuf := new byte[FILE_HEADER_SIZE];
      var n, e := ReadFill(rc, headerBuf, FILE_HEADER_SIZE);
      if n < FILE_HEADER_SIZE && e == Some(Eof) {
        assert |all| == n;
        return Err(TooShort);
      } else if e.Some? && e != Some(Eof) {
        return Err(e.value);
      }
      var header := headerBuf[..];
      assert header == headerBuf[..n] == all[..FILE_HEADER_SIZE] && rc.Owed() == all[FILE_HEADER_SIZE..];
      assert header[..FILE_MAGIC_SIZE] == all[..FILE_MAGIC_SIZE] && header[FILE_MAGIC_SIZE..] == HeaderNonce(all);
      if header[..FILE_MAGIC_SIZE] != FILE_MAGIC {
        return Err(BadMagic);
      }
      if open.Some? {
        SeekSharesHeader(box, open.value, all);
      }
      NoSeek(box, header[FILE_MAGIC_SIZE..]);
      var d := new Decrypter(box, open, rc, header);
      r := Ok(d);
    }

    /** Opens an encrypted file at `offset` for at most `lim` bytes. */
    static method NewSeek(box: SecretBox, open: OpenRangeSeek, offset: nat, lim: int) returns (r: Result<Decrypter>)
      requires box.Lawful() && offset < 0x8000_0000_0000_0000 && open.Sized() && (open.Takes(lim) || open.File() != [])
      requires open.Reliable() || HeadedUntearable(box, open.File())
      ensures r.Ok? ==>
        && HasHeader(open.File()) && open.Takes(lim) && fresh(r.value.Repr()) && r.value.Valid() && r.value.err.None?
        && r.value.open == Some(open) && r.value.box == box && (r.value.limit == lim || (r.value.limit < 0 && lim < 0))
        && offset <= |Content(box, open.File()).bytes|
        && r.value.owed == Limited(Content(box, open.File()).bytes[offset..], lim)
        && (open.Reliable() ==> r.value.Reliable())
        && (r.value.End() == Content(box, open.File()).end || (lim >= 0 && r.value.End() == Eof))
      ensures open.Reliable() ==>
        (r.Ok? <==> HasHeader(open.File()) && open.Takes(lim)
                    && (offset == 0 || IsSeekable(offset, |Content(box, open.File()).bytes|)))
      ensures r == Err(Eof) ==>
        && offset != 0 && |open.File()| >= FILE_HEADER_SIZE
        && !(open.Takes(lim) && IsSeekable(offset, |Content(box, open.File()).bytes|))
      ensures r.Err? ==> IsOpenError(r.error)
      ensures open.Reliable() && r.Err? ==>
        HeaderError(open, offset, lim, r.error) || (HasHeader(open.File()) && SeekError(open, offset, lim, r.error))
    {
      hide Reader.Valid, Reader.Owed, Reader.Reliable, Decrypter.Positioned;
      hide Decode, Untearable, Digits, Value, NonceAt, CanSeek, HeadedUntearable, CalculateUnderlying;
      hide OpenRangeSeek.File, OpenRangeSeek.Reliable, OpenRangeSeek.Takes, Content, IsSeekable, HeaderNonce;
      var made := OpenStart(box, open, offset, lim);
      if made.Err? {
        return made;
      }
      var d := made.value;
      ghost var content := Content(box, open.File()).bytes;
      assert content[0..] == content;
      if offset != 0 {
        var sought := d.RangeSeek(offset, true, lim);
        if sought.Err? {
          return Err(sought.error);
        }
      } else if lim >= 0 {
        d.SetLimit(lim);
      }
      r := Ok(d);
    }

    /** The first opening: at offset 0 as far as the limit needs, otherwise of the header alone. */
    static method OpenStart(box: SecretBox, open: OpenRangeSeek, offset: nat, lim: int) returns (r: Result<Decrypter>)
      requires box.Lawful() && open.Sized() && (open.Takes(lim) || open.File() != [])
      requires open.Reliable() || HeadedUntearable(box, open.File())
      ensures r.Ok? ==>
        && HasHeader(open.File()) && fresh(r.value.Repr()) && r.value.Valid() && r.value.err.None?
        && r.value.open == Some(open) && r.value.box == box && r.value.limit < 0 && r.value.bufSize == 0
        && (open.Reliable() ==> r.value.Reliable())
      ensures r.Ok? && offset == 0 ==>
        && open.Takes(lim)
        && Limited(r.value.owed, lim) == Limited(Content(box, open.File()).bytes, lim)
        && (lim < 0 ==> r.value.owed == Content(box, open.File()).bytes)
        && (r.value.End() == Content(box, open.File()).end || (lim >= 0 && r.value.End() == Eof))
      ensures open.Reliable() ==> (r.Ok? <==> HasHeader(open.File()) && (offset == 0 ==> open.Takes(lim)))
      ensures r.Err? ==> r.error != Eof && IsOpenError(r.error)
      ensures open.Reliable() && r.Err? ==> HeaderError(open, offset, lim, r.error)
    {
      hide Reader.Valid, Reader.Owed, Reader.Reliable;
      hide Decode, Untearable, Digits, Value, NonceAt, CanSeek, HeadedUntearable, CalculateUnderlying;
      hide OpenRangeSeek.File, OpenRangeSeek.Reliable, Content, HeaderNonce, SameHeader;
      var underlyingLimit := FILE_HEADER_SIZE;
      if offset == 0 && lim < 0 {
        underlyingLimit := -1;
      } else if offset == 0 {
        UnderlyingBlocks(offset, lim);
        underlyingLimit := FILE_HEADER_SIZE + CalculateUnderlying(offset, lim).limit;
      }
      OpenedHeader(box, open, underlyingLimit, lim);
      if open.File() != [] {
        OneByteHasNoHeader(box, open);
      }
      var source := open.Open(0, underlyingLimit);
      if source.Err? {
        NothingAtStart(open, underlyingLimit);
        return Err(source.error);
      }
      r := New(box, Some(open), source.value);
    }

    method SetLimit(lim: nat)
      requires Valid() && err.None? && limit < 0 && bufSize == 0
      modifies this`limit, this`owed
      ensures Valid() && err.None? && limit == lim && owed == Limited(old(owed), lim)
      ensures Reliable() == old(Reliable()) && End() == old(End()) && Repr() == old(Repr())
    {
      hide Reader.Valid, Reader.Owed, Reader.Reliable;
      hide Decode, Untearable, NonceAt, CanSeek;
      assert buf[bufIndex..bufSize] + Coming().bytes == Coming().bytes;
      limit := lim;
      owed := Limited(owed, lim);
    }

    /** A closed decrypter keeps reporting that it is closed; it releases its buffers, and its source is closed. */
    method Close()
      requires Valid()
      modifies Repr()
      ensures Valid() && Repr() <= old(Repr()) && err == Some(Closed) && owed == old(owed)
      ensures rc == old(rc) && (old(err) != Some(Closed) ==> rc.Cancelled())
    {
      hide Reader.Valid, Reader.Owed, Reader.Reliable, Reader.Cancelled, CanSeek;
      if err == Some(Closed) {
        return;
      }
      if err.None? {
        Finish(Eof);
      }
      err := Some(Closed);
      rc.Close();
    }

    /** Reads to the first error with non-empty buffers of arbitrary sizes. */
    method ReadAll() returns (all: seq<byte>, e: Error)
      requires Valid()
      modifies Repr()
      ensures Valid() && Repr() <= old(Repr()) && old(owed) == all + owed && err == Some(e)
      ensures e == Eof || e == BadHeader ==> all == old(owed)
      ensures old(err.None?) && old(Reliable()) ==> e == old(End()) || (e == Eof && old(limit) >= 0)
    {
      assert box.Lawful();
      hide *;
      all := [];
      while true
        invariant Valid() && Repr() <= old(Repr()) && old(owed) == all + owed && Reliable() == old(Reliable())
        invariant old(err.None?) ==> err.None? && End() == old(End()) && (limit < 0 <==> old(limit) < 0)
        decreases |owed|
      {
        var size: nat :| size > 0;
        var data, e' := Read(size);
        Regroup(all, data, owed);
        all := all + data;
        if e'.Some? {
          return all, e'.value;
        }
      }
    }
  }

  /** Handing out the first `n` bytes of a limited stream. */
  lemma LimitedSplit(a: seq<byte>, b: seq<byte>, limit: int, n: nat)
    requires n <= |a| && (limit >= 0 ==> n <= limit)
    ensures n <= |Limited(a + b, limit)|
    ensures Limited(a + b, limit) == a[..n] + Limited(a + b, limit)[n..]
    ensures Limited(a + b, limit)[n..] == Limited(a[n..] + b, if limit >= 0 then limit - n else limit)
  {
    assert (a + b)[n..] == a[n..] + b;
  }

  lemma DropFront(a: seq<byte>, b: seq<byte>, n: nat)
    requires n <= |a|
    ensures (a + b)[n..] == a[n..] + b
  {
  }

  /** The header, and with it the beginning of the body, as a decrypter first opens it. */
  lemma OpenedHeader(box: SecretBox, open: OpenRangeSeek, upTo: int, lim: int)
    requires box.Lawful() && (open.Reliable() || HeadedUntearable(box, open.File()))
    requires upTo < 0 || upTo == FILE_HEADER_SIZE ||
             (lim >= 0 && upTo == FILE_HEADER_SIZE + CalculateUnderlying(0, lim).limit)
    ensures var all, file := Window(open.File(), 0, upTo), open.File();
            && (open.Reliable() || HeadedUntearable(box, all)) && |all| <= |file|
            && SameHeader(all, file) && (HasHeader(all) <==> HasHeader(file))
            && (|file| >= FILE_HEADER_SIZE ==> |all| >= FILE_HEADER_SIZE && HeaderNonce(all) == HeaderNonce(file))
            && (|file| >= FILE_HEADER_SIZE && upTo < 0 ==> Content(box, all) == Content(box, file))
            && (|file| >= FILE_HEADER_SIZE && lim >= 0 && upTo > FILE_HEADER_SIZE ==>
                  && Limited(Content(box, all).bytes, lim) == Limited(Content(box, file).bytes, lim)
                  && (Content(box, all).end == Content(box, file).end || Content(box, all).end == Eof))
  {
    hide Decode, Untearable, CalculateUnderlying, NonceAt;
    var file := open.File();
    var all := Window(file, 0, upTo);
    assert file[0..] == file;
    UnderlyingBlocks(0, lim);
    if upTo < 0 || |file| <= upTo {
      assert all == file;
    } else {
      assert all == file[..upTo];
      assert all[..FILE_MAGIC_SIZE] == file[..FILE_MAGIC_SIZE] && all[..FILE_HEADER_SIZE] == file[..FILE_HEADER_SIZE];
      assert HeaderNonce(all) == HeaderNonce(file);
      var body := file[FILE_HEADER_SIZE..];
      assert all[FILE_HEADER_SIZE..] == body[..upTo - FILE_HEADER_SIZE];
      NothingTears(box, HeaderNonce(file), 0);
      if upTo > FILE_HEADER_SIZE {
        var u := CalculateUnderlying(0, lim);
        assert body[0..] == body && Window(body, 0, u.limit) == all[FILE_HEADER_SIZE..];
        if !open.Reliable() {
          UntearableWindow(box, HeaderNonce(file), body, 0, lim);
        }
        SeekIsSlice(box, HeaderNonce(file), body, 0, lim);
        var d, content := Decode(box, HeaderNonce(file), 0, all[FILE_HEADER_SIZE..]).bytes, Content(box, file).bytes;
        assert d[0..] == d && content[0..] == content;
      }
    }
  }

  /** The same for what a seek really opens: without a limit a part shows nothing from an offset on. */
  lemma ReopenFinds(box: SecretBox, open: OpenRangeSeek, n0: seq<byte>, offset: nat, lim: int)
    requires box.Lawful() && open.Sized() && CanSeek(box, Some(open), n0) && offset < 0x8000_0000_0000_0000
    ensures |open.File()| >= FILE_HEADER_SIZE && (open.Takes(CalculateUnderlying(offset, lim).limit) || open.File() != [])
    ensures var u, content := CalculateUnderlying(offset, lim), Content(box, open.File());
            var w := open.Opened(u.offset, u.limit);
            var d := Decode(box, n0, u.blocks, w);
            && u.blocks < Shift(1, 8) && u.discard < BLOCK_DATA_SIZE && u.limit != 0
            && (open.Reliable() || Untearable(box, n0, u.blocks, w))
            && (open.Takes(lim) && IsSeekable(offset, |content.bytes|) <==> d.bytes != [] && u.discard <= |d.bytes|)
            && (d.bytes != [] ==> u.offset < |open.File()| && open.Takes(u.limit) && open.Takes(lim))
            && (d.bytes != [] && u.discard <= |d.bytes| ==>
                  && offset <= |content.bytes|
                  && Limited(d.bytes[u.discard..], lim) == Limited(content.bytes[offset..], lim)
                  && (d.end == content.end || (lim >= 0 && d.end == Eof)))
  {
    SeekFinds(box, open, n0, offset, lim);
    UnderlyingBlocks(offset, lim);
    hide Untearable, CalculateUnderlying, Limited, Shift, Content, CanSeek, IsSeekable;
    NothingTears(box, n0, CalculateUnderlying(offset, lim).blocks);
  }

  lemma NothingAtStart(open: OpenRangeSeek, limit: int)
    requires open.Sized() && (open.Takes(limit) || open.File() != []) && limit != 0
    ensures open.Opened(0, limit) == [] ==> open.File() == []
  {
    if open.File() != [] {
      assert open.Takes(limit) ==> |Window(open.File(), 0, limit)| > 0;
      assert !open.Takes(limit) ==> |open.part[..1]| == 1;
    }
  }

  lemma SeekErrors(box: SecretBox, open: OpenRangeSeek, n0: seq<byte>, offset: nat, lim: int)
    requires box.Lawful() && open.Sized() && (open.Takes(lim) || open.File() != [])
    ensures open.Takes(CalculateUnderlying(offset, lim).limit) || open.File() != []
    ensures var u := CalculateUnderlying(offset, lim);
            var w := open.Opened(u.offset, u.limit);
            var d := Decode(box, n0, u.blocks, w);
            && d.end in {Eof, BadHeader}
            && (w == [] ==> SeekError(open, offset, lim, InvalidRange))
            && (d.bytes == [] ==> SeekError(open, offset, lim, d.end))
            && (d.bytes != [] ==> SeekError(open, offset, lim, BadSeek))
  {
    hide CalculateUnderlying, NonceAt, OpenBlock;
    UnderlyingBlocks(offset, lim);
    var u := CalculateUnderlying(offset, lim);
    DecodeSize(box, n0, u.blocks, open.Opened(u.offset, u.limit));
  }

  /** A part opened at its start without a limit shows one byte, which holds no header. */
  lemma OneByteHasNoHeader(box: SecretBox, open: OpenRangeSeek)
    requires open.Sized() && open.File() != []
    ensures var all := open.Opened(0, -1);
            open.Takes(-1) || (|all| == 1 && !HasHeader(all) && HeadedUntearable(box, all) && SameHeader(all, open.File()))
  {
  }

  /** All about the window of blocks that a seek opens. */
  lemma SeekFinds(box: SecretBox, open: OpenRangeSeek, n0: seq<byte>, offset: nat, lim: int)
    requires box.Lawful() && CanSeek(box, Some(open), n0) && offset < 0x8000_0000_0000_0000
    ensures |open.File()| >= FILE_HEADER_SIZE
    ensures var u, content := CalculateUnderlying(offset, lim), Content(box, open.File());
            var w := Window(open.File(), u.offset, u.limit);
            var d := Decode(box, n0, u.blocks, w);
            && u.blocks < Shift(1, 8) && u.discard < BLOCK_DATA_SIZE
            && (u.limit < 0 <==> lim < 0) && u.limit != 0
            && (open.Reliable() || Untearable(box, n0, u.blocks, w))
            && (IsSeekable(offset, |content.bytes|) <==> d.bytes != [] && u.discard <= |d.bytes|)
            && (d.bytes != [] ==> u.offset < |open.File()|)
            && (d.bytes != [] && u.discard <= |d.bytes| ==>
                  && offset <= |content.bytes|
                  && Limited(d.bytes[u.discard..], lim) == Limited(content.bytes[offset..], lim)
                  && (d.end == content.end || (lim >= 0 && d.end == Eof)))
  {
    hide Decode, Untearable, CalculateUnderlying, Limited, Shift, DataSize;
    var u, file := CalculateUnderlying(offset, lim), open.File();
    var body := file[FILE_HEADER_SIZE..];
    UnderlyingBlocks(offset, lim);
    BlocksFitIn64Bits(u.blocks, 8);
    BodyWindow(file, u.offset, u.limit);
    var w := Window(file, u.offset, u.limit);
    if !open.Reliable() {
      UntearableWindow(box, n0, body, offset, lim);
    }
    DecodeSize(box, n0, u.blocks, w);
    NoDataFromNothing(|w|);
    if offset <= |Content(box, file).bytes| {
      SeekIsSlice(box, n0, body, offset, lim);
    } else {
      SeekPastEnd(box, n0, body, offset, lim);
    }
  }

  lemma NoDataFromNothing(n: nat)
    ensures n == 0 ==> DataSize(n) == 0
  {
  }

  /** Positions behind the header: in the file and in its body. */
  lemma BodyWindow(file: seq<byte>, offset: nat, limit: int)
    requires |file| >= FILE_HEADER_SIZE && offset >= FILE_HEADER_SIZE
    ensures Window(file, offset, limit) == Window(file[FILE_HEADER_SIZE..], offset - FILE_HEADER_SIZE, limit)
    ensures Window(file, offset, limit) != [] ==> offset < |file|
  {
    var body := file[FILE_HEADER_SIZE..];
    assert file[Min(offset, |file|)..] == body[Min(offset - FILE_HEADER_SIZE, |body|)..];
  }

  /** The offsets that a seek accepts in `size` bytes of data. */
  predicate IsSeekable(offset: nat, size: nat) {
    offset < size || (offset == size && size % BLOCK_DATA_SIZE != 0)
  }

  lemma {:induction false} BlocksFitIn64Bits(blocks: nat, n: nat)
    requires blocks < 0x1_0000_0000_0000_0000 && n == 8
    ensures blocks < Shift(1, n)
  {
    assert Shift(1, 4) == 0x1_0000_0000;
    assert Shift(1, 8) == 0x1_0000_0000_0000_0000;
  }

  lemma NonceAtIsAdd(n0: seq<byte>, k: nat)
    ensures Digits(Value(n0) + k, |n0|) == NonceAt(n0, k)
  {
  }

  lemma LimitZero(s: seq<byte>)
    ensures Limited(s, 0) == []
  {
  }

  /** The file that seeks go to starts with a header and this nonce. */
  ghost predicate CanSeek(box: SecretBox, open: Option<OpenRangeSeek>, n0: seq<byte>) {
    open.Some? ==>
      && |open.value.File()| >= FILE_HEADER_SIZE && HeaderNonce(open.value.File()) == n0
      && (open.value.Reliable() || HeadedUntearable(box, open.value.File()))
  }

  lemma SeekSharesHeader(box: SecretBox, open: OpenRangeSeek, all: seq<byte>)
    requires |all| >= FILE_HEADER_SIZE && SameHeader(all, open.File())
    requires open.Reliable() || HeadedUntearable(box, open.File())
    ensures CanSeek(box, Some(open), HeaderNonce(all))
  {
    assert open.File()[..FILE_HEADER_SIZE] == all[..FILE_HEADER_SIZE];
    assert HeaderNonce(all) == all[..FILE_HEADER_SIZE][FILE_MAGIC_SIZE..];
    assert HeaderNonce(open.File()) == open.File()[..FILE_HEADER_SIZE][FILE_MAGIC_SIZE..];
  }

  lemma NoSeek(box: SecretBox, n0: seq<byte>)
    ensures CanSeek(box, None, n0)
  {
  }

  /** The file starts with the magic and a whole nonce. */
  predicate HasHeader(file: seq<byte>) {
    |file| >= FILE_HEADER_SIZE && file[..FILE_MAGIC_SIZE] == FILE_MAGIC
  }

  function HeaderNonce(file: seq<byte>): seq<byte>
    requires |file| >= FILE_HEADER_SIZE
  {
    file[FILE_MAGIC_SIZE..FILE_HEADER_SIZE]
  }

  /** What a whole encrypted file decodes to. */
  function Content(box: SecretBox, file: seq<byte>): Decoded
    requires box.Lawful() && |file| >= FILE_HEADER_SIZE
  {
    Decode(box, HeaderNonce(file), 0, file[FILE_HEADER_SIZE..])
  }

  ghost predicate HeadedUntearable(box: SecretBox, file: seq<byte>) {
    |file| >= FILE_HEADER_SIZE ==> Untearable(box, HeaderNonce(file), 0, file[FILE_HEADER_SIZE..])
  }

  predicate SameHeader(a: seq<byte>, b: seq<byte>) {
    |a| >= FILE_HEADER_SIZE ==> a[..FILE_HEADER_SIZE] <= b
  }
}
