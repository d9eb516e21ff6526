/** The format of an encrypted file: a header (magic, nonce) followed by sealed blocks, each
    under the nonce of its index. Reading is specified for every ciphertext, damaged or not. */
module Cipher {
  import opened Bytes
  import opened Nonce

  const FILE_MAGIC: seq<byte> := [84, 69, 76, 68, 82, 73, 86, 69, 0, 0]
  const FILE_MAGIC_SIZE := 10
  const FILE_NONCE_SIZE := 24
  const FILE_HEADER_SIZE := 34
  const BLOCK_HEADER_SIZE := 16
  const BLOCK_DATA_SIZE := 65536
  const BLOCK_SIZE := 65552

  /** Authenticated encryption under a fixed key: message and nonce to box, box and nonce to message. */
  datatype SecretBox = SecretBox(
    seal: (seq<byte>, seq<byte>) -> seq<byte>,
    open: (seq<byte>, seq<byte>) -> Option<seq<byte>>)
  {
    /** What the cipher relies on: opening undoes sealing, and a box is 16 bytes longer than its message. */
    ghost predicate Lawful() {
      && (forall m, n :: |seal(m, n)| == |m| + BLOCK_HEADER_SIZE && open(seal(m, n), n) == Some(m))
      && (forall c, n :: open(c, n).Some? ==> |c| == |open(c, n).value| + BLOCK_HEADER_SIZE)
    }
  }

  /** The nonce of block `k` of a file whose header holds `n0`. */
  function NonceAt(n0: seq<byte>, k: nat): (n: seq<byte>)
    ensures |n| == |n0|
  {
    Digits(Value(n0) + k, |n0|)
  }

  lemma NonceSteps(n0: seq<byte>, k: nat, x: nat)
    ensures Digits(Value(NonceAt(n0, k)) + x, |n0|) == NonceAt(n0, k + x)
  {
    AddToDigits(Value(n0) + k, x, |n0|);
  }

  /** No nonce is used for two blocks of one file: with 24 bytes, it takes 2^192 blocks until one returns. */
  lemma NoncesDiffer(n0: seq<byte>, j: nat, k: nat)
    requires j < k && NonceAt(n0, j) == NonceAt(n0, k)
    ensures k >= j + Shift(1, |n0|)
  {
    SameNonce(n0, j, k, |n0|);
  }

  lemma SameNonce(n0: seq<byte>, j: nat, k: nat, n: nat)
    requires j < k && n == |n0| && NonceAt(n0, j) == NonceAt(n0, k)
    ensures k >= j + Shift(1, n)
  {
    var v := Value(n0);
    DigitsDiffer(v + j, v + k, n);
  }

  function Header(n0: seq<byte>): seq<byte> {
    FILE_MAGIC + n0
  }

  /** The blocks, from index `k` on, that hold the plaintext `p`. */
  function Encode(box: SecretBox, n0: seq<byte>, k: nat, p: seq<byte>): seq<byte>
    decreases |p|
  {
    if p == [] then [] else
      var n := Min(|p|, BLOCK_DATA_SIZE);
      box.seal(p[..n], NonceAt(n0, k)) + Encode(box, n0, k + 1, p[n..])
  }

  function EncodeFile(box: SecretBox, n0: seq<byte>, p: seq<byte>): seq<byte> {
    Header(n0) + Encode(box, n0, 0, p)
  }

  /** The data of one block; zeros stand for a block that fails authentication. */
  function OpenBlock(box: SecretBox, nonce: seq<byte>, block: seq<byte>): (m: seq<byte>)
    requires box.Lawful() && |block| >= BLOCK_HEADER_SIZE
    ensures |m| == |block| - BLOCK_HEADER_SIZE
  {
    match box.open(block, nonce)
    case Some(m) => m
    case None => Zeros(|block| - BLOCK_HEADER_SIZE)
  }

  /** What reading a ciphertext to its end gives: the data, and how it ends. */
  datatype Decoded = Decoded(bytes: seq<byte>, end: Error)

  function Decode(box: SecretBox, n0: seq<byte>, k: nat, c: seq<byte>): (d: Decoded)
    requires box.Lawful()
    decreases |c|
  {
    var n := Min(|c|, BLOCK_SIZE);
    if n == 0 then Decoded([], Eof)
    else if n <= BLOCK_HEADER_SIZE then Decoded([], BadHeader)
    else
      var rest := Decode(box, n0, k + 1, c[n..]);
      Decoded(OpenBlock(box, NonceAt(n0, k), c[..n]) + rest.bytes, rest.end)
  }

  /** How many data bytes `n` bytes of blocks hold; a trailing fragment of up to 16 bytes holds none. */
  function DataSize(n: nat): nat {
    n / BLOCK_SIZE * BLOCK_DATA_SIZE + Max(n % BLOCK_SIZE - BLOCK_HEADER_SIZE, 0)
  }

  lemma DataSizeStep(n: nat)
    requires n >= BLOCK_SIZE
    ensures DataSize(n) == BLOCK_DATA_SIZE + DataSize(n - BLOCK_SIZE)
    ensures n % BLOCK_SIZE == (n - BLOCK_SIZE) % BLOCK_SIZE
  {
    assert n / BLOCK_SIZE == (n - BLOCK_SIZE) / BLOCK_SIZE + 1;
  }

  lemma {:induction false} DecodeSize(box: SecretBox, n0: seq<byte>, k: nat, c: seq<byte>)
    requires box.Lawful()
    ensures |Decode(box, n0, k, c).bytes| == DataSize(|c|)
    ensures Decode(box, n0, k, c).end == if 0 < |c| % BLOCK_SIZE <= BLOCK_HEADER_SIZE then BadHeader else Eof
    decreases |c|
  {
    if |c| >= BLOCK_SIZE {
      DecodeSize(box, n0, k + 1, c[BLOCK_SIZE..]);
      DataSizeStep(|c|);
    } else if |c| > BLOCK_HEADER_SIZE {
      assert c[|c|..] == [];
    }
  }

  lemma DecodeStep(box: SecretBox, n0: seq<byte>, k: nat, c: seq<byte>)
    requires box.Lawful() && |c| >= BLOCK_SIZE
    ensures Decode(box, n0, k, c).bytes
            == OpenBlock(box, NonceAt(n0, k), c[..BLOCK_SIZE]) + Decode(box, n0, k + 1, c[BLOCK_SIZE..]).bytes
    ensures Decode(box, n0, k, c).end == Decode(box, n0, k + 1, c[BLOCK_SIZE..]).end
    ensures |OpenBlock(box, NonceAt(n0, k), c[..BLOCK_SIZE])| == BLOCK_DATA_SIZE
  {
  }

  function EncryptedSize(size: nat): (r: nat) {
    var blocks, residue := size / BLOCK_DATA_SIZE, size % BLOCK_DATA_SIZE;
    FILE_HEADER_SIZE + blocks * (BLOCK_HEADER_SIZE + BLOCK_DATA_SIZE)
    + if residue != 0 then BLOCK_HEADER_SIZE + residue else 0
  }

  function DecryptedSize(size: int): (r: Result<nat>) {
    var body := size - FILE_HEADER_SIZE;
    if body < 0 then Err(TooShort) else
      var blocks, residue := body / BLOCK_SIZE, body % BLOCK_SIZE;
      if residue != 0 && residue - BLOCK_HEADER_SIZE <= 0 then Err(BadHeader)
      else Ok(blocks * BLOCK_DATA_SIZE + if residue != 0 then residue - BLOCK_HEADER_SIZE else 0)
  }

  lemma {:induction false} EncodeLength(box: SecretBox, n0: seq<byte>, k: nat, p: seq<byte>)
    requires box.Lawful()
    ensures FILE_HEADER_SIZE + |Encode(box, n0, k, p)| == EncryptedSize(|p|)
    decreases |p|
  {
    if p != [] {
      var n := Min(|p|, BLOCK_DATA_SIZE);
      EncodeLength(box, n0, k + 1, p[n..]);
    }
  }

  /** Decrypting what was encrypted gives the plaintext back and ends cleanly. */
  lemma {:induction false} RoundTrip(box: SecretBox, n0: seq<byte>, k: nat, p: seq<byte>)
    requires box.Lawful()
    ensures Decode(box, n0, k, Encode(box, n0, k, p)) == Decoded(p, Eof)
    decreases |p|
  {
    if p != [] {
      var n := Min(|p|, BLOCK_DATA_SIZE);
      var block, rest := box.seal(p[..n], NonceAt(n0, k)), Encode(box, n0, k + 1, p[n..]);
      RoundTrip(box, n0, k + 1, p[n..]);
      if n < BLOCK_DATA_SIZE {
        assert p[n..] == [] && rest == [];
      }
      var c := block + rest;
      assert c[..|block|] == block && c[|block|..] == rest;
      assert Min(|c|, BLOCK_SIZE) == |block|;
      assert p == p[..n] + p[n..];
    }
  }

  /** DecryptedSize undoes EncryptedSize, EncryptedSize undoes DecryptedSize, and DecryptedSize fails
      exactly below the header size and for a trailing fragment of 1 to 16 bytes. */
  lemma SizesAreInverse(size: nat, stored: int)
    ensures DecryptedSize(EncryptedSize(size)) == Ok(size)
    ensures DecryptedSize(stored).Ok? ==> EncryptedSize(DecryptedSize(stored).value) == stored
    ensures DecryptedSize(stored) == Err(TooShort) <==> stored < FILE_HEADER_SIZE
    ensures DecryptedSize(stored) == Err(BadHeader) <==>
            stored >= FILE_HEADER_SIZE && 1 <= (stored - FILE_HEADER_SIZE) % BLOCK_SIZE <= BLOCK_HEADER_SIZE
    ensures DecryptedSize(stored).Err? ==> DecryptedSize(stored).error in {TooShort, BadHeader}
    ensures DecryptedSize(stored).Ok? ==> DecryptedSize(stored).value == DataSize(stored - FILE_HEADER_SIZE)
  {
    var blocks, residue := size / BLOCK_DATA_SIZE, size % BLOCK_DATA_SIZE;
    var extra := if residue != 0 then BLOCK_HEADER_SIZE + residue else 0;
    var body := EncryptedSize(size) - FILE_HEADER_SIZE;
    assert body == blocks * BLOCK_SIZE + extra && 0 <= extra < BLOCK_SIZE;
    assert body / BLOCK_SIZE == blocks && body % BLOCK_SIZE == extra;
  }

  /** Reading from block boundary `j` on gives what reading everything gives there. */
  lemma {:induction false} DecodeDrop(box: SecretBox, n0: seq<byte>, k: nat, c: seq<byte>, j: nat)
    requires box.Lawful() && j * BLOCK_SIZE <= |c|
    ensures j * BLOCK_DATA_SIZE <= |Decode(box, n0, k, c).bytes|
    ensures Decode(box, n0, k + j, c[j * BLOCK_SIZE..]).bytes == Decode(box, n0, k, c).bytes[j * BLOCK_DATA_SIZE..]
    ensures Decode(box, n0, k + j, c[j * BLOCK_SIZE..]).end == Decode(box, n0, k, c).end
    decreases j
  {
    hide Decode, OpenBlock, NonceAt, Block, SecretBox.Lawful;
    if j == 0 {
      assert c[0..] == c;
    } else {
      var rest, i := c[BLOCK_SIZE..], j - 1;
      DecodeStep(box, n0, k, c);
      DecodeDrop(box, n0, k + 1, rest, i);
      DropTwice(c, BLOCK_SIZE, i * BLOCK_SIZE);
      assert k + 1 + i == k + j && BLOCK_SIZE + i * BLOCK_SIZE == j * BLOCK_SIZE;
      var first, tail := OpenBlock(box, NonceAt(n0, k), c[..BLOCK_SIZE]), Decode(box, n0, k + j, c[j * BLOCK_SIZE..]);
      TailOfAll(first, Decode(box, n0, k + 1, rest).bytes, Decode(box, n0, k, c).bytes, tail.bytes,
                i * BLOCK_DATA_SIZE, j * BLOCK_DATA_SIZE);
    }
  }

  lemma TailOfAll(first: seq<byte>, more: seq<byte>, all: seq<byte>, tail: seq<byte>, m: nat, n: nat)
    requires all == first + more && m <= |more| && tail == more[m..] && n == |first| + m
    ensures n <= |all| && tail == all[n..]
  {
  }

  lemma DropTwice(s: seq<byte>, n: nat, m: nat)
    requires n + m <= |s|
    ensures s[n..][m..] == s[n + m..]
  {
  }

  lemma DropAfter(a: seq<byte>, b: seq<byte>, n: nat)
    requires n <= |b|
    ensures (a + b)[|a| + n..] == b[n..] && (a + b)[..|a| + n] == a + b[..n]
  {
  }

  /** Reading up to block boundary `j` gives what reading everything gives up to there. */
  lemma {:induction false} DecodeTake(box: SecretBox, n0: seq<byte>, k: nat, c: seq<byte>, j: nat)
    requires box.Lawful() && j * BLOCK_SIZE <= |c|
    ensures j * BLOCK_DATA_SIZE <= |Decode(box, n0, k, c).bytes|
    ensures Decode(box, n0, k, c[..j * BLOCK_SIZE]) == Decoded(Decode(box, n0, k, c).bytes[..j * BLOCK_DATA_SIZE], Eof)
    decreases j
  {
    if j != 0 {
      hide Decode, OpenBlock, NonceAt;
      var cut, rest := c[..j * BLOCK_SIZE], c[BLOCK_SIZE..];
      DecodeStep(box, n0, k, c);
      DecodeStep(box, n0, k, cut);
      DecodeTake(box, n0, k + 1, rest, j - 1);
      assert cut[BLOCK_SIZE..] == rest[..(j - 1) * BLOCK_SIZE];
      assert cut[..BLOCK_SIZE] == c[..BLOCK_SIZE];
      DropAfter(OpenBlock(box, NonceAt(n0, k), c[..BLOCK_SIZE]), Decode(box, n0, k + 1, rest).bytes,
                (j - 1) * BLOCK_DATA_SIZE);
    }
  }

  /** Where a read of `limit` plaintext bytes at `offset` has to look in the ciphertext. */
  datatype Underlying = Underlying(offset: nat, limit: int, discard: nat, blocks: nat)

  function CalculateUnderlying(offset: nat, limit: int): (u: Underlying)
    ensures u.limit < 0 <==> limit < 0
    ensures limit >= 0 ==> u.limit >= BLOCK_SIZE
  {
    var blocks, discard := offset / BLOCK_DATA_SIZE, offset % BLOCK_DATA_SIZE;
    var underlyingOffset := FILE_HEADER_SIZE + blocks * (BLOCK_HEADER_SIZE + BLOCK_DATA_SIZE);
    if limit < 0 then Underlying(underlyingOffset, -1, discard, blocks) else
      var bytesToRead := limit - (BLOCK_DATA_SIZE - discard);
      var blocksToRead := 1 +
        if bytesToRead > 0 then
          bytesToRead / BLOCK_DATA_SIZE + if bytesToRead % BLOCK_DATA_SIZE != 0 then 1 else 0
        else 0;
      Underlying(underlyingOffset, blocksToRead * (BLOCK_HEADER_SIZE + BLOCK_DATA_SIZE), discard, blocks)
  }

  /** The range is whole blocks, starts with the block of `offset`, covers the `limit` bytes asked for
      and not one block more, and its computation stays within 64 bits for files below 2^62 bytes. */
  lemma UnderlyingIsTight(offset: nat, limit: nat)
    ensures var u := CalculateUnderlying(offset, limit);
            && u.blocks * BLOCK_DATA_SIZE + u.discard == offset && u.discard < BLOCK_DATA_SIZE
            && u.offset == FILE_HEADER_SIZE + u.blocks * BLOCK_SIZE
            && u.limit % BLOCK_SIZE == 0
            && u.limit / BLOCK_SIZE * BLOCK_DATA_SIZE >= u.discard + limit
            && (limit > 0 ==> (u.limit / BLOCK_SIZE - 1) * BLOCK_DATA_SIZE < u.discard + limit)
            && (offset + limit < 0x4000_0000_0000_0000 ==> u.offset + u.limit < 0x8000_0000_0000_0000)
  {
    var u := CalculateUnderlying(offset, limit);
    var bytesToRead := limit - (BLOCK_DATA_SIZE - u.discard);
    var j := 1 + if bytesToRead > 0 then (bytesToRead + BLOCK_DATA_SIZE - 1) / BLOCK_DATA_SIZE else 0;
    assert u.limit == j * BLOCK_SIZE;
    assert u.limit / BLOCK_SIZE == j;
  }

  /** Random access is slicing, on every ciphertext: decoding only the requested blocks, dropping
      `discard` bytes and stopping after `limit` gives the slice of the whole decoding. */
  lemma SeekIsSlice(box: SecretBox, n0: seq<byte>, c: seq<byte>, offset: nat, limit: int)
    requires box.Lawful()
    requires offset <= |Decode(box, n0, 0, c).bytes|
    ensures var u := CalculateUnderlying(offset, limit);
            var d := Decode(box, n0, u.blocks, Window(c, u.offset - FILE_HEADER_SIZE, u.limit)).bytes;
            && u.discard <= |d| && Limited(d[u.discard..], limit) == Limited(Decode(box, n0, 0, c).bytes[offset..], limit)
            && (offset < |Decode(box, n0, 0, c).bytes| ==> u.discard < |d|)
            && (offset == |Decode(box, n0, 0, c).bytes| ==> u.discard == |d|)
    ensures var u := CalculateUnderlying(offset, limit);
            var end := Decode(box, n0, u.blocks, Window(c, u.offset - FILE_HEADER_SIZE, u.limit)).end;
            end == Decode(box, n0, 0, c).end || (limit >= 0 && end == Eof)
  {
    hide Decode, DataSize, CalculateUnderlying;
    var u := CalculateUnderlying(offset, limit);
    UnderlyingBlocks(offset, limit);
    DecodeSize(box, n0, 0, c);
    BlocksFit(|c|, u.blocks, u.discard);
    var tail := c[u.blocks * BLOCK_SIZE..];
    DecodeDrop(box, n0, 0, c, u.blocks);
    var d := Decode(box, n0, u.blocks, tail).bytes;
    assert d[u.discard..] == Decode(box, n0, 0, c).bytes[offset..];
    assert Window(c, u.offset - FILE_HEADER_SIZE, u.limit) == Limited(tail, u.limit);
    if 0 <= u.limit < |tail| {
      UnderlyingIsTight(offset, limit);
      DecodeSize(box, n0, u.blocks, tail);
      OneBlockMore(|tail|, u.limit);
      var j := u.limit / BLOCK_SIZE;
      DecodeTake(box, n0, u.blocks, tail, j);
      LimitedCut(d, u.discard, limit, j * BLOCK_DATA_SIZE);
    }
  }

  lemma UnderlyingBlocks(offset: nat, limit: int)
    ensures var u := CalculateUnderlying(offset, limit);
            && u.blocks * BLOCK_DATA_SIZE + u.discard == offset && u.discard < BLOCK_DATA_SIZE
            && u.offset == FILE_HEADER_SIZE + u.blocks * BLOCK_SIZE
            && (u.limit < 0 <==> limit < 0) && (limit >= 0 ==> u.limit >= BLOCK_SIZE)
  {
  }

  /** If the request ends before the file does, the file holds data from the requested block on. */
  lemma OneBlockMore(n: nat, cut: nat)
    requires BLOCK_SIZE <= cut < n
    ensures DataSize(n) >= BLOCK_DATA_SIZE
  {
  }

  /** A seek past the end of the data finds less than the bytes it has to discard, or nothing at all. */
  lemma SeekPastEnd(box: SecretBox, n0: seq<byte>, c: seq<byte>, offset: nat, limit: int)
    requires box.Lawful()
    requires offset > |Decode(box, n0, 0, c).bytes|
    ensures var u := CalculateUnderlying(offset, limit);
            var d := Decode(box, n0, u.blocks, Window(c, u.offset - FILE_HEADER_SIZE, u.limit)).bytes;
            d == [] || |d| < u.discard
  {
    hide Decode, CalculateUnderlying;
    var u := CalculateUnderlying(offset, limit);
    UnderlyingBlocks(offset, limit);
    DecodeSize(box, n0, 0, c);
    var w := Window(c, u.offset - FILE_HEADER_SIZE, u.limit);
    DecodeSize(box, n0, u.blocks, w);
    PastEnd(|c|, u.blocks, u.discard, |w|);
  }

  lemma PastEnd(n: nat, blocks: nat, discard: nat, m: nat)
    requires discard < BLOCK_DATA_SIZE && blocks * BLOCK_DATA_SIZE + discard > DataSize(n)
    requires m <= Max(n - blocks * BLOCK_SIZE, 0)
    ensures DataSize(m) == 0 || DataSize(m) < discard
  {
  }

  lemma BlocksFit(n: nat, blocks: nat, discard: nat)
    requires blocks * BLOCK_DATA_SIZE + discard <= DataSize(n)
    ensures blocks * BLOCK_SIZE <= n
  {
  }

  lemma LimitedCut(d: seq<byte>, from: nat, limit: nat, n: nat)
    requires from + limit <= n <= |d|
    ensures Limited(d[..n][from..], limit) == Limited(d[from..], limit)
  {
    assert d[..n][from..][..limit] == d[from..][..limit];
  }

  /** Block `b` of a ciphertext; the last one may be shorter. */
  function Block(c: seq<byte>, b: nat): seq<byte>
    requires b * BLOCK_SIZE <= |c|
  {
    c[b * BLOCK_SIZE..Min(b * BLOCK_SIZE + BLOCK_SIZE, |c|)]
  }

  /** Every data byte depends on its own block only. */
  lemma DecodeAt(box: SecretBox, n0: seq<byte>, k: nat, c: seq<byte>, i: nat)
    requires box.Lawful() && i < |Decode(box, n0, k, c).bytes|
    ensures i / BLOCK_DATA_SIZE * BLOCK_SIZE + BLOCK_HEADER_SIZE + i % BLOCK_DATA_SIZE < |c|
    ensures Decode(box, n0, k, c).bytes[i]
            == OpenBlock(box, NonceAt(n0, k + i / BLOCK_DATA_SIZE), Block(c, i / BLOCK_DATA_SIZE))[i % BLOCK_DATA_SIZE]
  {
    hide Decode, OpenBlock, NonceAt, Block;
    DecodeInBlock(box, n0, k, c, i / BLOCK_DATA_SIZE, i % BLOCK_DATA_SIZE);
  }

  /** The same for byte `r` of block `q`. */
  lemma {:induction false} DecodeInBlock(box: SecretBox, n0: seq<byte>, k: nat, c: seq<byte>, q: nat, r: nat)
    requires box.Lawful() && r < BLOCK_DATA_SIZE && q * BLOCK_DATA_SIZE + r < |Decode(box, n0, k, c).bytes|
    ensures q * BLOCK_SIZE + BLOCK_HEADER_SIZE + r < |c|
    ensures Decode(box, n0, k, c).bytes[q * BLOCK_DATA_SIZE + r] == OpenBlock(box, NonceAt(n0, k + q), Block(c, q))[r]
    decreases q
  {
    hide Decode, OpenBlock, NonceAt, Block, SecretBox.Lawful;
    var i := q * BLOCK_DATA_SIZE + r;
    if |c| < BLOCK_SIZE {
      OnlyBlock(box, n0, k, c, i);
      assert q == 0;
    } else {
      DecodeStep(box, n0, k, c);
      var first, rest := OpenBlock(box, NonceAt(n0, k), c[..BLOCK_SIZE]), c[BLOCK_SIZE..];
      var more := Decode(box, n0, k + 1, rest).bytes;
      if q == 0 {
        FirstBlock(c);
        InFront(first, more, i);
      } else {
        InBack(first, more, i);
        DecodeInBlock(box, n0, k + 1, rest, q - 1, r);
        LaterBlock(c, q);
        assert k + 1 + (q - 1) == k + q;
      }
    }
  }

  lemma InFront(a: seq<byte>, b: seq<byte>, i: nat)
    requires i < |a|
    ensures (a + b)[i] == a[i]
  {
  }

  lemma InBack(a: seq<byte>, b: seq<byte>, i: nat)
    requires |a| <= i < |a + b|
    ensures i - |a| < |b| && (a + b)[i] == b[i - |a|]
  {
  }

  lemma OnlyBlock(box: SecretBox, n0: seq<byte>, k: nat, c: seq<byte>, i: nat)
    requires box.Lawful() && |c| < BLOCK_SIZE && i < |Decode(box, n0, k, c).bytes|
    ensures i < BLOCK_DATA_SIZE && BLOCK_HEADER_SIZE + i < |c| && Block(c, 0) == c
    ensures Decode(box, n0, k, c).bytes[i] == OpenBlock(box, NonceAt(n0, k), c)[i]
  {
    assert c[|c|..] == [] && c[..|c|] == c;
  }

  lemma FirstBlock(c: seq<byte>)
    requires |c| >= BLOCK_SIZE
    ensures Block(c, 0) == c[..BLOCK_SIZE]
  {
  }

  lemma LaterBlock(c: seq<byte>, b: nat)
    requires b >= 1 && b * BLOCK_SIZE <= |c|
    ensures Block(c, b) == Block(c[BLOCK_SIZE..], b - 1)
  {
    var from := b * BLOCK_SIZE;
    SliceBehind(c, BLOCK_SIZE, from, Min(from + BLOCK_SIZE, |c|));
  }

  lemma SliceBehind(c: seq<byte>, n: nat, from: nat, to: nat)
    requires n <= from <= to <= |c|
    ensures c[n..][from - n..to - n] == c[from..to]
  {
  }

  /** `c'` is `c` except that the blocks in `bad` no longer authenticate. */
  ghost predicate Damaged(box: SecretBox, n0: seq<byte>, c: seq<byte>, c': seq<byte>, bad: set<nat>) {
    && |c'| == |c|
    && forall b: nat | b * BLOCK_SIZE < |c| ::
         if b in bad then box.open(Block(c', b), NonceAt(n0, b)).None? else Block(c', b) == Block(c, b)
  }

  /** `p` with zeros at the positions that belong to the blocks in `bad`. */
  function Blanked(p: seq<byte>, bad: set<nat>): seq<byte> {
    seq(|p|, i requires 0 <= i < |p| => if i / BLOCK_DATA_SIZE in bad then 0 else p[i])
  }

  /** Fault isolation: damage turns exactly the data of the damaged blocks into zeros; all other
      bytes, the length and the clean end stay. With SeekIsSlice this holds for seeked reads as well. */
  lemma FaultIsolation(box: SecretBox, n0: seq<byte>, p: seq<byte>, c': seq<byte>, bad: set<nat>)
    requires box.Lawful()
    requires Damaged(box, n0, Encode(box, n0, 0, p), c', bad)
    ensures Decode(box, n0, 0, c') == Decoded(Blanked(p, bad), Eof)
  {
    var c := Encode(box, n0, 0, p);
    RoundTrip(box, n0, 0, p);
    DecodeSize(box, n0, 0, c);
    DecodeSize(box, n0, 0, c');
    forall i: nat | i < |p|
      ensures Decode(box, n0, 0, c').bytes[i] == Blanked(p, bad)[i]
    {
      DamagedByte(box, n0, c, c', bad, i);
    }
  }

  lemma DamagedByte(box: SecretBox, n0: seq<byte>, c: seq<byte>, c': seq<byte>, bad: set<nat>, i: nat)
    requires box.Lawful() && Damaged(box, n0, c, c', bad)
    requires i < |Decode(box, n0, 0, c).bytes| && i < |Decode(box, n0, 0, c').bytes|
    ensures Decode(box, n0, 0, c').bytes[i]
            == if i / BLOCK_DATA_SIZE in bad then 0 else Decode(box, n0, 0, c).bytes[i]
  {
    hide Decode, OpenBlock, Damaged, Block, NonceAt;
    DecodeAt(box, n0, 0, c, i);
    DecodeAt(box, n0, 0, c', i);
    DamagedAt(box, n0, c, c', bad, i);
  }

  lemma DamagedAt(box: SecretBox, n0: seq<byte>, c: seq<byte>, c': seq<byte>, bad: set<nat>, i: nat)
    requires box.Lawful() && Damaged(box, n0, c, c', bad)
    requires i / BLOCK_DATA_SIZE * BLOCK_SIZE + BLOCK_HEADER_SIZE + i % BLOCK_DATA_SIZE < |c|
    ensures var n := NonceAt(n0, i / BLOCK_DATA_SIZE);
            OpenBlock(box, n, Block(c', i / BLOCK_DATA_SIZE))[i % BLOCK_DATA_SIZE]
            == if i / BLOCK_DATA_SIZE in bad then 0 else OpenBlock(box, n, Block(c, i / BLOCK_DATA_SIZE))[i % BLOCK_DATA_SIZE]
  {
  }

  /** A stand-in that shows that all that is assumed of the cipher can be met: it puts the length of the message in front,
      in sixteen bytes, and on opening wants to see it there. */
  function TaggedBox(): SecretBox {
    SecretBox(
      (m, n) => Tag(|m|) + m,
      (c, n) => if |c| >= BLOCK_HEADER_SIZE && c[..BLOCK_HEADER_SIZE] == Tag(|c| - BLOCK_HEADER_SIZE)
        then Some(c[BLOCK_HEADER_SIZE..]) else None)
  }

  function Tag(n: nat): (t: seq<byte>)
    ensures |t| == BLOCK_HEADER_SIZE && t[15] == 0
  {
    [n % 256, n / 256 % 256, n / 65536 % 256] + Zeros(13)
  }

  lemma TaggedBoxIsLawful()
    ensures TaggedBox().Lawful()
  {
    var box := TaggedBox();
    hide Tag;
    forall m: seq<byte>, n: seq<byte>
      ensures |box.seal(m, n)| == |m| + BLOCK_HEADER_SIZE && box.open(box.seal(m, n), n) == Some(m)
    {
      assert (Tag(|m|) + m)[BLOCK_HEADER_SIZE..] == m && (Tag(|m|) + m)[..BLOCK_HEADER_SIZE] == Tag(|m|);
    }
  }

  /** It opens no proper prefix of a sealed block. */
  lemma TaggedBoxRejectsPrefixes(m: seq<byte>, n: seq<byte>, i: nat)
    requires |m| <= BLOCK_DATA_SIZE && i < |m| + BLOCK_HEADER_SIZE
    ensures |TaggedBox().seal(m, n)| == |m| + BLOCK_HEADER_SIZE && TaggedBox().open(TaggedBox().seal(m, n)[..i], n).None?
  {
    var c := Tag(|m|) + m;
    if i >= BLOCK_HEADER_SIZE {
      assert c[..i][..BLOCK_HEADER_SIZE] == Tag(|m|);
      TagsDiffer(|m|, i - BLOCK_HEADER_SIZE);
    }
  }

  lemma TagsDiffer(n: nat, i: nat)
    requires i < n <= BLOCK_DATA_SIZE
    ensures Tag(n) != Tag(i)
  {
    assert Tag(n)[0] == n % 256 && Tag(n)[1] == n / 256 % 256 && Tag(n)[2] == n / 65536 % 256;
    assert Tag(i)[0] == i % 256 && Tag(i)[1] == i / 256 % 256 && Tag(i)[2] == i / 65536 % 256;
  }

  /** Any set of blocks can be damaged. */
  lemma AnyDamageIsPossible(n0: seq<byte>, c: seq<byte>, bad: set<nat>) returns (c': seq<byte>)
    ensures Damaged(TaggedBox(), n0, c, c', bad)
  {
    c' := seq(|c|, i requires 0 <= i < |c| => if i / BLOCK_SIZE in bad then 255 else c[i]);
    forall b: nat | b * BLOCK_SIZE < |c|
      ensures if b in bad then TaggedBox().open(Block(c', b), NonceAt(n0, b)).None? else Block(c', b) == Block(c, b)
    {
      hide Tag, TaggedBox;
      var block := Block(c', b);
      forall j | 0 <= j < |block|
        ensures block[j] == if b in bad then 255 else Block(c, b)[j]
      {
        assert (b * BLOCK_SIZE + j) / BLOCK_SIZE == b;
        assert block[j] == c'[b * BLOCK_SIZE + j];
      }
      if b in bad {
        WrongTag(block, NonceAt(n0, b));
      }
    }
  }

  lemma WrongTag(block: seq<byte>, n: seq<byte>)
    requires forall j | 0 <= j < |block| :: block[j] == 255
    ensures TaggedBox().open(block, n).None?
  {
    hide Tag;
    if |block| >= BLOCK_HEADER_SIZE {
      assert block[..BLOCK_HEADER_SIZE][15] == 255;
    }
  }
}
