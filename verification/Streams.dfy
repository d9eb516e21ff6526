/** The encrypting and the decrypting reader put together. */
module Streams {
  import opened Bytes
  import opened Cipher
  import opened Readers
  import opened Encryption
  import opened Decryption

  /** An encrypted file announces its nonce, decodes to its plaintext, and the two size functions agree. */
  lemma EncryptedFile(box: SecretBox, n0: seq<byte>, p: seq<byte>)
    requires box.Lawful() && |n0| == FILE_NONCE_SIZE
    ensures var file := EncodeFile(box, n0, p);
            && HasHeader(file) && HeaderNonce(file) == n0 && Content(box, file) == Decoded(p, Eof)
            && |file| == EncryptedSize(|p|) && DecryptedSize(|file|) == Ok(|p|)
  {
    hide Encode, Decode;
    var file, body := EncodeFile(box, n0, p), Encode(box, n0, 0, p);
    HeaderThenBody(n0, body);
    EncodeLength(box, n0, 0, p);
    SizesAreInverse(|p|, |file|);
    RoundTrip(box, n0, 0, p);
  }

  lemma HeaderThenBody(n0: seq<byte>, body: seq<byte>)
    requires |n0| == FILE_NONCE_SIZE
    ensures var file := Header(n0) + body;
            HasHeader(file) && HeaderNonce(file) == n0 && file[FILE_HEADER_SIZE..] == body
  {
    var file := Header(n0) + body;
    assert file[..FILE_MAGIC_SIZE] == FILE_MAGIC;
  }

  /** Round trip through both readers: whatever pieces the source hands out and whatever buffers are
      read into on either side, the plaintext comes back, and the sizes are those announced. */
  method EncryptThenDecrypt(box: SecretBox, n0: seq<byte>, p: seq<byte>)
    returns (stored: seq<byte>, back: seq<byte>, e: Error)
    requires box.Lawful() && |n0| == FILE_NONCE_SIZE
    ensures back == p && e == Eof
    ensures |stored| == EncryptedSize(|p|) && DecryptedSize(|stored|) == Ok(|p|)
  {
    hide Encode, Decode, Encrypter.Valid, Decrypter.Valid, EncodeFile, Content, HasHeader, HeaderNonce, EncryptedSize, DecryptedSize;
    EncryptedFile(box, n0, p);
    var plain := new ByteStream(p, Eof);
    var encrypter := new Encrypter(box, plain, n0);
    stored, e := encrypter.ReadAll();
    var cipher := new ByteStream(stored, Eof);
    var made := Decrypter.New(box, None, Memory(cipher));
    back, e := made.value.ReadAll();
  }

  /** Two reads at different places of the same decrypter: the second seek works although the first read
      has run into the end. Each read gives the slice asked for of what the whole file decodes to. */
  method ReadTwice(box: SecretBox, file: seq<byte>, offset: nat, limit: int, offset': nat, limit': int)
    returns (first: seq<byte>, second: seq<byte>)
    requires box.Lawful() && HasHeader(file) && Content(box, file).end == Eof
    requires offset < |Content(box, file).bytes| && offset' < |Content(box, file).bytes|
    requires offset < 0x8000_0000_0000_0000 && offset' < 0x8000_0000_0000_0000
    ensures first == Limited(Content(box, file).bytes[offset..], limit)
    ensures second == Limited(Content(box, file).bytes[offset'..], limit')
  {
    hide Decode, Decrypter.Valid, Content, HasHeader, HeaderNonce, Limited, CanSeek, HeadedUntearable;
    var made := Decrypter.NewSeek(box, InMemory(file, false), offset, limit);
    var d := made.value;
    var e;
    first, e := d.ReadAll();
    var sought := d.RangeSeek(offset', true, limit');
    second, e := d.ReadAll();
  }

  /** Damage stays where it is, for every read at every place: the file `damaged` is the encryption of `p`
      with the blocks in `bad` replaced by bytes that do not authenticate. */
  method ReadDamaged(box: SecretBox, n0: seq<byte>, p: seq<byte>, damaged: seq<byte>, ghost bad: set<nat>, offset: nat, limit: int)
    returns (data: seq<byte>)
    requires box.Lawful() && |n0| == FILE_NONCE_SIZE && offset < |p| && offset < 0x8000_0000_0000_0000
    requires Damaged(box, n0, Encode(box, n0, 0, p), damaged, bad)
    ensures data == Limited(Blanked(p, bad)[offset..], limit)
  {
    hide Encode, Decode, Damaged, Limited;
    FaultIsolation(box, n0, p, damaged, bad);
    HeaderThenBody(n0, damaged);
    var again;
    data, again := ReadTwice(box, Header(n0) + damaged, offset, limit, offset, limit);
  }

  /** A seek to the very end of the data: it succeeds exactly if the data do not fill their last block. */
  method SeekToEnd(box: SecretBox, n0: seq<byte>, p: seq<byte>) returns (r: Result<nat>)
    requires box.Lawful() && |n0| == FILE_NONCE_SIZE && |p| < 0x8000_0000_0000_0000
    ensures r.Ok? <==> |p| % BLOCK_DATA_SIZE != 0
  {
    hide Encode, Decode, Decrypter.Valid, EncodeFile, Content, HasHeader, HeaderNonce, Limited, CanSeek, HeadedUntearable;
    EncryptedFile(box, n0, p);
    var made := Decrypter.NewSeek(box, InMemory(EncodeFile(box, n0, p), false), 0, -1);
    r := made.value.RangeSeek(|p|, true, -1);
  }

  /** One full block against a single byte. */
  method SeekToEndWitness(box: SecretBox, n0: seq<byte>) returns (full: Result<nat>, single: Result<nat>)
    requires box.Lawful() && |n0| == FILE_NONCE_SIZE
    ensures full.Err? && single.Ok?
  {
    hide SecretBox.Lawful;
    var block: seq<byte> := seq(BLOCK_DATA_SIZE, _ => 0);
    assert |block| % BLOCK_DATA_SIZE == 0;
    full := SeekToEnd(box, n0, block);
    single := SeekToEnd(box, n0, [7]);
  }
}
