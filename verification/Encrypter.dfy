/** The encrypting reader: a header, then one sealed block after the other. */
module Encryption {
  import opened Bytes
  import opened Nonce
  import opened Cipher
  import opened Readers

  /** Copies `s` into the front of `a`. */
  method CopyInto(a: array<byte>, s: seq<byte>)
    requires |s| <= a.Length
    modifies a
    ensures a[..|s|] == s && a[|s|..] == old(a[|s|..])
  {
    forall i | 0 <= i < |s| {
      a[i] := s[i];
    }
  }

  class Encrypter {
    const box: SecretBox
    const source: ByteStream
    const nonce: array<byte>
    const n0: seq<byte>                // the nonce at the start, as written into the header
    var buf: array?<byte>
    var readBuf: array?<byte>
    var bufIndex: nat
    var bufSize: nat
    var err: Option<Error>
    ghost var sealed: nat              // how many blocks have been sealed
    ghost var owed: seq<byte>

    ghost function Repr(): set<object>
      reads this
    {
      {this, source, nonce} + (if buf == null then {} else {buf}) + (if readBuf == null then {} else {readBuf})
    }

    ghost predicate Valid()
      reads this, Repr()
    {
      && box.Lawful() && source.Valid()
      && (err.Some? ==> owed == [] && err.value == source.fin)
      && (err.None? ==>
            && Buffers()
            && bufIndex <= bufSize <= BLOCK_SIZE
            && nonce[..] == NonceAt(n0, sealed)
            && owed == buf[bufIndex..bufSize] + Encode(box, n0, sealed, source.owed))
    }

    ghost predicate Buffers()
      reads this
    {
      && buf != null && readBuf != null && buf.Length == readBuf.Length == BLOCK_SIZE
      && buf != readBuf && buf != nonce && readBuf != nonce
    }

    constructor (box: SecretBox, source: ByteStream, n0: seq<byte>)
      requires box.Lawful() && source.Valid() && |n0| == FILE_NONCE_SIZE
      ensures Valid() && fresh(Repr() - {source})
      ensures this.source == source && this.n0 == n0
      ensures owed == EncodeFile(box, n0, source.owed)
    {
      hide Encode, Digits, Value;
      this.box, this.source, this.n0 := box, source, n0;
      var counter, b, r := new byte[|n0|], new byte[BLOCK_SIZE], new byte[BLOCK_SIZE];
      nonce, buf, readBuf := counter, b, r;
      bufIndex, bufSize, err, sealed := 0, FILE_HEADER_SIZE, None, 0;
      owed := EncodeFile(box, n0, source.owed);
      new;
      DigitsOfValue(n0);
      CopyInto(nonce, n0);
      assert nonce[..] == n0;
      CopyInto(buf, Header(n0));
      assert buf[0..FILE_HEADER_SIZE] == Header(n0);
    }

    method Finish(e: Error)
      requires err.None?
      modifies this`err, this`buf, this`readBuf
      ensures err == Some(e) && buf == null && readBuf == null
    {
      err := Some(e);
      buf, readBuf := null, null;
    }

    /** Seals the next block of the source into the buffer. */
    method Seal(n: nat)
      requires box.Lawful() && Buffers() && 0 < n <= BLOCK_DATA_SIZE
      requires nonce[..] == NonceAt(n0, sealed)
      modifies this`bufIndex, this`bufSize, this`sealed, buf, nonce
      ensures nonce[..] == NonceAt(n0, sealed) && sealed == old(sealed) + 1
      ensures bufIndex == 0 && bufSize == BLOCK_HEADER_SIZE + n
      ensures buf[..bufSize] == box.seal(readBuf[..n], NonceAt(n0, old(sealed)))
    {
      hide Digits, Value, Encode, NonceAt;
      var block := box.seal(readBuf[..n], nonce[..]);
      CopyInto(buf, block);
      bufIndex, bufSize := 0, BLOCK_HEADER_SIZE + n;
      NonceSteps(n0, sealed, 1);
      Increment(nonce);
      sealed := sealed + 1;
    }

    /** Refills the used-up buffer, or finishes at the end of the source. */
    method Refill() returns (e: Option<Error>)
      requires Valid() && err.None? && bufIndex == bufSize
      modifies Repr()
      ensures Valid() && Repr() <= old(Repr()) && owed == old(owed)
      ensures e.None? ==> err.None? && bufIndex < bufSize
      ensures e.Some? ==> e.value == source.fin && owed == []
    {
      hide Encode, NonceAt;
      assert buf[bufIndex..bufSize] == [];
      ghost var pending := source.owed;
      var n, e' := ReadFill(Memory(source), readBuf, BLOCK_DATA_SIZE);
      assert pending == readBuf[..n] + source.owed;
      if n == 0 {
        EncodeNothing(box, n0, sealed);
        assert pending == [];
        Finish(e'.value);
        return e';
      }
      EncodeStep(box, n0, sealed, readBuf[..n], source.owed);
      Seal(n);
      assert buf[bufIndex..bufSize] == buf[..bufSize];
      return None;
    }

    method Read(size: nat) returns (data: seq<byte>, e: Option<Error>)
      requires Valid()
      modifies Repr()
      ensures Valid() && Repr() <= old(Repr())
      ensures old(owed) == data + owed && |data| <= size
      ensures e.None? && size > 0 ==> data != []
      ensures e.Some? ==> e.value == source.fin && data == owed == []
    {
      hide Encode, NonceAt;
      if err.Some? {
        return [], err;
      }
      if bufIndex >= bufSize {
        e := Refill();
        if e.Some? {
          return [], e;
        }
      }
      var n := Min(size, bufSize - bufIndex);
      ghost var buffered := buf[bufIndex..bufSize];
      HandOut(buffered, Encode(box, n0, sealed, source.owed), n);
      data := buf[bufIndex..bufIndex + n];
      assert data == buffered[..n];
      bufIndex := bufIndex + n;
      assert buf[bufIndex..bufSize] == buffered[n..];
      owed := owed[n..];
      e := None;
    }

    /** Reads everything, with buffers of arbitrary non-zero sizes: for a source that ends cleanly the
        output is the encoded file, of exactly the announced size. */
    method ReadAll() returns (all: seq<byte>, e: Error)
      requires Valid()
      modifies Repr()
      ensures Valid() && all == old(owed) && e == source.fin
    {
      hide *;
      all := [];
      while true
        invariant Valid() && Repr() <= old(Repr()) && old(owed) == all + owed
        decreases |owed|
      {
        var size: nat :| size > 0;
        var data, e' := Read(size);
        Regroup(all, data, owed);
        all := all + data;
        if e'.Some? {
          return all, e'.value;
        }
      }
    }
  }

  lemma HandOut(a: seq<byte>, b: seq<byte>, n: nat)
    requires n <= |a|
    ensures (a + b)[n..] == a[n..] + b && a + b == a[..n] + (a + b)[n..]
  {
  }

  lemma EncodeNothing(box: SecretBox, n0: seq<byte>, k: nat)
    ensures Encode(box, n0, k, []) == []
  {
  }

  /** A filled read buffer is the next block, a partly filled one the last. */
  lemma EncodeStep(box: SecretBox, n0: seq<byte>, k: nat, block: seq<byte>, rest: seq<byte>)
    requires 0 < |block| <= BLOCK_DATA_SIZE && (|block| < BLOCK_DATA_SIZE ==> rest == [])
    ensures Encode(box, n0, k, block + rest) == box.seal(block, NonceAt(n0, k)) + Encode(box, n0, k + 1, rest)
  {
    var p := block + rest;
    assert Min(|p|, BLOCK_DATA_SIZE) == |block|;
    assert p[..|block|] == block && p[|block|..] == rest;
  }
}
