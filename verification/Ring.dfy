/**
 The circular byte buffers of the JTAG UART driver. A buffer has BUF_LEN slots; the live bytes run
 cyclically from the consumer's index up to, but not including, the producer's index, so one slot
 is always left free.
 */
module Ring {
  type Byte = char

  const BUF_LEN: nat := 2048

  type Index = i: nat | i < BUF_LEN
  type Buffer = b: seq<Byte> | |b| == BUF_LEN witness seq(BUF_LEN, _ => 'x')

  /** The index `n` slots further on. */
  function Advance(i: Index, n: nat): Index
  {
    (i + n) % BUF_LEN
  }

  /** How many live bytes there are. */
  function Used(take: Index, put: Index): nat
  {
    if take <= put then put - take else put + BUF_LEN - take
  }

  /** The one slot that is always left free is the only free one. */
  ghost predicate Full(take: Index, put: Index)
  {
    Used(take, put) == BUF_LEN - 1
  }

  /** The live bytes, oldest first. */
  ghost function Contents(buf: Buffer, take: Index, put: Index): (s: seq<Byte>)
    ensures |s| == Used(take, put)
  {
    if take <= put then buf[take..put] else buf[take..] + buf[..put]
  }

  /** Whether slot `i` holds a live byte. */
  ghost predicate Live(take: Index, put: Index, i: Index)
  {
    if take <= put then take <= i < put else take <= i || i < put
  }

  lemma AdvanceWraps(i: Index, n: nat)
    requires n < BUF_LEN
    ensures Advance(i, n) == if i + n < BUF_LEN then i + n else i + n - BUF_LEN
  {
  }

  lemma UsedAfterPut(take: Index, put: Index, n: nat)
    requires Used(take, put) + n < BUF_LEN
    ensures Used(take, Advance(put, n)) == Used(take, put) + n
  {
    AdvanceWraps(put, n);
  }

  lemma UsedAfterTake(take: Index, put: Index, n: nat)
    requires n <= Used(take, put)
    ensures Used(Advance(take, n), put) == Used(take, put) - n
  {
    AdvanceWraps(take, n);
  }

  /** The test of the interrupt routine for a full buffer. */
  lemma FullTest(take: Index, put: Index)
    ensures Full(take, put) <==> Advance(put, 1) == take
  {
    AdvanceWraps(put, 1);
  }

  /** A block of free slots starting at the producer's index holds no live byte. */
  lemma FreeBlockIsDead(take: Index, put: Index, n: nat, i: Index)
    requires Used(take, put) + n < BUF_LEN && put + n <= BUF_LEN
    requires put <= i < put + n
    ensures !Live(take, put, i)
  {
  }

  /** Writing a slot that is not live leaves the contents alone. */
  lemma DeadWrite(buf: Buffer, take: Index, put: Index, i: Index, b: Byte)
    requires !Live(take, put, i)
    ensures Contents(buf[i := b], take, put) == Contents(buf, take, put)
  {
    if take <= put {
      assert buf[i := b][take..put] == buf[take..put];
    } else {
      assert buf[i := b][take..] == buf[take..];
      assert buf[i := b][..put] == buf[..put];
    }
  }

  /** Publishing a block that was copied behind the live bytes appends it. */
  lemma PutBlock(buf: Buffer, take: Index, put: Index, n: nat)
    requires Used(take, put) + n < BUF_LEN && put + n <= BUF_LEN
    ensures Contents(buf, take, Advance(put, n)) == Contents(buf, take, put) + buf[put..put + n]
  {
    AdvanceWraps(put, n);
    var next := Advance(put, n);
    if take <= put {
      if put + n < BUF_LEN {
        assert buf[take..put] + buf[put..put + n] == buf[take..put + n];
      } else {
        assert next == 0;
        assert buf[take..put] + buf[put..] == buf[take..];
        if n == 0 {
        } else {
          assert take > 0;
        }
      }
    } else {
      assert buf[..put] + buf[put..put + n] == buf[..put + n];
    }
  }

  /** One byte stored at the producer's index and published. */
  lemma PutOne(buf: Buffer, take: Index, put: Index, b: Byte)
    requires !Full(take, put)
    ensures Contents(buf[put := b], take, Advance(put, 1)) == Contents(buf, take, put) + [b]
  {
    DeadWrite(buf, take, put, put, b);
    PutBlock(buf[put := b], take, put, 1);
    assert buf[put := b][put..put + 1] == [b];
  }

  /** The oldest bytes, up to the physical end of the buffer, are one contiguous block. */
  lemma TakeBlock(buf: Buffer, take: Index, put: Index, n: nat)
    requires n <= Used(take, put) && take + n <= BUF_LEN
    ensures Contents(buf, take, put)[..n] == buf[take..take + n]
    ensures Contents(buf, Advance(take, n), put) == Contents(buf, take, put)[n..]
  {
    AdvanceWraps(take, n);
    if take <= put {
    } else if take + n < BUF_LEN {
      assert (buf[take..] + buf[..put])[n..] == buf[take + n..] + buf[..put];
    } else {
      assert (buf[take..] + buf[..put])[n..] == buf[..put];
    }
  }
}
