/**
 The polling ("small") JTAG UART driver. A call waits by polling the device, so each call takes the
 host's behaviour between its polls as an argument and may run out of it, still waiting.
 */
module JtagUartSmall {
  import opened Ring
  import opened JtagUart
  import opened JtagUartRuns
  import opened Sequences

  /** How many polls pass before the host sends anything. */
  function QuietPolls(sends: seq<seq<Byte>>): (n: nat)
    ensures n <= |sends| && (forall k :: 0 <= k < n ==> sends[k] == []) && (n < |sends| ==> sends[n] != [])
  {
    if sends == [] || sends[0] != [] then 0 else 1 + QuietPolls(sends[1..])
  }

  class SmallUart {
    var txFifo: seq<Byte>
    var rxFifo: seq<Byte>
    ghost var sent: seq<Byte>     // everything written to the data register
    ghost var drained: seq<Byte>  // everything the host took
    ghost var popped: seq<Byte>   // everything read from the data register with RVALID set
    ghost var typed: seq<Byte>    // everything the host sent

    ghost predicate Valid()
      reads this
    {
      && |txFifo| <= FIFO_DEPTH && sent == drained + txFifo
      && |rxFifo| <= FIFO_DEPTH && typed == popped + rxFifo
    }

    constructor ()
      ensures Valid() && sent == [] && popped == []
    {
      txFifo, rxFifo := [], [];
      sent, drained, popped, typed := [], [], [], [];
    }

    /** The host takes up to `n` bytes. */
    method HostTakes(n: nat)
      requires Valid()
      modifies this`txFifo, this`drained
      ensures Valid() && |txFifo| == |old(txFifo)| - Min(n, |old(txFifo)|)
    {
      var k := Min(n, |txFifo|);
      Assoc(drained, txFifo[..k], txFifo[k..]);
      assert txFifo[..k] + txFifo[k..] == txFifo;
      drained := drained + txFifo[..k];
      txFifo := txFifo[k..];
    }

    /** The host sends a byte if there is room for it. */
    method HostSends(b: Byte)
      requires Valid()
      modifies this`rxFifo, this`typed
      ensures Valid() && rxFifo != []
    {
      if |rxFifo| < FIFO_DEPTH {
        Assoc(popped, rxFifo, [b]);
        rxFifo := rxFifo + [b];
        typed := typed + [b];
      }
    }

    /** Writes `data`; `takes[i]` bytes leave the FIFO before poll `i`. Returns once every byte is written. */
    method Write(data: seq<Byte>, takes: seq<nat>) returns (finished: bool, ghost pos: nat, rc: int)
      requires Valid()
      modifies this
      ensures Valid() && pos <= |data| && sent == old(sent) + data[..pos]
      ensures popped == old(popped) && rxFifo == old(rxFifo)
      ensures finished <==> pos == |data|
      ensures finished ==> rc == |data| && sent == old(sent) + data
      ensures !finished && (forall i :: 0 <= i < |takes| ==> takes[i] > 0) ==> pos == |takes|
      ensures !finished ==> pos == |takes| || pos + |old(txFifo)| >= FIFO_DEPTH
    {
      var ptr, i := 0, 0;
      while ptr < |data| && i < |takes|
        invariant Valid() && 0 <= ptr <= |data| && ptr <= i <= |takes|
        invariant sent == old(sent) + data[..ptr]
        invariant popped == old(popped) && rxFifo == old(rxFifo) && typed == old(typed)
        invariant (forall k :: 0 <= k < |takes| ==> takes[k] > 0) ==> ptr == i
        invariant |txFifo| <= |old(txFifo)| + ptr && (ptr == i || ptr + |old(txFifo)| >= FIFO_DEPTH)
      {
        HostTakes(takes[i]);
        i := i + 1;
        if FIFO_DEPTH - |txFifo| != 0 {
          Assoc(drained, txFifo, [data[ptr]]);
          ExtendOne(data, 0, ptr);
          Assoc(old(sent), data[..ptr], [data[ptr]]);
          txFifo := txFifo + [data[ptr]];
          sent := sent + [data[ptr]];
          ptr := ptr + 1;
        }
      }
      finished, pos, rc := ptr == |data|, ptr, |data|;
      assert data[..|data|] == data;
    }

    /** A sequence of writes, each given `takes`; stops at the first that does not finish. */
    method WriteAll(calls: seq<seq<Byte>>, takes: seq<nat>) returns (finished: bool)
      requires Valid()
      modifies this
      ensures Valid()
      ensures finished ==> sent == old(sent) + Flatten(calls)
    {
      var i := 0;
      finished := true;
      assert calls[..0] == [];
      while i < |calls|
        invariant Valid() && 0 <= i <= |calls|
        invariant sent == old(sent) + Flatten(calls[..i])
      {
        ghost var pos;
        var rc;
        ghost var before := sent;
        finished, pos, rc := Write(calls[i], takes);
        if !finished {
          return;
        }
        DropLast(calls[..i], calls[i]);
        assert calls[..i + 1] == calls[..i] + [calls[i]];
        Assoc(old(sent), Flatten(calls[..i]), calls[i]);
        i := i + 1;
      }
      assert calls[..|calls|] == calls;
    }

    /**
     The writes of a run of the fast driver, made on this one. As long as the fast driver's host stays active and
     all writes block, what the fast driver has put in the data register is a prefix of what this one has, and the
     two are equal once its close has returned 0.
     */
    method WriteLikeFast(calls: seq<seq<Byte>>, takes: seq<nat>, ghost txBuf: Buffer, ghost rxBuf: Buffer,
                         ghost timeout: nat, ghost acts: seq<Action>)
      returns (finished: bool)
      requires Valid() && sent == [] && calls == Calls(Reach(txBuf, rxBuf, timeout, acts).tx)
      modifies this
      ensures Valid()
      ensures var fast := Reach(txBuf, rxBuf, timeout, acts);
              finished && !fast.host.ever && AllBlocking(fast.tx) ==>
                && fast.tx.sent <= sent
                && (fast.tx.closed && fast.tx.closeRc == 0 && timeout > 0 ==> fast.tx.sent == sent)
    {
      finished := WriteAll(calls, takes);
      FastRefinesSmall(txBuf, rxBuf, timeout, acts);
      assert [] + Flatten(calls) == Flatten(calls);
    }

    /** Reads up to `space` bytes; the host sends `sends[i]`, if anything, before poll `i`. */
    method Read(space: nat, nonblock: bool, sends: seq<seq<Byte>>) returns (finished: bool, bytes: seq<Byte>, rc: int)
      requires Valid()
      modifies this
      ensures Valid() && popped == old(popped) + bytes
      ensures sent == old(sent)
      ensures finished ==> ReadRecordOk(ReadRecord(space, nonblock, bytes, rc), false)
      ensures finished && |bytes| < space ==> rxFifo == []
      ensures !finished ==> |bytes| < space && (nonblock ==> |bytes| == |sends|)
      ensures !finished && !nonblock ==>
                |bytes| == |sends| - if old(rxFifo) != [] then 0 else QuietPolls(sends)
    {
      ghost var quiet := if rxFifo != [] then 0 else QuietPolls(sends);
      bytes, finished := [], false;
      var i := 0;
      while |bytes| < space && i < |sends|
        invariant Valid() && popped == old(popped) + bytes && sent == old(sent)
        invariant |bytes| <= space && 0 <= i <= |sends|
        invariant nonblock ==> |bytes| == i
        invariant !finished
        invariant !nonblock ==> |bytes| == i - Min(i, quiet)
        invariant bytes == [] && i < quiet ==> rxFifo == []
        invariant bytes == [] && i == quiet == 0 && old(rxFifo) != [] ==> rxFifo != []
      {
        var k := 0;
        ghost var before := rxFifo;
        while k < |sends[i]|
          invariant Valid() && popped == old(popped) + bytes && sent == old(sent) && 0 <= k <= |sends[i]|
          invariant if k == 0 then rxFifo == before else rxFifo != []
        {
          HostSends(sends[i][k]);
          k := k + 1;
        }
        i := i + 1;
        if rxFifo != [] {
          ghost var b := [rxFifo[0]];
          Assoc(popped, b, rxFifo[1..]);
          assert b + rxFifo[1..] == rxFifo;
          Assoc(old(popped), bytes, b);
          bytes := bytes + [rxFifo[0]];
          popped := popped + b;
          rxFifo := rxFifo[1..];
        } else if bytes != [] {
          finished := true;
          break;
        } else if nonblock {
          finished := true;
          break;
        }
      }
      finished := finished || |bytes| == space;
      rc := ReturnCode(|bytes|, nonblock);
    }
  }
}
