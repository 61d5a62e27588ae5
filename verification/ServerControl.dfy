/** The writing side of the SCPI server (ServerControl.java): frames sent over a channel whose writes
    may be partial. */
module ServerControl {
  import opened Bytes
  import opened Frames
  import opened Options

  /** A Java byte array has an int length. */
  type Payload = s: string | |s| < 0x8000_0000

  function Least(a: nat, b: nat): nat {
    if a < b then a else b
  }

  /** A non-blocking socket.  The `k`-th write throws if `throws(k)`, and otherwise takes `accept(k, n)` of the
      `n` bytes it is offered (all of them if that is more); `awake(k)` is a call from the `k`-th on that
      takes something. */
  class SocketChannel {
    const id: nat
    const accept: (nat, nat) -> nat
    const throws: nat -> bool
    ghost const awake: nat -> nat
    var open: bool
    var broken: bool      // reading throws
    var inbox: string     // received, not yet read
    var sent: string      // taken by the writes so far
    var calls: nat

    constructor (id: nat, accept: (nat, nat) -> nat, throws: nat -> bool, ghost awake: nat -> nat)
      ensures this.id == id && this.accept == accept && this.throws == throws && this.awake == awake
      ensures open && !broken && inbox == "" && sent == "" && calls == 0
    {
      this.id, this.accept, this.throws, this.awake := id, accept, throws, awake;
      open, broken, inbox, sent, calls := true, false, "", "", 0;
    }

    function Taken(k: nat, n: nat): (t: nat)
      ensures t <= n
    {
      if throws(k) then 0 else Least(accept(k, n), n)
    }

    ghost predicate Productive(k: nat) {
      forall n: nat :: n > 0 ==> accept(k, n) > 0
    }

    /** The schedule keeps making progress. */
    ghost predicate Progressing() {
      forall k: nat :: awake(k) >= k && Productive(awake(k))
    }

    /** Every write goes out whole. */
    ghost predicate Wide() {
      (forall k: nat :: !throws(k)) && forall k: nat, n: nat :: accept(k, n) >= n
    }

    // ----- A run of writes, told by the blocks that were offered

    ghost function Part(k: nat, block: string): string {
      block[..Taken(k, |block|)]
    }

    /** What the writes of `blocks`, the first of them the `k`-th call, put on the wire. */
    ghost function Out(k: nat, blocks: seq<string>): string {
      if blocks == [] then ""
      else
        var n := |blocks| - 1;
        Out(k, blocks[..n]) + Part(k + n, blocks[n])
    }

    /** Since the channel had sent `before` in `k` calls, exactly `blocks` were offered to it. */
    ghost predicate Wrote(before: string, k: nat, blocks: seq<string>)
      reads this
    {
      sent == before + Out(k, blocks) && calls == k + |blocks|
    }

    ghost predicate NoneThrows(k: nat, blocks: seq<string>) {
      forall i :: k <= i < k + |blocks| ==> !throws(i)
    }

    /** The last of them threw, and none before it did. */
    ghost predicate Broke(k: nat, blocks: seq<string>) {
      blocks != [] && throws(k + |blocks| - 1) && NoneThrows(k, blocks[..|blocks| - 1])
    }

    lemma NoneYet(k: nat)
      ensures NoneThrows(k, [])
    {
    }

    lemma NoneOneMore(k: nat, blocks: seq<string>, block: string)
      requires NoneThrows(k, blocks)
      ensures if throws(k + |blocks|) then Broke(k, blocks + [block]) else NoneThrows(k, blocks + [block])
    {
      assert (blocks + [block])[..|blocks|] == blocks;
    }

    lemma OutOneMore(k: nat, blocks: seq<string>, block: string)
      ensures Out(k, blocks + [block]) == Out(k, blocks) + Part(k + |blocks|, block)
    {
      assert (blocks + [block])[..|blocks|] == blocks;
    }

    lemma {:induction false} OutOfTwo(k: nat, a: seq<string>, b: seq<string>)
      ensures Out(k, a + b) == Out(k, a) + Out(k + |a|, b)
    {
      hide Part, Taken;
      if b == [] {
        assert a + b == a;
      } else {
        var n := |b| - 1;
        assert a + b == (a + b[..n]) + [b[n]];
        OutOneMore(k, a + b[..n], b[n]);
        OutOfTwo(k, a, b[..n]);
        assert Out(k + |a|, b) == Out(k + |a|, b[..n]) + Part(k + |a| + n, b[n]);
      }
    }

    /** `write`: the result -1 stands for an exception. */
    method Write(block: string) returns (wn: int)
      modifies this`sent, this`calls
      ensures wn == if throws(old(calls)) then -1 else Taken(old(calls), |block|)
      ensures sent == old(sent) + Part(old(calls), block)
      ensures calls == old(calls) + 1
    {
      var t := Taken(calls, |block|);
      wn := if throws(calls) then -1 else t;
      sent := sent + block[..t];
      calls := calls + 1;
    }

    /** Bytes come in. */
    method Arrive(bytes: string)
      modifies this`inbox
      ensures inbox == old(inbox) + bytes
    {
      inbox := inbox + bytes;
    }

    // ----- What a transfer offers

    /** Each block is the next stretch of `data`, `size` bytes of it or all that is left, and the blocks
        taken so far come to `p`. */
    ghost predicate Chunks(k: nat, data: string, size: nat, blocks: seq<string>, p: nat) {
      if blocks == [] then p == 0
      else
        var n := |blocks| - 1;
        var t := Taken(k + n, |blocks[n]|);
        && t <= p <= |data|
        && var q := p - t;
           && q < |data|
           && blocks[n] == data[q..q + Least(size, |data| - q)]
           && Chunks(k, data, size, blocks[..n], q)
    }

    /** At every moment of a sending loop, whatever the schedule did, a prefix of the data is out. */
    lemma {:induction false} ChunksEmitPrefix(k: nat, data: string, size: nat, blocks: seq<string>, p: nat)
      requires Chunks(k, data, size, blocks, p)
      ensures p <= |data| && Out(k, blocks) == data[..p]
    {
      if blocks == [] {
      } else {
        var n := |blocks| - 1;
        var q := p - Taken(k + n, |blocks[n]|);
        ChunksEmitPrefix(k, data, size, blocks[..n], q);
        assert data[..p] == data[..q] + Part(k + n, blocks[n]);
      }
    }

    lemma NoChunkYet(k: nat, data: string, size: nat)
      ensures Chunks(k, data, size, [], 0)
    {
    }

    lemma OneMoreChunk(k: nat, data: string, size: nat, blocks: seq<string>, p: nat, block: string)
      requires Chunks(k, data, size, blocks, p) && p < |data|
      requires block == data[p..p + Least(size, |data| - p)]
      ensures Chunks(k, data, size, blocks + [block], p + Taken(k + |blocks|, |block|))
    {
      assert (blocks + [block])[..|blocks|] == blocks;
    }

    /** The header and then the data in blocks of `size`, as far as `p` bytes of it; possibly cut off
        within the header. */
    ghost predicate Transfer(k: nat, data: Payload, size: nat, blocks: seq<string>, p: nat) {
      if |blocks| < 3 then blocks == HeaderBlocks(|data|)[..|blocks|] && p == 0
      else blocks[..3] == HeaderBlocks(|data|) && Chunks(k + 3, data, size, blocks[3..], p)
    }

    ghost predicate WholeTransfer(k: nat, data: Payload, size: nat, blocks: seq<string>) {
      |blocks| >= 3 && Transfer(k, data, size, blocks, |data|)
    }

    /** None of the three header writes, whose counts nobody looks at, is partial. */
    ghost predicate HeaderGoesOut(k: nat) {
      Taken(k, 1) == 1 && Taken(k + 1, 4) == 4 && Taken(k + 2, 1) == 1
    }

    lemma HeaderOut(k: nat, length: nat)
      requires length < 0x8000_0000
      ensures Out(k, HeaderBlocks(length)) == Part(k, "#") + Part(k + 1, BigEndian(length)) + Part(k + 2, "\n")
    {
      hide Part, BigEndian, Out;
      var h := BigEndian(length);
      OutOneMore(k, [], "#");
      OutOneMore(k, ["#"], h);
      OutOneMore(k, ["#", h], "\n");
      assert [] + ["#"] == ["#"] && ["#"] + [h] == ["#", h] && ["#", h] + ["\n"] == HeaderBlocks(length);
      OutOfNothing(k);
    }

    lemma OutOfNothing(k: nat)
      ensures Out(k, []) == ""
    {
    }

    /** A whole transfer puts all the data after the header on the wire, and the stream is a proper frame
        exactly when the header went out. */
    lemma WholeTransferOut(k: nat, data: Payload, size: nat, blocks: seq<string>)
      requires WholeTransfer(k, data, size, blocks)
      ensures Out(k, blocks) == Out(k, HeaderBlocks(|data|)) + data
      ensures Out(k, blocks) == Frame(data) <==> HeaderGoesOut(k)
    {
      hide Out, BigEndian, Chunks;
      var h := BigEndian(|data|);
      assert blocks == blocks[..3] + blocks[3..];
      OutOfTwo(k, blocks[..3], blocks[3..]);
      ChunksEmitPrefix(k + 3, data, size, blocks[3..], |data|);
      assert data[..|data|] == data;
      HeaderOut(k, |data|);
      if HeaderGoesOut(k) {
        assert h[..4] == h;
      } else {
        assert |Out(k, HeaderBlocks(|data|))| < 6;
      }
    }
  }

  const DATABLOCK := 2048

  function HeaderBlocks(length: nat): seq<string>
    requires length < 0x8000_0000
  {
    ["#", BigEndian(length), "\n"]
  }

  /** The three writes both senders start with. */
  method WriteHeader(channel: SocketChannel, length: nat) returns (ok: bool, ghost blocks: seq<string>)
    requires length < 0x8000_0000
    modifies channel`sent, channel`calls
    ensures channel.Wrote(old(channel.sent), old(channel.calls), blocks)
    ensures ok ==> blocks == HeaderBlocks(length) && channel.NoneThrows(old(channel.calls), blocks)
    ensures !ok ==> |blocks| <= 3 && blocks == HeaderBlocks(length)[..|blocks|] &&
                    channel.Broke(old(channel.calls), blocks)
  {
    hide SocketChannel.Out, SocketChannel.Part;
    ghost var k := channel.calls;
    channel.OutOfNothing(k);
    var wn := channel.Write("#");
    blocks := ["#"];
    channel.OutOneMore(k, [], "#");
    assert [] + ["#"] == blocks;
    if wn < 0 {
      return false, blocks;
    }
    wn := channel.Write(BigEndian(length));
    channel.OutOneMore(k, blocks, BigEndian(length));
    blocks := blocks + [BigEndian(length)];
    if wn < 0 {
      return false, blocks;
    }
    wn := channel.Write("\n");
    channel.OutOneMore(k, blocks, "\n");
    blocks := blocks + ["\n"];
    ok := wn >= 0;
  }

  /** The chunk loop of `writeLargeData`. */
  method SendChunks(channel: SocketChannel, buf: string) returns (ok: bool, ghost blocks: seq<string>, ghost p: nat)
    requires channel.Progressing()
    modifies channel`sent, channel`calls
    ensures channel.Wrote(old(channel.sent), old(channel.calls), blocks)
    ensures channel.Chunks(old(channel.calls), buf, 2048, blocks, p)
    ensures ok ==>
      channel.NoneThrows(old(channel.calls), blocks) && channel.sent == old(channel.sent) + buf && p == |buf|
    ensures !ok ==> channel.Broke(old(channel.calls), blocks)
  {
    hide SocketChannel.Out, SocketChannel.Chunks, SocketChannel.Part, SocketChannel.Taken;
    hide SocketChannel.NoneThrows, SocketChannel.Broke, SocketChannel.Productive;
    var dataLen := |buf|;
    var at, bl := 0, DATABLOCK;
    ghost var k := channel.calls;
    ghost var target := channel.awake(k);
    blocks := [];
    channel.NoChunkYet(k, buf, DATABLOCK);
    channel.NoneYet(k);
    channel.OutOfNothing(k);
    while at < dataLen
      invariant at <= dataLen && bl <= DATABLOCK && (bl < DATABLOCK ==> dataLen - at <= bl)
      invariant channel.NoneThrows(k, blocks)
      invariant channel.Wrote(old(channel.sent), k, blocks) && channel.Chunks(k, buf, DATABLOCK, blocks, at)
      invariant channel.calls <= target && channel.Productive(target)
      decreases dataLen - at, target - channel.calls
    {
      if bl > dataLen - at {
        bl := dataLen - at;
      }
      ghost var block, n := buf[at..at + bl], |blocks|;
      var wn := channel.Write(buf[at..at + bl]);
      channel.OneMoreChunk(k, buf, DATABLOCK, blocks, at, block);
      channel.OutOneMore(k, blocks, block);
      channel.NoneOneMore(k, blocks, block);
      TakenAtMost(channel, k + n, bl);
      blocks := blocks + [block];
      if wn < 0 {
        ok, p := false, at + channel.Taken(k + n, bl);
        return;
      }
      at := at + wn;
      if wn > 0 {
        target := channel.awake(channel.calls);
      } else if channel.calls - 1 == target {
        SomethingTaken(channel, target, bl);
      }
    }
    ok, p := true, |buf|;
    channel.ChunksEmitPrefix(k, buf, DATABLOCK, blocks, p);
    assert buf[..p] == buf;
  }

  lemma TakenAtMost(channel: SocketChannel, k: nat, n: nat)
    ensures channel.Taken(k, n) <= n
  {
  }

  lemma SomethingTaken(channel: SocketChannel, k: nat, n: nat)
    requires channel.Productive(k) && !channel.throws(k) && n > 0
    ensures channel.Taken(k, n) > 0
  {
  }

  /** What one transfer puts on the wire when every write goes out whole. */
  function DataBytes(data: Option<Payload>): string {
    match data
    case Some(d) => Frame(d)
    case None => NullHeader()
  }

  /** The writes of one transfer: without data only a header that lacks its line feed. */
  ghost predicate DataBlocks(channel: SocketChannel, k: nat, data: Option<Payload>, blocks: seq<string>) {
    && channel.NoneThrows(k, blocks)
    && match data
       case Some(d) => channel.WholeTransfer(k, d, DATABLOCK, blocks)
       case None => blocks == ["#", BigEndian(0)]
  }

  /** The writes of a transfer that ends with the first exception. */
  ghost predicate CutBlocks(channel: SocketChannel, k: nat, data: Option<Payload>, blocks: seq<string>) {
    && channel.Broke(k, blocks)
    && match data
       case Some(d) => exists p :: channel.Transfer(k, d, DATABLOCK, blocks, p)
       case None => |blocks| <= 2 && blocks == ["#", BigEndian(0)][..|blocks|]
  }

  /** `writeLargeData`; `data` is what the provider returns for the command.  An exception of a write goes
      on to the caller. */
  method WriteLargeData(channel: SocketChannel, data: Option<Payload>) returns (thrown: bool, ghost blocks: seq<string>)
    requires channel.Progressing()
    modifies channel`sent, channel`calls
    ensures channel.Wrote(old(channel.sent), old(channel.calls), blocks)
    ensures thrown ==> CutBlocks(channel, old(channel.calls), data, blocks)
    ensures !thrown ==> DataBlocks(channel, old(channel.calls), data, blocks)
    ensures !thrown && data.Some? ==>
      (channel.HeaderGoesOut(old(channel.calls)) <==> channel.sent == old(channel.sent) + Frame(data.value))
  {
    hide SocketChannel.Out, SocketChannel.Chunks, SocketChannel.HeaderGoesOut, SocketChannel.Part, Frame, BigEndian;
    ghost var k, before := channel.calls, channel.sent;
    match data {
      case Some(buf) =>
        var ok;
        ok, blocks := WriteHeader(channel, |buf|);
        if !ok {
          HeaderCut(channel, k, buf, DATABLOCK, blocks);
          return true, blocks;
        }
        ghost var chunks, p;
        ok, chunks, p := SendChunks(channel, buf);
        blocks := HeaderBlocks(|buf|) + chunks;
        RestAfterHeader(channel, k, buf, DATABLOCK, chunks, p);
        if ok {
          TransferDone(channel, before, k, buf, DATABLOCK, chunks);
        }
        thrown := !ok;
      case None =>
        thrown, blocks := WriteNullHeader(channel);
    }
  }

  /** Its branch without data. */
  method WriteNullHeader(channel: SocketChannel) returns (thrown: bool, ghost blocks: seq<string>)
    modifies channel`sent, channel`calls
    ensures channel.Wrote(old(channel.sent), old(channel.calls), blocks)
    ensures thrown ==> CutBlocks(channel, old(channel.calls), None, blocks)
    ensures !thrown ==> DataBlocks(channel, old(channel.calls), None, blocks)
  {
    hide SocketChannel.Out, SocketChannel.Part, BigEndian;
    ghost var k, h := channel.calls, BigEndian(0);
    channel.OutOfNothing(k);
    channel.OutOneMore(k, [], "#");
    channel.OutOneMore(k, ["#"], h);
    assert [] + ["#"] == ["#"] && ["#"] + [h] == ["#", h];
    assert ["#", h][..1] == ["#"] && ["#", h][..2] == ["#", h];
    var wn := channel.Write("#");
    if wn < 0 {
      return true, ["#"];
    }
    wn := channel.Write(BigEndian(0));
    thrown, blocks := wn < 0, ["#", h];
  }

  /** Header and chunks together are a whole transfer. */
  lemma TransferDone(channel: SocketChannel, before: string, k: nat, data: Payload, size: nat, chunks: seq<string>)
    requires channel.Chunks(k + 3, data, size, chunks, |data|)
    ensures var blocks := HeaderBlocks(|data|) + chunks;
      && channel.WholeTransfer(k, data, size, blocks)
      && channel.Out(k, blocks) == channel.Out(k, HeaderBlocks(|data|)) + channel.Out(k + 3, chunks)
      && (channel.HeaderGoesOut(k) <==> before + channel.Out(k, blocks) == before + Frame(data))
  {
    hide SocketChannel.Out, SocketChannel.HeaderGoesOut, Frame, BigEndian, SocketChannel.Chunks;
    var blocks := HeaderBlocks(|data|) + chunks;
    assert blocks[..3] == HeaderBlocks(|data|) && blocks[3..] == chunks;
    channel.OutOfTwo(k, HeaderBlocks(|data|), chunks);
    channel.WholeTransferOut(k, data, size, blocks);
    var x, y := channel.Out(k, blocks), Frame(data);
    assert (before + x)[|before|..] == x && (before + y)[|before|..] == y;
  }

  // ----- Deep memory

  /** What the deep-memory command finds: whether the device is online, the line the local save
      returns, and the copied memory file if the copy succeeded. */
  datatype DeepMemory = DeepMemory(online: bool, save: string -> string, file: Option<Payload>)

  const FAILED := "TRANSMITSSION FAILED\n"
  const OFFLINE := "TRANSMITSSION FAILED AS OFFLINE\n"

  /** `remote_dm_transmit`: the whole rest of the buffer is offered each time; an exception ends the
      transfer where it is and gives the failure text. */
  method RemoteDmTransmit(channel: SocketChannel, file: Option<Payload>)
    returns (rsp: string, ghost blocks: seq<string>, ghost p: nat)
    requires channel.Progressing()
    modifies channel`sent, channel`calls
    ensures channel.Wrote(old(channel.sent), old(channel.calls), blocks)
    ensures file.None? ==> rsp == FAILED && blocks == []
    ensures file.Some? ==>
      var k, d := old(channel.calls), file.value;
      && channel.Transfer(k, d, |d|, blocks, p)
      && (rsp == "" || rsp == FAILED)
      && (rsp == "" ==> channel.NoneThrows(k, blocks) && |blocks| >= 3 && p == |d|)
      && (rsp == FAILED ==> channel.Broke(k, blocks))
  {
    hide SocketChannel.Out, SocketChannel.Chunks, BigEndian;
    blocks, p := [], 0;
    channel.OutOfNothing(channel.calls);
    if file.None? {
      rsp := FAILED;
      return;
    }
    var buf := file.value;
    var ok;
    ok, blocks := WriteHeader(channel, |buf|);
    if !ok {
      HeaderCut(channel, old(channel.calls), buf, |buf|, blocks);
      rsp := FAILED;
      return;
    }
    ghost var k := channel.calls;
    ghost var rest;
    ok, rest, p := SendRest(channel, buf);
    RestAfterHeader(channel, old(channel.calls), buf, |buf|, rest, p);
    blocks := blocks + rest;
    rsp := if ok then "" else FAILED;
  }

  /** The loop of `remote_dm_transmit`. */
  method SendRest(channel: SocketChannel, buf: string) returns (ok: bool, ghost blocks: seq<string>, ghost p: nat)
    requires channel.Progressing()
    modifies channel`sent, channel`calls
    ensures channel.Wrote(old(channel.sent), old(channel.calls), blocks)
    ensures channel.Chunks(old(channel.calls), buf, |buf|, blocks, p)
    ensures ok ==> channel.NoneThrows(old(channel.calls), blocks) && p == |buf|
    ensures !ok ==> channel.Broke(old(channel.calls), blocks)
  {
    hide SocketChannel.Out, SocketChannel.Chunks, SocketChannel.Part, SocketChannel.Taken;
    hide SocketChannel.NoneThrows, SocketChannel.Broke, SocketChannel.Productive;
    var position := 0;
    ghost var k := channel.calls;
    ghost var target := channel.awake(k);
    blocks := [];
    channel.NoChunkYet(k, buf, |buf|);
    channel.NoneYet(k);
    channel.OutOfNothing(k);
    while position < |buf|
      invariant position <= |buf| && channel.NoneThrows(k, blocks)
      invariant channel.Wrote(old(channel.sent), k, blocks) && channel.Chunks(k, buf, |buf|, blocks, position)
      invariant channel.calls <= target && channel.Productive(target)
      decreases |buf| - position, target - channel.calls
    {
      ghost var rest, n := buf[position..], |blocks|;
      var wn := channel.Write(buf[position..]);
      channel.OneMoreChunk(k, buf, |buf|, blocks, position, rest);
      channel.OutOneMore(k, blocks, rest);
      channel.NoneOneMore(k, blocks, rest);
      TakenAtMost(channel, k + n, |rest|);
      blocks := blocks + [rest];
      if wn < 0 {
        ok, p := false, position + channel.Taken(k + n, |rest|);
        return;
      }
      position := position + wn;
      if wn > 0 {
        target := channel.awake(channel.calls);
      } else if channel.calls - 1 == target {
        SomethingTaken(channel, target, |rest|);
      }
    }
    ok, p := true, |buf|;
  }

  lemma HeaderCut(channel: SocketChannel, k: nat, data: Payload, size: nat, blocks: seq<string>)
    requires |blocks| <= 3 && blocks == HeaderBlocks(|data|)[..|blocks|]
    ensures channel.Transfer(k, data, size, blocks, 0)
  {
    if |blocks| == 3 {
      assert blocks[3..] == [] && blocks[..3] == HeaderBlocks(|data|);
    }
  }

  lemma RestAfterHeader(channel: SocketChannel, k: nat, data: Payload, size: nat, rest: seq<string>, p: nat)
    requires channel.Chunks(k + 3, data, size, rest, p)
    ensures var blocks := HeaderBlocks(|data|) + rest;
      && channel.Transfer(k, data, size, blocks, p)
      && channel.Out(k, blocks) == channel.Out(k, HeaderBlocks(|data|)) + channel.Out(k + 3, rest)
  {
    hide SocketChannel.Out, SocketChannel.Chunks;
    var blocks := HeaderBlocks(|data|) + rest;
    assert blocks[..3] == HeaderBlocks(|data|) && blocks[3..] == rest;
    channel.OutOfTwo(k, HeaderBlocks(|data|), rest);
  }

  /** Two whole transfers of the same data, in blocks of any two sizes (2048 bytes, or all that is left) and
      on any two schedules: if the header of one went out, their streams are equal exactly when the header
      of the other went out too. */
  lemma SendersAgree(a: SocketChannel, ka: nat, sizeA: nat, blocksA: seq<string>,
                     b: SocketChannel, kb: nat, sizeB: nat, blocksB: seq<string>, data: Payload)
    requires a.WholeTransfer(ka, data, sizeA, blocksA) && b.WholeTransfer(kb, data, sizeB, blocksB)
    requires a.HeaderGoesOut(ka)
    ensures a.Out(ka, blocksA) == b.Out(kb, blocksB) <==> b.HeaderGoesOut(kb)
  {
    a.WholeTransferOut(ka, data, sizeA, blocksA);
    b.WholeTransferOut(kb, data, sizeB, blocksB);
  }

  lemma HeaderOutAtMost(channel: SocketChannel, k: nat, length: nat, n: nat)
    requires length < 0x8000_0000 && n <= 3
    ensures |channel.Out(k, HeaderBlocks(length)[..n])| <= [0, 1, 5, 6][n]
  {
    hide BigEndian;
    var h := HeaderBlocks(length);
    if n > 0 {
      HeaderOutAtMost(channel, k, length, n - 1);
      assert h[..n] == h[..n - 1] + [h[n - 1]];
      channel.OutOneMore(k, h[..n - 1], h[n - 1]);
    }
  }

  /** A transfer that ends with an exception falls short of a frame. */
  lemma CutIsShorter(channel: SocketChannel, k: nat, data: Payload, size: nat, blocks: seq<string>, p: nat)
    requires channel.Transfer(k, data, size, blocks, p) && channel.Broke(k, blocks)
    ensures |channel.Out(k, blocks)| < |Frame(data)|
  {
    hide SocketChannel.Out, BigEndian;
    var n := |blocks| - 1;
    assert blocks[..n] + [blocks[n]] == blocks;
    channel.OutOneMore(k, blocks[..n], blocks[n]);
    if n < 3 {
      HeaderOutAtMost(channel, k, |data|, n);
      assert blocks[..n] == HeaderBlocks(|data|)[..n];
    } else {
      assert blocks == blocks[..3] + blocks[3..];
      channel.OutOfTwo(k, blocks[..3], blocks[3..]);
      channel.ChunksEmitPrefix(k + 3, data, size, blocks[3..], p);
      HeaderOutAtMost(channel, k, |data|, 3);
      assert HeaderBlocks(|data|)[..3] == HeaderBlocks(|data|);
    }
  }

  /** The chunked sender on one channel and the deep-memory sender on another, given the same data: if the
      first sent a frame, the streams are equal exactly when no write of the second threw and its header
      went out. */
  method SendBothWays(a: SocketChannel, b: SocketChannel, data: Payload) returns (thrown: bool, rsp: string)
    requires a != b && a.Progressing() && b.Progressing()
    modifies a`sent, a`calls, b`sent, b`calls
    ensures !thrown && a.HeaderGoesOut(old(a.calls)) && old(a.sent) == old(b.sent) ==>
      (a.sent == b.sent <==> rsp == "" && b.HeaderGoesOut(old(b.calls)))
  {
    hide SocketChannel.Out, SocketChannel.HeaderGoesOut, SocketChannel.Transfer, SocketChannel.Broke;
    ghost var x, y, p;
    thrown, x := WriteLargeData(a, Some(data));
    rsp, y, p := RemoteDmTransmit(b, Some(data));
    if !thrown && a.HeaderGoesOut(old(a.calls)) && old(a.sent) == old(b.sent) {
      var before := old(a.sent);
      assert a.sent[|before|..] == a.Out(old(a.calls), x) && b.sent[|before|..] == b.Out(old(b.calls), y);
      if rsp == "" {
        SendersAgree(a, old(a.calls), DATABLOCK, x, b, old(b.calls), |data|, y, data);
      } else {
        CutIsShorter(b, old(b.calls), data, |data|, y, p);
      }
    }
  }

  /** The bytes `writeDMData` sends when every write goes out whole. */
  function DmBytes(cmd: string, remote: bool, memory: DeepMemory): string {
    if !memory.online then OFFLINE
    else if !remote then memory.save(cmd)
    else if memory.file.None? then FAILED
    else Frame(memory.file.value)
  }

  /** The writes of a deep-memory reply: one line, or the transfer of the file followed by one more write,
      of nothing or, after an exception, of the failure text. */
  ghost predicate DmBlocks(channel: SocketChannel, k: nat, cmd: string, remote: bool, memory: DeepMemory,
                           blocks: seq<string>)
  {
    if memory.online && remote && memory.file.Some? then
      && blocks != []
      && var n, d := |blocks| - 1, memory.file.value;
         if channel.NoneThrows(k, blocks[..n]) then
           channel.WholeTransfer(k, d, |d|, blocks[..n]) && blocks[n] == ""
         else
           blocks[n] == FAILED && channel.Broke(k, blocks[..n]) &&
           exists p :: channel.Transfer(k, d, |d|, blocks[..n], p)
    else blocks == [DmBytes(cmd, remote, memory)]
  }

  /** Which deep-memory reply the writes are, by what the memory is. */
  ghost predicate TellsMemory(cmd: string, remote: bool, memory: DeepMemory, blocks: seq<string>) {
    && (!memory.online ==> blocks == ["TRANSMITSSION FAILED AS OFFLINE\n"])
    && (memory.online && !remote ==> blocks == [memory.save(cmd)])
    && (memory.online && remote && memory.file.None? ==> blocks == ["TRANSMITSSION FAILED\n"])
    && (memory.online && remote && memory.file.Some? ==>
          blocks != [] && blocks[|blocks| - 1] in ["", "TRANSMITSSION FAILED\n"])
  }

  lemma DmBlocksTellMemory(channel: SocketChannel, k: nat, cmd: string, remote: bool, memory: DeepMemory,
                           blocks: seq<string>)
    requires DmBlocks(channel, k, cmd, remote, memory, blocks)
    ensures TellsMemory(cmd, remote, memory, blocks)
  {
  }

  /** `writeDMData`; an exception of the last write goes on to the caller. */
  method WriteDMData(channel: SocketChannel, cmd: string, remote: bool, memory: DeepMemory)
    returns (thrown: bool, ghost blocks: seq<string>)
    requires channel.Progressing()
    modifies channel`sent, channel`calls
    ensures channel.Wrote(old(channel.sent), old(channel.calls), blocks)
    ensures DmBlocks(channel, old(channel.calls), cmd, remote, memory, blocks)
    ensures thrown == channel.throws(channel.calls - 1)
    ensures TellsMemory(cmd, remote, memory, blocks)
  {
    hide SocketChannel.Out, SocketChannel.Transfer, SocketChannel.Part, TellsMemory;
    var rsp;
    ghost var p;
    blocks := [];
    channel.OutOfNothing(channel.calls);
    if memory.online {
      if remote {
        rsp, blocks, p := RemoteDmTransmit(channel, memory.file);
      } else {
        rsp := memory.save(cmd);
      }
    } else {
      rsp := OFFLINE;
    }
    var wn := channel.Write(rsp);
    channel.OutOneMore(old(channel.calls), blocks, rsp);
    assert (blocks + [rsp])[..|blocks|] == blocks;
    blocks := blocks + [rsp];
    thrown := wn < 0;
    DmBlocksTellMemory(channel, old(channel.calls), cmd, remote, memory, blocks);
  }
}
