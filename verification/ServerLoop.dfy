/** The server thread itself (Server.java): `process` on one selected key, over the shared buffer and the
    shared flags.  What it does is `Step` of module Server. */
module ServerLoop {
  import opened Bytes
  import opened Frames
  import opened Options
  import opened Requests
  import opened ServerControl
  import opened Server

  /** java.nio.ByteBuffer over an array. */
  class ByteBuffer {
    const data: array<char>
    var position: nat
    var limit: nat

    ghost predicate Valid()
      reads this
    {
      position <= limit <= data.Length
    }

    ghost predicate Cleared()
      reads this
    {
      position == 0 && limit == data.Length
    }

    constructor (capacity: nat)
      ensures Valid() && Cleared() && data.Length == capacity && fresh(data)
    {
      data := new char[capacity];
      position, limit := 0, capacity;
    }

    method Flip()
      requires Valid()
      modifies this
      ensures Valid() && position == 0 && limit == old(position)
    {
      limit, position := position, 0;
    }

    method Clear()
      modifies this
      ensures Valid() && Cleared()
    {
      position, limit := 0, data.Length;
    }

    /** `channel.read(this)`: as much as has arrived and fits; -1 stands for a read that throws. */
    method ReadFrom(channel: SocketChannel) returns (count: int)
      requires Valid()
      modifies this`position, data, channel`inbox
      ensures Valid() && limit == old(limit)
      ensures channel.broken ==> count == -1 && position == old(position) && channel.inbox == old(channel.inbox)
      ensures !channel.broken ==>
        && count == Least(old(limit - position), |old(channel.inbox)|)
        && position == old(position) + count
        && channel.inbox == old(channel.inbox)[count..]
        && data[old(position)..position] == old(channel.inbox)[..count]
    {
      if channel.broken {
        return -1;
      }
      count := Least(limit - position, |channel.inbox|);
      var i := 0;
      while i < count
        invariant 0 <= i <= count
        modifies data
        invariant data[position..position + i] == channel.inbox[..i]
      {
        data[position + i] := channel.inbox[i];
        i := i + 1;
      }
      position := position + count;
      channel.inbox := channel.inbox[count..];
    }
  }

  datatype Ready = Acceptable | Readable | Writable

  const BUFFER := 1024

  class ServerThread {
    var onlargeTransmit: bool
    var onDmTransmit: bool
    var isRemoteTransmit: bool
    const clientBuffer: ByteBuffer
    const world: World
    var keys: map<nat, Key>
    var clock: nat
    ghost var asked: map<nat, seq<string>>

    ghost function View(): State
      reads this
    {
      State(Flags(onlargeTransmit, onDmTransmit, isRemoteTransmit), keys, clock, asked)
    }

    /** The shared buffer is cleared at every step boundary. */
    ghost predicate Valid()
      reads this, clientBuffer
    {
      clientBuffer.Valid() && clientBuffer.Cleared() && clientBuffer.data.Length == BUFFER
    }

    constructor (world: World)
      ensures Valid() && View() == START && this.world == world
      ensures fresh(clientBuffer) && fresh(clientBuffer.data) && clientBuffer.data.Length == 1024
    {
      this.world := world;
      clientBuffer := new ByteBuffer(BUFFER);
      onlargeTransmit, onDmTransmit, isRemoteTransmit := false, false, false;
      keys, clock, asked := map[], 0, map[];
    }

    method DealADC_CMDs(line: string) returns (dealt: bool)
      modifies this`onlargeTransmit, this`onDmTransmit, this`isRemoteTransmit
      ensures dealt == IsTransfer(line)
      ensures View() == old(View()).(flags := Deal(old(View()).flags, line))
    {
      var a, b, c := StartsWith(line, "*ADC?"), StartsWith(line, "*LDM?"), StartsWith(line, "*RDM?");
      if a {
        onlargeTransmit := true;
        return true;
      }
      if b {
        onDmTransmit := true;
        isRemoteTransmit := false;
        return true;
      }
      if c {
        onDmTransmit := true;
        isRemoteTransmit := true;
        return true;
      }
      return false;
    }

    method Analyse(piece: string) returns (reply: string)
      modifies this`onlargeTransmit, this`onDmTransmit, this`isRemoteTransmit, this`clock
      ensures reply == Answer(world, old(clock), Normal(piece))
      ensures View() ==
        old(View()).(flags := Deal(old(View()).flags, Normal(piece)), clock := old(clock) + 1)
    {
      var line := RemoveSpace(Trim(piece));
      var dealt := DealADC_CMDs(line);
      clock := clock + 1;
      if dealt {
        return line + ";";
      }
      match world.handle(clock - 1, line)
      case Some(r) => return r;
      case None => return UNKNOWN;
    }

    /** `translation`: one reply per piece, appended in order. */
    method Translate(cmd: string) returns (reply: string)
      modifies this`onlargeTransmit, this`onDmTransmit, this`isRemoteTransmit, this`clock
      ensures var lines := NormalAll(JavaSplit(cmd));
        && reply == Translation(world, old(clock), lines)
        && View() == old(View()).(flags := DealAll(old(View()).flags, lines), clock := old(clock) + |lines|)
    {
      hide DealAll, Translation, Answer, JavaSplit, Normal;
      var splits := JavaSplit(cmd);
      ghost var lines := NormalAll(splits);
      reply := "";
      NothingTranslated(world, clock, View().flags);
      for i := 0 to |splits|
        invariant reply == Translation(world, old(clock), lines[..i])
        invariant View() ==
          old(View()).(flags := DealAll(old(View()).flags, lines[..i]), clock := old(clock) + i)
      {
        if i > 0 {
          reply := reply + ";";
        }
        var r := Analyse(splits[i]);
        TranslationOfOneMore(world, old(clock), lines[..i], lines[i]);
        DealOneMore(old(View()).flags, lines[..i], lines[i]);
        assert lines[..i] + [lines[i]] == lines[..i + 1] && lines[i] == Normal(splits[i]);
        reply := reply + r;
      }
      assert lines[..|splits|] == lines;
    }

    /** The write step's transfers, one per piece of the pending reply. */
    method TransmitLarge(channel: SocketChannel, cmd: string) returns (thrown: bool, ghost blocks: seq<string>)
      requires channel.Progressing()
      modifies this`clock, channel`sent, channel`calls
      ensures channel.Wrote(old(channel.sent), old(channel.calls), blocks)
      ensures clock >= old(clock)
      ensures !thrown ==>
        && clock == old(clock) + |LargePieces(cmd)|
        && LargeBlocks(channel, old(channel.calls), world, old(clock), LargePieces(cmd), blocks)
      ensures thrown ==>
        && clock > old(clock)
        && LargeCut(channel, old(channel.calls), world, old(clock), LargePieces(cmd), clock - old(clock) - 1,
                    blocks)
    {
      hide DataBlocks, CutBlocks, LargePieces, LargeBlocks, LargeCut, SocketChannel.Out, SocketChannel.HeaderGoesOut;
      var splits := LargePieces(cmd);
      ghost var k, c := channel.calls, clock;
      blocks := [];
      channel.OutOfNothing(k);
      NoTransfer(channel, k, world, c);
      for i := 0 to |splits|
        invariant clock == c + i
        invariant channel.Wrote(old(channel.sent), k, blocks)
        invariant LargeBlocks(channel, k, world, c, splits[..i], blocks)
      {
        var data := world.getData(clock, splits[i]);
        ghost var more;
        thrown, more := WriteLargeData(channel, data);
        channel.OutOfTwo(k, blocks, more);
        if thrown {
          CutTransfer(channel, k, world, c, splits, i, blocks, more);
          clock := clock + 1;
          return true, blocks + more;
        }
        OneMoreTransfer(channel, k, world, c, splits[..i], splits[i], blocks, more);
        assert splits[..i] + [splits[i]] == splits[..i + 1];
        blocks := blocks + more;
        clock := clock + 1;
      }
      assert splits[..|splits|] == splits;
      thrown := false;
    }

    /** `process` for the key of `client`; for an acceptable server key `client` is the channel that the
        accept returns.  `blocks` is what the writes offered; an exception of a write goes on to the caller. */
    method Process(ready: Ready, client: SocketChannel) returns (thrown: bool, ghost blocks: seq<string>)
      requires Valid() && IsReady(ready, client.id)
      requires ready == Writable ==> client.Progressing()
      modifies this, clientBuffer, clientBuffer.data, client
      ensures Valid()
      ensures !thrown ==>
        View() == Step(world, old(View()), EventOf(ready, client.id, old(client.inbox), old(client.broken)))
      ensures thrown ==>
        && ready == Writable && clock >= old(clock) && View() == Stopped(old(View()), clock - old(clock))
        && ReplyCut(client, old(client.calls), world, old(View()), old(keys)[client.id].attachment.value,
                    clock - old(clock), blocks)
      ensures ready == Readable ==>
        var chunk := ChunkOf(old(client.inbox));
        if old(client.broken) || chunk == "" then !client.open && client.inbox == old(client.inbox)
        else client.inbox == old(client.inbox)[|chunk|..] && client.open == old(client.open)
      ensures ready != Readable ==> client.inbox == old(client.inbox) && client.open == old(client.open)
      ensures ready == Writable ==> client.Wrote(old(client.sent), old(client.calls), blocks)
      ensures ready == Writable && !thrown ==>
        ReplyBlocks(client, old(client.calls), world, old(View()), old(keys)[client.id].attachment.value, blocks)
      ensures ready == Writable && client.Wide() ==>
        && !thrown
        && client.sent == old(client.sent) + Emission(world, old(View()), old(keys)[client.id].attachment.value)
      ensures ready == Writable && !old(onlargeTransmit) && old(onDmTransmit) ==>
        TellsMemory(old(keys)[client.id].attachment.value, old(isRemoteTransmit), world.memory(old(clock)), blocks)
      ensures ready != Writable ==> client.sent == old(client.sent) && blocks == []
    {
      hide TellsMemory, Emission, ReplyBlocks, ReplyCut, SocketChannel.Out, SocketChannel.Progressing;
      thrown, blocks := false, [];
      match ready {
        case Acceptable =>
          keys := keys[client.id := Key(Reading, None)];
          asked := asked - {client.id};
        case Readable =>
          ReadRequest(client);
        case Writable =>
          ghost var k, s, reply := client.calls, View(), keys[client.id].attachment.value;
          thrown, blocks := WriteReply(client);
          CutsAreNotWide(client, k, world, s, reply, blocks);
          if client.Wide() {
            WideReplyIsEmission(client, k, world, s, reply, blocks);
          }
      }
    }

    /** Whether the selector may report the key: what `isAcceptable`, `isReadable`, `isWritable` say. */
    predicate IsReady(ready: Ready, id: nat)
      reads this
    {
      match ready
      case Acceptable => id !in keys
      case Readable => id in keys && keys[id].ops == Reading
      case Writable => id in keys && keys[id].ops == Writing && keys[id].attachment.Some?
    }

    /** One selection: what has come in from the client, and its key if the selector reports it.  A key that
        is not ready is not reported, so it is passed over. */
    method Select(key: Selection) returns (thrown: bool, ghost e: Event)
      requires Valid() && key.client.Progressing()
      modifies this, clientBuffer, clientBuffer.data, key.client
      ensures Valid() && Matches(e, key.ready, key.client.id)
      ensures !thrown ==> View() == Step(world, old(View()), e)
      ensures thrown ==>
        key.ready == Writable && clock >= old(clock) && View() == Stopped(old(View()), clock - old(clock))
      ensures HeardIn(old(View()), e, key.client.id) + key.client.inbox == old(key.client.inbox) + key.arriving
      ensures key.client.Wide() ==>
        !thrown && key.client.sent == old(key.client.sent) + SaidIn(world, old(View()), e, key.client.id)
    {
      hide ReplyBlocks, ReplyCut, SocketChannel.Out, Emission, SocketChannel.Wide, SocketChannel.Progressing, Step;
      var client := key.client;
      client.Arrive(key.arriving);
      e := EventOf(key.ready, client.id, client.inbox, client.broken);
      thrown := false;
      ghost var inbox := client.inbox;
      if IsReady(key.ready, client.id) {
        ghost var blocks;
        thrown, blocks := Process(key.ready, client);
        assert key.ready == Readable ==> ChunkOf(inbox) + inbox[|ChunkOf(inbox)|..] == inbox;
      } else {
        NotReadyIsNoStep(world, View(), e, key.ready, client.id);
      }
      assert "" + client.inbox == client.inbox && client.sent + "" == client.sent;
    }

    /** `listen` over any number of selections, until a write throws.  The thread makes a run of the state
        machine, one event for each selection; the chunks of the run are the bytes that came in from each
        client, in order, and a client whose socket takes every write whole has been sent what the run says. */
    method Listen(selected: seq<Selection>) returns (thrown: bool, ghost es: seq<Event>)
      requires Valid()
      requires forall i :: 0 <= i < |selected| ==> selected[i].client.Progressing()
      requires OneClientPerId(selected)
      modifies this, clientBuffer, clientBuffer.data, set i | 0 <= i < |selected| :: selected[i].client
      ensures Valid() && |es| <= |selected| && (thrown <==> |es| < |selected|)
      ensures forall i :: 0 <= i < |es| ==> Matches(es[i], selected[i].ready, selected[i].client.id)
      ensures !thrown ==> View() == Run(world, old(View()), es)
      ensures thrown ==>
        var s := Run(world, old(View()), es);
        selected[|es|].ready == Writable && clock >= s.clock && View() == Stopped(s, clock - s.clock)
      ensures forall i :: 0 <= i < |selected| ==> var c := selected[i].client;
        Heard(world, old(View()), es, c.id) + c.inbox ==
        old(c.inbox) + Arrived(selected[..if thrown then |es| + 1 else |es|], c.id)
      ensures forall i :: 0 <= i < |selected| && selected[i].client.Wide() ==> var c := selected[i].client;
        c.sent == old(c.sent) + Said(world, old(View()), es, c.id)
    {
      hide Heard, Said, HeardIn, SaidIn, Arrived, Run, Step, Matches;
      hide SocketChannel.Wide, SocketChannel.Progressing;
      ghost var s := View();
      es := [];
      NothingYet(world, s);
      for i := 0 to |selected|
        invariant Valid() && View() == Run(world, s, es) && |es| == i
        invariant forall j :: 0 <= j < i ==> Matches(es[j], selected[j].ready, selected[j].client.id)
        invariant forall j :: 0 <= j < |selected| ==> var c := selected[j].client;
          Heard(world, s, es, c.id) + c.inbox == old(c.inbox) + Arrived(selected[..i], c.id)
        invariant forall j :: 0 <= j < |selected| && selected[j].client.Wide() ==> var c := selected[j].client;
          c.sent == old(c.sent) + Said(world, s, es, c.id)
      {
        ghost var e;
        label Turn:
        thrown, e := Select(selected[i]);
        forall j | 0 <= j < |selected|
          ensures var c := selected[j].client;
            Heard(world, s, es + [e], c.id) + c.inbox == old(c.inbox) + Arrived(selected[..i + 1], c.id) &&
            (c.Wide() ==> c.sent == old(c.sent) + Said(world, s, es + [e], c.id))
        {
          var c := selected[j].client;
          if c != selected[i].client {
            OthersHearNothing(world, Run(world, s, es), e, selected[i].ready, selected[i].client.id, c.id);
          }
          OneMoreEvent(world, s, es, e, c.id);
          OneMoreArrival(selected, i, c.id);
          assert (old(c.sent) + Said(world, s, es, c.id)) + SaidIn(world, Run(world, s, es), e, c.id) ==
                 old(c.sent) + Said(world, s, es + [e], c.id);
          Regroup(Heard(world, s, es, c.id), old@Turn(c.inbox), old(c.inbox), Arrived(selected[..i], c.id),
                  HeardIn(Run(world, s, es), e, c.id), c.inbox,
                  if selected[i].client.id == c.id then selected[i].arriving else "");
        }
        if thrown {
          RespondTakesNothing(world, s, es, e, selected[i].client.id);
          return;
        }
        RunOneMore(world, s, es, e);
        es := es + [e];
      }
      thrown := false;
    }

    method ReadRequest(client: SocketChannel)
      requires Valid() && IsReady(Readable, client.id)
      modifies this, clientBuffer, clientBuffer.data, client`inbox, client`open
      ensures Valid()
      ensures View() == Step(world, old(View()), EventOf(Readable, client.id, old(client.inbox), client.broken))
      ensures var chunk := ChunkOf(old(client.inbox));
        if client.broken || chunk == "" then !client.open && client.inbox == old(client.inbox)
        else client.inbox == old(client.inbox)[|chunk|..] && client.open == old(client.open)
    {
      hide DealAll, Translation, Trim, JavaSplit;
      var count := clientBuffer.ReadFrom(client);
      if count > 0 {
        clientBuffer.Flip();
        var text := clientBuffer.data[..count];
        var cmd := Trim(text);
        var trans := Translate(cmd + "\r");
        if trans != "" {
          keys := keys[client.id := Key(Writing, Some(trans))];
          asked := asked[client.id := Lines(text)];
        }
      } else {
        client.open := false;
        keys := keys - {client.id};
        asked := asked - {client.id};
      }
      clientBuffer.Clear();
    }

    method WriteReply(client: SocketChannel) returns (thrown: bool, ghost blocks: seq<string>)
      requires client.Progressing() && IsReady(Writable, client.id)
      modifies this, client`sent, client`calls
      ensures client.Wrote(old(client.sent), old(client.calls), blocks)
      ensures !thrown ==>
        && View() == Responds(old(View()), client.id, old(keys)[client.id].attachment.value)
        && ReplyBlocks(client, old(client.calls), world, old(View()), old(keys)[client.id].attachment.value, blocks)
      ensures thrown ==>
        && clock >= old(clock) && View() == Stopped(old(View()), clock - old(clock))
        && ReplyCut(client, old(client.calls), world, old(View()), old(keys)[client.id].attachment.value,
                    clock - old(clock), blocks)
      ensures !old(onlargeTransmit) && old(onDmTransmit) ==>
        TellsMemory(old(keys)[client.id].attachment.value, old(isRemoteTransmit), world.memory(old(clock)), blocks)
    {
      hide TellsMemory, LargePieces, LargeBlocks, LargeCut, DmBlocks, SocketChannel.Out, SocketChannel.Progressing;
      var cmd := keys[client.id].attachment.value;
      if onlargeTransmit {
        thrown, blocks := TransmitLarge(client, cmd);
        if thrown {
          return;
        }
        onlargeTransmit := false;
      } else if onDmTransmit {
        thrown, blocks := WriteDMData(client, cmd, isRemoteTransmit, world.memory(clock));
        clock := clock + 1;
        if thrown {
          return;
        }
        onDmTransmit := false;
        isRemoteTransmit := false;
      } else {
        thrown := WriteLine(client, cmd + "\n");
        blocks := [cmd + "\n"];
        if thrown {
          return;
        }
      }
      keys := keys[client.id := Key(Reading, None)];
      asked := asked - {client.id};
    }
  }

  /** A text reply: one write, whose count is not looked at. */
  method WriteLine(channel: SocketChannel, line: string) returns (thrown: bool)
    modifies channel`sent, channel`calls
    ensures channel.Wrote(old(channel.sent), old(channel.calls), [line])
    ensures thrown == channel.throws(old(channel.calls))
  {
    ghost var k := channel.calls;
    var wn := channel.Write(line);
    channel.OutOfNothing(k);
    channel.OutOneMore(k, [], line);
    assert [] + [line] == [line];
    thrown := wn < 0;
  }

  // ----- What a selected key amounts to

  /** A key of the selector, with the bytes that have come in from its client since it was last selected. */
  datatype Selection = Selection(ready: Ready, client: SocketChannel, arriving: string)

  predicate OneClientPerId(keys: seq<Selection>) {
    forall i, j :: 0 <= i < |keys| && 0 <= j < |keys| && keys[i].client.id == keys[j].client.id ==>
      keys[i].client == keys[j].client
  }

  /** All bytes that come in from a client. */
  function Arrived(keys: seq<Selection>, id: nat): string {
    if keys == [] then ""
    else
      var n := |keys| - 1;
      Arrived(keys[..n], id) + if keys[n].client.id == id then keys[n].arriving else ""
  }

  lemma OneMoreArrival(selected: seq<Selection>, i: nat, id: nat)
    requires i < |selected|
    ensures Arrived(selected[..i + 1], id) ==
            Arrived(selected[..i], id) + if selected[i].client.id == id then selected[i].arriving else ""
  {
    assert selected[..i + 1][..i] == selected[..i];
  }

  lemma OthersHearNothing(w: World, s: State, e: Event, ready: Ready, id: nat, other: nat)
    requires Matches(e, ready, id) && other != id
    ensures HeardIn(s, e, other) == "" && SaidIn(w, s, e, other) == ""
  {
  }

  lemma RespondTakesNothing(w: World, s: State, es: seq<Event>, e: Event, id: nat)
    requires Matches(e, Writable, id)
    ensures forall x: nat :: Heard(w, s, es + [e], x) == Heard(w, s, es, x)
  {
    forall x: nat {
      OneMoreEvent(w, s, es, e, x);
    }
  }

  /** What was heard and what is still in the inbox are what came in; a little more of each. */
  lemma Regroup(heard: string, inbox: string, first: string, arrived: string, more: string, left: string,
                arriving: string)
    requires heard + inbox == first + arrived && more + left == inbox + arriving
    ensures heard + more + left == first + (arrived + arriving)
  {
    assert heard + more + left == heard + (more + left);
    assert heard + (inbox + arriving) == (heard + inbox) + arriving;
    assert (first + arrived) + arriving == first + (arrived + arriving);
  }

  /** What one read of the shared buffer takes. */
  function ChunkOf(inbox: string): string {
    inbox[..Least(BUFFER, |inbox|)]
  }

  function EventOf(ready: Ready, id: nat, inbox: string, broken: bool): Event {
    match ready
    case Acceptable => Accept(id)
    case Readable => if broken || inbox == "" then Lose(id) else Receive(id, ChunkOf(inbox))
    case Writable => Respond(id)
  }

  predicate Matches(e: Event, ready: Ready, id: nat) {
    match ready
    case Acceptable => e == Accept(id)
    case Readable => e == Lose(id) || (e.Receive? && e.id == id && 0 < |e.chunk| <= BUFFER)
    case Writable => e == Respond(id)
  }

  lemma NothingYet(w: World, s: State)
    ensures Run(w, s, []) == s
    ensures forall id: nat :: Heard(w, s, [], id) == "" && Said(w, s, [], id) == "" && Arrived([], id) == ""
  {
  }

  lemma NotReadyIsNoStep(w: World, s: State, e: Event, ready: Ready, id: nat)
    requires Matches(e, ready, id)
    requires match ready
             case Acceptable => id in s.keys
             case Readable => id !in s.keys || s.keys[id].ops != Reading
             case Writable => id !in s.keys || s.keys[id].ops != Writing || s.keys[id].attachment.None?
    ensures Step(w, s, e) == s
  {
  }

  lemma NoTransfer(channel: SocketChannel, k: nat, w: World, clock: nat)
    ensures LargeBlocks(channel, k, w, clock, [], [])
  {
  }

  lemma CutTransfer(channel: SocketChannel, k: nat, w: World, clock: nat, pieces: seq<string>, n: nat,
                    blocks: seq<string>, more: seq<string>)
    requires n < |pieces| && LargeBlocks(channel, k, w, clock, pieces[..n], blocks)
    requires CutBlocks(channel, k + |blocks|, w.getData(clock + n, pieces[n]), more)
    ensures LargeCut(channel, k, w, clock, pieces, n, blocks + more)
  {
    hide CutBlocks, LargeBlocks;
    assert (blocks + more)[..|blocks|] == blocks && (blocks + more)[|blocks|..] == more;
  }

  lemma OneMoreTransfer(channel: SocketChannel, k: nat, w: World, clock: nat, pieces: seq<string>, piece: string,
                        blocks: seq<string>, more: seq<string>)
    requires LargeBlocks(channel, k, w, clock, pieces, blocks)
    requires DataBlocks(channel, k + |blocks|, w.getData(clock + |pieces|, piece), more)
    ensures LargeBlocks(channel, k, w, clock, pieces + [piece], blocks + more)
  {
    hide DataBlocks;
    assert (pieces + [piece])[..|pieces|] == pieces;
    assert (blocks + more)[..|blocks|] == blocks && (blocks + more)[|blocks|..] == more;
  }

  lemma {:induction false} JoinSnoc(ps: seq<string>, p: string)
    ensures Join(ps + [p]) == if ps == [] then p else Join(ps) + ";" + p
  {
    if |ps| <= 1 {
      assert |ps| == 1 ==> (ps + [p])[1..] == [p];
    } else {
      assert (ps + [p])[1..] == ps[1..] + [p];
      JoinSnoc(ps[1..], p);
    }
  }

  lemma TranslationOfOneMore(w: World, clock: nat, lines: seq<string>, line: string)
    ensures Translation(w, clock, lines + [line]) ==
            (if lines == [] then "" else Translation(w, clock, lines) + ";") + Answer(w, clock + |lines|, line)
  {
    hide Join, Answer;
    assert Answers(w, clock, lines + [line]) == Answers(w, clock, lines) + [Answer(w, clock + |lines|, line)];
    JoinSnoc(Answers(w, clock, lines), Answer(w, clock + |lines|, line));
    assert "" + Answer(w, clock + |lines|, line) == Answer(w, clock + |lines|, line);
  }

  lemma NothingTranslated(w: World, clock: nat, f: Flags)
    ensures Translation(w, clock, []) == "" && DealAll(f, []) == f
  {
  }

  lemma DealOneMore(f: Flags, lines: seq<string>, line: string)
    ensures DealAll(f, lines + [line]) == Deal(DealAll(f, lines), line)
  {
    assert (lines + [line])[..|lines|] == lines;
  }
}
