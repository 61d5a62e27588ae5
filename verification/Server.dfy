/** The select loop of the SCPI server (Server.java): per-client key states, one shared read buffer and
    transmit flags shared by all clients. */
module Server {
  import opened Bytes
  import opened Frames
  import opened Options
  import opened Requests
  import opened ServerControl

  /** The parts of the program behind the server.  Their answers may change with the clock, which
      counts the lines dispatched and the data blocks fetched so far.
      `handle` is the trunk lookup, the node lookup and the handler together. */
  datatype World = World(
    handle: (nat, string) -> Option<string>,
    getData: (nat, string) -> Option<Payload>,
    memory: nat -> DeepMemory)

  // ----- One line

  datatype Flags = Flags(large: bool, dm: bool, remote: bool)

  const NO_FLAGS := Flags(false, false, false)

  predicate IsAdc(line: string) { StartsWith(line, "*ADC?") }
  predicate IsLdm(line: string) { StartsWith(line, "*LDM?") }
  predicate IsRdm(line: string) { StartsWith(line, "*RDM?") }
  predicate IsTransfer(line: string) { IsAdc(line) || IsLdm(line) || IsRdm(line) }

  /** `dealADC_CMDs`. */
  function Deal(f: Flags, line: string): Flags {
    if IsAdc(line) then f.(large := true)
    else if IsLdm(line) then f.(dm := true, remote := false)
    else if IsRdm(line) then f.(dm := true, remote := true)
    else f
  }

  function DealAll(f: Flags, lines: seq<string>): Flags {
    if lines == [] then f else Deal(DealAll(f, lines[..|lines| - 1]), lines[|lines| - 1])
  }

  const UNKNOWN := "CAN NOT ANALYSE THE ORDER"

  /** `analyseCMDs_1`. */
  function Answer(w: World, clock: nat, line: string): string {
    if IsTransfer(line) then line + ";"
    else
      match w.handle(clock, line)
      case Some(reply) => reply
      case None => UNKNOWN
  }

  function Answers(w: World, clock: nat, lines: seq<string>): (answers: seq<string>)
    ensures |answers| == |lines|
  {
    seq(|lines|, i requires 0 <= i < |lines| => Answer(w, clock + i, lines[i]))
  }

  predicate IsDm(line: string) { IsLdm(line) || IsRdm(line) }

  ghost predicate HasAdc(lines: seq<string>) {
    exists k :: 0 <= k < |lines| && IsAdc(lines[k])
  }

  ghost predicate HasDm(lines: seq<string>) {
    exists k :: 0 <= k < |lines| && IsDm(lines[k])
  }

  /** The last deep-memory line asks for the remote transfer. */
  ghost predicate LastDmIsRemote(lines: seq<string>) {
    exists k :: 0 <= k < |lines| && IsRdm(lines[k]) && forall m :: k < m < |lines| ==> !IsDm(lines[m])
  }

  lemma OneMoreLine(lines: seq<string>, line: string)
    ensures HasAdc(lines + [line]) <==> HasAdc(lines) || IsAdc(line)
    ensures HasDm(lines + [line]) <==> HasDm(lines) || IsDm(line)
    ensures LastDmIsRemote(lines + [line]) <==> if IsDm(line) then IsRdm(line) else LastDmIsRemote(lines)
  {
    hide IsAdc, IsDm, IsRdm;
    var all := lines + [line];
    assert all[|lines|] == line;
    assert forall k :: 0 <= k < |lines| ==> all[k] == lines[k];
    if LastDmIsRemote(lines) && !IsDm(line) {
      var k :| 0 <= k < |lines| && IsRdm(lines[k]) && forall m :: k < m < |lines| ==> !IsDm(lines[m]);
      assert IsRdm(all[k]);
    }
    RemoteIsDm(line);
  }

  lemma RemoteIsDm(line: string)
    ensures IsRdm(line) ==> IsDm(line) && !IsAdc(line)
    ensures IsLdm(line) ==> IsDm(line) && !IsAdc(line) && !IsRdm(line)
  {
    assert StartsWith(line, "*RDM?") ==> line[1] == 'R';
    assert StartsWith(line, "*LDM?") ==> line[1] == 'L';
    assert StartsWith(line, "*ADC?") ==> line[1] == 'A';
  }

  /** What the flags say after a message: whether it asked for sampled data, whether for deep memory,
      and if so whether the last such line was the remote one. */
  lemma {:induction false} FlagsTellTheMessage(f: Flags, lines: seq<string>)
    ensures DealAll(f, lines).large <==> f.large || HasAdc(lines)
    ensures DealAll(f, lines).dm <==> f.dm || HasDm(lines)
    ensures DealAll(f, lines).remote <==> if HasDm(lines) then LastDmIsRemote(lines) else f.remote
  {
    if lines == [] {
    } else {
      var n := |lines| - 1;
      FlagsTellTheMessage(f, lines[..n]);
      assert lines == lines[..n] + [lines[n]];
      OneMoreLine(lines[..n], lines[n]);
      RemoteIsDm(lines[n]);
    }
  }

  // ----- One message

  /** `translation` without its effect on the flags. */
  function Translation(w: World, clock: nat, lines: seq<string>): string {
    Join(Answers(w, clock, lines))
  }

  lemma {:induction false} RemoveSpaceKeeps(s: string)
    ensures forall c <- RemoveSpace(s) :: c in s && !IsSpace(c)
  {
    if s == "" {
    } else {
      RemoveSpaceKeeps(s[1..]);
    }
  }

  lemma {:induction false} DropLeftKeeps(s: string, p: Pred)
    ensures forall c <- DropLeft(s, p) :: c in s
  {
    if s == "" || !p(s[0]) {
    } else {
      DropLeftKeeps(s[1..], p);
    }
  }

  lemma NormalKeeps(piece: string)
    ensures forall c <- Normal(piece) :: c in piece
  {
    DropLeftKeeps(piece, IsTrimmed);
    RemoveSpaceKeeps(Trim(piece));
  }

  lemma LinesHaveNoSeparator(chunk: string)
    ensures Lines(chunk) != []
    ensures forall l <- Lines(chunk) :: ';' !in l
  {
    var t := Trim(chunk);
    JavaSplitKeepsAll(t, '\r');
    SplitParts(t + "\r");
    forall i | 0 <= i < |Lines(chunk)| ensures ';' !in Lines(chunk)[i] {
      NormalKeeps(Pieces(chunk)[i]);
    }
  }

  /** A command list is answered command by command: cutting the response at the separators gives back
      one answer per command, in order, exactly when no answer holds a separator of its own. */
  lemma RepliesMatchCommands(w: World, clock: nat, commands: seq<string>)
    requires commands != [] && forall c <- commands :: ';' !in c
    ensures var answers := Answers(w, clock, NormalAll(commands));
      && |answers| == |commands|
      && (SplitAll(Translation(w, clock, Lines(Message(Join(commands))))) == answers <==>
            forall a <- answers :: ';' !in a)
  {
    CommandRoundTrip(commands);
    SplitInvertsJoin(Answers(w, clock, NormalAll(commands)));
  }

  /** One command, with nothing in it that starts a transfer. */
  predicate PlainCommand(c: string) {
    ';' !in c && !("*ADC?" <= Normal(c)) && !("*LDM?" <= Normal(c)) && !("*RDM?" <= Normal(c))
  }

  /** What the handlers say to a command. */
  ghost predicate Handled(w: World, clock: nat, c: string, reply: string) {
    match w.handle(clock, Normal(c))
    case Some(text) => reply == text
    case None => reply == "CAN NOT ANALYSE THE ORDER"
  }

  lemma PlainIsHandled(w: World, clock: nat, c: string)
    requires PlainCommand(c)
    ensures Handled(w, clock, c, Answer(w, clock, Normal(c)))
  {
    hide Normal;
  }

  /** The pieces of the response are what the handlers say, command by command. */
  lemma PlainCommandsAreHandled(w: World, clock: nat, commands: seq<string>)
    requires commands != [] && forall c <- commands :: PlainCommand(c)
    requires forall i :: 0 <= i < |commands| ==>
      var said := w.handle(clock + i, Normal(commands[i])); said.Some? ==> ';' !in said.value
    ensures var pieces := SplitAll(Translation(w, clock, Lines(Message(Join(commands)))));
      && |pieces| == |commands|
      && forall i :: 0 <= i < |commands| ==> Handled(w, clock + i, commands[i], pieces[i])
  {
    hide Join, SplitAll, Lines, Normal, Answer, Handled, PlainCommand;
    PlainHasNoSeparator(commands);
    var answers := Answers(w, clock, NormalAll(commands));
    forall i | 0 <= i < |commands|
      ensures Handled(w, clock + i, commands[i], answers[i]) && ';' !in answers[i]
    {
      PlainIsHandled(w, clock + i, commands[i]);
      HandledHasNoSeparator(w, clock + i, commands[i], answers[i]);
    }
    RepliesMatchCommands(w, clock, commands);
  }

  lemma PlainHasNoSeparator(commands: seq<string>)
    requires forall c <- commands :: PlainCommand(c)
    ensures forall c <- commands :: ';' !in c
  {
    hide Normal;
  }

  lemma HandledHasNoSeparator(w: World, clock: nat, c: string, reply: string)
    requires Handled(w, clock, c, reply)
    requires w.handle(clock, Normal(c)).Some? ==> ';' !in w.handle(clock, Normal(c)).value
    ensures ';' !in reply
  {
    hide Normal;
  }

  /** A request for a transfer is echoed, with a separator behind it. */
  lemma TransferIsEchoed(w: World, clock: nat, c: string)
    requires ';' !in c && ("*ADC?" <= Normal(c) || "*LDM?" <= Normal(c) || "*RDM?" <= Normal(c))
    ensures Lines(Message(c)) == [Normal(c)]
    ensures Translation(w, clock, Lines(Message(c))) == Normal(c) + ";"
  {
    hide Normal, Lines, SplitAll;
    LinesOfMessage(c);
    SplitPlain(c);
    assert NormalAll([c]) == [Normal(c)];
    assert Answers(w, clock, [Normal(c)]) == [Normal(c) + ";"];
    JoinOne(Normal(c) + ";");
  }

  // ----- Sampled data

  function Closed(lines: seq<string>): seq<string> {
    seq(|lines|, i requires 0 <= i < |lines| => lines[i] + ";")
  }

  /** The lines with an empty string between each two. */
  function Spaced(lines: seq<string>): (ps: seq<string>)
    requires lines != []
    ensures |ps| == 2 * |lines| - 1
    ensures forall k :: 0 <= k < |ps| ==> ps[k] == if k % 2 == 0 then lines[k / 2] else ""
  {
    if |lines| == 1 then lines else [lines[0], ""] + Spaced(lines[1..])
  }

  lemma ClosedCons(l: string, rest: seq<string>)
    ensures Closed([l] + rest) == [l + ";"] + Closed(rest)
    ensures Join(Closed([l])) == l + ";"
    ensures rest != [] ==> Join(Closed([l] + rest)) == l + ";" + (";" + Join(Closed(rest)))
  {
    assert Closed([l] + rest) == [l + ";"] + Closed(rest);
    assert ([l + ";"] + Closed(rest))[1..] == Closed(rest);
    assert l + ";" + ";" + Join(Closed(rest)) == l + ";" + (";" + Join(Closed(rest)));
  }

  lemma SpacedCons(l: string, rest: seq<string>)
    requires rest != []
    ensures Spaced([l] + rest) == [l, ""] + Spaced(rest)
  {
    assert ([l] + rest)[1..] == rest;
  }

  lemma {:induction false} SplitClosed(lines: seq<string>)
    requires lines != [] && forall l <- lines :: ';' !in l
    ensures SplitAll(Join(Closed(lines))) == Spaced(lines) + [""]
  {
    hide Join, SplitAll, Closed;
    var l, rest := lines[0], lines[1..];
    assert lines == [l] + rest;
    ClosedCons(l, rest);
    if rest == [] {
      assert lines == [l];
      SplitFirst(l, "");
      SplitPlain("");
      assert l + ";" + "" == l + ";";
    } else {
      SplitClosed(rest);
      SpacedCons(l, rest);
      assert lines != [l];
      var tail := Join(Closed(rest));
      SplitFirst(l, ";" + tail);
      SplitCons(';', tail);
      assert [l] + ([""] + (Spaced(rest) + [""])) == ([l, ""] + Spaced(rest)) + [""];
    }
  }

  lemma ClosedIsTrim(lines: seq<string>)
    requires lines != [] && forall l <- lines :: IsAdc(l)
    ensures Trim(Join(Closed(lines))) == Join(Closed(lines)) && ';' in Join(Closed(lines))
  {
    var s := Join(Closed(lines));
    ClosedEnds(lines);
    assert DropLeft(s, IsTrimmed) == s;
    DropRightFixed(s, IsTrimmed);
  }

  lemma {:induction false} ClosedEnds(lines: seq<string>)
    requires lines != [] && forall l <- lines :: IsAdc(l)
    ensures var s := Join(Closed(lines)); s != "" && s[0] == '*' && s[|s| - 1] == ';'
  {
    assert IsAdc(lines[0]);
    assert Closed(lines) == [lines[0] + ";"] + Closed(lines[1..]);
    if |lines| == 1 {
    } else {
      ClosedEnds(lines[1..]);
    }
  }

  /** The pieces a pending reply is cut into before the data is sent. */
  function LargePieces(reply: string): seq<string> {
    JavaSplit(Trim(reply))
  }

  lemma OneEmptyDropped(ps: seq<string>)
    requires ps != [] && ps[|ps| - 1] != ""
    ensures DropEmptyTail(ps + [""]) == ps
  {
    assert (ps + [""])[..|ps|] == ps;
  }

  /** A message of `k` data requests leads to `2k - 1` data transfers: the requests in order, and one for
      the empty string between each two. */
  lemma AdcTransfers(w: World, clock: nat, lines: seq<string>)
    requires lines != [] && forall l <- lines :: IsAdc(l) && ';' !in l
    ensures LargePieces(Translation(w, clock, lines)) == Spaced(lines)
  {
    hide Join, SplitAll, Trim, Answers, Closed, Spaced, IsAdc, LargePieces;
    AdcAnswers(w, clock, lines);
    ClosedIsTrim(lines);
    SplitClosed(lines);
    LastSpaced(lines);
    PiecesOfClosed(Join(Closed(lines)), Spaced(lines));
  }

  lemma PiecesOfClosed(reply: string, ps: seq<string>)
    requires Trim(reply) == reply && ';' in reply && SplitAll(reply) == ps + [""]
    requires ps != [] && ps[|ps| - 1] != ""
    ensures LargePieces(reply) == ps
  {
    hide Trim, SplitAll, DropEmptyTail;
    OneEmptyDropped(ps);
  }

  lemma AdcAnswers(w: World, clock: nat, lines: seq<string>)
    requires forall l <- lines :: IsAdc(l)
    ensures Answers(w, clock, lines) == Closed(lines)
  {
    hide IsAdc;
    assert forall i :: 0 <= i < |lines| ==> Answer(w, clock + i, lines[i]) == lines[i] + ";";
  }

  lemma LastSpaced(lines: seq<string>)
    requires lines != [] && forall l <- lines :: IsAdc(l)
    ensures var ps := Spaced(lines); ps[|ps| - 1] != ""
  {
    hide Spaced;
    var n, ps := |lines| - 1, Spaced(lines);
    assert 2 * n % 2 == 0 && 2 * n / 2 == n;
    assert ps[2 * n] == lines[n] && IsAdc(lines[n]);
  }

  /** What the transfers of the pieces put on the wire when every write goes out whole. */
  function LargeBytes(w: World, clock: nat, pieces: seq<string>): string
    decreases pieces
  {
    if pieces == [] then ""
    else DataBytes(w.getData(clock, pieces[0])) + LargeBytes(w, clock + 1, pieces[1..])
  }

  // ----- The state machine

  datatype Ops = Reading | Writing

  datatype Key = Key(ops: Ops, attachment: Option<string>)

  /** `asked` remembers, for a client whose reply is pending, the lines of its message; the program does
      not keep it. */
  datatype State = State(flags: Flags, keys: map<nat, Key>, clock: nat, asked: map<nat, seq<string>>)

  const START := State(NO_FLAGS, map[], 0, map[])

  datatype Event =
    | Accept(id: nat)
    | Receive(id: nat, chunk: string)   // a read that returned bytes
    | Lose(id: nat)                     // a read that returned none, or threw
    | Respond(id: nat)                  // the client is writable

  predicate Waiting(s: State, id: nat) {
    id in s.keys && s.keys[id].ops == Writing
  }

  ghost predicate NobodyWaits(s: State) {
    forall id: nat :: !Waiting(s, id)
  }

  /** What the selector may report in a state. */
  predicate Enabled(s: State, e: Event) {
    match e
    case Accept(id) => id !in s.keys
    case Receive(id, chunk) => id in s.keys && s.keys[id].ops == Reading && chunk != ""
    case Lose(id) => id in s.keys && s.keys[id].ops == Reading
    case Respond(id) => Waiting(s, id) && s.keys[id].attachment.Some?
  }

  function Receives(w: World, s: State, id: nat, chunk: string): State {
    var lines := Lines(chunk);
    var reply := Translation(w, s.clock, lines);
    var t := s.(flags := DealAll(s.flags, lines), clock := s.clock + |lines|);
    if reply == "" then t
    else t.(keys := s.keys[id := Key(Writing, Some(reply))], asked := s.asked[id := lines])
  }

  datatype Branch = Large | Deep(toClient: bool) | Plain

  /** The kind of reply the write step picks. */
  function BranchOf(f: Flags): Branch {
    if f.large then Large else if f.dm then Deep(f.remote) else Plain
  }

  function Responds(s: State, id: nat, reply: string): State {
    var t := s.(keys := s.keys[id := Key(Reading, None)], asked := s.asked - {id});
    match BranchOf(s.flags)
    case Large => t.(flags := s.flags.(large := false), clock := s.clock + |LargePieces(reply)|)
    case Deep(_) => t.(flags := s.flags.(dm := false, remote := false), clock := s.clock + 1)
    case Plain => t
  }

  function Step(w: World, s: State, e: Event): State {
    if !Enabled(s, e) then s
    else
      match e
      case Accept(id) => s.(keys := s.keys[id := Key(Reading, None)], asked := s.asked - {id})
      case Receive(id, chunk) => Receives(w, s, id, chunk)
      case Lose(id) => s.(keys := s.keys - {id}, asked := s.asked - {id})
      case Respond(id) => Responds(s, id, s.keys[id].attachment.value)
  }

  /** The bytes the write step sends when every write goes out whole. */
  function Emission(w: World, s: State, reply: string): string {
    match BranchOf(s.flags)
    case Large => LargeBytes(w, s.clock, LargePieces(reply))
    case Deep(remote) => DmBytes(reply, remote, w.memory(s.clock))
    case Plain => reply + "\n"
  }

  /** The bytes of a deep-memory reply, by what the memory is at that moment. */
  lemma DeepEmission(w: World, s: State, reply: string)
    requires !s.flags.large && s.flags.dm
    ensures var m := w.memory(s.clock);
      && (!m.online ==> Emission(w, s, reply) == "TRANSMITSSION FAILED AS OFFLINE\n")
      && (m.online && !s.flags.remote ==> Emission(w, s, reply) == m.save(reply))
      && (m.online && s.flags.remote && m.file.None? ==> Emission(w, s, reply) == "TRANSMITSSION FAILED\n")
      && (m.online && s.flags.remote && m.file.Some? ==> Emission(w, s, reply) == Frame(m.file.value))
  {
  }

  /** A step for one client leaves the keys of all others; a client that is lost has none, one that is accepted
      or answered waits for a request, and one whose request gets a response waits to be written to. */
  lemma StepTouchesOneKey(w: World, s: State, e: Event)
    requires Enabled(s, e)
    ensures var t := Step(w, s, e);
      && (forall id: nat :: id != e.id ==> (id in t.keys <==> id in s.keys))
      && (forall id: nat :: id != e.id && id in s.keys ==> t.keys[id] == s.keys[id])
      && (e.Lose? ==> e.id !in t.keys && t.flags == s.flags && t.clock == s.clock)
      && (e.Accept? ==> e.id in t.keys && t.keys[e.id] == Key(Reading, None) && t.flags == s.flags)
      && (e.Respond? ==> e.id in t.keys && t.keys[e.id] == Key(Reading, None))
      && (e.Receive? ==>
            var reply := Translation(w, s.clock, Lines(e.chunk));
            e.id in t.keys && t.keys[e.id] == if reply == "" then s.keys[e.id] else Key(Writing, Some(reply)))
  {
    hide Lines, Translation, DealAll, LargePieces;
  }

  function Run(w: World, s: State, es: seq<Event>): State
    decreases es
  {
    if es == [] then s else Run(w, Step(w, s, es[0]), es[1..])
  }

  // ----- Every run, any number of clients

  ghost predicate KeysInOrder(s: State) {
    && (forall id <- s.keys :: s.keys[id] == Key(Reading, None) ||
          exists reply :: reply != "" && s.keys[id] == Key(Writing, Some(reply)))
    && (s.flags.remote ==> s.flags.dm)
  }

  lemma {:induction false} RemoteNeedsDm(f: Flags, lines: seq<string>)
    requires f.remote ==> f.dm
    ensures DealAll(f, lines).remote ==> DealAll(f, lines).dm
  {
    if lines == [] {
    } else {
      RemoteNeedsDm(f, lines[..|lines| - 1]);
    }
  }

  lemma StepKeepsKeys(w: World, s: State, e: Event)
    requires KeysInOrder(s)
    ensures KeysInOrder(Step(w, s, e))
  {
    if e.Receive? {
      RemoteNeedsDm(s.flags, Lines(e.chunk));
    }
  }

  /** At every moment of every run each open client either waits for a request with nothing attached or
      has a non-empty reply attached and waits to be written to, and remote mode is only ever set
      together with the deep-memory flag. */
  lemma {:induction false} KeysInEveryRun(w: World, s: State, es: seq<Event>)
    requires KeysInOrder(s)
    ensures KeysInOrder(Run(w, s, es))
    decreases es
  {
    if es == [] {
    } else {
      StepKeepsKeys(w, s, es[0]);
      KeysInEveryRun(w, Step(w, s, es[0]), es[1..]);
    }
  }

  // ----- Runs with one pending reply at a time

  ghost predicate Mixed(lines: seq<string>) {
    HasAdc(lines) && HasDm(lines)
  }

  /** A request is read only while no reply is pending, and it does not mix the two kinds of transfer. */
  ghost predicate Calm(s: State, e: Event) {
    e.Receive? ==> NobodyWaits(s) && !Mixed(Lines(e.chunk))
  }

  ghost predicate CalmRun(w: World, s: State, es: seq<Event>)
    decreases es
  {
    es == [] || (Calm(s, es[0]) && CalmRun(w, Step(w, s, es[0]), es[1..]))
  }

  /** The kind of reply a message asks for. */
  ghost function BranchFor(lines: seq<string>): Branch {
    if HasAdc(lines) then Large else if HasDm(lines) then Deep(LastDmIsRemote(lines)) else Plain
  }

  /** Either nobody waits and the flags are clear, or exactly one client waits and the flags are those of
      its message. */
  ghost predicate OneAtATime(s: State) {
    || (NobodyWaits(s) && s.flags == NO_FLAGS)
    || (exists id: nat :: Waiting(s, id) && id in s.asked && s.flags == DealAll(NO_FLAGS, s.asked[id]) &&
          !Mixed(s.asked[id]) && forall other: nat :: Waiting(s, other) ==> other == id)
  }

  lemma ReplyOfTransferIsNotEmpty(w: World, clock: nat, chunk: string)
    requires Translation(w, clock, Lines(chunk)) == ""
    ensures DealAll(NO_FLAGS, Lines(chunk)) == NO_FLAGS
  {
    var lines := Lines(chunk);
    var answers := Answers(w, clock, lines);
    LinesHaveNoSeparator(chunk);
    assert |lines| == 1 && answers[0] == "" && lines == [lines[0]];
    assert DealAll(NO_FLAGS, lines) == Deal(DealAll(NO_FLAGS, lines[..0]), lines[0]);
  }

  lemma MessageSelectsBranch(lines: seq<string>)
    ensures BranchOf(DealAll(NO_FLAGS, lines)) == BranchFor(lines)
  {
    FlagsTellTheMessage(NO_FLAGS, lines);
  }

  lemma StepKeepsOneAtATime(w: World, s: State, e: Event)
    requires OneAtATime(s) && Calm(s, e)
    ensures OneAtATime(Step(w, s, e))
  {
    hide Lines, Translation, DealAll, HasAdc, HasDm, LargePieces;
    var t := Step(w, s, e);
    if Enabled(s, e) {
      match e
      case Accept(id) =>
        assert forall x: nat :: Waiting(t, x) <==> Waiting(s, x);
      case Lose(id) =>
        assert forall x: nat :: Waiting(t, x) <==> Waiting(s, x);
      case Receive(id, chunk) =>
        if Translation(w, s.clock, Lines(chunk)) == "" {
          ReplyOfTransferIsNotEmpty(w, s.clock, chunk);
          assert forall x: nat :: Waiting(t, x) <==> Waiting(s, x);
        } else {
          assert Waiting(t, id);
          assert forall x: nat :: Waiting(t, x) ==> Waiting(s, x) || x == id;
        }
      case Respond(id) =>
        FlagsTellTheMessage(NO_FLAGS, s.asked[id]);
        assert forall x: nat :: Waiting(t, x) ==> Waiting(s, x) && x != id;
    }
  }

  /** In every such run the flags are clear whenever nobody waits, and a waiting client is answered in
      the way its own message asks for. */
  lemma {:induction false} OneAtATimeInEveryRun(w: World, s: State, es: seq<Event>)
    requires OneAtATime(s) && CalmRun(w, s, es)
    ensures var t := Run(w, s, es);
      && OneAtATime(t)
      && (NobodyWaits(t) ==> t.flags == NO_FLAGS)
      && forall id: nat :: Waiting(t, id) ==> id in t.asked && BranchOf(t.flags) == BranchFor(t.asked[id])
    decreases es
  {
    if es == [] {
      forall id: nat | Waiting(s, id) ensures id in s.asked && BranchOf(s.flags) == BranchFor(s.asked[id]) {
        MessageSelectsBranch(s.asked[id]);
      }
    } else {
      StepKeepsOneAtATime(w, s, es[0]);
      OneAtATimeInEveryRun(w, Step(w, s, es[0]), es[1..]);
    }
  }

  // ----- Why both conditions are there

  /** One request answered from clear flags leaves them clear exactly when it did not mix transfers. */
  lemma CycleClearsFlags(w: World, s: State, id: nat, chunk: string)
    requires s.flags == NO_FLAGS && Enabled(s, Receive(id, chunk))
    requires Translation(w, s.clock, Lines(chunk)) != ""
    ensures var t := Step(w, Step(w, s, Receive(id, chunk)), Respond(id));
      !Waiting(t, id) && (t.flags == NO_FLAGS <==> !Mixed(Lines(chunk)))
  {
    FlagsTellTheMessage(NO_FLAGS, Lines(chunk));
  }

  /** Whatever flags stood before a message, the state picks the message's own kind of reply exactly when it
      asks for data, or nobody else did and it asks for deep memory or nobody else did that either. */
  lemma OwnBranchExactly(f: Flags, lines: seq<string>)
    ensures BranchOf(DealAll(f, lines)) == BranchFor(lines) <==>
            HasAdc(lines) || (!f.large && (HasDm(lines) || !f.dm))
  {
    FlagsTellTheMessage(f, lines);
  }

  /** The state after client `i` sent `a` and then client `j` sent `b`. */
  function BothReceived(w: World, s: State, i: nat, a: string, j: nat, b: string): State {
    Step(w, Step(w, s, Receive(i, a)), Receive(j, b))
  }

  /** Two clients whose requests are read from clear flags before either is answered. */
  ghost predicate BothPending(w: World, s: State, i: nat, a: string, j: nat, b: string) {
    && s.flags == NO_FLAGS && i != j
    && Enabled(s, Receive(i, a)) && Enabled(s, Receive(j, b))
    && Translation(w, s.clock, Lines(a)) != ""
    && Translation(w, s.clock + |Lines(a)|, Lines(b)) != ""
  }

  /** The second of them, answered first, gets its own kind of reply exactly if it asks for data, or the
      first did not and it asks for deep memory or the first did not that either. */
  lemma SecondServedRightExactly(w: World, s: State, i: nat, a: string, j: nat, b: string)
    requires BothPending(w, s, i, a, j, b)
    ensures var t := BothReceived(w, s, i, a, j, b); var x, y := Lines(a), Lines(b);
      && Waiting(t, j) && j in t.asked && t.asked[j] == y
      && (BranchOf(t.flags) == BranchFor(t.asked[j]) <==>
            HasAdc(y) || (!HasAdc(x) && (HasDm(y) || !HasDm(x))))
  {
    hide Lines, Translation, DealAll, HasAdc, HasDm, BranchFor;
    FlagsTellTheMessage(NO_FLAGS, Lines(a));
    OwnBranchExactly(DealAll(NO_FLAGS, Lines(a)), Lines(b));
  }

  /** Answered in the order they asked, both get their own kind of reply exactly if the second does not ask
      for data and one of two holds: the first does, and either it is not mixed or the second asks for deep
      memory; or the first does not, and the second asks for no deep memory either. */
  lemma BothServedRightExactly(w: World, s: State, i: nat, a: string, j: nat, b: string)
    requires BothPending(w, s, i, a, j, b)
    ensures var t := BothReceived(w, s, i, a, j, b); var u := Step(w, t, Respond(i));
      var x, y := Lines(a), Lines(b);
      && Waiting(t, i) && i in t.asked && t.asked[i] == x
      && Waiting(u, j) && j in u.asked && u.asked[j] == y
      && (BranchOf(t.flags) == BranchFor(x) && BranchOf(u.flags) == BranchFor(y) <==>
            !HasAdc(y) && if HasAdc(x) then HasDm(y) || !HasDm(x) else !HasDm(y))
  {
    hide Lines, Translation, DealAll, HasAdc, HasDm, LastDmIsRemote, LargePieces;
    FlagsTellTheMessage(NO_FLAGS, Lines(a));
    FlagsTellTheMessage(DealAll(NO_FLAGS, Lines(a)), Lines(b));
  }

  /** So the flags do get mixed up: a client that asked for text is served as if it had asked for data,
      because another client did. */
  lemma PendingRepliesMixUp(w: World, s: State, i: nat, a: string, j: nat, b: string)
    requires BothPending(w, s, i, a, j, b)
    requires HasAdc(Lines(a)) && !HasAdc(Lines(b)) && !HasDm(Lines(b))
    ensures var t := BothReceived(w, s, i, a, j, b);
      && Waiting(t, j) && j in t.asked
      && BranchFor(t.asked[j]) == Plain && BranchOf(t.flags) == Large
  {
    hide Lines, Translation, DealAll, HasAdc, HasDm;
    FlagsTellTheMessage(NO_FLAGS, Lines(a));
    FlagsTellTheMessage(DealAll(NO_FLAGS, Lines(a)), Lines(b));
  }

  // ----- The bytes of a reply, write by write

  /** The writes of the transfers of `pieces`, one transfer after the other. */
  ghost predicate LargeBlocks(channel: SocketChannel, k: nat, w: World, clock: nat, pieces: seq<string>,
                              blocks: seq<string>)
    decreases pieces
  {
    if pieces == [] then blocks == []
    else
      var n := |pieces| - 1;
      exists m :: 0 <= m <= |blocks| &&
        LargeBlocks(channel, k, w, clock, pieces[..n], blocks[..m]) &&
        DataBlocks(channel, k + m, w.getData(clock + n, pieces[n]), blocks[m..])
  }

  /** The writes of the write step, in order, with what each of them offered. */
  ghost predicate ReplyBlocks(channel: SocketChannel, k: nat, w: World, s: State, reply: string, blocks: seq<string>) {
    match BranchOf(s.flags)
    case Large => LargeBlocks(channel, k, w, s.clock, LargePieces(reply), blocks)
    case Deep(remote) =>
      DmBlocks(channel, k, reply, remote, w.memory(s.clock), blocks) && !channel.throws(k + |blocks| - 1)
    case Plain => blocks == [reply + "\n"] && !channel.throws(k)
  }

  /** The writes of the transfers before the `n`-th piece, and of its own up to the exception. */
  ghost predicate LargeCut(channel: SocketChannel, k: nat, w: World, clock: nat, pieces: seq<string>, n: nat,
                           blocks: seq<string>)
  {
    n < |pieces| &&
    exists m :: 0 <= m <= |blocks| &&
      LargeBlocks(channel, k, w, clock, pieces[..n], blocks[..m]) &&
      CutBlocks(channel, k + m, w.getData(clock + n, pieces[n]), blocks[m..])
  }

  /** The writes of a write step that ends with an exception, after `asks` looks at data or memory. */
  ghost predicate ReplyCut(channel: SocketChannel, k: nat, w: World, s: State, reply: string, asks: nat,
                           blocks: seq<string>)
  {
    match BranchOf(s.flags)
    case Large => asks > 0 && LargeCut(channel, k, w, s.clock, LargePieces(reply), asks - 1, blocks)
    case Deep(remote) =>
      && asks == 1 && DmBlocks(channel, k, reply, remote, w.memory(s.clock), blocks)
      && channel.throws(k + |blocks| - 1)
    case Plain => asks == 0 && blocks == [reply + "\n"] && channel.throws(k)
  }

  lemma CutEndsWithThrow(channel: SocketChannel, k: nat, w: World, s: State, reply: string, asks: nat,
                         blocks: seq<string>)
    requires ReplyCut(channel, k, w, s, reply, asks, blocks)
    ensures blocks != [] && channel.throws(k + |blocks| - 1)
  {
    hide LargePieces, LargeBlocks, DmBytes;
    if BranchOf(s.flags) == Large {
      var pieces, n := LargePieces(reply), asks - 1;
      var m :| 0 <= m <= |blocks| &&
        LargeBlocks(channel, k, w, s.clock, pieces[..n], blocks[..m]) &&
        CutBlocks(channel, k + m, w.getData(s.clock + n, pieces[n]), blocks[m..]);
      assert channel.Broke(k + m, blocks[m..]);
    }
  }

  lemma CutsAreNotWide(channel: SocketChannel, k: nat, w: World, s: State, reply: string, blocks: seq<string>)
    ensures forall asks: nat :: ReplyCut(channel, k, w, s, reply, asks, blocks) ==> !channel.Wide()
  {
    hide ReplyCut;
    forall asks: nat | ReplyCut(channel, k, w, s, reply, asks, blocks) ensures !channel.Wide() {
      CutEndsWithThrow(channel, k, w, s, reply, asks, blocks);
    }
  }

  /** What a write step that ends with an exception leaves behind: flags and keys as they were.  The program
      then leaves its loop. */
  function Stopped(s: State, asks: nat): State {
    s.(clock := s.clock + asks)
  }

  lemma {:induction false} LargeBytesSnoc(w: World, clock: nat, pieces: seq<string>, piece: string)
    ensures LargeBytes(w, clock, pieces + [piece]) ==
            LargeBytes(w, clock, pieces) + DataBytes(w.getData(clock + |pieces|, piece))
    decreases pieces
  {
    hide DataBytes;
    if pieces == [] {
      assert [piece][1..] == [];
    } else {
      assert (pieces + [piece])[1..] == pieces[1..] + [piece];
      LargeBytesSnoc(w, clock + 1, pieces[1..], piece);
    }
  }

  lemma WidePart(channel: SocketChannel, k: nat, block: string)
    requires channel.Wide()
    ensures channel.Part(k, block) == block && channel.HeaderGoesOut(k)
  {
    assert channel.accept(k, |block|) >= |block|;
    assert channel.accept(k, 1) >= 1 && channel.accept(k + 1, 4) >= 4 && channel.accept(k + 2, 1) >= 1;
    assert block[..|block|] == block;
  }

  lemma WideTransfer(channel: SocketChannel, k: nat, data: Option<Payload>, blocks: seq<string>)
    requires channel.Wide() && DataBlocks(channel, k, data, blocks)
    ensures channel.Out(k, blocks) == DataBytes(data)
  {
    hide SocketChannel.Out, SocketChannel.Part, SocketChannel.HeaderGoesOut, BigEndian, Frame, SocketChannel.Wide;
    WidePart(channel, k, "#");
    match data
    case Some(d) => channel.WholeTransferOut(k, d, DATABLOCK, blocks);
    case None =>
      channel.OutOfNothing(k);
      channel.OutOneMore(k, [], "#");
      channel.OutOneMore(k, ["#"], BigEndian(0));
      WidePart(channel, k + 1, BigEndian(0));
      assert [] + ["#"] == ["#"] && ["#"] + [BigEndian(0)] == blocks;
  }

  lemma {:induction false} WideLarge(channel: SocketChannel, k: nat, w: World, clock: nat, pieces: seq<string>,
                                     blocks: seq<string>)
    requires channel.Wide() && LargeBlocks(channel, k, w, clock, pieces, blocks)
    ensures channel.Out(k, blocks) == LargeBytes(w, clock, pieces)
    decreases pieces
  {
    hide SocketChannel.Out, SocketChannel.Wide, DataBlocks, DataBytes;
    if pieces == [] {
      channel.OutOfNothing(k);
    } else {
      var n := |pieces| - 1;
      var m :| 0 <= m <= |blocks| &&
        LargeBlocks(channel, k, w, clock, pieces[..n], blocks[..m]) &&
        DataBlocks(channel, k + m, w.getData(clock + n, pieces[n]), blocks[m..]);
      WideLarge(channel, k, w, clock, pieces[..n], blocks[..m]);
      WideTransfer(channel, k + m, w.getData(clock + n, pieces[n]), blocks[m..]);
      channel.OutOfTwo(k, blocks[..m], blocks[m..]);
      assert blocks[..m] + blocks[m..] == blocks;
      LargeBytesSnoc(w, clock, pieces[..n], pieces[n]);
      assert pieces[..n] + [pieces[n]] == pieces;
    }
  }

  lemma WideLine(channel: SocketChannel, k: nat, line: string)
    requires channel.Wide()
    ensures channel.Out(k, [line]) == line
  {
    channel.OutOneMore(k, [], line);
    channel.OutOfNothing(k);
    WidePart(channel, k, line);
    assert [] + [line] == [line];
  }

  lemma WideDm(channel: SocketChannel, k: nat, cmd: string, remote: bool, memory: DeepMemory, blocks: seq<string>)
    requires channel.Wide() && DmBlocks(channel, k, cmd, remote, memory, blocks)
    ensures channel.Out(k, blocks) == DmBytes(cmd, remote, memory)
  {
    hide SocketChannel.Out, SocketChannel.Part, SocketChannel.HeaderGoesOut, SocketChannel.Transfer, Frame;
    if memory.online && remote && memory.file.Some? {
      var n, d := |blocks| - 1, memory.file.value;
      channel.WholeTransferOut(k, d, |d|, blocks[..n]);
      WidePart(channel, k, "");
      WidePart(channel, k + n, "");
      channel.OutOneMore(k, blocks[..n], "");
      assert blocks[..n] + [""] == blocks;
    } else {
      WideLine(channel, k, DmBytes(cmd, remote, memory));
    }
  }

  /** On a channel that takes every write whole, the writes of a reply come to its emission. */
  lemma WideReplyIsEmission(channel: SocketChannel, k: nat, w: World, s: State, reply: string, blocks: seq<string>)
    requires channel.Wide() && ReplyBlocks(channel, k, w, s, reply, blocks)
    ensures channel.Out(k, blocks) == Emission(w, s, reply)
  {
    match BranchOf(s.flags)
    case Large => WideLarge(channel, k, w, s.clock, LargePieces(reply), blocks);
    case Deep(remote) => WideDm(channel, k, reply, remote, w.memory(s.clock), blocks);
    case Plain => WideLine(channel, k, reply + "\n");
  }

  /** The bytes a step takes from a client. */
  function HeardIn(s: State, e: Event, id: nat): string {
    if e.Receive? && e.id == id && Enabled(s, e) then e.chunk else ""
  }

  /** The bytes a step sends to a client when every write goes out whole. */
  function SaidIn(w: World, s: State, e: Event, id: nat): string {
    if e.Respond? && e.id == id && Enabled(s, e) then Emission(w, s, s.keys[id].attachment.value) else ""
  }

  /** All bytes a run takes from a client. */
  function Heard(w: World, s: State, es: seq<Event>, id: nat): string {
    if es == [] then ""
    else
      var n := |es| - 1;
      Heard(w, s, es[..n], id) + HeardIn(Run(w, s, es[..n]), es[n], id)
  }

  /** All bytes a run sends to a client. */
  function Said(w: World, s: State, es: seq<Event>, id: nat): string {
    if es == [] then ""
    else
      var n := |es| - 1;
      Said(w, s, es[..n], id) + SaidIn(w, Run(w, s, es[..n]), es[n], id)
  }

  lemma OneMoreEvent(w: World, s: State, es: seq<Event>, e: Event, id: nat)
    ensures Heard(w, s, es + [e], id) == Heard(w, s, es, id) + HeardIn(Run(w, s, es), e, id)
    ensures Said(w, s, es + [e], id) == Said(w, s, es, id) + SaidIn(w, Run(w, s, es), e, id)
  {
    hide HeardIn, SaidIn, Run;
    assert (es + [e])[..|es|] == es;
  }

  /** Runs put end to end. */
  lemma {:induction false} RunOneMore(w: World, s: State, es: seq<Event>, e: Event)
    ensures Run(w, s, es + [e]) == Step(w, Run(w, s, es), e)
    decreases es
  {
    hide Step;
    if es == [] {
      assert [e][1..] == [];
    } else {
      assert (es + [e])[1..] == es[1..] + [e];
      RunOneMore(w, Step(w, s, es[0]), es[1..], e);
    }
  }
}
