/** Client and server together: one client that calls, a server, and the byte streams between them.
    Which call gets which reply, in every run. */
module Session {
  import opened Bytes
  import opened Frames
  import opened Options
  import opened Requests
  import opened ServerControl
  import opened Server

  /** How a call ended. */
  datatype Outcome = Returned(reply: Reply) | TimedOut | Failed

  const ME: nat := 0
  const CHUNK := 1024

  /** `up` is sent and not yet read by the server, `down` is sent by the server and still on its way,
      `arrived` waits in the client's reader.  `issued` are the commands called so far, `taken` what each
      read of the server took, `results` how the calls ended that did. */
  datatype Link = Link(server: State, up: string, down: string, arrived: string, waiting: bool,
                       issued: seq<string>, taken: seq<string>, results: seq<Outcome>)

  function Connected(w: World): Link {
    Link(Step(w, START, Accept(ME)), "", "", "", false, [], [], [])
  }

  datatype Move =
    | Call(command: string)
    | ServerReads(n: nat)   // when the first `n` of the bytes on their way have arrived
    | ServerWrites
    | Deliver(n: nat)
    | ClientReads
    | Timeout

  /** What a read of the server takes: as much as has arrived and fits its buffer. */
  function NextChunk(l: Link, n: nat): string {
    l.up[..Least(Least(CHUNK, n), |l.up|)]
  }

  /** One step of the link; a move that is not possible changes nothing. */
  function Next(w: World, l: Link, m: Move): Link {
    match m
    case Call(command) =>
      if l.waiting then l
      else l.(up := l.up + Message(command), waiting := true, issued := l.issued + [command])
    case ServerReads(n) =>
      var chunk := NextChunk(l, n);
      if !Enabled(l.server, Receive(ME, chunk)) then l
      else l.(server := Step(w, l.server, Receive(ME, chunk)), up := l.up[|chunk|..], taken := l.taken + [chunk])
    case ServerWrites =>
      if !Enabled(l.server, Respond(ME)) then l
      else l.(server := Step(w, l.server, Respond(ME)),
              down := l.down + Emission(w, l.server, l.server.keys[ME].attachment.value))
    case Deliver(n) =>
      var k := Least(n, |l.down|);
      l.(arrived := l.arrived + l.down[..k], down := l.down[k..])
    case ClientReads =>
      if !l.waiting then l
      else
        (match Read(l.arrived, false)
         case Blocked => l
         case Got(v, rest) => l.(waiting := false, arrived := rest, results := l.results + [Returned(v)])
         case Raised(rest) => l.(waiting := false, arrived := rest, results := l.results + [Failed]))
    case Timeout =>
      if !l.waiting then l
      else l.(waiting := false, arrived := Abandoned(l.arrived), results := l.results + [TimedOut])
  }

  /** `ls` are the states of a run that makes the moves `ms`: any interleaving of the two ends, the
      deliveries and the timeouts. */
  ghost predicate IsRun(w: World, ls: seq<Link>, ms: seq<Move>) {
    && |ls| == |ms| + 1
    && ls[0] == Connected(w)
    && forall i {:trigger ms[i]} :: 0 <= i < |ms| ==> ls[i + 1] == Next(w, ls[i], ms[i])
  }

  /** Where a list of moves leads. */
  function After(w: World, l: Link, ms: seq<Move>): Link {
    if ms == [] then l else Next(w, After(w, l, ms[..|ms| - 1]), ms[|ms| - 1])
  }

  // ----- What a request should be answered with, independently of any run

  function TextFor(w: World, clock: nat, chunk: string): string {
    Translation(w, clock, Lines(chunk))
  }

  function FlagsFor(chunk: string): Flags {
    DealAll(NO_FLAGS, Lines(chunk))
  }

  type SentReply = r: Reply | r.Binary? ==> |r.data| < 0x8000_0000 witness Text("")

  function WithoutLast(s: string): string {
    if s == "" then "" else s[..|s| - 1]
  }

  /** The reply to a request that the server reads at `clock`. */
  function AnswerTo(w: World, clock: nat, chunk: string): SentReply {
    var lines, text := Lines(chunk), TextFor(w, clock, chunk);
    var later := clock + |lines|;
    match BranchOf(FlagsFor(chunk))
    case Plain => Text(text)
    case Large =>
      (match w.getData(later, if lines == [] then "" else lines[0])
       case Some(d) => Binary(d)
       case None => Text(""))
    case Deep(remote) =>
      var memory := w.memory(later);
      if memory.online && remote && memory.file.Some? then Binary(memory.file.value)
      else Text(WithoutLast(DmBytes(text, remote, memory)))
  }

  /** The reply is one clean line or one clean frame: a data request stands alone and finds data, a
      deep-memory reply that is no file ends in a line feed. */
  predicate Admissible(w: World, clock: nat, chunk: string) {
    var lines, text := Lines(chunk), TextFor(w, clock, chunk);
    && text != ""
    && Clean(AnswerTo(w, clock, chunk))
    && match BranchOf(FlagsFor(chunk))
       case Plain => true
       case Large => |lines| == 1 && w.getData(clock + 1, lines[0]).Some?
       case Deep(remote) =>
         DmBytes(text, remote, w.memory(clock + |lines|)) == Printed(AnswerTo(w, clock, chunk))
  }

  function ClockAfter(w: World, clock: nat, chunk: string): nat {
    var text := TextFor(w, clock, chunk);
    clock + |Lines(chunk)| +
    match BranchOf(FlagsFor(chunk))
    case Plain => 0
    case Large => |LargePieces(text)|
    case Deep(_) => 1
  }

  /** The clock after the requests have all been served in order. */
  function ClockAll(w: World, chunks: seq<string>): nat {
    if chunks == [] then 0
    else
      var n := |chunks| - 1;
      ClockAfter(w, ClockAll(w, chunks[..n]), chunks[n])
  }

  /** The replies to the requests, served in order. */
  function Expected(w: World, chunks: seq<string>): (rs: seq<SentReply>)
    ensures |rs| == |chunks|
  {
    if chunks == [] then []
    else
      var n := |chunks| - 1;
      Expected(w, chunks[..n]) + [AnswerTo(w, ClockAll(w, chunks[..n]), chunks[n])]
  }

  lemma OneMoreRequest(w: World, chunks: seq<string>, c: string)
    ensures Expected(w, chunks + [c]) == Expected(w, chunks) + [AnswerTo(w, ClockAll(w, chunks), c)]
    ensures ClockAll(w, chunks + [c]) == ClockAfter(w, ClockAll(w, chunks), c)
  {
    assert (chunks + [c])[..|chunks|] == chunks;
  }

  function PrintAll(rs: seq<SentReply>): string {
    if rs == [] then "" else Printed(rs[0]) + PrintAll(rs[1..])
  }

  lemma {:induction false} PrintAllSnoc(rs: seq<SentReply>, r: SentReply)
    ensures PrintAll(rs + [r]) == PrintAll(rs) + Printed(r)
  {
    hide Printed;
    if rs == [] {
      assert [r][1..] == [];
    } else {
      assert (rs + [r])[1..] == rs[1..] + [r];
      PrintAllSnoc(rs[1..], r);
    }
  }

  lemma PrintOne(r: SentReply)
    ensures PrintAll([r]) == Printed(r)
  {
    assert [r][1..] == [];
    assert Printed(r) + "" == Printed(r);
  }

  /** A data request that stands alone leads to a single transfer. */
  lemma LoneDataRequest(w: World, clock: nat, chunk: string)
    requires BranchOf(FlagsFor(chunk)) == Large && |Lines(chunk)| == 1
    ensures LargePieces(TextFor(w, clock, chunk)) == [Lines(chunk)[0]]
  {
    hide Lines, Translation, LargePieces;
    var lines := Lines(chunk);
    LinesHaveNoSeparator(chunk);
    FlagsTellTheMessage(NO_FLAGS, lines);
    assert lines == [lines[0]] && IsAdc(lines[0]);
    AdcTransfers(w, clock, lines);
  }

  lemma OneTransfer(w: World, clock: nat, piece: string)
    ensures LargeBytes(w, clock, [piece]) == DataBytes(w.getData(clock, piece))
  {
    assert [piece][1..] == [];
    assert DataBytes(w.getData(clock, piece)) + "" == DataBytes(w.getData(clock, piece));
  }

  /** The write step puts exactly the printed answer on the wire. */
  lemma EmissionIsAnswer(w: World, clock: nat, chunk: string, s: State)
    requires Admissible(w, clock, chunk)
    requires s.flags == FlagsFor(chunk) && s.clock == clock + |Lines(chunk)|
    ensures Emission(w, s, TextFor(w, clock, chunk)) == Printed(AnswerTo(w, clock, chunk))
  {
    hide Lines, TextFor, LargePieces, LargeBytes, Clean, Frame, DealAll;
    if BranchOf(s.flags) == Large {
      LoneDataRequest(w, clock, chunk);
      OneTransfer(w, s.clock, Lines(chunk)[0]);
    }
  }

  // ----- What a call is answered with, told by the program behind the server alone

  /** The reply that one command should have when the server reads it at `clock`. */
  ghost predicate IsAnswered(w: World, clock: nat, c: string, r: Reply) {
    var line := Normal(c);
    if "*ADC?" <= line then
      w.getData(clock + 1, line).Some? && r == Binary(w.getData(clock + 1, line).value)
    else if "*LDM?" <= line then
      LocalAnswer(w.memory(clock + 1), line, r)
    else if "*RDM?" <= line then
      RemoteAnswer(w.memory(clock + 1), r)
    else
      r.Text? && Handled(w, clock, c, r.text)
  }

  ghost predicate LocalAnswer(m: DeepMemory, line: string, r: Reply) {
    r.Text? && r.text + "\n" == if m.online then m.save(line + ";") else "TRANSMITSSION FAILED AS OFFLINE\n"
  }

  ghost predicate RemoteAnswer(m: DeepMemory, r: Reply) {
    if !m.online then r.Text? && r.text + "\n" == "TRANSMITSSION FAILED AS OFFLINE\n"
    else if m.file.None? then r.Text? && r.text + "\n" == "TRANSMITSSION FAILED\n"
    else r == Binary(m.file.value)
  }

  lemma OneLine(c: string)
    requires ';' !in c
    ensures Lines(Message(c)) == [Normal(c)]
  {
    hide Normal, Lines, SplitAll;
    LinesOfMessage(c);
    SplitPlain(c);
    assert NormalAll([c]) == [Normal(c)];
  }

  /** The kind of reply to one command. */
  lemma BranchOfOne(c: string)
    requires ';' !in c
    ensures BranchOf(FlagsFor(Message(c))) ==
            if "*ADC?" <= Normal(c) then Large
            else if "*LDM?" <= Normal(c) then Deep(false)
            else if "*RDM?" <= Normal(c) then Deep(true)
            else Plain
  {
    hide Normal, Lines;
    OneLine(c);
    var n := Normal(c);
    RemoteIsDm(n);
    assert [n][..0] == [];
    assert DealAll(NO_FLAGS, [n]) == Deal(DealAll(NO_FLAGS, []), n);
  }

  lemma AnswerOfPlain(w: World, clock: nat, c: string)
    requires PlainCommand(c)
    ensures IsAnswered(w, clock, c, AnswerTo(w, clock, Message(c)))
  {
    hide Normal, Lines, FlagsFor, Handled;
    OneLine(c);
    BranchOfOne(c);
    PlainIsHandled(w, clock, c);
    assert Answers(w, clock, [Normal(c)]) == [Answer(w, clock, Normal(c))];
  }

  lemma AnswerOfData(w: World, clock: nat, c: string)
    requires ';' !in c && "*ADC?" <= Normal(c) && Admissible(w, clock, Message(c))
    ensures IsAnswered(w, clock, c, AnswerTo(w, clock, Message(c)))
  {
    hide Normal, Lines, FlagsFor, Handled, Clean, TextFor;
    OneLine(c);
    BranchOfOne(c);
  }

  lemma AnswerOfMemory(w: World, clock: nat, c: string)
    requires ';' !in c && !("*ADC?" <= Normal(c)) && ("*LDM?" <= Normal(c) || "*RDM?" <= Normal(c))
    requires Admissible(w, clock, Message(c))
    ensures IsAnswered(w, clock, c, AnswerTo(w, clock, Message(c)))
  {
    hide Normal, Lines, FlagsFor, Handled, Clean;
    OneLine(c);
    BranchOfOne(c);
    TransferIsEchoed(w, clock, c);
  }

  /** The reply to one admissible command is what the handlers, the data provider or the memory say to it. */
  lemma OneCommandIsAnswered(w: World, clock: nat, c: string)
    requires ';' !in c && Admissible(w, clock, Message(c))
    ensures IsAnswered(w, clock, c, AnswerTo(w, clock, Message(c)))
  {
    hide Normal, AnswerTo, Admissible, IsAnswered;
    if PlainCommand(c) {
      AnswerOfPlain(w, clock, c);
    } else if "*ADC?" <= Normal(c) {
      AnswerOfData(w, clock, c);
    } else {
      AnswerOfMemory(w, clock, c);
    }
  }

  /** A data request that finds no data sends a header without its line feed: the client hangs on it, and
      the line that comes next, of whatever reply, is swallowed with it. */
  lemma MissingDataSwallowsNextLine(w: World, clock: nat, chunk: string, s: State, line: string, x: string)
    requires BranchOf(FlagsFor(chunk)) == Large && |Lines(chunk)| == 1
    requires w.getData(clock + 1, Lines(chunk)[0]).None?
    requires s.flags == FlagsFor(chunk) && s.clock == clock + 1
    requires '\n' !in line && |line| + 5 <= LINE_LIMIT
    ensures Read(Emission(w, s, TextFor(w, clock, chunk)) + line, false) == Blocked
    ensures Read(Emission(w, s, TextFor(w, clock, chunk)) + line + "\n" + x, false) == Got(Binary(""), x)
  {
    hide Lines, TextFor, LargePieces, LargeBytes, Read, NullHeader;
    LoneDataRequest(w, clock, chunk);
    OneTransfer(w, s.clock, Lines(chunk)[0]);
    NullHeaderBlocks(line);
    NullHeaderSwallowsNextLine(line, x);
  }

  // ----- The invariant

  function ReturnedCount(results: seq<Outcome>): nat {
    if results == [] then 0
    else
      var n := |results| - 1;
      ReturnedCount(results[..n]) + if results[n].Returned? then 1 else 0
  }

  /** How many requests the server has answered. */
  function Served(l: Link): int {
    if Waiting(l.server, ME) then |l.taken| - 1 else |l.taken|
  }

  ghost predicate ReadyForRequest(s: State) {
    ME in s.keys && s.keys[ME] == Key(Reading, None) && s.flags == NO_FLAGS
  }

  /** The server has answered all it has read, or works on the last of it from the clock that the earlier
      requests lead to. */
  ghost predicate ServerInv(w: World, l: Link) {
    if !Waiting(l.server, ME) then
      ReadyForRequest(l.server) && l.server.clock == ClockAll(w, l.taken)
    else
      && l.taken != []
      && var n := |l.taken| - 1;
         var c, t := l.taken[n], ClockAll(w, l.taken[..n]);
         && Admissible(w, t, c)
         && l.server.keys[ME] == Key(Writing, Some(TextFor(w, t, c)))
         && l.server.flags == FlagsFor(c) && l.server.clock == t + |Lines(c)|
  }

  /** What is on the way back is the printed replies that are sent but not yet read. */
  ghost predicate StreamInv(w: World, l: Link) {
    && 0 <= ReturnedCount(l.results) <= Served(l)
    && l.arrived + l.down == PrintAll(Expected(w, l.taken)[ReturnedCount(l.results)..Served(l)])
    && forall i :: 0 <= i < |l.taken| ==> Clean(Expected(w, l.taken)[i])
  }

  /** The call at `k` returned the reply whose number is the number of calls that returned before it. */
  ghost predicate InOrder(w: World, l: Link) {
    forall k :: 0 <= k < |l.results| ==>
      match l.results[k]
      case Returned(r) =>
        ReturnedCount(l.results[..k]) < |l.taken| && r == Expected(w, l.taken)[ReturnedCount(l.results[..k])]
      case TimedOut => true
      case Failed => false
  }

  ghost predicate Inv(w: World, l: Link) {
    && |l.results| + (if l.waiting then 1 else 0) == |l.issued|
    && ServerInv(w, l) && StreamInv(w, l) && InOrder(w, l)
  }

  /** What the server reads is admissible, and a timeout does not strike between the header of a frame and
      the end of its payload.  Calls may be made at any moment. */
  ghost predicate Orderly(w: World, l: Link, m: Move) {
    && (m.ServerReads? && Enabled(l.server, Receive(ME, NextChunk(l, m.n))) ==>
          Admissible(w, ClockAll(w, l.taken), NextChunk(l, m.n)))
    && (m.Timeout? && l.waiting ==> !MidFrame(l.arrived))
  }

  ghost predicate OrderlyRun(w: World, ls: seq<Link>, ms: seq<Move>) {
    && IsRun(w, ls, ms)
    && forall i {:trigger ms[i]} :: 0 <= i < |ms| ==> Orderly(w, ls[i], ms[i])
  }

  lemma AdmissibleIsClean(w: World, clock: nat, c: string)
    requires Admissible(w, clock, c)
    ensures Clean(AnswerTo(w, clock, c)) && TextFor(w, clock, c) != ""
  {
  }

  lemma SameServer(w: World, l: Link, t: Link)
    requires t.server == l.server && t.taken == l.taken
    ensures ServerInv(w, t) == ServerInv(w, l) && Served(t) == Served(l)
  {
  }

  lemma InvCall(w: World, l: Link, c: string)
    requires Inv(w, l)
    ensures Inv(w, Next(w, l, Call(c)))
  {
    hide ServerInv, Served, Expected, PrintAll, Clean;
    SameServer(w, l, Next(w, l, Call(c)));
  }

  /** The read step from the server's side: the request is pending, and nothing is sent. */
  lemma ServerTakes(w: World, l: Link, n: nat)
    requires ServerInv(w, l) && Orderly(w, l, ServerReads(n)) && Enabled(l.server, Receive(ME, NextChunk(l, n)))
    ensures var t := Next(w, l, ServerReads(n));
      ServerInv(w, t) && Waiting(t.server, ME) && !Waiting(l.server, ME) && Served(t) == |l.taken| == Served(l)
  {
    hide AnswerTo, ClockAfter, Clean, Translation, Lines, DealAll, Admissible, ClockAll;
    var c := NextChunk(l, n);
    AdmissibleIsClean(w, ClockAll(w, l.taken), c);
    assert (l.taken + [c])[..|l.taken|] == l.taken;
  }

  lemma InvServerReads(w: World, l: Link, n: nat)
    requires Inv(w, l) && Orderly(w, l, ServerReads(n))
    ensures Inv(w, Next(w, l, ServerReads(n)))
  {
    hide AnswerTo, Expected, Clean, ServerInv, Served, PrintAll, Step, Enabled, Admissible, ClockAll;
    if Enabled(l.server, Receive(ME, NextChunk(l, n))) {
      var c, b, a := NextChunk(l, n), |l.taken|, ReturnedCount(l.results);
      ServerTakes(w, l, n);
      OneMoreRequest(w, l.taken, c);
      AdmissibleIsClean(w, ClockAll(w, l.taken), c);
      assert Expected(w, l.taken + [c])[a..b] == Expected(w, l.taken)[a..b];
    }
  }

  /** The write step from the server's side: it falls quiet and has sent the printed reply. */
  lemma ServerAnswers(w: World, l: Link)
    requires ServerInv(w, l) && Enabled(l.server, Respond(ME))
    ensures var t := Next(w, l, ServerWrites);
      && l.taken != [] && Served(l) == |l.taken| - 1
      && ServerInv(w, t) && !Waiting(t.server, ME)
      && t.down == l.down + Printed(Expected(w, l.taken)[|l.taken| - 1])
  {
    hide Admissible, AnswerTo, TextFor, Lines, FlagsFor, BranchOf, Emission, Responds, ClockAfter, Printed;
    var n := |l.taken| - 1;
    var c, t := l.taken[n], ClockAll(w, l.taken[..n]);
    EmissionIsAnswer(w, t, c, l.server);
    ClearsFlags(w, t, c, l.server);
    OneMoreRequest(w, l.taken[..n], c);
    assert l.taken == l.taken[..n] + [c];
  }

  lemma InvServerWrites(w: World, l: Link)
    requires Inv(w, l)
    ensures Inv(w, Next(w, l, ServerWrites))
  {
    hide ServerInv, Expected, Clean, PrintAll, Emission, Step, Enabled, Printed, InOrder;
    if Enabled(l.server, Respond(ME)) {
      ServerAnswers(w, l);
      var n, E, a := |l.taken|, Expected(w, l.taken), ReturnedCount(l.results);
      assert E[a..n] == E[a..n - 1] + [E[n - 1]];
      PrintAllSnoc(E[a..n - 1], E[n - 1]);
      assert l.arrived + (l.down + Printed(E[n - 1])) == (l.arrived + l.down) + Printed(E[n - 1]);
      SameResults(w, l, Next(w, l, ServerWrites));
    }
  }

  lemma SameResults(w: World, l: Link, t: Link)
    requires InOrder(w, l) && t.results == l.results && t.taken == l.taken
    ensures InOrder(w, t)
  {
  }

  /** The write step leaves the server ready for the next request. */
  lemma ClearsFlags(w: World, t: nat, c: string, s: State)
    requires Admissible(w, t, c) && s.flags == FlagsFor(c) && s.clock == t + |Lines(c)|
    ensures var u := Responds(s, ME, TextFor(w, t, c)); ReadyForRequest(u) && u.clock == ClockAfter(w, t, c)
  {
    hide AnswerTo, Clean, Translation;
    var lines := Lines(c);
    FlagsTellTheMessage(NO_FLAGS, lines);
    if BranchOf(s.flags) == Large {
      assert IsAdc(lines[0]) && lines == [lines[0]];
      RemoteIsDm(lines[0]);
      assert !HasDm(lines);
    }
  }

  lemma InvDeliver(w: World, l: Link, n: nat)
    requires Inv(w, l)
    ensures Inv(w, Next(w, l, Deliver(n)))
  {
    hide ServerInv, Served, Expected, PrintAll, Clean;
    SameServer(w, l, Next(w, l, Deliver(n)));
    var k := Least(n, |l.down|);
    assert (l.arrived + l.down[..k]) + l.down[k..] == l.arrived + l.down;
  }

  /** A string cut in two, seen from a prefix of it: the first part ends within the prefix or goes on past it. */
  lemma CutAgainstPrefix(a: string, b: string, p: string, q: string)
    requires a + b == p + q
    ensures if |a| < |p| then a == p[..|a|] else a == p + a[|p|..] && a[|p|..] + b == q
  {
    if |a| < |p| {
      assert a == (a + b)[..|a|] == p[..|a|];
    } else {
      assert a[..|p|] == (a + b)[..|p|] == p;
      assert a[|p|..] + b == (a + b)[|p|..] == q;
    }
  }

  /** Reading a stream of printed replies: nothing before the first is whole, then exactly the first. */
  lemma ReadFirst(rs: seq<SentReply>, arrived: string, down: string)
    requires arrived + down == PrintAll(rs) && forall r <- rs :: Clean(r)
    ensures Read(arrived, false) == Blocked ||
            (rs != [] && Read(arrived, false).Got? && Read(arrived, false).value == rs[0] &&
             Read(arrived, false).rest + down == PrintAll(rs[1..]))
  {
    hide Read, Clean, Printed;
    if rs == [] {
      assert arrived == "";
      NothingToRead();
    } else {
      var p := Printed(rs[0]);
      assert Clean(rs[0]);
      CutAgainstPrefix(arrived, down, p, PrintAll(rs[1..]));
      if |arrived| < |p| {
        ReadWaits(rs[0], arrived);
      } else {
        ReadInvertsPrint(rs[0], arrived[|p|..], false);
      }
    }
  }

  lemma NothingToRead()
    ensures Read("", false) == Blocked
  {
  }

  lemma ReturnedSnoc(results: seq<Outcome>, o: Outcome)
    ensures ReturnedCount(results + [o]) == ReturnedCount(results) + if o.Returned? then 1 else 0
    ensures (results + [o])[..|results|] == results
    ensures forall k :: 0 <= k < |results| ==> (results + [o])[..k] == results[..k]
  {
    assert (results + [o])[..|results|] == results;
  }

  /** One more result that is the reply whose turn it is, or a timeout. */
  lemma InOrderSnoc(w: World, l: Link, o: Outcome, t: Link)
    requires InOrder(w, l) && t.taken == l.taken && t.results == l.results + [o]
    requires match o
             case Returned(r) =>
               ReturnedCount(l.results) < |l.taken| && r == Expected(w, l.taken)[ReturnedCount(l.results)]
             case TimedOut => true
             case Failed => false
    ensures InOrder(w, t)
  {
    hide Expected, ReturnedCount;
    ReturnedSnoc(l.results, o);
  }

  lemma InvClientReads(w: World, l: Link)
    requires Inv(w, l)
    ensures Inv(w, Next(w, l, ClientReads))
  {
    hide ServerInv, Expected, Clean, Read, PrintAll, InOrder;
    if l.waiting {
      var E, a, b := Expected(w, l.taken), ReturnedCount(l.results), Served(l);
      var rs, t := E[a..b], Next(w, l, ClientReads);
      assert forall i :: 0 <= i < |rs| ==> rs[i] == E[a + i];
      ReadFirst(rs, l.arrived, l.down);
      if Read(l.arrived, false).Got? {
        SameServer(w, l, t);
        ReturnedSnoc(l.results, Returned(rs[0]));
        InOrderSnoc(w, l, Returned(rs[0]), t);
        assert rs[1..] == E[a + 1..b];
      }
    }
  }

  lemma InvTimeout(w: World, l: Link)
    requires Inv(w, l) && Orderly(w, l, Timeout)
    ensures Inv(w, Next(w, l, Timeout))
  {
    hide ServerInv, Served, Expected, PrintAll, Clean, InOrder, MidFrame;
    if l.waiting {
      SameServer(w, l, Next(w, l, Timeout));
      ReturnedSnoc(l.results, TimedOut);
      InOrderSnoc(w, l, TimedOut, Next(w, l, Timeout));
    }
  }

  lemma InvNext(w: World, l: Link, m: Move)
    requires Inv(w, l) && Orderly(w, l, m)
    ensures Inv(w, Next(w, l, m))
  {
    hide Inv, Next;
    match m
    case Call(c) => InvCall(w, l, c);
    case ServerReads(n) => InvServerReads(w, l, n);
    case ServerWrites => InvServerWrites(w, l);
    case Deliver(n) => InvDeliver(w, l, n);
    case ClientReads => InvClientReads(w, l);
    case Timeout => InvTimeout(w, l);
  }

  lemma ConnectedInv(w: World)
    ensures Inv(w, Connected(w))
  {
  }

  lemma {:induction false} InvEveryRun(w: World, ls: seq<Link>, ms: seq<Move>, i: nat)
    requires OrderlyRun(w, ls, ms) && i <= |ms|
    ensures Inv(w, ls[i])
  {
    hide Inv, Next, Orderly;
    if i == 0 {
      ConnectedInv(w);
    } else {
      InvEveryRun(w, ls, ms, i - 1);
      InvNext(w, ls[i - 1], ms[i - 1]);
    }
  }

  // ----- Main results

  function TimeoutCount(results: seq<Outcome>): nat {
    if results == [] then 0
    else
      var n := |results| - 1;
      TimeoutCount(results[..n]) + if results[n].TimedOut? then 1 else 0
  }

  lemma {:induction false} CountsAddUp(results: seq<Outcome>)
    requires Failed !in results
    ensures ReturnedCount(results) + TimeoutCount(results) == |results|
  {
    if results == [] {
    } else {
      CountsAddUp(results[..|results| - 1]);
    }
  }

  lemma LagOfReturned(w: World, l: Link, k: nat)
    requires InOrder(w, l) && k < |l.results|
    ensures var late := TimeoutCount(l.results[..k]);
      && late <= k && l.results[k] != Failed
      && (l.results[k].Returned? ==>
            k - late < |l.taken| && l.results[k].reply == Expected(w, l.taken)[k - late])
  {
    hide Expected, ReturnedCount, TimeoutCount;
    assert Failed !in l.results[..k] by {
      assert forall m :: 0 <= m < k ==> l.results[..k][m] == l.results[m];
    }
    CountsAddUp(l.results[..k]);
  }

  /** In every run, with calls made and timed out at any moments, whatever the reads of the server cut out of
      the stream of requests: if what they take is admissible and no timeout cuts through a frame, no call
      raises, and the call number `k` that returns has the reply to the request that many reads after the
      first as calls returned before it. */
  lemma RepliesInReadingOrder(w: World, ls: seq<Link>, ms: seq<Move>, i: nat, k: nat)
    requires OrderlyRun(w, ls, ms) && i <= |ms| && k < |ls[i].results|
    ensures var l := ls[i]; var late := TimeoutCount(l.results[..k]);
      && late <= k && l.results[k] != Failed
      && (l.results[k].Returned? ==>
            k - late < |l.taken| && l.results[k].reply == Expected(w, l.taken)[k - late])
  {
    hide Expected, ServerInv, StreamInv, InOrder, Next, Orderly;
    InvEveryRun(w, ls, ms, i);
    LagOfReturned(w, ls[i], k);
  }

  // ----- When every read takes one whole request

  function Messages(commands: seq<string>): seq<string> {
    seq(|commands|, i requires 0 <= i < |commands| => Message(commands[i]))
  }

  lemma OneMoreMessage(commands: seq<string>, c: string)
    ensures Messages(commands + [c]) == Messages(commands) + [Message(c)]
  {
  }

  /** The server has read all messages, or all but the last, which will be read as a whole. */
  ghost predicate Whole(w: World, l: Link) {
    if l.up == "" then l.taken == Messages(l.issued)
    else
      && l.issued != []
      && var n := |l.issued| - 1;
         && l.up == Message(l.issued[n]) && |l.up| <= CHUNK
         && l.taken == Messages(l.issued[..n])
         && Admissible(w, ClockAll(w, l.taken), l.up)
  }

  /** A new call is made only when the server has read the one before (it may still be working on it), fits
      one read, and is admissible; the server reads when the request has arrived as a whole; a timeout does
      not strike inside a frame. */
  ghost predicate Polite(w: World, l: Link, m: Move) {
    && (m.Call? && !l.waiting ==>
          && l.up == "" && |Message(m.command)| <= CHUNK
          && Admissible(w, ClockAll(w, Messages(l.issued)), Message(m.command)))
    && (m.ServerReads? ==> m.n >= |l.up|)
    && (m.Timeout? && l.waiting ==> !MidFrame(l.arrived))
  }

  ghost predicate PoliteRun(w: World, ls: seq<Link>, ms: seq<Move>) {
    && IsRun(w, ls, ms)
    && forall i {:trigger ms[i]} :: 0 <= i < |ms| ==> Polite(w, ls[i], ms[i])
  }

  lemma WholeIsRead(w: World, l: Link, n: nat)
    requires Whole(w, l) && n >= |l.up|
    ensures NextChunk(l, n) == l.up && l.up[|l.up|..] == "" && Orderly(w, l, ServerReads(n))
  {
    hide Admissible, ClockAll, Messages;
  }

  lemma WholeNext(w: World, l: Link, m: Move)
    requires Whole(w, l) && Polite(w, l, m)
    ensures Orderly(w, l, m) && Whole(w, Next(w, l, m))
  {
    hide Admissible, ClockAll, Step, Emission, Read, Messages, MidFrame, Abandoned;
    if m.ServerReads? {
      WholeIsRead(w, l, m.n);
      if Enabled(l.server, Receive(ME, NextChunk(l, m.n))) {
        var n := |l.issued| - 1;
        OneMoreMessage(l.issued[..n], l.issued[n]);
        assert l.issued[..n] + [l.issued[n]] == l.issued;
      }
    } else if m.Call? && !l.waiting {
      assert (l.issued + [m.command])[..|l.issued|] == l.issued;
      assert "" + Message(m.command) == Message(m.command);
    }
  }

  lemma {:induction false} PoliteInv(w: World, ls: seq<Link>, ms: seq<Move>, i: nat)
    requires PoliteRun(w, ls, ms) && i <= |ms|
    ensures Inv(w, ls[i]) && Whole(w, ls[i])
  {
    hide Inv, Next, Polite, Whole, Orderly;
    if i == 0 {
      ConnectedInv(w);
      ConnectedWhole(w);
    } else {
      PoliteInv(w, ls, ms, i - 1);
      WholeNext(w, ls[i - 1], ms[i - 1]);
      InvNext(w, ls[i - 1], ms[i - 1]);
    }
  }

  lemma ConnectedWhole(w: World)
    ensures Whole(w, Connected(w))
  {
  }

  lemma {:induction false} ExpectedPrefix(w: World, xs: seq<string>, ys: seq<string>)
    requires xs <= ys
    ensures Expected(w, xs) <= Expected(w, ys)
  {
    hide AnswerTo, ClockAll;
    if xs == ys {
    } else {
      var n := |ys| - 1;
      assert xs <= ys[..n];
      ExpectedPrefix(w, xs, ys[..n]);
    }
  }

  lemma WholeIsPrefix(w: World, l: Link)
    requires Whole(w, l)
    ensures l.taken <= Messages(l.issued) && |Messages(l.issued)| == |l.issued|
    ensures Expected(w, l.taken) <= Expected(w, Messages(l.issued))
  {
    hide Admissible, ClockAll, Expected;
    if l.up != "" {
      var n := |l.issued| - 1;
      OneMoreMessage(l.issued[..n], l.issued[n]);
      assert l.issued[..n] + [l.issued[n]] == l.issued;
    }
    ExpectedPrefix(w, l.taken, Messages(l.issued));
  }

  /** In every run whose calls wait for the server to have read the one before, the call number `k` that
      returns has the reply to call number `k` minus the number of calls that timed out before it.  One
      timeout, before or after the server has answered, shifts every later reply by one, for good. */
  lemma RepliesLagByTimeouts(w: World, ls: seq<Link>, ms: seq<Move>, i: nat, k: nat)
    requires PoliteRun(w, ls, ms) && i <= |ms| && k < |ls[i].results|
    ensures var l := ls[i]; var late := TimeoutCount(l.results[..k]);
      && |l.results| <= |l.issued| && late <= k
      && l.results[k] != Failed
      && (l.results[k].Returned? ==> l.results[k].reply == Expected(w, Messages(l.issued))[k - late])
  {
    hide Expected, ServerInv, StreamInv, InOrder, Next, Polite, Whole, Messages;
    PoliteInv(w, ls, ms, i);
    LagOfReturned(w, ls[i], k);
    WholeIsPrefix(w, ls[i]);
  }

  /** Runs without timeouts, where a request is read as a whole; nothing is asked of the moments at which
      calls are made. */
  ghost predicate PatientRun(w: World, ls: seq<Link>, ms: seq<Move>) {
    && IsRun(w, ls, ms)
    && forall i {:trigger ms[i]} :: 0 <= i < |ms| ==> Patient(w, ls[i], ms[i])
  }

  ghost predicate Patient(w: World, l: Link, m: Move) {
    && m != Timeout
    && (m.ServerReads? ==> m.n >= |l.up|)
    && (m.Call? && !l.waiting ==>
          && |Message(m.command)| <= CHUNK
          && Admissible(w, ClockAll(w, Messages(l.issued)), Message(m.command)))
  }

  ghost predicate AllReturned(results: seq<Outcome>) {
    forall k :: 0 <= k < |results| ==> results[k].Returned?
  }

  lemma {:induction false} AllReturnedCount(results: seq<Outcome>)
    requires AllReturned(results)
    ensures ReturnedCount(results) == |results|
  {
    if results == [] {
    } else {
      AllReturnedCount(results[..|results| - 1]);
    }
  }

  /** When every call so far has returned, an idle client faces a quiet server and empty streams. */
  lemma IdleMeansQuiet(w: World, l: Link)
    requires Inv(w, l) && Whole(w, l) && AllReturned(l.results) && !l.waiting
    ensures !Waiting(l.server, ME) && l.up == "" && l.arrived == "" && l.down == ""
    ensures |l.results| == |l.issued| == |l.taken| == ReturnedCount(l.results)
  {
    hide ServerInv, Admissible, ClockAll, InOrder, Clean;
    AllReturnedCount(l.results);
    WholeIsPrefix(w, l);
    assert Expected(w, l.taken)[|l.taken|..] == [];
  }

  lemma NextReturns(w: World, l: Link, m: Move)
    requires Inv(w, l) && AllReturned(l.results) && m != Timeout && Orderly(w, l, m)
    ensures Inv(w, Next(w, l, m)) && AllReturned(Next(w, l, m).results)
  {
    hide Admissible, ServerInv, StreamInv, Expected, Step, Emission, Read;
    InvNext(w, l, m);
    assert InOrder(w, Next(w, l, m));
  }

  lemma {:induction false} PatientInv(w: World, ls: seq<Link>, ms: seq<Move>, i: nat)
    requires PatientRun(w, ls, ms) && i <= |ms|
    ensures Inv(w, ls[i]) && Whole(w, ls[i]) && AllReturned(ls[i].results)
  {
    hide Inv, Next, AllReturned, Admissible, Whole, Orderly;
    if i == 0 {
      ConnectedInv(w);
      ConnectedWhole(w);
      NothingReturnedYet(w);
    } else {
      PatientInv(w, ls, ms, i - 1);
      if !ls[i - 1].waiting {
        IdleMeansQuiet(w, ls[i - 1]);
      }
      WholeNext(w, ls[i - 1], ms[i - 1]);
      NextReturns(w, ls[i - 1], ms[i - 1]);
    }
  }

  lemma NothingReturnedYet(w: World)
    ensures AllReturned(Connected(w).results)
  {
  }

  lemma AllReturnedInOrder(w: World, l: Link, k: nat)
    requires InOrder(w, l) && AllReturned(l.results) && k < |l.results|
    ensures k < |l.taken| && l.results[k] == Returned(Expected(w, l.taken)[k])
  {
    hide Expected;
    assert forall m :: 0 <= m < k ==> l.results[..k][m] == l.results[m];
    AllReturnedCount(l.results[..k]);
  }

  /** In every run without timeouts, at every moment, the `k`-th call that ended has returned the reply to
      the `k`-th command. */
  lemma EveryCallGetsItsReply(w: World, ls: seq<Link>, ms: seq<Move>, i: nat, k: nat)
    requires PatientRun(w, ls, ms) && i <= |ms| && k < |ls[i].results|
    ensures |ls[i].results| <= |ls[i].issued|
    ensures ls[i].results[k] == Returned(Expected(w, Messages(ls[i].issued))[k])
  {
    hide Next, Patient, InOrder, AllReturned, Expected, ServerInv, StreamInv, Whole, Messages;
    PatientInv(w, ls, ms, i);
    AllReturnedInOrder(w, ls[i], k);
    WholeIsPrefix(w, ls[i]);
  }

  /** And between calls every command has its reply and nothing is left on any stream. */
  lemma NothingLeftBetweenCalls(w: World, ls: seq<Link>, ms: seq<Move>, i: nat)
    requires PatientRun(w, ls, ms) && i <= |ms| && !ls[i].waiting
    ensures |ls[i].results| == |ls[i].issued|
    ensures ls[i].up == "" && ls[i].down == "" && ls[i].arrived == ""
  {
    hide Next, Patient, InOrder, AllReturned, Expected, ServerInv, StreamInv, Whole;
    PatientInv(w, ls, ms, i);
    IdleMeansQuiet(w, ls[i]);
  }

  // ----- What the calls of a run return

  ghost predicate AskedAdmissibly(w: World, ls: seq<Link>, ms: seq<Move>)
    requires |ls| == |ms| + 1
  {
    forall i {:trigger ms[i]} :: 0 <= i < |ms| && ms[i].Call? && !ls[i].waiting ==>
      Admissible(w, ClockAll(w, Messages(ls[i].issued)), Message(ms[i].command))
  }

  lemma {:induction false} IssuedWereAdmissible(w: World, ls: seq<Link>, ms: seq<Move>, i: nat, k: nat)
    requires IsRun(w, ls, ms) && AskedAdmissibly(w, ls, ms) && i <= |ms| && k < |ls[i].issued|
    ensures Admissible(w, ClockAll(w, Messages(ls[i].issued[..k])), Message(ls[i].issued[k]))
  {
    hide Admissible, ClockAll, Messages, Step, Emission, Read, Enabled;
    if i == 0 {
      assert false;
    } else {
      var l, t := ls[i - 1], ls[i];
      assert t == Next(w, l, ms[i - 1]);
      if k < |l.issued| {
        IssuedWereAdmissible(w, ls, ms, i - 1, k);
        assert t.issued[..k] == l.issued[..k] && t.issued[k] == l.issued[k];
      } else {
        assert t.issued[..k] == l.issued && t.issued[k] == ms[i - 1].command;
      }
    }
  }

  /** The `k`-th expected reply, by the `k`-th command. */
  lemma {:induction false} ExpectedAt(w: World, commands: seq<string>, k: nat)
    requires k < |commands|
    ensures |Messages(commands)| == |commands|
    ensures Expected(w, Messages(commands))[k] ==
            AnswerTo(w, ClockAll(w, Messages(commands[..k])), Message(commands[k]))
  {
    hide AnswerTo, ClockAll;
    var all, n := Messages(commands), |commands| - 1;
    assert all[..n] == Messages(commands[..n]) && all[n] == Message(commands[n]);
    if k < n {
      ExpectedAt(w, commands[..n], k);
      assert commands[..n][..k] == commands[..k];
    }
  }

  /** In every run without timeouts a call with one command returns what the handlers, the data provider or
      the memory say to that very command. */
  lemma EveryCommandIsAnswered(w: World, ls: seq<Link>, ms: seq<Move>, i: nat, k: nat)
    requires PatientRun(w, ls, ms) && i <= |ms| && k < |ls[i].results|
    requires k < |ls[i].issued| && ';' !in ls[i].issued[k]
    ensures var l := ls[i];
      && l.results[k].Returned?
      && IsAnswered(w, ClockAll(w, Messages(l.issued[..k])), l.issued[k], l.results[k].reply)
  {
    hide Next, Expected, ClockAll, Messages, Admissible, IsAnswered, AnswerTo;
    EveryCallGetsItsReply(w, ls, ms, i, k);
    assert AskedAdmissibly(w, ls, ms) by {
      assert forall j {:trigger ms[j]} :: 0 <= j < |ms| ==> Patient(w, ls[j], ms[j]);
    }
    IssuedWereAdmissible(w, ls, ms, i, k);
    ExpectedAt(w, ls[i].issued, k);
    OneCommandIsAnswered(w, ClockAll(w, Messages(ls[i].issued[..k])), ls[i].issued[k]);
  }

  /** And in every run with timeouts it returns what they say to the command as many calls earlier as calls
      timed out before. */
  lemma LateCommandIsAnswered(w: World, ls: seq<Link>, ms: seq<Move>, i: nat, k: nat, m: nat)
    requires PoliteRun(w, ls, ms) && i <= |ms| && k < |ls[i].results| && ls[i].results[k].Returned?
    requires m == k - TimeoutCount(ls[i].results[..k])
    requires m < |ls[i].issued| && ';' !in ls[i].issued[m]
    ensures IsAnswered(w, ClockAll(w, Messages(ls[i].issued[..m])), ls[i].issued[m], ls[i].results[k].reply)
  {
    hide Next, Expected, ClockAll, Messages, Admissible, IsAnswered, AnswerTo;
    RepliesLagByTimeouts(w, ls, ms, i, k);
    assert AskedAdmissibly(w, ls, ms) by {
      assert forall j {:trigger ms[j]} :: 0 <= j < |ms| ==> Polite(w, ls[j], ms[j]);
    }
    IssuedWereAdmissible(w, ls, ms, i, m);
    ExpectedAt(w, ls[i].issued, m);
    OneCommandIsAnswered(w, ClockAll(w, Messages(ls[i].issued[..m])), ls[i].issued[m]);
  }

  lemma {:induction false} ClockOfPlain(w: World, commands: seq<string>)
    requires forall c <- commands :: PlainCommand(c)
    ensures ClockAll(w, Messages(commands)) == |commands|
  {
    hide PlainCommand, Normal, Lines, BranchOf;
    var all, n := Messages(commands), |commands| - 1;
    if commands == [] {
    } else {
      assert all[..n] == Messages(commands[..n]) && all[n] == Message(commands[n]);
      ClockOfPlain(w, commands[..n]);
      PlainIsOneLine(commands[n]);
    }
  }

  lemma PlainIsOneLine(c: string)
    requires PlainCommand(c)
    ensures |Lines(Message(c))| == 1 && BranchOf(FlagsFor(Message(c))) == Plain
  {
    hide Normal, Lines;
    OneLine(c);
    BranchOfOne(c);
  }

  /** With plain commands only, call `k` returns what the handlers say to it as the `k`-th line they get. */
  lemma PlainCallsReturnHandled(w: World, ls: seq<Link>, ms: seq<Move>, i: nat, k: nat)
    requires PatientRun(w, ls, ms) && i <= |ms| && k < |ls[i].results|
    requires forall c <- ls[i].issued :: PlainCommand(c)
    ensures var l := ls[i];
      && k < |l.issued| && l.results[k].Returned? && l.results[k].reply.Text?
      && Handled(w, k, l.issued[k], l.results[k].reply.text)
  {
    hide Next, Patient, ClockAll, Messages, Expected, PlainCommand, Handled, IsAnswered;
    EveryCallGetsItsReply(w, ls, ms, i, k);
    var c, earlier := ls[i].issued[k], ls[i].issued[..k];
    forall x | x in earlier ensures PlainCommand(x) {
      assert x in ls[i].issued;
    }
    PlainHasNoSeparator(ls[i].issued);
    EveryCommandIsAnswered(w, ls, ms, i, k);
    ClockOfPlain(w, earlier);
    PlainAnswer(w, k, c, ls[i].results[k].reply);
  }

  lemma PlainAnswer(w: World, clock: nat, c: string, r: Reply)
    requires PlainCommand(c) && IsAnswered(w, clock, c, r)
    ensures r.Text? && Handled(w, clock, c, r.text)
  {
    hide Normal, Handled;
  }

  /** The reply to a list of plain commands, cut at the separators, is what the handlers say to each. */
  ghost predicate ListAnswered(w: World, clock: nat, commands: seq<string>, r: Reply) {
    && r.Text? && |SplitAll(r.text)| == |commands|
    && forall i :: 0 <= i < |commands| ==> Handled(w, clock + i, commands[i], SplitAll(r.text)[i])
  }

  ghost predicate NoSeparatorSaid(w: World, clock: nat, commands: seq<string>) {
    forall i :: 0 <= i < |commands| ==>
      var said := w.handle(clock + i, Normal(commands[i])); said.Some? ==> ';' !in said.value
  }

  lemma ListIsPlain(commands: seq<string>)
    requires commands != [] && forall c <- commands :: PlainCommand(c)
    ensures BranchOf(FlagsFor(Message(Join(commands)))) == Plain
  {
    hide Normal, Lines, Join, DealAll;
    PlainHasNoSeparator(commands);
    CommandRoundTrip(commands);
    var lines := NormalAll(commands);
    FlagsTellTheMessage(NO_FLAGS, lines);
    assert forall k :: 0 <= k < |lines| ==> PlainCommand(commands[k]);
  }

  /** A call with a list of plain commands, in a run without timeouts. */
  lemma ListCallIsAnswered(w: World, ls: seq<Link>, ms: seq<Move>, i: nat, k: nat, commands: seq<string>)
    requires PatientRun(w, ls, ms) && i <= |ms| && k < |ls[i].results|
    requires commands != [] && forall c <- commands :: PlainCommand(c)
    requires k < |ls[i].issued| && ls[i].issued[k] == Join(commands)
    requires NoSeparatorSaid(w, ClockAll(w, Messages(ls[i].issued[..k])), commands)
    ensures var l := ls[i];
      && l.results[k].Returned?
      && ListAnswered(w, ClockAll(w, Messages(l.issued[..k])), commands, l.results[k].reply)
  {
    hide Next, Patient, Expected, ClockAll, Messages, Join, SplitAll, Lines, Normal, FlagsFor, Handled, PlainCommand;
    EveryCallGetsItsReply(w, ls, ms, i, k);
    ExpectedAt(w, ls[i].issued, k);
    ListIsPlain(commands);
    PlainCommandsAreHandled(w, ClockAll(w, Messages(ls[i].issued[..k])), commands);
  }

  // ----- How a call ends

  /** The server answers, everything arrives, and the client reads. */
  function Finish(w: World, l: Link): Link {
    var t := Next(w, l, ServerWrites);
    Next(w, Next(w, t, Deliver(|t.down|)), ClientReads)
  }

  lemma WritesEndWaiting(w: World, l: Link)
    requires ServerInv(w, l)
    ensures !Waiting(Next(w, l, ServerWrites).server, ME)
  {
    hide Admissible, TextFor, FlagsFor, Lines, ClockAll, Expected;
    if Waiting(l.server, ME) {
      ServerAnswers(w, l);
    }
  }

  /** With one reply outstanding, a waiting call ends with that reply. */
  lemma FinishReturns(w: World, l: Link)
    requires Inv(w, l) && l.waiting && l.taken != [] && ReturnedCount(l.results) == |l.taken| - 1
    ensures var t := Finish(w, l);
      && t.results == l.results + [Returned(Expected(w, l.taken)[|l.taken| - 1])] && !t.waiting
      && t.up == l.up && t.taken == l.taken && Inv(w, t)
  {
    hide ServerInv, InOrder, Expected, Clean, Read, Step, Emission, ReturnedCount, Printed, PrintAll;
    var t, n := Next(w, l, ServerWrites), |l.taken| - 1;
    InvNext(w, l, ServerWrites);
    WritesEndWaiting(w, l);
    var u := Next(w, t, Deliver(|t.down|));
    InvNext(w, t, Deliver(|t.down|));
    InvNext(w, u, ClientReads);
    var r := Expected(w, l.taken)[n];
    assert Expected(w, l.taken)[n..n + 1] == [r];
    PrintOne(r);
    assert u.down == "" && u.arrived == u.arrived + u.down == Printed(r) == Printed(r) + "";
    ReadInvertsPrint(r, "", false);
  }

  /** A pending call never gets stuck: once the server has taken its steps and all bytes have arrived, the
      client's read completes with the reply to this very call. */
  lemma PendingCallCompletes(w: World, l: Link, n: nat)
    requires Inv(w, l) && Whole(w, l) && l.waiting && AllReturned(l.results) && n >= |l.up|
    ensures Finish(w, Next(w, l, ServerReads(n))).results ==
            l.results + [Returned(Expected(w, Messages(l.issued))[|l.results|])]
  {
    hide Finish, InOrder, Expected, Admissible, ClockAll, Messages, Step, ServerInv;
    WholeIsRead(w, l, n);
    WholeNext(w, l, ServerReads(n));
    InvNext(w, l, ServerReads(n));
    AllReturnedCount(l.results);
    WholeIsPrefix(w, l);
    var t := Next(w, l, ServerReads(n));
    WholeIsPrefix(w, t);
    PendingIsTaken(w, l, n);
    FinishReturns(w, t);
  }

  lemma PendingIsTaken(w: World, l: Link, n: nat)
    requires Inv(w, l) && Whole(w, l) && l.waiting && ReturnedCount(l.results) == |l.results| && n >= |l.up|
    ensures |Next(w, l, ServerReads(n)).taken| == |l.issued|
  {
    hide InOrder, Expected, Admissible, ClockAll, Step, Clean;
    WholeIsRead(w, l, n);
    if l.up != "" {
      assert Enabled(l.server, Receive(ME, l.up));
    }
  }

  // ----- What timeouts do

  /** Everything asked so far has been answered and read, and no call is pending. */
  ghost predicate AllSettled(w: World, l: Link) {
    && Inv(w, l) && !l.waiting && l.up == "" && l.arrived == "" && l.down == ""
    && !Waiting(l.server, ME) && ReturnedCount(l.results) == |l.taken|
  }

  /** A new request of which the server reads `c`, from a settled link. */
  lemma ReadOne(w: World, l: Link, t: Link, n: nat, c: string)
    requires AllSettled(w, l) && Inv(w, t) && t.server == l.server && t.taken == l.taken
    requires c == NextChunk(t, n) && c != "" && Admissible(w, ClockAll(w, l.taken), c)
    ensures var u := Next(w, t, ServerReads(n));
      && Inv(w, u) && Waiting(u.server, ME) && u.taken == l.taken + [c] && u.up == t.up[|c|..]
      && u.waiting == t.waiting && u.arrived == t.arrived && u.down == t.down && u.results == t.results
      && Expected(w, u.taken)[|l.taken|] == AnswerTo(w, ClockAll(w, l.taken), c)
  {
    hide InOrder, StreamInv, Expected, Admissible, ClockAll, AnswerTo, Step;
    assert Enabled(t.server, Receive(ME, c));
    InvNext(w, t, ServerReads(n));
    ServerTakes(w, t, n);
    OneMoreRequest(w, l.taken, c);
  }

  /** A call from a settled link that the server takes only the first `n` bytes of returns the reply to
      those; the rest of the request waits to be read as the next one. */
  lemma CutRequestAnswersItsStart(w: World, l: Link, a: string, n: nat)
    requires AllSettled(w, l) && 0 < n < |Message(a)| && n <= CHUNK
    requires Admissible(w, ClockAll(w, l.taken), Message(a)[..n])
    ensures var t := Finish(w, After(w, l, [Call(a), ServerReads(n)]));
      && t.results == l.results + [Returned(AnswerTo(w, ClockAll(w, l.taken), Message(a)[..n]))]
      && t.up == Message(a)[n..] && !t.waiting
  {
    hide Finish, AnswerTo, Inv, Expected, ClockAll, Admissible, Step, Enabled;
    var l1 := Next(w, l, Call(a));
    TwoMoves(w, l, Call(a), ServerReads(n));
    InvNext(w, l, Call(a));
    assert "" + Message(a) == Message(a);
    ReadOne(w, l, l1, n, Message(a)[..n]);
    FinishReturns(w, Next(w, l1, ServerReads(n)));
  }

  /** The shift happens whenever a call times out after the server has read it: while the server is still
      working on the first call, a second is made, and it returns the answer to the first; its own request
      is not even read by then. */
  lemma TimeoutShiftsReplies(w: World, l: Link, a: string, b: string, n: nat)
    requires AllSettled(w, l) && |Message(a)| <= Least(CHUNK, n) && Admissible(w, ClockAll(w, l.taken), Message(a))
    ensures var busy := After(w, l, [Call(a), ServerReads(n), Timeout, Call(b)]); var t := Finish(w, busy);
      && Waiting(busy.server, ME)
      && t.results == l.results + [TimedOut, Returned(AnswerTo(w, ClockAll(w, l.taken), Message(a)))]
      && t.up == Message(b)
  {
    hide Finish, AnswerTo, Inv, Expected, ClockAll, Admissible, Step, Enabled;
    var l1 := Next(w, l, Call(a));
    var l2 := Next(w, l1, ServerReads(n));
    var l3 := Next(w, l2, Timeout);
    var l4 := Next(w, l3, Call(b));
    FourMoves(w, l, Call(a), ServerReads(n), Timeout, Call(b));
    InvNext(w, l, Call(a));
    assert "" + Message(a) == Message(a) && "" + Message(b) == Message(b);
    ReadOne(w, l, l1, n, Message(a));
    NothingToRead();
    InvNext(w, l2, Timeout);
    InvNext(w, l3, Call(b));
    ReturnedSnoc(l.results, TimedOut);
    FinishReturns(w, l4);
    assert l.results + [TimedOut] + [Returned(AnswerTo(w, ClockAll(w, l.taken), Message(a)))] ==
           l.results + [TimedOut, Returned(AnswerTo(w, ClockAll(w, l.taken), Message(a)))];
  }

  lemma TwoMoves(w: World, l: Link, m1: Move, m2: Move)
    ensures After(w, l, [m1, m2]) == Next(w, Next(w, l, m1), m2)
  {
    hide Next;
    assert [m1, m2][..1] == [m1] && [m1][..0] == [];
    assert After(w, l, []) == l;
    assert After(w, l, [m1]) == Next(w, l, m1);
  }

  lemma FourMoves(w: World, l: Link, m1: Move, m2: Move, m3: Move, m4: Move)
    ensures After(w, l, [m1, m2, m3, m4]) == Next(w, Next(w, Next(w, Next(w, l, m1), m2), m3), m4)
  {
    hide Next;
    TwoMoves(w, l, m1, m2);
    assert [m1, m2, m3, m4][..3] == [m1, m2, m3] && [m1, m2, m3][..2] == [m1, m2];
    assert After(w, l, [m1, m2, m3]) == Next(w, After(w, l, [m1, m2]), m3);
  }

  lemma GluedLines(a: string, b: string)
    ensures Lines(Message(a) + Message(b)) == NormalAll(SplitAll(a + "\r\n" + b)) && Message(a) != ""
  {
    hide Lines, SplitAll;
    assert Message(a) + Message(b) == Message(a + "\r\n" + b);
    LinesOfMessage(a + "\r\n" + b);
  }

  /** A call that times out before the server has read it is glued to the next: both are read as one
      request, whose lines are those of the two commands with the last line of one and the first of the
      other run together, and the second call returns the single reply to that. */
  lemma UnreadRequestsMerge(w: World, l: Link, a: string, b: string, n: nat)
    requires AllSettled(w, l) && |Message(a) + Message(b)| <= Least(CHUNK, n)
    requires Admissible(w, ClockAll(w, l.taken), Message(a) + Message(b))
    ensures Lines(Message(a) + Message(b)) == NormalAll(SplitAll(a + "\r\n" + b))
    ensures var glued := After(w, l, [Call(a), Timeout, Call(b), ServerReads(n)]); var t := Finish(w, glued);
      && glued.taken == l.taken + [Message(a) + Message(b)]
      && t.results ==
         l.results + [TimedOut, Returned(AnswerTo(w, ClockAll(w, l.taken), Message(a) + Message(b)))]
      && t.up == ""
  {
    GluedLines(a, b);
    hide Finish, AnswerTo, Inv, Expected, ClockAll, Admissible, Step, Enabled, Lines, SplitAll, Message;
    var both := Message(a) + Message(b);
    var l1 := Next(w, l, Call(a));
    var l2 := Next(w, l1, Timeout);
    var l3 := Next(w, l2, Call(b));
    FourMoves(w, l, Call(a), Timeout, Call(b), ServerReads(n));
    InvNext(w, l, Call(a));
    NothingToRead();
    InvNext(w, l1, Timeout);
    InvNext(w, l2, Call(b));
    assert "" + Message(a) + Message(b) == both;
    ReadOne(w, l, l3, n, both);
    ReturnedSnoc(l.results, TimedOut);
    FinishReturns(w, Next(w, l3, ServerReads(n)));
    assert l.results + [TimedOut] + [Returned(AnswerTo(w, ClockAll(w, l.taken), both))] ==
           l.results + [TimedOut, Returned(AnswerTo(w, ClockAll(w, l.taken), both))];
  }

  lemma AnswerSent(w: World, l: Link)
    requires ServerInv(w, l) && Waiting(l.server, ME)
    ensures var t := Next(w, l, ServerWrites);
      && l.taken != [] && t.down == l.down + Printed(Expected(w, l.taken)[|l.taken| - 1])
      && t.up == l.up && t.arrived == l.arrived && t.waiting == l.waiting && t.results == l.results
  {
    hide Admissible, TextFor, FlagsFor, Lines, ClockAll, Expected, Printed;
    ServerAnswers(w, l);
  }

  /** The schedule that leads into a frame. */
  lemma PartOfFrameArrives(w: World, l: Link, a: string, n: nat, k: nat, data: Payload)
    requires AllSettled(w, l) && |Message(a)| <= Least(CHUNK, n) && Admissible(w, ClockAll(w, l.taken), Message(a))
    requires AnswerTo(w, ClockAll(w, l.taken), Message(a)) == Binary(data) && k < |Frame(data)|
    ensures var cut := After(w, l, [Call(a), ServerReads(n), ServerWrites, Deliver(k)]);
      && cut.arrived == Frame(data)[..k] && cut.down == Frame(data)[k..]
      && cut.waiting && cut.up == "" && cut.results == l.results
  {
    hide AnswerTo, Expected, ClockAll, Step, Enabled, InOrder, StreamInv, ServerInv, Emission, Admissible, Frame;
    var l1 := Next(w, l, Call(a));
    var l2 := Next(w, l1, ServerReads(n));
    FourMoves(w, l, Call(a), ServerReads(n), ServerWrites, Deliver(k));
    InvNext(w, l, Call(a));
    assert "" + Message(a) == Message(a);
    ReadOne(w, l, l1, n, Message(a));
    AnswerSent(w, l2);
    var s := Frame(data);
    assert "" + s == s && "" + s[..k] == s[..k];
  }

  /** A call that times out when part of a frame has arrived: the next call parses the payload of that frame
      as if it were a reply, and returns what that gives, raises, or waits on. */
  lemma CutFrameIsParsedAsReply(w: World, l: Link, a: string, b: string, n: nat, k: nat, data: Payload)
    requires AllSettled(w, l) && |Message(a)| <= Least(CHUNK, n) && Admissible(w, ClockAll(w, l.taken), Message(a))
    requires AnswerTo(w, ClockAll(w, l.taken), Message(a)) == Binary(data) && 6 <= k < |Frame(data)|
    ensures var cut := After(w, l, [Call(a), ServerReads(n), ServerWrites, Deliver(k)]);
      var t := After(w, cut, [Timeout, Call(b), Deliver(|data|), ClientReads]);
      && MidFrame(cut.arrived) && t.up == Message(b) && t.down == ""
      && match Read(data, false)
         case Got(v, rest) =>
           t.results == l.results + [TimedOut, Returned(v)] && t.arrived == rest && !t.waiting
         case Raised(rest) => t.results == l.results + [TimedOut, Failed] && t.arrived == rest && !t.waiting
         case Blocked => t.results == l.results + [TimedOut] && t.arrived == data && t.waiting
  {
    hide AnswerTo, ClockAll, AllSettled, MidFrame, Abandoned, Read, After, Frame;
    PartOfFrameArrives(w, l, a, n, k, data);
    AdmissibleIsClean(w, ClockAll(w, l.taken), Message(a));
    var cut := After(w, l, [Call(a), ServerReads(n), ServerWrites, Deliver(k)]);
    FourMoves(w, cut, Timeout, Call(b), Deliver(|data|), ClientReads);
    CancelInsideFrame(data, Frame(data)[..k]);
    var rest := Frame(data)[k..];
    assert rest[..|rest|] == rest && rest[|rest|..] == "" && "" + Message(b) == Message(b);
    FrameLonger(data);
    AddTwo(l.results, TimedOut);
  }

  lemma FrameLonger(data: Payload)
    ensures |Frame(data)| == |data| + 6
  {
  }

  lemma AddTwo(results: seq<Outcome>, o: Outcome)
    ensures forall x :: results + [o] + [x] == results + [o, x]
  {
  }
}
