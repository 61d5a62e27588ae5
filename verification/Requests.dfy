/** A request on its way from the client's command list to the lines the server dispatches. */
module Requests {
  import opened Bytes

  /** What the client sends for one call (`__transaction`). */
  function Message(command: string): string {
    command + "\r\n"
  }

  /** The server's reading of one received chunk: trim, append `\r`, split. */
  function Pieces(chunk: string): seq<string> {
    JavaSplit(Trim(chunk) + "\r")
  }

  /** One piece as it is looked up: trimmed, then without white space. */
  function Normal(piece: string): string {
    RemoveSpace(Trim(piece))
  }

  function NormalAll(ps: seq<string>): seq<string> {
    seq(|ps|, i requires 0 <= i < |ps| => Normal(ps[i]))
  }

  /** The lines dispatched for one received chunk. */
  function Lines(chunk: string): seq<string> {
    NormalAll(Pieces(chunk))
  }

  function TrimAll(ps: seq<string>): seq<string> {
    seq(|ps|, i requires 0 <= i < |ps| => Trim(ps[i]))
  }

  /** White space around a text does not change its pieces once they are trimmed. */
  lemma PiecesOfCons(c: char, s: string)
    requires IsTrimmed(c)
    ensures TrimAll(SplitAll([c] + s)) == TrimAll(SplitAll(s))
  {
    hide Trim;
    assert ([c] + s)[1..] == s;
    TrimEnds(SplitAll(s)[0], c);
  }

  lemma PiecesOfSnoc(s: string, c: char)
    requires IsTrimmed(c)
    ensures TrimAll(SplitAll(s + [c])) == TrimAll(SplitAll(s))
  {
    hide Trim, SplitAll;
    var ps := SplitAll(s);
    SplitSnoc(s, c);
    TrimEnds(ps[|ps| - 1], c);
  }

  lemma {:induction false} PiecesOfDropLeft(s: string)
    ensures TrimAll(SplitAll(DropLeft(s, IsTrimmed))) == TrimAll(SplitAll(s))
  {
    if s == "" || !IsTrimmed(s[0]) {
    } else {
      PiecesOfDropLeft(s[1..]);
      PiecesOfCons(s[0], s[1..]);
      assert [s[0]] + s[1..] == s;
    }
  }

  lemma {:induction false} PiecesOfDropRight(s: string)
    ensures TrimAll(SplitAll(DropRight(s, IsTrimmed))) == TrimAll(SplitAll(s))
  {
    if s == "" || !IsTrimmed(s[|s| - 1]) {
    } else {
      PiecesOfDropRight(s[..|s| - 1]);
      PiecesOfSnoc(s[..|s| - 1], s[|s| - 1]);
      assert s[..|s| - 1] + [s[|s| - 1]] == s;
    }
  }

  /** The appended `\r` is what keeps Java's split from dropping empty commands at the end. */
  lemma PiecesAreAll(chunk: string)
    ensures TrimAll(Pieces(chunk)) == TrimAll(SplitAll(chunk))
  {
    var t := Trim(chunk);
    JavaSplitKeepsAll(t, '\r');
    PiecesOfSnoc(t, '\r');
    PiecesOfDropRight(DropLeft(chunk, IsTrimmed));
    PiecesOfDropLeft(chunk);
  }

  /** Every call reaches the server as exactly the `;`-pieces of the command, in order. */
  lemma LinesOfMessage(command: string)
    ensures Lines(Message(command)) == NormalAll(SplitAll(command))
  {
    PiecesAreAll(Message(command));
    PiecesOfSnoc(command, '\r');
    PiecesOfSnoc(command + "\r", '\n');
    assert command + "\r" + "\n" == Message(command);
    var ps, qs := Pieces(Message(command)), SplitAll(command);
    assert TrimAll(ps) == TrimAll(qs);
    assert |TrimAll(ps)| == |ps| && |TrimAll(qs)| == |qs|;
    forall i | 0 <= i < |ps| ensures Trim(ps[i]) == Trim(qs[i]) {
      assert TrimAll(ps)[i] == TrimAll(qs)[i];
    }
  }

  /** A joined command list arrives as the list that was joined; the empty list arrives as one empty
      line, so the server answers it too. */
  lemma CommandRoundTrip(commands: seq<string>)
    requires forall c <- commands :: ';' !in c
    ensures Lines(Message(Join(commands))) == if commands == [] then [""] else NormalAll(commands)
  {
    LinesOfMessage(Join(commands));
    if commands != [] {
      SplitInvertsJoin(commands);
    } else {
      assert SplitAll("") == [""];
      assert NormalAll([""]) == [Normal("")] == [""];
    }
  }

  // ----- When normalising changes nothing

  lemma {:induction false} RemoveSpaceShortens(s: string)
    ensures |RemoveSpace(s)| <= |s|
    ensures |RemoveSpace(s)| == |s| <==> forall i :: 0 <= i < |s| ==> s[i] != ' ' && !('\t' <= s[i] <= '\r')
    ensures |RemoveSpace(s)| == |s| ==> RemoveSpace(s) == s
  {
    if s == "" {
    } else {
      RemoveSpaceShortens(s[1..]);
      assert s == [s[0]] + s[1..];
    }
  }

  lemma TrimShortens(s: string)
    ensures |Trim(s)| <= |s| && (|Trim(s)| == |s| ==> Trim(s) == s)
    ensures |Trim(s)| == |s| <==> s == "" || (s[0] > ' ' && s[|s| - 1] > ' ')
  {
    var l := DropLeft(s, IsTrimmed);
    DropLeftKeepsEnd(s, IsTrimmed);
    DropRightFixed(l, IsTrimmed);
    if l == s {
      assert Trim(s) == DropRight(s, IsTrimmed);
    }
  }

  /** A command is dispatched as it stands exactly when it holds no blank, tab or line break, and neither end
      is a control character. */
  lemma NormalUnchanged(c: string)
    ensures Normal(c) == c <==>
      && (forall i :: 0 <= i < |c| ==> c[i] != ' ' && !('\t' <= c[i] <= '\r'))
      && (c != "" ==> c[0] > ' ' && c[|c| - 1] > ' ')
  {
    hide Trim, RemoveSpace;
    TrimShortens(c);
    RemoveSpaceShortens(Trim(c));
  }

  // ----- When normalising only removes white space

  /** What the trim of one piece takes off its two ends. */
  function TrimmedOff(piece: string): string {
    var l := DropLeft(piece, IsTrimmed);
    piece[..|piece| - |l|] + l[|Trim(piece)|..]
  }

  lemma RemoveSpaceCons(c: char, s: string)
    ensures RemoveSpace([c] + s) == (if IsSpace(c) then "" else [c]) + RemoveSpace(s)
  {
    assert ([c] + s)[1..] == s;
  }

  lemma {:induction false} RemoveSpaceOfTwo(a: string, b: string)
    ensures RemoveSpace(a + b) == RemoveSpace(a) + RemoveSpace(b)
  {
    if a == "" {
      assert a + b == b;
    } else {
      hide RemoveSpace, IsSpace;
      var c, rest := a[0], a[1..];
      assert a == [c] + rest && a + b == [c] + (rest + b);
      RemoveSpaceCons(c, rest);
      RemoveSpaceCons(c, rest + b);
      RemoveSpaceOfTwo(rest, b);
    }
  }

  lemma {:induction false} RemoveSpaceEmpty(s: string)
    ensures RemoveSpace(s) == "" <==> forall c <- s :: IsSpace(c)
  {
    if s == "" {
    } else {
      RemoveSpaceEmpty(s[1..]);
      assert s == [s[0]] + s[1..];
    }
  }

  /** A line is its command without white space exactly when the ends taken off are white space only
      (Java's trim takes every control character, the later step only white space). */
  lemma NormalRemovesSpaceOnly(c: string)
    ensures Normal(c) == RemoveSpace(c) <==> forall x <- TrimmedOff(c) :: IsSpace(x)
  {
    var l, t := DropLeft(c, IsTrimmed), Trim(c);
    DropLeftKeepsEnd(c, IsTrimmed);
    var a, b := c[..|c| - |l|], l[|t|..];
    assert c == a + (t + b);
    RemoveSpaceOfTwo(a, t + b);
    RemoveSpaceOfTwo(t, b);
    RemoveSpaceEmpty(a);
    RemoveSpaceEmpty(b);
    assert TrimmedOff(c) == a + b;
  }
}
