/** The two reply formats on the wire and the client's parser for them: a text line, or `#`, four
    big-endian length bytes, a line feed and the payload. */
module Frames {
  import opened Bytes

  datatype Reply = Text(text: string) | Binary(data: string)

  /** `ByteBuffer.putInt` in big-endian order. */
  function BigEndian(n: nat): (h: string)
    requires n < 0x1_0000_0000
    ensures |h| == 4
  {
    [(n / 0x100_0000) as char, (n / 0x1_0000 % 0x100) as char, (n / 0x100 % 0x100) as char, (n % 0x100) as char]
  }

  /** Python `int.from_bytes(s, "big")`. */
  function FromBytes(s: string): nat {
    if s == "" then 0 else FromBytes(s[..|s| - 1]) * 0x100 + s[|s| - 1] as nat
  }

  function Frame(data: string): string
    requires |data| < 0x8000_0000
  {
    "#" + BigEndian(|data|) + "\n" + data
  }

  /** What the server sends when it has no data: a header without its line feed. */
  function NullHeader(): string {
    "#" + BigEndian(0)
  }

  /** A reply as the server puts it on the wire. */
  function Printed(r: Reply): string
    requires r.Binary? ==> |r.data| < 0x8000_0000
  {
    match r
    case Text(s) => s + "\n"
    case Binary(d) => Frame(d)
  }

  // ----- The client's side

  /** asyncio's bound on the length of a line. */
  const LINE_LIMIT := 0x1_0000

  datatype LineResult = Line(line: string, rest: string) | NoLineYet | LineTooLong(rest: string)

  /** `StreamReader.readline` on what has arrived; `eof` says that no more will. */
  function ReadLine(stream: string, eof: bool): LineResult {
    var k := Find(stream, '\n');
    if k < |stream| then
      if k > LINE_LIMIT then LineTooLong(stream[k + 1..]) else Line(stream[..k + 1], stream[k + 1..])
    else if |stream| > LINE_LIMIT then LineTooLong("")
    else if eof then Line(stream, "")
    else NoLineYet
  }

  /** `Got` with the bytes left over, `Blocked` while the stream does not hold a whole reply, `Raised`
      for the calls that end in an exception. */
  datatype ReadResult = Got(value: Reply, rest: string) | Blocked | Raised(rest: string)

  /** The length announced by a header line. */
  function Announced(header: string): nat
    requires header != ""
  {
    FromBytes(header[1..if |header| < 5 then |header| else 5])
  }

  /** `TCPConnection.read`. */
  function Read(stream: string, eof: bool): ReadResult {
    match ReadLine(stream, eof)
    case NoLineYet => Blocked
    case LineTooLong(rest) => Raised(rest)
    case Line(line, rest) =>
      var data := RStrip(line);
      if data == "" then Raised(rest)  // data[0] of an empty line
      else if data[0] == '#' then
        var size := Announced(data);
        if size <= |rest| then Got(Binary(rest[..size]), rest[size..])
        else if eof then Raised("") else Blocked
      else Got(Text(data), rest)
  }

  // ----- The length bytes

  predicate IsSpaceCode(b: nat) {
    b == 32 || 9 <= b <= 13
  }

  /** No length byte is a line feed and the last one is not white space. */
  predicate CleanLength(n: nat) {
    && n / 0x100_0000 != 10
    && n / 0x1_0000 % 0x100 != 10
    && n / 0x100 % 0x100 != 10
    && !IsSpaceCode(n % 0x100)
  }

  function Shifted(n: nat, bytes: nat): nat
    requires bytes <= 4
  {
    match bytes
    case 0 => n
    case 1 => n / 0x100
    case 2 => n / 0x1_0000
    case 3 => n / 0x100_0000
    case _ => n / 0x1_0000_0000
  }

  lemma ShiftOnce(n: nat)
    ensures n / 0x1_0000 == n / 0x100 / 0x100 && n / 0x100_0000 == n / 0x1_0000 / 0x100
  {
  }

  /** The first `m` length bytes read back as the length without its lower bytes. */
  lemma PrefixValue(n: nat, m: nat)
    requires n < 0x1_0000_0000 && m <= 4
    ensures FromBytes(BigEndian(n)[..m]) == Shifted(n, 4 - m)
  {
    var h := BigEndian(n);
    ShiftOnce(n);
    assert h[..1][..0] == "" && h[..2][..1] == h[..1] && h[..3][..2] == h[..2] && h[..4][..3] == h[..3];
    assert FromBytes(h[..1]) == n / 0x100_0000;
    assert FromBytes(h[..2]) == n / 0x1_0000;
    assert FromBytes(h[..3]) == n / 0x100;
    assert FromBytes(h[..4]) == n;
  }

  lemma FindFrom(a: string, s: string, c: char)
    requires c !in a
    ensures Find(a + s, c) == |a| + Find(s, c)
  {
    var k, m := Find(a + s, c), Find(s, c);
    if m < |s| {
      assert (a + s)[|a| + m] == c;
    }
    if k < |a + s| {
      assert k >= |a| && s[k - |a|] == c;
    }
  }

  /** The header line of a frame: how many length bytes survive the line feed and the stripping. */
  function HeaderBytes(n: nat): (m: nat)
    requires n < 0x8000_0000
    ensures m <= 4
  {
    |RStrip(BigEndian(n)[..Find(BigEndian(n), '\n')])|
  }

  lemma CleanBytes(n: nat)
    requires n < 0x8000_0000
    ensures var h := BigEndian(n);
      && (CleanLength(n) <==> h[0] != '\n' && h[1] != '\n' && h[2] != '\n' && !IsSpace(h[3]))
      && (n == 0 ==> CleanLength(n))
  {
  }

  lemma HeaderBytesAreBefore(n: nat)
    requires n < 0x8000_0000
    ensures HeaderBytes(n) <= Find(BigEndian(n), '\n') <= 4
  {
  }

  lemma HeaderBytesAll(n: nat)
    requires n < 0x8000_0000
    ensures HeaderBytes(n) == 4 <==> CleanLength(n)
    ensures CleanLength(n) ==> '\n' !in BigEndian(n)
    ensures HeaderBytes(n) < 4 ==> Shifted(n, 4 - HeaderBytes(n)) < n
  {
    hide CleanLength, BigEndian;
    CleanBytes(n);
    var h := BigEndian(n);
    var j := Find(h, '\n');
    assert h[..4] == h;
    DropRightFixed(h[..j], IsSpace);
    ShiftedIsLess(n, 4 - HeaderBytes(n));
  }

  lemma ShiftedIsLess(n: nat, bytes: nat)
    requires bytes <= 4
    ensures n > 0 && bytes > 0 ==> Shifted(n, bytes) < n
  {
  }

  /** The line feed that ends the header line. */
  lemma FirstLineFeed(h: string, x: string)
    ensures Find(h + "\n" + x, '\n') == Find(h, '\n')
  {
    var j, tail := Find(h, '\n'), h + "\n" + x;
    if j == |h| {
      assert tail == h + ("\n" + x);
      FindFrom(h, "\n" + x, '\n');
    } else {
      assert tail[j] == '\n';
      assert forall i :: 0 <= i < j ==> tail[i] == h[i];
    }
  }

  lemma HeaderStripped(h: string, j: nat)
    requires j <= |h|
    ensures RStrip("#" + h[..j] + "\n") == "#" + RStrip(h[..j])
    ensures RStrip(h[..j]) == h[..|RStrip(h[..j])|]
  {
    DropRightAll("#" + h[..j], "\n", IsSpace);
    DropRightUnder("#", h[..j], IsSpace);
  }

  /** The header line is `#` and the surviving length bytes. */
  lemma FrameHeader(data: string, x: string, eof: bool)
    requires |data| < 0x8000_0000
    ensures var h := BigEndian(|data|); var j := Find(h, '\n');
      && ReadLine(Frame(data) + x, eof) == Line("#" + h[..j] + "\n", (h + "\n" + (data + x))[j + 1..])
      && RStrip("#" + h[..j] + "\n") == "#" + h[..HeaderBytes(|data|)]
  {
    hide Find, RStrip, BigEndian;
    var h := BigEndian(|data|);
    var j, tail := Find(h, '\n'), h + "\n" + (data + x);
    var s := Frame(data) + x;
    assert s == "#" + tail;
    FindFrom("#", tail, '\n');
    FirstLineFeed(h, data + x);
    assert s[j + 2..] == tail[j + 1..];
    assert s[..j + 2] == "#" + h[..j] + "\n";
    HeaderStripped(h, j);
  }

  /** Stripping stops at the latest at a character that stays. */
  lemma {:induction false} DropRightUnder(a: string, s: string, p: Pred)
    requires a != "" && !p(a[|a| - 1])
    ensures DropRight(a + s, p) == a + DropRight(s, p)
  {
    if s == "" {
      assert a + s == a;
    } else {
      assert (a + s)[..|a + s| - 1] == a + s[..|s| - 1];
      DropRightUnder(a, s[..|s| - 1], p);
    }
  }

  /** A frame is read back exactly when its length is clean; every other frame is read as a shorter
      payload, and part of the frame stays in the stream. */
  lemma FrameRoundTrip(data: string, x: string, eof: bool)
    requires |data| < 0x8000_0000
    ensures Read(Frame(data) + x, eof) == Got(Binary(data), x) <==> CleanLength(|data|)
    ensures !CleanLength(|data|) ==>
      var r := Read(Frame(data) + x, eof);
      r.Got? && r.value.Binary? && |r.value.data| < |data| && |r.rest| > |x|
  {
    hide RStrip, Find, BigEndian, Frame, FromBytes;
    var n, h := |data|, BigEndian(|data|);
    var j, m := Find(h, '\n'), HeaderBytes(n);
    FrameHeader(data, x, eof);
    HeaderBytesAll(n);
    PrefixValue(n, m);
    var header := "#" + h[..m];
    assert header[1..m + 1] == h[..m];
    assert Announced(header) == Shifted(n, 4 - m);
    if m == 4 {
      HeaderBytesAreBefore(n);
      assert (h + "\n" + (data + x))[5..] == data + x;
    }
  }

  // ----- Text replies, and both kinds together

  predicate CleanText(s: string) {
    && s != "" && '\n' !in s && s[0] != '#' && !IsSpace(s[|s| - 1]) && |s| <= LINE_LIMIT
  }

  /** The replies that survive the trip. */
  predicate Clean(r: Reply) {
    match r
    case Text(s) => CleanText(s)
    case Binary(d) => |d| < 0x8000_0000 && CleanLength(|d|)
  }

  lemma LineOf(s: string, x: string, eof: bool)
    requires '\n' !in s
    ensures ReadLine(s + "\n" + x, eof) == if |s| > LINE_LIMIT then LineTooLong(x) else Line(s + "\n", x)
    ensures RStrip(s + "\n") == RStrip(s)
  {
    var t := s + "\n" + x;
    assert t == s + ("\n" + x);
    FindFrom(s, "\n" + x, '\n');
    assert t[|s| + 1..] == x && t[..|s| + 1] == s + "\n";
    DropRightAll(s, "\n", IsSpace);
  }

  /** A text with a line feed inside is cut there. */
  lemma TextWithLineFeed(s: string, x: string, eof: bool)
    requires '\n' in s
    ensures Read(s + "\n" + x, eof) != Got(Text(s), x)
  {
    hide Find, DropRight;
    var t := s + "\n" + x;
    var k := Find(s, '\n');
    FirstLineFeed(s, x);
    DropRightAll(t[..k], "\n", IsSpace);
    assert t[..k + 1] == t[..k] + "\n";
    assert RStrip(t[..k + 1]) <= t[..k];
  }

  lemma TextRoundTrip(s: string, x: string, eof: bool)
    ensures Read(s + "\n" + x, eof) == Got(Text(s), x) <==> CleanText(s)
  {
    if '\n' in s {
      TextWithLineFeed(s, x, eof);
    } else {
      LineOf(s, x, eof);
      DropRightFixed(s, IsSpace);
      DropRightParts(s, IsSpace);
    }
  }

  /** The parser inverts the printer, whatever follows in the stream, exactly on clean replies. */
  lemma ReadInvertsPrint(r: Reply, x: string, eof: bool)
    requires r.Binary? ==> |r.data| < 0x8000_0000
    ensures Read(Printed(r) + x, eof) == Got(r, x) <==> Clean(r)
  {
    match r
    case Text(s) => TextRoundTrip(s, x, eof);
    case Binary(d) => FrameRoundTrip(d, x, eof);
  }

  lemma FindInPrefix(p: string, s: string, c: char)
    requires p <= s
    ensures Find(p, c) == if Find(s, c) < |p| then Find(s, c) else |p|
  {
    var k, m := Find(s, c), Find(p, c);
    if k < |p| {
      assert p[k] == s[k];
    }
    if m < |p| {
      assert s[m] == p[m];
    }
  }

  lemma TextWaits(s: string, p: string)
    requires CleanText(s) && p < s + "\n"
    ensures Read(p, false) == Blocked
  {
    assert '\n' !in p by {
      assert forall i :: 0 <= i < |p| ==> p[i] == s[i];
    }
    assert Find(p, '\n') == |p|;
  }

  lemma FrameLineFeed(data: string)
    requires |data| < 0x8000_0000 && CleanLength(|data|)
    ensures Find(Frame(data), '\n') == 5 && Frame(data)[6..] == data
  {
    hide Find, BigEndian, CleanLength;
    var h := BigEndian(|data|);
    HeaderBytesAll(|data|);
    assert Frame(data) == "#" + h + ("\n" + data);
    FindFrom("#" + h, "\n" + data, '\n');
    NextIsFound("\n" + data, '\n');
  }

  lemma NextIsFound(s: string, c: char)
    requires s != "" && s[0] == c
    ensures Find(s, c) == 0
  {
  }

  lemma FrameWaits(data: string, p: string)
    requires |data| < 0x8000_0000 && CleanLength(|data|) && p < Frame(data)
    ensures Read(p, false) == Blocked
  {
    hide Find, BigEndian, CleanLength;
    var s, h := Frame(data), BigEndian(|data|);
    HeaderBytesAll(|data|);
    FrameLineFeed(data);
    FindInPrefix(p, s, '\n');
    if |p| > 5 {
      PrefixValue(|data|, 4);
      assert p[..6] == s[..6] == "#" + h[..4] + "\n";
      HeaderStripped(h, 4);
      DropRightFixed(h, IsSpace);
      assert h[..4] == h && ("#" + h)[1..5] == h;
    }
  }

  /** However the bytes of a clean reply trickle in, the client waits for the last one. */
  lemma ReadWaits(r: Reply, p: string)
    requires Clean(r) && p < Printed(r)
    ensures Read(p, false) == Blocked
  {
    match r
    case Text(s) => TextWaits(s, p);
    case Binary(d) => FrameWaits(d, p);
  }

  // ----- Every line, and streams that end

  /** `t` is `s` without the white space at its end. */
  ghost predicate Stripped(s: string, t: string) {
    && t <= s && (t != "" ==> !IsSpace(t[|t| - 1]))
    && forall i :: |t| <= i < |s| ==> IsSpace(s[i])
  }

  ghost predicate Blank(s: string) {
    forall c <- s :: IsSpace(c)
  }

  lemma StrippedIs(s: string)
    ensures Stripped(s, RStrip(s)) && (RStrip(s) == "" <==> Blank(s))
    ensures !Blank(s) ==> RStrip(s)[0] == s[0]
  {
    DropRightParts(s, IsSpace);
  }

  /** What a line that is no frame header reads as, whatever is in it. */
  lemma LineReadsAs(s: string, x: string, eof: bool)
    requires '\n' !in s
    ensures var r := Read(s + "\n" + x, eof);
      if |s| > LINE_LIMIT || Blank(s) then r == Raised(x)
      else s[0] != '#' ==> r.Got? && r.rest == x && r.value.Text? && Stripped(s, r.value.text)
  {
    hide RStrip, Find;
    LineOf(s, x, eof);
    StrippedIs(s);
  }

  /** Whatever the stream holds, a reply is cut out of its front: the header line, then exactly the announced
      bytes, and nothing is lost or added. */
  lemma ReadCutsFront(stream: string, eof: bool)
    ensures var r := Read(stream, eof); r.Got? ==>
      var k := Find(stream, '\n');
      var header := if k < |stream| then stream[..k + 1] else stream;
      match r.value
      case Text(t) => Stripped(header, t) && t != "" && t[0] != '#' && stream == header + r.rest
      case Binary(d) =>
        && stream == header + d + r.rest && header[0] == '#'
        && exists kept :: Stripped(header, kept) && kept != "" && |d| == Announced(kept)
  {
    hide RStrip, Find, Announced;
    var k := Find(stream, '\n');
    var header := if k < |stream| then stream[..k + 1] else stream;
    StrippedIs(header);
    if k < |stream| {
      assert stream == header + stream[k + 1..];
    } else {
      assert stream == header + "";
    }
    var r := Read(stream, eof);
    if r.Got? && r.value.Binary? {
      var rest := ReadLine(stream, eof).rest;
      assert rest == r.value.data + r.rest;
      assert stream == header + (r.value.data + r.rest);
    }
  }

  predicate AllZero(s: string) {
    forall i :: 0 <= i < |s| ==> s[i] == '\0'
  }

  lemma {:induction false} FromBytesZero(s: string)
    ensures FromBytes(s) == 0 <==> AllZero(s)
  {
    if s == "" {
    } else {
      var n := |s| - 1;
      FromBytesZero(s[..n]);
      assert forall i :: 0 <= i < n ==> s[..n][i] == s[i];
      assert s[n] as nat == 0 <==> s[n] == '\0';
    }
  }

  /** A text that the end of the stream cuts short is returned as far as it goes, without white space at its
      end; if nothing else is there, the read raises. */
  lemma TextCutShort(s: string, p: string)
    requires CleanText(s) && p < s + "\n"
    ensures Blank(p) ==> Read(p, true) == Raised("")
    ensures !Blank(p) ==>
      var r := Read(p, true); r.Got? && r.rest == "" && r.value.Text? && Stripped(p, r.value.text)
  {
    hide RStrip;
    assert p <= s && '\n' !in p by {
      assert forall i :: 0 <= i < |p| ==> p[i] == s[i];
    }
    assert Find(p, '\n') == |p|;
    StrippedIs(p);
  }

  /** A frame that the end of the stream cuts short never gives part of its payload: cut after the header it
      raises; cut within, only the length bytes that are there count, without white space at the end, and
      it raises unless they are all zero. */
  lemma FrameCutShort(data: string, p: string)
    requires |data| < 0x8000_0000 && CleanLength(|data|) && p < Frame(data)
    ensures |p| == 0 || |p| >= 6 ==> Read(p, true) == Raised("")
    ensures 0 < |p| < 6 ==>
      exists kept :: Stripped(p, kept) && kept != "" &&
        Read(p, true) == if AllZero(kept[1..]) then Got(Binary(""), "") else Raised("")
  {
    hide Find, BigEndian, CleanLength, RStrip, FromBytes;
    var s, h := Frame(data), BigEndian(|data|);
    HeaderBytesAll(|data|);
    FrameLineFeed(data);
    FindInPrefix(p, s, '\n');
    StrippedIs(p);
    if |p| > 5 {
      PrefixValue(|data|, 4);
      assert p[..6] == s[..6] == "#" + h[..4] + "\n";
      HeaderStripped(h, 4);
      WholeHeaderKept(|data|);
      assert h[..4] == h && ("#" + h)[1..5] == h;
    } else if p != "" {
      assert p[0] == s[0] == '#';
      var kept := RStrip(p);
      assert kept[1..if |kept| < 5 then |kept| else 5] == kept[1..];
      FromBytesZero(kept[1..]);
    }
  }

  lemma WholeHeaderKept(n: nat)
    requires n < 0x8000_0000 && CleanLength(n)
    ensures RStrip(BigEndian(n)) == BigEndian(n)
  {
    hide BigEndian, CleanLength;
    CleanBytes(n);
    DropRightFixed(BigEndian(n), IsSpace);
  }

  /** When the stream ends inside a clean reply, no later payload is ever made up: the read raises, or returns
      a text that was there, or an empty payload. */
  lemma CutShort(r: Reply, p: string)
    requires Clean(r) && p < Printed(r)
    ensures match Read(p, true)
            case Got(Text(t), rest) => r.Text? && t < r.text + "\n" && rest == ""
            case Got(Binary(d), rest) => r.Binary? && d == "" && rest == "" && |p| < 6
            case Blocked => false
            case Raised(rest) => rest == ""
  {
    hide Read, Clean, CleanLength, Frame, Blank;
    match r
    case Text(s) => CleanIsText(s); TextCutShort(s, p);
    case Binary(d) => CleanIsBinary(d); FrameCutShort(d, p);
  }

  lemma CleanIsText(s: string)
    requires Clean(Text(s))
    ensures CleanText(s)
  {
  }

  lemma CleanIsBinary(d: string)
    requires Clean(Binary(d))
    ensures |d| < 0x8000_0000 && CleanLength(|d|)
  {
  }

  /** The client has consumed a header line and waits for the rest of its payload. */
  predicate MidFrame(stream: string) {
    Read(stream, false) == Blocked && ReadLine(stream, false).Line?
  }

  /** What a read that is cancelled while it waits leaves in the stream. */
  function Abandoned(stream: string): string {
    if MidFrame(stream) then ReadLine(stream, false).rest else stream
  }

  /** Cancelled inside a frame, the client has lost the header: the payload is what it parses next. */
  lemma CancelInsideFrame(data: string, p: string)
    requires |data| < 0x8000_0000 && CleanLength(|data|)
    requires p < Frame(data) && |p| >= 6
    ensures MidFrame(p) && Abandoned(p) + Frame(data)[|p|..] == data
  {
    hide Read, Find, CleanLength, Frame;
    var s := Frame(data);
    FrameWaits(data, p);
    FrameLineFeed(data);
    FindInPrefix(p, s, '\n');
    assert p[6..] + s[|p|..] == s[6..];
  }

  lemma NullHeaderBytes()
    ensures '\n' !in NullHeader() && |NullHeader()| == 5 && NullHeader()[0] == '#' && !IsSpace(NullHeader()[4])
    ensures FromBytes(NullHeader()[1..5]) == 0
  {
    PrefixValue(0, 4);
    assert NullHeader()[1..5] == BigEndian(0)[..4];
  }

  /** On a header without its line feed the client hangs until a line feed arrives. */
  lemma NullHeaderBlocks(next: string)
    requires '\n' !in next && |next| + 5 <= LINE_LIMIT
    ensures Read(NullHeader() + next, false) == Blocked
  {
    hide FromBytes, NullHeader, RStrip;
    NullHeaderBytes();
    assert '\n' !in NullHeader() + next;
  }

  /** And whatever line comes next is swallowed by it: an empty payload is returned, and only what follows
      that line is left. */
  lemma NullHeaderSwallowsNextLine(line: string, x: string)
    requires '\n' !in line && |line| + 5 <= LINE_LIMIT
    ensures Read(NullHeader() + line + "\n" + x, false) == Got(Binary(""), x)
  {
    hide FromBytes, NullHeader, RStrip, Find;
    var header := NullHeader();
    NullHeaderBytes();
    LineOf(header + line, x, false);
    StrippedUnder(header, line);
    var data := header + RStrip(line);
    assert data[1..5] == header[1..5] && data[0] == header[0];
    assert x[..0] == "" && x[0..] == x;
  }

  lemma StrippedUnder(a: string, s: string)
    requires a != "" && !IsSpace(a[|a| - 1])
    ensures RStrip(a + s) == a + RStrip(s)
  {
    DropRightUnder(a, s, IsSpace);
  }
}
