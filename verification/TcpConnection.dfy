/** The Python end of the link (tcpconnection.py): the asyncio streams and the reply reader over them. */
module TcpConnection {
  import opened Bytes
  import opened Frames
  import opened Options

  class TCPConnection {
    var arrived: string   // received by the reader, not yet consumed
    var eof: bool
    var written: string

    constructor ()
      ensures arrived == "" && !eof && written == ""
    {
      arrived, eof, written := "", false, "";
    }

    method Write(data: string)
      modifies this`written
      ensures written == old(written) + data
    {
      written := written + data;
    }

    /** `await reader.readline()` once it can complete; an over-long line raises. */
    method ReadLine() returns (r: LineResult)
      requires Frames.ReadLine(arrived, eof) != NoLineYet
      modifies this`arrived
      ensures r == Frames.ReadLine(old(arrived), eof) && arrived == r.rest
    {
      var k := Find(arrived, '\n');
      if k < |arrived| {
        var line, rest := arrived[..k + 1], arrived[k + 1..];
        arrived := rest;
        return if k > LINE_LIMIT then LineTooLong(rest) else Line(line, rest);
      }
      var all := arrived;
      arrived := "";
      return if |all| > LINE_LIMIT then LineTooLong("") else Line(all, "");
    }

    /** `await reader.readexactly(n)` once it can complete; a stream that ends too early raises. */
    method ReadExactly(n: nat) returns (r: Option<string>)
      requires n <= |arrived| || eof
      modifies this`arrived
      ensures n <= |old(arrived)| ==> r == Some(old(arrived)[..n]) && arrived == old(arrived)[n..]
      ensures n > |old(arrived)| ==> r == None && arrived == ""
    {
      if n <= |arrived| {
        r := Some(arrived[..n]);
        arrived := arrived[n..];
      } else {
        r := None;
        arrived := "";
      }
    }

    /** `read`, once everything it awaits has arrived. */
    method Read() returns (r: ReadResult)
      requires Frames.Read(arrived, eof) != Blocked
      modifies this`arrived
      ensures r == Frames.Read(old(arrived), eof) && arrived == r.rest
    {
      var l := ReadLine();
      if l.LineTooLong? {
        return Raised(arrived);
      }
      var data := RStrip(l.line);
      if data == "" {
        return Raised(arrived);
      }
      if data[0] == '#' {
        var size := Announced(data);
        var payload := ReadExactly(size);
        if payload.None? {
          return Raised(arrived);
        }
        return Got(Binary(payload.value), arrived);
      }
      return Got(Text(data), arrived);
    }
  }
}
