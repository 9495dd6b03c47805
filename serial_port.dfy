/** The receive buffer and the write surface of the threaded serial port
    `sPort`. The reader thread, the Tk scheduling and the serial device are
    outside the model: the bytes a read delivers arrive as the argument of
    `ReadStoreBuffer`, the outcome of the device's `write` is a parameter,
    and the bytes handed to the device are kept in the log `sent`. */
module SerialPort {
  import opened Wrappers
  import Py
  import Utf8

  type Byte = Utf8.Byte

  /** `"\n"`: the byte `readL` and `clearBuffer` look for, whatever
      terminator the port was created with. */
  const LineFeed: Byte := 10

  const DefaultSize: nat := 4096

  /** What `readB` returns: the bytes, or the string "not enough data". */
  datatype BytesResult = Bytes(data: seq<Byte>) | NotEnoughData

  /** What `readL` returns: the decoded line, the placeholder
      "Read data isn't a string", or the string "not enough data". */
  datatype LineResult = Line(text: string) | NotAString | NoLine

  /** The warnings `write` and `writeL` print instead of raising. */
  datatype Warning = PortClosed | WriteFailed

  /** The value `readL` returns for the bytes of one line (terminator excluded). */
  function DecodedLine(line: seq<Byte>): (r: LineResult)
    ensures r != NoLine
    ensures r.Line? ==> Utf8.Encode(r.text) == line
    ensures r.Line? && LineFeed !in line ==> '\n' !in r.text
    ensures r == NotAString <==> Utf8.Decode(line).None?
  {
    match Utf8.Decode(line)
    case Some(text) =>
      Utf8.EncodeDecode(line);
      Utf8.NewlineByteIffNewlineChar(text);
      Line(text)
    case None => NotAString
  }

  /** What `clearBuffer(clearLine=True)` keeps: everything strictly after the
      last line feed, or all of `s` when it has none. */
  function AfterLastLineFeed(s: seq<Byte>): (r: seq<Byte>)
    ensures LineFeed !in r
    ensures LineFeed !in s ==> r == s
    ensures LineFeed in s ==> |r| < |s| && s[|s| - |r| - 1] == LineFeed
    ensures r == s[|s| - |r|..]
  {
    match Py.RIndex(s, LineFeed)
    case None => s
    case Some(k) => s[k + 1..]
  }

  class SPort {
    /** The received bytes not yet consumed (`buffer.content`). */
    var content: seq<Byte>
    /** The capacity set by `start` (`buffer.size`). */
    var size: nat
    /** Set by the reconnect logic, which is not part of this model. */
    var disconnected: bool
    /** Stored by the constructor and never read. */
    var terminator: string
    /** How many times the `handleData` callback has been called. */
    var dataEvents: nat
    /** Every byte handed to the serial device by `write` and `writeL`. */
    var sent: seq<Byte>
    /** The warnings printed by `write` and `writeL`. */
    var warnings: seq<Warning>

    /** The buffer never holds more than its capacity. */
    predicate WithinCapacity()
      reads this
    {
      |content| <= size
    }

    constructor (terminatorV: string := "\n")
      ensures content == [] && size == DefaultSize && !disconnected
      ensures terminator == terminatorV
      ensures dataEvents == 0 && sent == [] && warnings == []
      ensures WithinCapacity()
    {
      content := [];
      size := DefaultSize;
      disconnected := false;
      terminator := terminatorV;
      dataEvents := 0;
      sent := [];
      warnings := [];
    }

    /** `start`, without the reader thread it launches: sets the capacity. */
    method Start(maxSize: nat := DefaultSize)
      modifies this`size
      ensures size == maxSize
      ensures WithinCapacity() <==> |content| <= maxSize
    {
      size := maxSize;
    }

    /** `readStoreBuffer`: appends the whole chunk if it fits, drops the whole
        chunk otherwise, and calls `handleData` in both cases. */
    method ReadStoreBuffer(data: seq<Byte>)
      modifies this`content, this`dataEvents
      ensures |old(content)| + |data| <= size ==> content == old(content) + data
      ensures |old(content)| + |data| > size ==> content == old(content)
      ensures dataEvents == old(dataEvents) + 1
      ensures old(WithinCapacity()) ==> WithinCapacity()
    {
      if |content| + |data| <= size {
        content := content + data;
      }
      dataEvents := dataEvents + 1;
    }

    /** `clearBuffer`: empties the buffer, or with `clearLine` drops
        everything up to and including the last line feed. */
    method ClearBuffer(clearLine: bool := false)
      modifies this`content
      ensures !clearLine ==> content == []
      ensures clearLine ==> content == AfterLastLineFeed(old(content))
      ensures clearLine ==> LineFeed !in content
      ensures |content| <= |old(content)|
    {
      if clearLine {
        var numBytes := |content|;
        var newLineIndex := numBytes;
        while newLineIndex > 0
          invariant 0 <= newLineIndex <= numBytes
          invariant content == old(content)
          invariant LineFeed !in content[newLineIndex..]
          decreases newLineIndex
        {
          newLineIndex := newLineIndex - 1;
          if content[newLineIndex] == LineFeed {
            assert Py.RIndex(content, LineFeed) == Some(newLineIndex);
            content := content[newLineIndex + 1..];
            return;
          }
        }
        assert content[0..] == content;
      } else {
        content := [];
      }
    }

    /** `disconnected()`. */
    method Disconnected() returns (r: bool)
      ensures r <==> disconnected
    {
      r := disconnected;
    }

    /** `readB`: takes `n` bytes from the front, or reports that fewer than
        `n` are buffered and takes nothing. */
    method ReadB(n: nat := 1) returns (r: BytesResult)
      modifies this`content
      ensures |old(content)| < n ==> r == NotEnoughData && content == old(content)
      ensures |old(content)| >= n ==> r.Bytes? && |r.data| == n && r.data + content == old(content)
    {
      var numBytes := |content|;
      if numBytes < n {
        return NotEnoughData;
      }
      r := Bytes(content[0..n]);
      content := content[n..];
    }

    /** `readL`: takes the bytes up to and including the first line feed and
        returns them decoded without the line feed; with no line feed it takes
        nothing. */
    method ReadL() returns (r: LineResult)
      modifies this`content
      ensures LineFeed !in old(content) ==> r == NoLine && content == old(content)
      ensures LineFeed in old(content) ==>
        var k := Py.Index(old(content), LineFeed).value;
        && old(content) == old(content)[..k] + [LineFeed] + content
        && r == DecodedLine(old(content)[..k])
      ensures r.Line? ==> '\n' !in r.text
    {
      var numBytes := |content|;
      var newLineIndex := 0;
      while newLineIndex < numBytes
        invariant 0 <= newLineIndex <= numBytes
        invariant content == old(content)
        invariant LineFeed !in content[..newLineIndex]
      {
        if content[newLineIndex] == LineFeed {
          assert Py.Index(content, LineFeed) == Some(newLineIndex);
          r := DecodedLine(content[0..newLineIndex]);
          assert content == content[..newLineIndex] + [LineFeed] + content[newLineIndex + 1..];
          content := content[newLineIndex + 1..];
          return;
        }
        newLineIndex := newLineIndex + 1;
      }
      assert content[..numBytes] == content;
      r := NoLine;
    }

    /** `write`: hands `data` to the device unless the port is marked
        disconnected; `ioError` says whether the device's write raises
        `OSError`. Never raises: failures become warnings. */
    method Write(data: seq<Byte>, ioError: bool)
      modifies this`sent, this`warnings
      ensures disconnected ==> sent == old(sent) && warnings == old(warnings) + [PortClosed]
      ensures !disconnected && ioError ==> sent == old(sent) && warnings == old(warnings) + [WriteFailed]
      ensures !disconnected && !ioError ==> sent == old(sent) + data && warnings == old(warnings)
    {
      if disconnected {
        warnings := warnings + [PortClosed];
        return;
      }
      if ioError {
        warnings := warnings + [WriteFailed];
      } else {
        sent := sent + data;
      }
    }

    /** `writeL`: like `write`, with the UTF-8 encoding of `s` followed by a
        line feed. A `string` here holds only Unicode scalar values, so the
        encoding cannot fail. */
    method WriteL(s: string, ioError: bool)
      modifies this`sent, this`warnings
      ensures disconnected ==> sent == old(sent) && warnings == old(warnings) + [PortClosed]
      ensures !disconnected && ioError ==> sent == old(sent) && warnings == old(warnings) + [WriteFailed]
      ensures !disconnected && !ioError ==>
        sent == old(sent) + Utf8.Encode(s) + [LineFeed] && warnings == old(warnings)
    {
      if disconnected {
        warnings := warnings + [PortClosed];
        return;
      }
      if ioError {
        warnings := warnings + [WriteFailed];
      } else {
        Utf8.EncodeAppend(s, "\n");
        sent := sent + Utf8.Encode(s + "\n");
      }
    }
  }

  /** A line written with `writeL` and read back with `readL` is the same
      text, provided it holds no line feed of its own. */
  lemma LineRoundTrip(s: string, rest: seq<Byte>)
    requires '\n' !in s
    ensures var b := Utf8.Encode(s) + [LineFeed] + rest;
      && Py.Index(b, LineFeed) == Some(|Utf8.Encode(s)|)
      && DecodedLine(b[..|Utf8.Encode(s)|]) == Line(s)
  {
    var e := Utf8.Encode(s);
    var b := e + [LineFeed] + rest;
    assert b == e + ([LineFeed] + rest);
    Utf8.NewlineByteIffNewlineChar(s);
    Py.IndexAfterPrefix(e, [LineFeed] + rest, LineFeed);
    assert b[..|e|] == e;
    Utf8.DecodeEncode(s);
  }

  /** A worked case: `readL` on `b"ab\ncd"` returns "ab" and leaves `b"cd"`. */
  method ReadLineExample() returns (r: LineResult, rest: seq<Byte>)
    ensures r == Line("ab") && rest == [99, 100]
  {
    var received: seq<Byte> := [97, 98, 10, 99, 100];
    assert Utf8.Encode("ab") == [97, 98];
    assert received == Utf8.Encode("ab") + [LineFeed] + [99, 100];
    LineRoundTrip("ab", [99, 100]);
    assert received[..2] == [97, 98] && received[3..] == [99, 100];
    var port := new SPort();
    port.ReadStoreBuffer(received);
    assert port.content == received && LineFeed in received;
    r := port.ReadL();
    rest := port.content;
  }
}
