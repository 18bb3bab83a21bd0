/** Frames on the serial line: one frame a line, written by send_frame_immediately and
    read back by handle_read (src/Master/src/uwb/UwbHandle.cpp).
 */
module UwbLink {
  import opened Basics
  import opened UwbFrameCodec
  import opened UwbHttpText

  /** What sending the frames one after the other puts on the line. */
  function Wire(frames: seq<Frame>): Octets {
    if frames == [] then [] else Encoded(frames[0]) + [LF] + Wire(frames[1..])
  }

  /** The complete lines of a text, without their line ends. */
  function Lines(text: Octets): seq<Octets>
    decreases |text|
  {
    if LF !in text then [] else [DropCR(FirstLine(text))] + Lines(AfterLine(text))
  }

  /** The text after the last complete line. */
  function Remainder(text: Octets): Octets
    decreases |text|
  {
    if LF !in text then text else Remainder(AfterLine(text))
  }

  function DecodedLines(lines: seq<Octets>): seq<Option<Frame>> {
    if lines == [] then [] else [Decoded(lines[0])] + DecodedLines(lines[1..])
  }

  function Accepted(frames: seq<Frame>): seq<Option<Frame>> {
    if frames == [] then [] else [Some(frames[0])] + Accepted(frames[1..])
  }

  /** The receiving end: bytes arrive in arbitrary pieces, and each complete line is decoded. */
  class SerialReader {
    var buffer: Octets
    var results: seq<Option<Frame>>

    constructor ()
      ensures buffer == [] && results == []
    {
      buffer, results := [], [];
    }

    /** One completion of async_read_until. */
    method HandleRead()
      requires LF in buffer
      modifies this
      ensures buffer == AfterLine(old(buffer))
      ensures results == old(results) + [Decoded(DropCR(FirstLine(old(buffer))))]
    {
      var line := FirstLine(buffer);
      buffer := AfterLine(buffer);
      if line != [] && line[|line| - 1] == CR {
        line := line[..|line| - 1];
      }
      var frame := Decode(line);
      results := results + [frame];
    }

    method Arrive(bytes: Octets)
      modifies this
      ensures buffer == Remainder(old(buffer) + bytes)
      ensures results == old(results) + DecodedLines(Lines(old(buffer) + bytes))
    {
      buffer := buffer + bytes;
      ghost var all := buffer;
      while LF in buffer
        invariant results + DecodedLines(Lines(buffer)) == old(results) + DecodedLines(Lines(all))
        invariant Remainder(buffer) == Remainder(all)
        decreases |buffer|
      {
        LinesStep(results, buffer);
        HandleRead();
      }
    }

    /** Any cut of a stream into pieces, the empty ones included. */
    method ArriveAll(pieces: seq<Octets>)
      requires buffer == []
      modifies this
      ensures buffer == Remainder(Joined(pieces))
      ensures results == old(results) + DecodedLines(Lines(Joined(pieces)))
    {
      assert results + DecodedLines(Lines([])) == results;
      for i := 0 to |pieces|
        invariant buffer == Remainder(Joined(pieces[..i]))
        invariant results == old(results) + DecodedLines(Lines(Joined(pieces[..i])))
      {
        assert pieces[..i + 1][..i] == pieces[..i];
        NextPiece(Joined(pieces[..i]), pieces[i], old(results));
        Arrive(pieces[i]);
      }
      assert pieces[..|pieces|] == pieces;
    }
  }

  lemma {:induction false} DecodedLinesAppend(a: seq<Octets>, b: seq<Octets>)
    ensures DecodedLines(a + b) == DecodedLines(a) + DecodedLines(b)
  {
    if a == [] {
      assert a + b == b;
    } else {
      assert (a + b)[1..] == a[1..] + b;
      DecodedLinesAppend(a[1..], b);
    }
  }

  lemma NextPiece(before: Octets, piece: Octets, done: seq<Option<Frame>>)
    ensures Remainder(before + piece) == Remainder(Remainder(before) + piece)
    ensures done + DecodedLines(Lines(before + piece))
         == (done + DecodedLines(Lines(before))) + DecodedLines(Lines(Remainder(before) + piece))
  {
    PiecesDoNotMatter(before, piece);
    DecodedLinesAppend(Lines(before), Lines(Remainder(before) + piece));
  }

  lemma LinesStep(done: seq<Option<Frame>>, text: Octets)
    requires LF in text
    ensures done + DecodedLines(Lines(text))
      == (done + [Decoded(DropCR(FirstLine(text)))]) + DecodedLines(Lines(AfterLine(text)))
  {
    var line, rest := DropCR(FirstLine(text)), Lines(AfterLine(text));
    assert ([line] + rest)[1..] == rest;
  }

  lemma CutAppend(s: Octets, t: Octets, i: nat)
    requires i < |s|
    ensures (s + t)[..i] == s[..i] && (s + t)[i + 1..] == s[i + 1..] + t && (s + t)[i] == s[i]
  {
  }

  lemma {:induction false} BreakAppend(s: Octets, t: Octets)
    requires LF in s
    ensures IndexOf(s + t, LF) == IndexOf(s, LF) < |s|
  {
    if s[0] != LF {
      assert (s + t)[1..] == s[1..] + t;
      BreakAppend(s[1..], t);
    }
  }

  lemma AfterAppend(s: Octets, t: Octets)
    requires LF in s
    ensures LF in s + t && FirstLine(s + t) == FirstLine(s) && AfterLine(s + t) == AfterLine(s) + t
  {
    BreakAppend(s, t);
    CutAppend(s, t, IndexOf(s, LF));
  }

  /** Reading does not depend on how the bytes are cut into pieces. */
  lemma {:induction false} PiecesDoNotMatter(s: Octets, t: Octets)
    ensures Lines(s + t) == Lines(s) + Lines(Remainder(s) + t)
    ensures Remainder(s + t) == Remainder(Remainder(s) + t)
    decreases |s|
  {
    if LF in s {
      AfterAppend(s, t);
      PiecesDoNotMatter(AfterLine(s), t);
    }
  }

  lemma LineCut(line: Octets, more: Octets)
    requires LF !in line && (line != [] ==> line[|line| - 1] != CR)
    ensures LF in line + [LF] + more
    ensures DropCR(FirstLine(line + [LF] + more)) == line && AfterLine(line + [LF] + more) == more
  {
    var s := line + [LF] + more;
    assert s == line + ([LF] + more);
    IndexOfAppend(line, LF, [LF] + more);
    assert s[|line|] == LF;
  }

  lemma HexIsPlain(b: Byte, w: int)
    requires 0 <= w < 65536
    ensures Plain(ToHex2(b)) && Plain(ToHex4(w))
  {
  }

  predicate OneLine(f: Frame) {
    CarriesPayload(f.kind) ==> LF !in f.payload
  }

  lemma EncodedTail(f: Frame)
    ensures var e := Encoded(f);
      |e| > 0 && e[|e| - 1] == ToHex2(f.checksum)[1] && e[|e| - 1] != CR
  {
    HexIsPlain(f.checksum, 0);
  }

  lemma HeadIsPlain(f: Frame)
    ensures Plain(Head(f))
  {
    HexIsPlain(f.src, 0);
    HexIsPlain(f.dst, 0);
    HexIsPlain(f.seqNo, 0);
  }

  lemma EncodedIsOneLine(f: Frame)
    ensures LF !in Encoded(f) <==> OneLine(f)
  {
    HeadIsPlain(f);
    HexIsPlain(f.checksum, |f.payload| % 65536);
  }

  function Breaks(s: Octets): nat {
    if s == [] then 0 else (if s[0] == LF then 1 else 0) + Breaks(s[1..])
  }

  lemma {:induction false} BreaksAppend(s: Octets, t: Octets)
    ensures Breaks(s + t) == Breaks(s) + Breaks(t)
  {
    if s == [] {
      assert s + t == t;
    } else {
      assert (s + t)[1..] == s[1..] + t;
      BreaksAppend(s[1..], t);
    }
  }

  lemma {:induction false} NoBreaks(s: Octets)
    ensures Breaks(s) == 0 <==> LF !in s
  {
    if s != [] {
      NoBreaks(s[1..]);
    }
  }

  lemma {:induction false} LinesCount(text: Octets)
    ensures |Lines(text)| == Breaks(text)
    decreases |text|
  {
    NoBreaks(text);
    if LF in text {
      var i := IndexOf(text, LF);
      assert text == text[..i] + ([LF] + AfterLine(text));
      BreaksAppend(text[..i], [LF] + AfterLine(text));
      NoBreaks(text[..i]);
      LinesCount(AfterLine(text));
      assert ([LF] + AfterLine(text))[1..] == AfterLine(text);
    }
  }

  lemma {:induction false} DecodedLinesCount(lines: seq<Octets>)
    ensures |DecodedLines(lines)| == |lines|
  {
    if lines != [] {
      DecodedLinesCount(lines[1..]);
    }
  }

  lemma {:induction false} WireBreaks(frames: seq<Frame>)
    ensures |Accepted(frames)| == |frames| <= Breaks(Wire(frames))
    ensures Breaks(Wire(frames)) == |frames| ==> forall f :: f in frames ==> OneLine(f)
  {
    if frames != [] {
      var e, w := Encoded(frames[0]), Wire(frames[1..]);
      WireBreaks(frames[1..]);
      BreaksAppend(e + [LF], w);
      BreaksAppend(e, [LF]);
      assert Breaks([LF]) == 1;
      NoBreaks(e);
      EncodedIsOneLine(frames[0]);
    }
  }

  lemma {:induction false} WireReadBack(frames: seq<Frame>)
    requires forall f :: f in frames ==> Sendable(f) && OneLine(f)
    ensures DecodedLines(Lines(Wire(frames))) == Accepted(frames) && Remainder(Wire(frames)) == []
  {
    if frames != [] {
      var f := frames[0];
      WireReadBack(frames[1..]);
      EncodedIsOneLine(f);
      EncodedTail(f);
      LineCut(Encoded(f), Wire(frames[1..]));
      SendableSurvives(f);
      LinesStep([], Wire(frames));
    }
  }

  lemma {:induction false} AllSome(lines: seq<Octets>, frames: seq<Frame>)
    requires DecodedLines(lines) == Accepted(frames)
    ensures forall f :: f in frames ==> Sendable(f)
  {
    if frames != [] {
      DecodedIsSendable(lines[0]);
      assert DecodedLines(lines)[1..] == DecodedLines(lines[1..]);
      assert Accepted(frames)[1..] == Accepted(frames[1..]);
      assert DecodedLines(lines)[0] == Some(frames[0]);
      AllSome(lines[1..], frames[1..]);
    }
  }

  /** A list of frames crosses the line unchanged exactly when each frame survives the codec
      and keeps to one line. */
  lemma WireRoundTrip(frames: seq<Frame>)
    ensures DecodedLines(Lines(Wire(frames))) == Accepted(frames)
       <==> forall f :: f in frames ==> Sendable(f) && OneLine(f)
  {
    if DecodedLines(Lines(Wire(frames))) == Accepted(frames) {
      AllSome(Lines(Wire(frames)), frames);
      DecodedLinesCount(Lines(Wire(frames)));
      LinesCount(Wire(frames));
      WireBreaks(frames);
    }
    if forall f :: f in frames ==> Sendable(f) && OneLine(f) {
      WireReadBack(frames);
    }
  }

  /** The DATA frame of one request, as send_http_reliable builds it. */
  function DataFrame(src: Byte, dst: Byte, seqNo: Byte, req: Request): Frame {
    MakeFrame(src, dst, seqNo, DATA, Serialized(req))
  }

  /** The frames of a list of requests, under the given sequence numbers. */
  function DataFrames(src: Byte, dst: Byte, seqNos: seq<Byte>, reqs: seq<Request>): seq<Frame>
    requires |seqNos| == |reqs|
  {
    if reqs == [] then [] else [DataFrame(src, dst, seqNos[0], reqs[0])] + DataFrames(src, dst, seqNos[1..], reqs[1..])
  }

  /** What handle_received_frame makes of a list of accepted DATA frames. */
  function ParsedAll(results: seq<Option<Frame>>): seq<Option<Request>> {
    if results == [] then []
    else [if results[0].None? then None else Parsed(results[0].value.payload)] + ParsedAll(results[1..])
  }

  /** The requests with the lengths of their bodies recomputed. */
  function Arrived(reqs: seq<Request>): seq<Option<Request>> {
    if reqs == [] then [] else [Some(Prepared(reqs[0]))] + Arrived(reqs[1..])
  }

  lemma {:induction false} DataFramesSurvive(src: Byte, dst: Byte, seqNos: seq<Byte>, reqs: seq<Request>)
    requires |seqNos| == |reqs|
    requires forall r :: r in reqs ==> WellFormed(r) && |Serialized(r)| <= MAX_PAYLOAD
    ensures forall f :: f in DataFrames(src, dst, seqNos, reqs) ==> Sendable(f) && OneLine(f)
    ensures ParsedAll(Accepted(DataFrames(src, dst, seqNos, reqs))) == Arrived(reqs)
  {
    if reqs != [] {
      var f := DataFrame(src, dst, seqNos[0], reqs[0]);
      var rest := DataFrames(src, dst, seqNos[1..], reqs[1..]);
      EscapedHasNoBreak(Printed(reqs[0]));
      ParseSerialize(reqs[0]);
      DataFramesSurvive(src, dst, seqNos[1..], reqs[1..]);
      assert ([f] + rest)[1..] == rest;
      assert ([Some(f)] + Accepted(rest))[1..] == Accepted(rest);
    }
  }

  /** The pieces that the reader is given, from an empty buffer on: the lines it cuts off, and the rest. */
  function LinesOf(pieces: seq<Octets>): seq<Octets> {
    if pieces == [] then []
    else LinesOf(pieces[..|pieces| - 1]) + Lines(RemainderOf(pieces[..|pieces| - 1]) + pieces[|pieces| - 1])
  }

  function RemainderOf(pieces: seq<Octets>): Octets {
    if pieces == [] then [] else Remainder(RemainderOf(pieces[..|pieces| - 1]) + pieces[|pieces| - 1])
  }

  lemma {:induction false} AnyCut(pieces: seq<Octets>)
    ensures LinesOf(pieces) == Lines(Joined(pieces)) && RemainderOf(pieces) == Remainder(Joined(pieces))
  {
    if pieces != [] {
      AnyCut(pieces[..|pieces| - 1]);
      PiecesDoNotMatter(Joined(pieces[..|pieces| - 1]), pieces[|pieces| - 1]);
    }
  }

  /** The whole link: serialise, escape, frame, join by newlines, cut the stream into any number of
      pieces, split, decode, unescape and parse gives back the same requests in the same order, with
      the lengths of their bodies recomputed; prepared requests come back exactly as they were. */
  lemma LinkRoundTrip(src: Byte, dst: Byte, seqNos: seq<Byte>, reqs: seq<Request>, pieces: seq<Octets>)
    requires |seqNos| == |reqs|
    requires forall r :: r in reqs ==> WellFormed(r) && |Serialized(r)| <= MAX_PAYLOAD
    requires Joined(pieces) == Wire(DataFrames(src, dst, seqNos, reqs))
    ensures ParsedAll(DecodedLines(LinesOf(pieces))) == Arrived(reqs) && RemainderOf(pieces) == []
    ensures (forall r :: r in reqs ==> Prepared(r) == r) ==>
      forall i :: 0 <= i < |reqs| ==> |Arrived(reqs)| == |reqs| && Arrived(reqs)[i] == Some(reqs[i])
  {
    DataFramesSurvive(src, dst, seqNos, reqs);
    WireReadBack(DataFrames(src, dst, seqNos, reqs));
    AnyCut(pieces);
    ArrivedEach(reqs);
  }

  lemma {:induction false} ArrivedEach(reqs: seq<Request>)
    ensures |Arrived(reqs)| == |reqs| && forall i :: 0 <= i < |reqs| ==> Arrived(reqs)[i] == Some(Prepared(reqs[i]))
  {
    if reqs != [] {
      ArrivedEach(reqs[1..]);
    }
  }

  /** The same frames from a sender that ends its lines with a carriage return as well. */
  function WireWithReturns(frames: seq<Frame>): Octets {
    if frames == [] then [] else Encoded(frames[0]) + CRLF + WireWithReturns(frames[1..])
  }

  lemma ReturnCut(e: Octets, more: Octets)
    requires LF !in e
    ensures LF in e + CRLF + more
    ensures DropCR(FirstLine(e + CRLF + more)) == e && AfterLine(e + CRLF + more) == more
  {
    var line, s := e + [CR], e + CRLF + more;
    assert s == line + ([LF] + more);
    IndexOfAppend(line, LF, [LF] + more);
    assert s[|line|] == LF;
    assert FirstLine(s) == line && line[..|line| - 1] == e;
  }

  /** It makes no difference to the reader. */
  lemma {:induction false} ReturnsIgnored(frames: seq<Frame>)
    requires forall f :: f in frames ==> OneLine(f)
    ensures Lines(WireWithReturns(frames)) == Lines(Wire(frames))
    ensures Remainder(WireWithReturns(frames)) == Remainder(Wire(frames))
  {
    if frames != [] {
      var e := Encoded(frames[0]);
      EncodedIsOneLine(frames[0]);
      EncodedTail(frames[0]);
      ReturnsIgnored(frames[1..]);
      LineCut(e, Wire(frames[1..]));
      ReturnCut(e, WireWithReturns(frames[1..]));
    }
  }
}
