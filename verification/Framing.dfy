/** Newline-delimited TCP frames: a reader that never buffers more than its limit, whatever the chunks. */
module Framing {
  import opened Sequences

  type Byte = b: int | 0 <= b < 256

  const LF: Byte := 10
  const CR: Byte := 13

  /** What one read answers. */
  datatype Frame = Line(bytes: seq<Byte>) | Eof | TooLong

  // ---- one read, on the whole stream --------------------------------------------------------

  /** The position of the first newline; the length if there is none. */
  function FirstLf(s: seq<Byte>): (k: nat)
    ensures k <= |s|
  {
    if s == [] || s[0] == LF then 0 else 1 + FirstLf(s[1..])
  }

  lemma {:induction false} FirstLfIsFirst(s: seq<Byte>)
    ensures var k := FirstLf(s); LF !in s[..k] && (k < |s| ==> s[k] == LF)
  {
    if s != [] && s[0] != LF {
      FirstLfIsFirst(s[1..]);
      var k := FirstLf(s);
      assert s[..k] == [s[0]] + s[1..][..k - 1];
    }
  }

  lemma {:induction false} FirstLfUnique(s: seq<Byte>, k: nat)
    requires k <= |s| && LF !in s[..k] && (k < |s| ==> s[k] == LF)
    ensures FirstLf(s) == k
  {
    if k > 0 {
      assert s[0] in s[..k] && s[1..][..k - 1] == s[..k][1..];
      FirstLfUnique(s[1..], k - 1);
    }
  }

  function StripCr(line: seq<Byte>): seq<Byte> {
    if line != [] && line[|line| - 1] == CR then line[..|line| - 1] else line
  }

  function NextFrame(s: seq<Byte>, max: nat): Frame {
    var k := FirstLf(s);
    if s == [] then Eof
    else if k > max then TooLong
    else if k < |s| then Line(StripCr(s[..k]))
    else Line(s)
  }

  function AfterFrame(s: seq<Byte>): seq<Byte> {
    var k := FirstLf(s);
    if k < |s| then s[k + 1..] else []
  }

  // ---- a whole connection ----------------------------------------------------------------------

  /** The frames delivered, and whether the connection then failed. */
  datatype Session = Session(frames: seq<seq<Byte>>, failed: bool)

  function Frames(s: seq<Byte>, max: nat): Session
    decreases |s|
  {
    match NextFrame(s, max)
    case Eof => Session([], false)
    case TooLong => Session([], true)
    case Line(bytes) =>
      var rest := Frames(AfterFrame(s), max);
      Session([bytes] + rest.frames, rest.failed)
  }

  /** The lines of a stream, and what follows its last newline. */
  function Lines(s: seq<Byte>): seq<seq<Byte>> {
    var pieces := Split(s, LF);
    pieces[..|pieces| - 1]
  }

  function Tail(s: seq<Byte>): seq<Byte> {
    var pieces := Split(s, LF);
    pieces[|pieces| - 1]
  }

  function Stripped(lines: seq<seq<Byte>>): (r: seq<seq<Byte>>)
    ensures |r| == |lines|
  {
    seq(|lines|, i requires 0 <= i < |lines| => StripCr(lines[i]))
  }

  lemma LinesCons(line: seq<Byte>, after: seq<Byte>)
    requires LF !in line
    ensures Lines(line + [LF] + after) == [line] + Lines(after) && Tail(line + [LF] + after) == Tail(after)
  {
    hide Split;
    SplitConcat(line, after, LF);
    SplitFree(line, LF);
  }

  /** Reading one frame takes the first line off, or the tail when there is no line. */
  lemma PeelLine(s: seq<Byte>)
    ensures var k := FirstLf(s);
      if k < |s| then Lines(s) == [s[..k]] + Lines(AfterFrame(s)) && Tail(s) == Tail(AfterFrame(s))
      else Lines(s) == [] && Tail(s) == s
  {
    hide FirstLf, Split, Lines, Tail;
    var k := FirstLf(s);
    FirstLfIsFirst(s);
    if k < |s| {
      CutAt(s, k);
      LinesCons(s[..k], s[k + 1..]);
    } else {
      assert s[..k] == s;
      NoLines(s);
    }
  }

  lemma NoLines(s: seq<Byte>)
    requires LF !in s
    ensures Lines(s) == [] && Tail(s) == s
  {
    hide Split;
    SplitFree(s, LF);
  }

  /** The frame is the line, less one carriage return if it ends in one. */
  predicate IsFrameOf(frame: seq<Byte>, line: seq<Byte>) {
    line == frame + [CR] || (line == frame && (line == [] || line[|line| - 1] != CR))
  }

  lemma StripCrMeans(line: seq<Byte>, frame: seq<Byte>)
    ensures frame == StripCr(line) <==> IsFrameOf(frame, line)
  {
    assert line == frame + [CR] ==> line[|line| - 1] == CR && line[..|line| - 1] == frame;
    assert line != [] && line[|line| - 1] == CR ==> line == line[..|line| - 1] + [CR];
  }

  ghost predicate AllFit(lines: seq<seq<Byte>>, max: nat) {
    forall i | 0 <= i < |lines| :: |lines[i]| <= max
  }

  /** Where a connection stops short: the first line over the limit, or the tail. */
  ghost predicate StopsAt(lines: seq<seq<Byte>>, tail: seq<Byte>, max: nat, k: nat) {
    && k <= |lines|
    && AllFit(lines[..k], max)
    && if k < |lines| then |lines[k]| > max else |tail| > max
  }

  /**
   * The session a stream of these lines and this tail asks for: it fails exactly when a line, its
   * carriage return included, or the tail is over the limit, and then everything before that has
   * been delivered; otherwise every line is delivered without its carriage return, and after them
   * the tail, if any, as it is.
   */
  ghost predicate Answers(lines: seq<seq<Byte>>, tail: seq<Byte>, max: nat, session: Session) {
    && (session.failed <==> !(AllFit(lines, max) && |tail| <= max))
    && (forall i | 0 <= i < |lines| && i < |session.frames| :: IsFrameOf(session.frames[i], lines[i]))
    && (!session.failed ==> session.frames == Stripped(lines) + (if tail == [] then [] else [tail]))
    && (session.failed ==> exists k: nat :: StopsAt(lines, tail, max, k) && session.frames == Stripped(lines[..k]))
  }

  /** Reading to the end is splitting on newlines. */
  lemma {:induction false} FramesAreLines(s: seq<Byte>, max: nat)
    ensures Answers(Lines(s), Tail(s), max, Frames(s, max))
    decreases |s|
  {
    hide FirstLf, Lines, Tail, StripCr, Answers;
    PeelLine(s);
    var k := FirstLf(s);
    if k < |s| && k <= max {
      FramesAreLines(AfterFrame(s), max);
      AnswersCons(s[..k], Lines(AfterFrame(s)), Tail(s), max, Frames(AfterFrame(s), max));
    } else if k > max {
      AnswersTooLong(Lines(s), Tail(s), max);
    } else {
      AnswersTail(s, max);
      assert AfterFrame(s) == [];
      assert Frames([], max) == Session([], false);
      assert [s] + [] == [s];
      assert Frames(s, max) == Session(if s == [] then [] else [s], false);
    }
  }

  lemma AnswersCons(line: seq<Byte>, lines: seq<seq<Byte>>, tail: seq<Byte>, max: nat, session: Session)
    requires Answers(lines, tail, max, session) && |line| <= max
    ensures Answers([line] + lines, tail, max, Session([StripCr(line)] + session.frames, session.failed))
  {
    hide StripCr, IsFrameOf;
    StripCrMeans(line, StripCr(line));
    var frames := [StripCr(line)] + session.frames;
    forall i | 0 <= i < |lines| + 1 && i < |frames|
      ensures IsFrameOf(frames[i], ([line] + lines)[i])
    {
      if i > 0 {
        assert frames[i] == session.frames[i - 1] && ([line] + lines)[i] == lines[i - 1];
      }
    }
    FitCons(line, lines, max);
    StrippedCons(line, lines);
    if session.failed {
      var j: nat :| StopsAt(lines, tail, max, j) && session.frames == Stripped(lines[..j]);
      assert ([line] + lines)[..j + 1] == [line] + lines[..j];
      FitCons(line, lines[..j], max);
      StrippedCons(line, lines[..j]);
      assert StopsAt([line] + lines, tail, max, j + 1);
    }
  }

  lemma AnswersTooLong(lines: seq<seq<Byte>>, tail: seq<Byte>, max: nat)
    requires if lines != [] then |lines[0]| > max else |tail| > max
    ensures Answers(lines, tail, max, Session([], true))
  {
    assert StopsAt(lines, tail, max, 0) && Stripped(lines[..0]) == [];
  }

  lemma AnswersTail(tail: seq<Byte>, max: nat)
    requires |tail| <= max
    ensures Answers([], tail, max, Session(if tail == [] then [] else [tail], false))
  {
    assert Stripped([]) == [];
  }

  lemma FitCons(line: seq<Byte>, lines: seq<seq<Byte>>, max: nat)
    ensures AllFit([line] + lines, max) <==> |line| <= max && AllFit(lines, max)
  {
    var whole := [line] + lines;
    if AllFit(whole, max) {
      assert |whole[0]| <= max;
      forall i | 0 <= i < |lines|
        ensures |lines[i]| <= max
      {
        assert whole[i + 1] == lines[i];
      }
    }
  }

  lemma StrippedCons(line: seq<Byte>, lines: seq<seq<Byte>>)
    ensures Stripped([line] + lines) == [StripCr(line)] + Stripped(lines)
  {
  }

  /** The stream ends where its tail ends, or in a newline. */
  lemma {:induction false} LastByte(s: seq<Byte>)
    requires s != []
    ensures Tail(s) == [] ==> s[|s| - 1] == LF
    ensures Tail(s) != [] ==> Tail(s)[|Tail(s)| - 1] == s[|s| - 1]
    decreases |s|
  {
    hide FirstLf, Tail, Lines;
    PeelLine(s);
    FirstLfIsFirst(s);
    var after := AfterFrame(s);
    if FirstLf(s) < |s| {
      if after == [] {
        PeelLine(after);
      } else {
        LastByte(after);
      }
    }
  }

  /** Every frame comes without its carriage return exactly when the stream does not end in one. */
  lemma EveryFrameStrippedIff(s: seq<Byte>, max: nat)
    requires !Frames(s, max).failed
    ensures Frames(s, max).frames == Stripped(Lines(s) + (if Tail(s) == [] then [] else [Tail(s)])) <==>
        s == [] || s[|s| - 1] != CR
  {
    hide Frames, Lines, Tail;
    FramesAreLines(s, max);
    if s == [] {
      PeelLine(s);
    } else {
      LastByte(s);
    }
    if Tail(s) != [] {
      StrippedLast(Lines(s), Tail(s));
    } else {
      assert Lines(s) + [] == Lines(s);
    }
  }

  lemma StrippedLast(lines: seq<seq<Byte>>, tail: seq<Byte>)
    requires tail != []
    ensures Stripped(lines + [tail]) == Stripped(lines) + [StripCr(tail)]
    ensures Stripped(lines) + [tail] == Stripped(lines) + [StripCr(tail)] <==> tail[|tail| - 1] != CR
  {
    assert (Stripped(lines) + [tail])[|lines|] == tail;
    assert (Stripped(lines) + [StripCr(tail)])[|lines|] == StripCr(tail);
  }

  /** The bytes `a`, carriage return, newline, `b`, carriage return: the unterminated tail keeps its carriage return. */
  lemma TailKeepsCr()
    ensures Frames([97, 13, 10, 98, 13], 2) == Session([[97], [98, 13]], false)
  {
    var tail: seq<Byte> := [98, 13];
    var s: seq<Byte> := [97, 13, 10, 98, 13];
    FirstLfUnique(s, 2);
    assert AfterFrame(s) == tail && NextFrame(s, 2) == Line([97]);
    FirstLfUnique(tail, 2);
    FirstLfUnique([], 0);
    assert AfterFrame(tail) == [] && NextFrame(tail, 2) == Line(tail);
    assert Frames([], 2) == Session([], false);
    assert Frames(tail, 2) == Session([tail], false);
  }

  // ---- what `write_line` puts on the wire --------------------------------------------------------

  function Written(lines: seq<seq<Byte>>): seq<Byte> {
    if lines == [] then [] else lines[0] + [LF] + Written(lines[1..])
  }

  lemma {:induction false} WrittenLines(lines: seq<seq<Byte>>)
    requires forall line | line in lines :: LF !in line
    ensures Lines(Written(lines)) == lines && Tail(Written(lines)) == []
  {
    if lines == [] {
      PeelLine([]);
    } else {
      WrittenLines(lines[1..]);
      WrittenFirst(lines);
      PeelLine(Written(lines));
      assert lines == [lines[0]] + lines[1..];
    }
  }

  lemma WrittenFirst(lines: seq<seq<Byte>>)
    requires lines != [] && LF !in lines[0]
    ensures var s := Written(lines);
      && FirstLf(s) == |lines[0]| < |s|
      && s[..|lines[0]|] == lines[0]
      && AfterFrame(s) == Written(lines[1..])
  {
    hide FirstLf;
    var line, rest := lines[0], Written(lines[1..]);
    var s := line + [LF] + rest;
    assert s[..|line|] == line && s[|line|] == LF && s[|line| + 1..] == rest;
    FirstLfUnique(s, |line|);
  }

  /**
   * Lines that were written come back, one frame each, exactly when none of them holds a newline,
   * ends in a carriage return or is over the limit.
   */
  lemma WrittenReadsBackIff(lines: seq<seq<Byte>>, max: nat)
    ensures Frames(Written(lines), max) == Session(lines, false) <==>
        forall i | 0 <= i < |lines| :: LF !in lines[i] && StripCr(lines[i]) == lines[i] && |lines[i]| <= max
  {
    hide StripCr, Split, Frames;
    var s := Written(lines);
    hide Written;
    FramesAreLines(s, max);
    if Frames(s, max) == Session(lines, false) {
      FramesHaveNoLf(s, max);
      WrittenLines(lines);
      assert Frames(s, max).frames == Stripped(Lines(s)) + [];
      assert forall i | 0 <= i < |lines| :: lines[i] == Stripped(lines)[i];
    }
    if forall i | 0 <= i < |lines| :: LF !in lines[i] && StripCr(lines[i]) == lines[i] && |lines[i]| <= max {
      WrittenLines(lines);
      assert Stripped(lines) == lines;
      assert lines + [] == lines;
    }
  }

  lemma FramesHaveNoLf(s: seq<Byte>, max: nat)
    requires !Frames(s, max).failed
    ensures forall i | 0 <= i < |Frames(s, max).frames| :: LF !in Frames(s, max).frames[i]
  {
    hide Frames, Split;
    FramesAreLines(s, max);
    SplitPieces(s, LF);
  }

  // ---- the reader ------------------------------------------------------------------------------------

  ghost function Flatten(chunks: seq<seq<Byte>>): seq<Byte> {
    if chunks == [] then [] else chunks[0] + Flatten(chunks[1..])
  }

  /** Drains a prefix that holds no newline. */
  lemma {:induction false} SkipPrefix(buf: seq<Byte>, rest: seq<Byte>)
    requires LF !in buf
    ensures FirstLf(buf + rest) == |buf| + FirstLf(rest)
  {
    if buf == [] {
      assert buf + rest == rest;
    } else {
      SkipPrefix(buf[1..], rest);
      assert (buf + rest)[1..] == buf[1..] + rest;
    }
  }

  /** The line ends in the bytes at hand. */
  lemma LineFound(buf: seq<Byte>, available: seq<Byte>, rest: seq<Byte>, pos: nat, max: nat)
    requires LF !in buf && FirstLf(available) == pos < |available| && available <= rest
    ensures NextFrame(buf + rest, max) == if |buf| + pos > max then TooLong else Line(StripCr(buf + available[..pos]))
    ensures AfterFrame(buf + rest) == rest[pos + 1..]
  {
    hide FirstLf, StripCr, NextFrame, AfterFrame;
    PrefixLf(available, rest, pos);
    SkipPrefix(buf, rest);
    CutShift(buf, rest, pos);
    NextAt(buf + rest, |buf| + pos, max);
  }

  lemma PrefixLf(available: seq<Byte>, rest: seq<Byte>, pos: nat)
    requires FirstLf(available) == pos < |available| && available <= rest
    ensures FirstLf(rest) == pos && rest[..pos] == available[..pos]
  {
    hide FirstLf;
    FirstLfIsFirst(available);
    FirstLfUnique(rest, pos);
  }

  lemma Absorb(buf: seq<Byte>, available: seq<Byte>, later: seq<Byte>)
    requires LF !in buf && FirstLf(available) == |available|
    ensures LF !in buf + available
    ensures buf + (available + later) == (buf + available) + later
  {
    hide FirstLf;
    FirstLfIsFirst(available);
    WholePrefix(available);
  }

  lemma WholePrefix(s: seq<Byte>)
    ensures s[..|s|] == s
  {
  }

  lemma CutShift(buf: seq<Byte>, rest: seq<Byte>, pos: nat)
    requires pos < |rest|
    ensures (buf + rest)[..|buf| + pos] == buf + rest[..pos]
    ensures (buf + rest)[|buf| + pos + 1..] == rest[pos + 1..]
  {
  }

  lemma NextAt(s: seq<Byte>, k: nat, max: nat)
    requires FirstLf(s) == k < |s|
    ensures NextFrame(s, max) == if k > max then TooLong else Line(StripCr(s[..k]))
    ensures AfterFrame(s) == s[k + 1..]
  {
  }

  /** The line does not end in the bytes at hand, and is already over the limit. */
  lemma LineTooLong(buf: seq<Byte>, available: seq<Byte>, later: seq<Byte>, max: nat)
    requires LF !in buf + available && |buf| + |available| > max
    ensures NextFrame(buf + (available + later), max) == TooLong
  {
    hide FirstLf, StripCr;
    assert buf + (available + later) == (buf + available) + later;
    SkipPrefix(buf + available, later);
  }

  lemma TailFound(buf: seq<Byte>, max: nat)
    requires LF !in buf && |buf| <= max
    ensures NextFrame(buf, max) == (if buf == [] then Eof else Line(buf)) && AfterFrame(buf) == []
  {
    hide FirstLf;
    assert buf[..|buf|] == buf;
    FirstLfUnique(buf, |buf|);
  }

  lemma FramesStep(s: seq<Byte>, max: nat)
    ensures var frame, all := NextFrame(s, max), Frames(s, max);
      && (frame.Line? ==>
            && |AfterFrame(s)| < |s|
            && all == Session([frame.bytes] + Frames(AfterFrame(s), max).frames, Frames(AfterFrame(s), max).failed))
      && (!frame.Line? ==> all == Session([], frame.TooLong?))
  {
  }

  /** A buffered reader: the chunks still to come, the first of them partly consumed. */
  class Reader {
    var pending: seq<seq<Byte>>

    ghost predicate Valid()
      reads this
    {
      forall i | 0 <= i < |pending| :: pending[i] != []
    }

    ghost function Stream(): seq<Byte>
      reads this
    {
      Flatten(pending)
    }

    constructor (chunks: seq<seq<Byte>>)
      requires forall i | 0 <= i < |chunks| :: chunks[i] != []
      ensures Valid() && Stream() == Flatten(chunks)
    {
      pending := chunks;
    }

    /** `fill_buf`: the bytes at hand; none only at the end of the stream. */
    method FillBuf() returns (available: seq<Byte>)
      requires Valid()
      ensures available == if pending == [] then [] else pending[0]
      ensures available == [] <==> Stream() == []
      ensures available <= Stream()
    {
      return if pending == [] then [] else pending[0];
    }

    method Consume(n: nat)
      requires Valid() && pending != [] && n <= |pending[0]|
      modifies this
      ensures Valid() && Stream() == old(Stream())[n..]
      ensures |pending| <= old(|pending|)
      ensures n == old(|pending[0]|) ==> |pending| < old(|pending|)
    {
      var first, others := pending[0], pending[1..];
      assert Stream() == first + Flatten(others);
      assert (first + Flatten(others))[n..] == first[n..] + Flatten(others);
      pending := if n == |first| then others else [first[n..]] + others;
      assert n < |first| ==> pending[1..] == others;
    }

    /** Reads one frame; `peak` is the most the buffer ever held. */
    method ReadCappedLine(max: nat) returns (frame: Frame, ghost peak: nat)
      requires Valid()
      modifies this
      ensures Valid()
      ensures frame == NextFrame(old(Stream()), max)
      ensures frame.Line? ==> Stream() == AfterFrame(old(Stream()))
      ensures frame.Eof? ==> Stream() == []
      ensures peak <= max
    {
      hide FirstLf, Flatten, NextFrame, AfterFrame, StripCr;
      var buf: seq<Byte> := [];
      peak := 0;
      ghost var s := Stream();
      assert s == buf + Stream();
      while true
        invariant Valid()
        invariant s == buf + Stream()
        invariant LF !in buf && |buf| <= max
        invariant peak <= max
        decreases |pending|
      {
        var available := FillBuf();
        if available == [] {
          assert s == buf;
          TailFound(buf, max);
          return (if buf == [] then Eof else Line(buf)), peak;
        }
        ghost var later := Stream()[|available|..];
        assert Stream() == available + later;
        var pos := FirstLf(available);
        if pos < |available| {
          LineFound(buf, available, Stream(), pos, max);
          Consume(pos + 1);
          if |buf| + pos > max {
            return TooLong, peak;
          }
          buf := buf + available[..pos];
          peak := if |buf| > peak then |buf| else peak;
          return Line(StripCr(buf)), peak;
        }
        Absorb(buf, available, later);
        Consume(|available|);
        if |buf| + |available| > max {
          LineTooLong(buf, available, later, max);
          return TooLong, peak;
        }
        buf := buf + available;
        peak := if |buf| > peak then |buf| else peak;
      }
    }

    /** Reads frames until the end or the first error, as a connection does. */
    method ReadAll(max: nat) returns (frames: seq<seq<Byte>>, failed: bool)
      requires Valid()
      modifies this
      ensures Session(frames, failed) == Frames(old(Stream()), max)
    {
      hide FirstLf, Flatten, NextFrame, AfterFrame;
      frames, failed := [], false;
      ghost var s := Stream();
      assert frames + Frames(s, max).frames == Frames(s, max).frames;
      while true
        invariant Valid()
        invariant Frames(s, max) ==
            Session(frames + Frames(Stream(), max).frames, Frames(Stream(), max).failed)
        decreases |Stream()|
      {
        ghost var rest := Stream();
        var frame, _ := ReadCappedLine(max);
        FramesStep(rest, max);
        if frame.Line? {
          frames := frames + [frame.bytes];
        } else {
          return frames, frame.TooLong?;
        }
      }
    }
  }
}
