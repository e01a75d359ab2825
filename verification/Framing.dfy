/**
 Newline-delimited framing of the local IPC, one bounded UTF-8 line a frame. The decoder sees
 the bytes in whatever chunks they arrive; what it delivers is proved to depend on the bytes alone.
 Validity as UTF-8 is a parameter, of which nothing is assumed.
 */
module Framing {
  import opened Wrappers

  const MAX_IPC_FRAME_LENGTH: nat := 1024 * 1024
  const LF: byte := 10
  const CR: byte := 13

  datatype CodecError = FrameTooLarge | EmbeddedDelimiter | InvalidUtf8 | UnterminatedFrame | Poisoned

  datatype Decoding = Frame(line: Bytes) | NeedMore | Failed(error: CodecError)

  /** The codec's cursors: where its line splitter resumes, and up to where it has looked for CR. */
  datatype Codec = Codec(nextIndex: nat, checkedUntil: nat, poisoned: bool)

  const NEW_CODEC := Codec(0, 0, false)

  function IndexOf(s: Bytes, b: byte, from: nat, to: nat): (r: Option<nat>)
    requires from <= to <= |s|
    ensures r.Some? ==> from <= r.value < to && s[r.value] == b && b !in s[from..r.value]
    ensures r.None? ==> b !in s[from..to]
    decreases |s| - from
  {
    if from == to then None
    else if s[from] == b then Some(from)
    else
      var rest := IndexOf(s, b, from + 1, to);
      assert forall k: nat | from < k <= to :: s[from..k] == [s[from]] + s[from + 1..k];
      rest
  }

  function Min(a: nat, b: nat): nat {
    if a < b then a else b
  }

  function WithoutCarriageReturn(line: Bytes): Bytes {
    if line != [] && line[|line| - 1] == CR then line[..|line| - 1] else line
  }

  /** The contract of `LinesCodec::decode` for a codec that is not discarding. */
  function LineDecoded(nextIndex: nat, source: Bytes, utf8: Bytes -> bool): (nat, Bytes, Decoding)
    requires nextIndex <= Min(MAX_IPC_FRAME_LENGTH + 1, |source|)
  {
    var readTo := Min(MAX_IPC_FRAME_LENGTH + 1, |source|);
    var newline := IndexOf(source, LF, nextIndex, readTo);
    if newline.Some? then
      var line, rest := WithoutCarriageReturn(source[..newline.value]), source[newline.value + 1..];
      (0, rest, if utf8(line) then Frame(line) else Failed(InvalidUtf8))
    else if |source| > MAX_IPC_FRAME_LENGTH then (nextIndex, source, Failed(FrameTooLarge))
    else (readTo, source, NeedMore)
  }

  function FrameEnd(source: Bytes, from: nat): (end: nat)
    requires from <= |source|
    ensures from <= end <= |source|
  {
    var newline := IndexOf(source, LF, from, |source|);
    if newline.Some? then newline.value + 1 else |source|
  }

  /** Between calls an unpoisoned codec has looked at exactly the start of an unfinished, clean line. */
  ghost predicate Ready(c: Codec, source: Bytes) {
    !c.poisoned ==>
      && c.checkedUntil == c.nextIndex <= Min(MAX_IPC_FRAME_LENGTH, |source|)
      && LF !in source[..c.nextIndex] && CR !in source[..c.nextIndex]
  }

  /** `decode`. */
  function Decoded(c: Codec, source: Bytes, utf8: Bytes -> bool): (Codec, Bytes, Decoding)
    requires Ready(c, source)
  {
    if c.poisoned then (c, source, Failed(Poisoned)) else
    var from := Min(c.checkedUntil, |source|);
    var end := FrameEnd(source, from);
    if CR in source[from..end] then (c.(poisoned := true), source, Failed(EmbeddedDelimiter)) else
    var (next, rest, decoding) := LineDecoded(c.nextIndex, source, utf8);
    match decoding
    case Frame(_) => (Codec(next, 0, false), rest, decoding)
    case NeedMore => (Codec(next, end, false), rest, decoding)
    case Failed(_) => (Codec(next, end, true), rest, decoding)
  }

  class BytesMut {
    var bytes: Bytes

    constructor ()
      ensures bytes == []
    {
      bytes := [];
    }
  }

  class BoundedNdjsonCodec {
    const utf8: Bytes -> bool
    var nextIndex: nat
    var checkedUntil: nat
    var poisoned: bool

    constructor (utf8: Bytes -> bool)
      ensures View() == NEW_CODEC && this.utf8 == utf8
    {
      this.utf8 := utf8;
      nextIndex, checkedUntil, poisoned := 0, 0, false;
    }

    ghost function View(): Codec
      reads this
    {
      Codec(nextIndex, checkedUntil, poisoned)
    }

    method DecodeLine(source: BytesMut) returns (decoding: Decoding)
      requires nextIndex <= Min(MAX_IPC_FRAME_LENGTH + 1, |source.bytes|)
      modifies this`nextIndex, source
      ensures (nextIndex, source.bytes, decoding) == LineDecoded(old(nextIndex), old(source.bytes), utf8)
    {
      var readTo := Min(MAX_IPC_FRAME_LENGTH + 1, |source.bytes|);
      var newline := IndexOf(source.bytes, LF, nextIndex, readTo);
      if newline.Some? {
        var line := WithoutCarriageReturn(source.bytes[..newline.value]);
        nextIndex := 0;
        source.bytes := source.bytes[newline.value + 1..];
        return if utf8(line) then Frame(line) else Failed(InvalidUtf8);
      }
      if |source.bytes| > MAX_IPC_FRAME_LENGTH {
        return Failed(FrameTooLarge);
      }
      nextIndex := readTo;
      return NeedMore;
    }

    method Decode(source: BytesMut) returns (decoding: Decoding)
      requires Ready(View(), source.bytes)
      modifies this, source
      ensures (View(), source.bytes, decoding) == Decoded(old(View()), old(source.bytes), utf8)
      ensures Ready(View(), source.bytes)
    {
      DecodingIsExact(View(), source.bytes, utf8);
      if poisoned {
        return Failed(Poisoned);
      }
      var from := Min(checkedUntil, |source.bytes|);
      var end := FrameEnd(source.bytes, from);
      if CR in source.bytes[from..end] {
        poisoned := true;
        return Failed(EmbeddedDelimiter);
      }
      checkedUntil := end;
      decoding := DecodeLine(source);
      if decoding.Frame? {
        checkedUntil := 0;
      } else if decoding.Failed? {
        poisoned := true;
      }
    }

    method DecodeEof(source: BytesMut) returns (decoding: Decoding)
      requires Ready(View(), source.bytes)
      modifies this, source
      ensures (View(), source.bytes, decoding) == DecodedEof(old(View()), old(source.bytes), utf8)
    {
      decoding := Decode(source);
      if decoding.NeedMore? && source.bytes != [] {
        poisoned := true;
        return Failed(UnterminatedFrame);
      }
    }

    method Encode(frame: Bytes, destination: BytesMut) returns (error: Option<CodecError>)
      modifies this`poisoned, destination
      ensures !old(poisoned) && IsFrame(frame) ==>
        error.None? && destination.bytes == old(destination.bytes) + frame + [LF] && !poisoned
      ensures old(poisoned) || !IsFrame(frame) ==>
        error.Some? && destination.bytes == old(destination.bytes) && poisoned
      ensures error == if old(poisoned) then Some(Poisoned)
                       else if IsFrame(frame) then None
                       else Some(if |frame| > MAX_IPC_FRAME_LENGTH then FrameTooLarge else EmbeddedDelimiter)
    {
      if poisoned {
        return Some(Poisoned);
      }
      if |frame| > MAX_IPC_FRAME_LENGTH {
        poisoned := true;
        return Some(FrameTooLarge);
      }
      if CR in frame || LF in frame {
        poisoned := true;
        return Some(EmbeddedDelimiter);
      }
      destination.bytes := destination.bytes + frame + [LF];
      return None;
    }
  }

  /** `decode_eof`. */
  function DecodedEof(c: Codec, source: Bytes, utf8: Bytes -> bool): (Codec, Bytes, Decoding)
    requires Ready(c, source)
  {
    var (next, rest, decoding) := Decoded(c, source, utf8);
    if decoding.NeedMore? && rest != [] then (next.(poisoned := true), rest, Failed(UnterminatedFrame))
    else (next, rest, decoding)
  }

  // ---------------------------------------------------------------- what the bytes mean

  /** A frame is at most one mebibyte long and has no delimiter inside. */
  predicate IsFrame(line: Bytes) {
    |line| <= 1_048_576 && CR !in line && LF !in line
  }

  /** The good lines before the first bad or unfinished one. */
  function Frames(bytes: Bytes, utf8: Bytes -> bool): seq<Bytes>
    decreases |bytes|
  {
    var newline := IndexOf(bytes, LF, 0, |bytes|);
    if newline.None? then []
    else
      var line := bytes[..newline.value];
      if IsFrame(line) && utf8(line) then [line] + Frames(bytes[newline.value + 1..], utf8) else []
  }

  /** Nothing but good lines. */
  predicate IsClean(bytes: Bytes, utf8: Bytes -> bool)
    decreases |bytes|
  {
    bytes == [] ||
    var newline := IndexOf(bytes, LF, 0, |bytes|);
    newline.Some?
    && IsFrame(bytes[..newline.value]) && utf8(bytes[..newline.value])
    && IsClean(bytes[newline.value + 1..], utf8)
  }

  /** Whatever follows, the first line is bad. */
  ghost predicate Doomed(bytes: Bytes, utf8: Bytes -> bool) {
    forall more: Bytes :: Frames(bytes + more, utf8) == [] && !IsClean(bytes + more, utf8)
  }

  lemma {:induction false} IndexIs(s: Bytes, b: byte, from: nat, to: nat, i: nat)
    requires from <= i < to <= |s| && s[i] == b && forall j | from <= j < i :: s[j] != b
    ensures IndexOf(s, b, from, to) == Some(i)
    decreases i - from
  {
    if from < i {
      IndexIs(s, b, from + 1, to, i);
    }
  }

  lemma {:induction false} IndexIsNone(s: Bytes, b: byte, from: nat, to: nat)
    requires from <= to <= |s| && forall j | from <= j < to :: s[j] != b
    ensures IndexOf(s, b, from, to) == None
    decreases |s| - from
  {
    if from < to {
      IndexIsNone(s, b, from + 1, to);
    }
  }

  lemma FirstLine(line: Bytes, rest: Bytes)
    requires LF !in line
    ensures var bytes := line + [LF] + rest;
            && IndexOf(bytes, LF, 0, |bytes|) == Some(|line|)
            && bytes[..|line|] == line && bytes[|line| + 1..] == rest
  {
    var bytes := line + [LF] + rest;
    assert forall j | 0 <= j < |line| :: bytes[j] == line[j];
    IndexIs(bytes, LF, 0, |bytes|, |line|);
  }

  lemma GoodLineFirst(line: Bytes, rest: Bytes, utf8: Bytes -> bool)
    requires IsFrame(line) && utf8(line)
    ensures Frames(line + [LF] + rest, utf8) == [line] + Frames(rest, utf8)
    ensures IsClean(line + [LF] + rest, utf8) <==> IsClean(rest, utf8)
  {
    FirstLine(line, rest);
  }

  /** A line that has gone bad before its end stays bad. */
  lemma BadStartIsDoomed(bytes: Bytes, bad: nat, utf8: Bytes -> bool)
    requires bad <= |bytes| && LF !in bytes[..bad]
    requires bad > MAX_IPC_FRAME_LENGTH || CR in bytes[..bad]
    ensures Doomed(bytes, utf8)
  {
    forall more: Bytes ensures Frames(bytes + more, utf8) == [] && !IsClean(bytes + more, utf8) {
      var all := bytes + more;
      var found := IndexOf(all, LF, 0, |all|);
      assert forall j | 0 <= j < bad :: all[j] == bytes[..bad][j];
      if found.Some? {
        if CR in bytes[..bad] {
          var i :| 0 <= i < bad && bytes[..bad][i] == CR;
          assert all[..found.value][i] == CR;
        }
      }
    }
  }

  lemma InvalidLineIsDoomed(line: Bytes, rest: Bytes, utf8: Bytes -> bool)
    requires LF !in line && !utf8(line)
    ensures Doomed(line + [LF] + rest, utf8)
  {
    forall more: Bytes
      ensures Frames(line + [LF] + rest + more, utf8) == [] && !IsClean(line + [LF] + rest + more, utf8)
    {
      assert line + [LF] + rest + more == line + [LF] + (rest + more);
      FirstLine(line, rest + more);
    }
  }

  /**
   One call is exact: it delivers a good first line, or waits for the end of a line that is still
   good, or fails and is poisoned because the first line is bad whatever follows.
   */
  lemma DecodingIsExact(c: Codec, source: Bytes, utf8: Bytes -> bool)
    requires Ready(c, source)
    ensures var (next, rest, decoding) := Decoded(c, source, utf8);
            && Ready(next, rest)
            && (c.poisoned ==> decoding == Failed(Poisoned) && next == c && rest == source)
            && (!c.poisoned ==> match decoding
                  case Frame(line) => source == line + [LF] + rest && IsFrame(line) && utf8(line) && !next.poisoned
                  case NeedMore => rest == source && LF !in source && !next.poisoned
                  case Failed(_) => next.poisoned && Doomed(source, utf8))
  {
    if !c.poisoned {
      var from := c.checkedUntil;
      var end := FrameEnd(source, from);
      var newline := IndexOf(source, LF, from, |source|);
      var before := if newline.Some? then newline.value else |source|;
      assert source[..before] == source[..from] + source[from..before];
      if CR in source[from..end] {
        CarriageReturnIsDoom(source, from, before, end, utf8);
      } else {
        assert CR !in source[..before] by {
          assert forall i | from <= i < before :: source[from..end][i - from] == source[i];
        }
        DecodingALine(c, source, before, utf8);
      }
    }
  }

  lemma CarriageReturnIsDoom(source: Bytes, from: nat, before: nat, end: nat, utf8: Bytes -> bool)
    requires from <= before <= end <= |source| && end <= before + 1
    requires LF !in source[..before] && (end > before ==> source[before] == LF)
    requires CR in source[from..end]
    ensures Doomed(source, utf8)
  {
    var i :| 0 <= i < end - from && source[from..end][i] == CR;
    assert source[from + i] == CR;
    assert source[..before][from + i] == CR;
    BadStartIsDoomed(source, before, utf8);
  }

  lemma DecodingALine(c: Codec, source: Bytes, before: nat, utf8: Bytes -> bool)
    requires Ready(c, source) && !c.poisoned && c.nextIndex <= before <= |source|
    requires LF !in source[..before] && CR !in source[..before]
    requires before < |source| ==> source[before] == LF
    ensures var (next, rest, decoding) := LineDecoded(c.nextIndex, source, utf8);
            match decoding
            case Frame(line) => source == line + [LF] + rest && IsFrame(line) && utf8(line) && next == 0
            case NeedMore => rest == source && LF !in source && CR !in source
                && next == |source| <= MAX_IPC_FRAME_LENGTH
            case Failed(_) => Doomed(source, utf8)
  {
    var readTo := Min(MAX_IPC_FRAME_LENGTH + 1, |source|);
    assert forall j | 0 <= j < before :: source[j] == source[..before][j];
    if before < readTo {
      IndexIs(source, LF, c.nextIndex, readTo, before);
      var line := source[..before];
      assert source == line + [LF] + source[before + 1..];
      assert WithoutCarriageReturn(line) == line;
      if !utf8(line) {
        InvalidLineIsDoomed(line, source[before + 1..], utf8);
      }
    } else {
      IndexIsNone(source, LF, c.nextIndex, readTo);
      if |source| > MAX_IPC_FRAME_LENGTH {
        BadStartIsDoomed(source, before, utf8);
      } else {
        assert source[..before] == source;
      }
    }
  }

  /** The bytes up to the first delimiter, finished or not. */
  function FirstLineOf(source: Bytes): Bytes {
    var newline := IndexOf(source, LF, 0, |source|);
    if newline.Some? then source[..newline.value] else source
  }

  /** What is wrong with the first line, if anything: a CR, its length, or what it says. */
  function Fault(source: Bytes, utf8: Bytes -> bool): Option<CodecError> {
    var line := FirstLineOf(source);
    if CR in line then Some(EmbeddedDelimiter)
    else if |line| > 1_048_576 then Some(FrameTooLarge)
    else if LF in source && !utf8(line) then Some(InvalidUtf8)
    else None
  }

  lemma FirstLineEnds(source: Bytes, from: nat)
    requires from <= |source| && LF !in source[..from]
    ensures |FirstLineOf(source)| >= from && |FirstLineOf(source)| <= FrameEnd(source, from) <= |FirstLineOf(source)|
            + 1
    ensures |FirstLineOf(source)| < |source| ==> source[|FirstLineOf(source)|] == LF
    ensures FirstLineOf(source) == source[..|FirstLineOf(source)|] && LF !in FirstLineOf(source)
    ensures |FirstLineOf(source)| == |source| <==> LF !in source
  {
    var newline := IndexOf(source, LF, from, |source|);
    var before := if newline.Some? then newline.value else |source|;
    assert source[..before] == source[..from] + source[from..before];
    assert forall j | 0 <= j < before :: source[j] == source[..before][j];
    if newline.Some? {
      IndexIs(source, LF, 0, |source|, before);
    } else {
      assert source[..before] == source;
      IndexIsNone(source, LF, 0, |source|);
    }
  }

  /**
   A call on a good codec fails exactly if the first line has a fault, finished or not, and says
   which; wherever the earlier calls have left the cursors makes no difference.
   */
  lemma FailuresAreExact(c: Codec, source: Bytes, utf8: Bytes -> bool)
    requires Ready(c, source) && !c.poisoned
    ensures var decoding := Decoded(c, source, utf8).2;
            && (decoding.Failed? <==> Fault(source, utf8).Some?)
            && (decoding.Failed? ==> decoding.error == Fault(source, utf8).value)
  {
    var from := c.checkedUntil;
    var end := FrameEnd(source, from);
    FirstLineEnds(source, from);
    hide FirstLineOf;
    hide FrameEnd;
    var line := FirstLineOf(source);
    var before := |line|;
    CarriageReturnsAreFound(source, from, before, end);
    if CR !in line {
      var readTo := Min(MAX_IPC_FRAME_LENGTH + 1, |source|);
      assert forall j | 0 <= j < before :: source[j] == line[j];
      if before < readTo {
        IndexIs(source, LF, c.nextIndex, readTo, before);
        assert WithoutCarriageReturn(line) == line;
      } else {
        IndexIsNone(source, LF, c.nextIndex, readTo);
      }
    }
  }

  /** At the end of the stream a line without a fault that nothing has ended is one more failure. */
  lemma EndsAreExact(c: Codec, source: Bytes, utf8: Bytes -> bool)
    requires Ready(c, source) && !c.poisoned
    ensures var decoding := DecodedEof(c, source, utf8).2;
            decoding == match Fault(source, utf8)
                        case Some(error) => Failed(error)
                        case None => if source == [] then NeedMore
                                     else if LF !in source then Failed(UnterminatedFrame)
                                     else Frame(FirstLineOf(source))
  {
    FailuresAreExact(c, source, utf8);
    DecodingIsExact(c, source, utf8);
    FirstLineEnds(source, 0);
    var (next, rest, decoding) := Decoded(c, source, utf8);
    if decoding.Frame? {
      FirstLine(decoding.line, rest);
      assert source[|decoding.line|] == LF && source[..|decoding.line|] == decoding.line;
    }
  }

  lemma CarriageReturnsAreFound(source: Bytes, from: nat, before: nat, end: nat)
    requires from <= before <= end <= |source| && end <= before + 1
    requires CR !in source[..from] && (end > before ==> source[before] == LF)
    ensures CR in source[from..end] <==> CR in source[..before]
  {
    if CR in source[from..end] {
      var i :| 0 <= i < end - from && source[from..end][i] == CR;
      assert source[from + i] == CR;
      assert source[..before][from + i] == CR;
    }
    if CR in source[..before] {
      assert source[..before] == source[..from] + source[from..before];
      var i :| 0 <= i < before - from && source[from..before][i] == CR;
      assert source[from..end][i] == CR;
    }
  }

  // ---------------------------------------------------------------- reading a stream

  /** Decoding until the codec waits or fails: the frames delivered, and the codec and buffer after them. */
  function DecodedAll(c: Codec, source: Bytes, utf8: Bytes -> bool): (seq<Bytes>, Codec, Bytes)
    requires Ready(c, source)
    decreases |source|
  {
    DecodingIsExact(c, source, utf8);
    var (next, rest, decoding) := Decoded(c, source, utf8);
    if decoding.Frame? then
      var (more, end, left) := DecodedAll(next, rest, utf8);
      ([decoding.line] + more, end, left)
    else ([], next, rest)
  }

  /**
   Reading chunk by chunk until the stream ends or the codec fails: the frames delivered, and
   whether it ended clean.
   */
  function Received(c: Codec, source: Bytes, chunks: seq<Bytes>, utf8: Bytes -> bool): (seq<Bytes>, bool)
    requires Ready(c, source)
    decreases |chunks|
  {
    AllDecodedIsReady(c, source, utf8);
    var (frames, next, rest) := DecodedAll(c, source, utf8);
    if next.poisoned then (frames, false)
    else if chunks == [] then (frames, DecodedEof(next, rest, utf8).2.NeedMore?)
    else
      ReadyForMore(next, rest, chunks[0]);
      var (more, clean) := Received(next, rest + chunks[0], chunks[1..], utf8);
      (frames + more, clean)
  }

  function Concat(chunks: seq<Bytes>): Bytes {
    if chunks == [] then [] else chunks[0] + Concat(chunks[1..])
  }

  lemma ReadyForMore(c: Codec, source: Bytes, more: Bytes)
    requires Ready(c, source)
    ensures Ready(c, source + more)
  {
    if !c.poisoned {
      assert (source + more)[..c.nextIndex] == source[..c.nextIndex];
    }
  }

  lemma {:induction false} AllDecodedIsReady(c: Codec, source: Bytes, utf8: Bytes -> bool)
    requires Ready(c, source)
    ensures var (_, next, rest) := DecodedAll(c, source, utf8);
            Ready(next, rest) && (!c.poisoned && !next.poisoned ==> LF !in rest)
    decreases |source|
  {
    DecodingIsExact(c, source, utf8);
    var (next, rest, decoding) := Decoded(c, source, utf8);
    if decoding.Frame? {
      AllDecodedIsReady(next, rest, utf8);
    }
  }

  /** What is delivered from a buffer is exactly its good lines, whatever follows. */
  lemma {:induction false} AllDecoded(c: Codec, source: Bytes, more: Bytes, utf8: Bytes -> bool)
    requires Ready(c, source) && !c.poisoned
    ensures var (frames, next, rest) := DecodedAll(c, source, utf8);
            && Frames(source + more, utf8) == frames + (if next.poisoned then [] else Frames(rest + more, utf8))
            && (IsClean(source + more, utf8) <==> !next.poisoned && IsClean(rest + more, utf8))
    decreases |source|
  {
    hide Frames;
    hide IsClean;
    hide Decoded;
    DecodingIsExact(c, source, utf8);
    var (next, rest, decoding) := Decoded(c, source, utf8);
    if decoding.Frame? {
      AllDecoded(next, rest, more, utf8);
      assert source + more == decoding.line + [LF] + (rest + more);
      GoodLineFirst(decoding.line, rest + more, utf8);
    }
  }

  lemma FramesEndWithDelimiters(d: Decoding, source: Bytes, rest: Bytes)
    requires d.Frame? ==> source == d.line + [LF] + rest
    ensures d.Frame? ==> LF in source
  {
    if d.Frame? {
      assert source[|d.line|] == LF;
    }
  }

  lemma EndOfStream(c: Codec, rest: Bytes, utf8: Bytes -> bool)
    requires Ready(c, rest) && !c.poisoned && LF !in rest
    ensures DecodedEof(c, rest, utf8).2.NeedMore? <==> IsClean(rest, utf8)
    ensures Frames(rest, utf8) == []
  {
    DecodingIsExact(c, rest, utf8);
    var found := IndexOf(rest, LF, 0, |rest|);
    var (next, left, decoding) := Decoded(c, rest, utf8);
    FramesEndWithDelimiters(decoding, rest, left);
    assert rest + [] == rest;
  }

  /**
   Chunking is immaterial. However the bytes arrive, the frames delivered are exactly the good
   lines before the first bad or unfinished one, and reading ends clean exactly when there is none.
   */
  lemma {:induction false} ChunkingIsImmaterial(c: Codec, source: Bytes, chunks: seq<Bytes>, utf8: Bytes -> bool)
    requires Ready(c, source) && !c.poisoned
    ensures Received(c, source, chunks, utf8) ==
            (Frames(source + Concat(chunks), utf8), IsClean(source + Concat(chunks), utf8))
    decreases |chunks|
  {
    hide Frames;
    hide IsClean;
    hide DecodedAll;
    hide DecodedEof;
    AllDecodedIsReady(c, source, utf8);
    var (frames, next, rest) := DecodedAll(c, source, utf8);
    var more := Concat(chunks);
    AllDecoded(c, source, more, utf8);
    if next.poisoned {
      assert frames + [] == frames;
    } else if chunks == [] {
      EndOfStream(next, rest, utf8);
      assert rest + more == rest && frames + [] == frames;
    } else {
      ReadyForMore(next, rest, chunks[0]);
      ChunkingIsImmaterial(next, rest + chunks[0], chunks[1..], utf8);
      assert rest + chunks[0] + Concat(chunks[1..]) == rest + more;
    }
  }

  /** A call on the codec: these bytes have arrived since the last one, and perhaps the stream has ended. */
  datatype Call = Call(arrived: Bytes, atEof: bool)

  function Called(c: Codec, source: Bytes, call: Call, utf8: Bytes -> bool): (Codec, Bytes, Decoding)
    requires Ready(c, source)
  {
    ReadyForMore(c, source, call.arrived);
    if call.atEof then DecodedEof(c, source + call.arrived, utf8) else Decoded(c, source + call.arrived, utf8)
  }

  /** What a reader gets that goes on calling, whatever it has been told. */
  function Answers(c: Codec, source: Bytes, calls: seq<Call>, utf8: Bytes -> bool): seq<Decoding>
    requires Ready(c, source)
    decreases |calls|
  {
    if calls == [] then []
    else
      CallingIsExact(c, source, calls[0], utf8);
      var (next, rest, decoding) := Called(c, source, calls[0], utf8);
      [decoding] + Answers(next, rest, calls[1..], utf8)
  }

  lemma CallingIsExact(c: Codec, source: Bytes, call: Call, utf8: Bytes -> bool)
    requires Ready(c, source)
    ensures var (next, rest, decoding) := Called(c, source, call, utf8);
            && Ready(next, rest)
            && (decoding.Failed? ==> next.poisoned)
            && (c.poisoned ==> next == c && decoding == Failed(Poisoned))
  {
    hide Decoded;
    ReadyForMore(c, source, call.arrived);
    DecodingIsExact(c, source + call.arrived, utf8);
  }

  lemma {:induction false} PoisonedAnswers(c: Codec, source: Bytes, calls: seq<Call>, utf8: Bytes -> bool)
    requires c.poisoned
    ensures |Answers(c, source, calls, utf8)| == |calls|
    ensures forall i | 0 <= i < |calls| :: Answers(c, source, calls, utf8)[i] == Failed(Poisoned)
    decreases |calls|
  {
    hide Called;
    if calls != [] {
      CallingIsExact(c, source, calls[0], utf8);
      var (next, rest, decoding) := Called(c, source, calls[0], utf8);
      PoisonedAnswers(next, rest, calls[1..], utf8);
    }
  }

  /** After the first error nothing is ever delivered, however long a reader goes on feeding and calling. */
  lemma {:induction false} NothingAfterAnError(c: Codec, source: Bytes, calls: seq<Call>, utf8: Bytes -> bool, i: nat,
                                               j: nat)
    requires Ready(c, source) && i < j < |calls|
    ensures var answers := Answers(c, source, calls, utf8);
            |answers| == |calls| && (answers[i].Failed? ==> answers[j] == Failed(Poisoned))
    decreases |calls|
  {
    hide Called;
    CallingIsExact(c, source, calls[0], utf8);
    var (next, rest, decoding) := Called(c, source, calls[0], utf8);
    if i > 0 {
      NothingAfterAnError(next, rest, calls[1..], utf8, i - 1, j - 1);
    } else if decoding.Failed? {
      PoisonedAnswers(next, rest, calls[1..], utf8);
    } else {
      AnswersCount(next, rest, calls[1..], utf8);
    }
  }

  lemma {:induction false} AnswersCount(c: Codec, source: Bytes, calls: seq<Call>, utf8: Bytes -> bool)
    requires Ready(c, source)
    ensures |Answers(c, source, calls, utf8)| == |calls|
    decreases |calls|
  {
    hide Called;
    if calls != [] {
      CallingIsExact(c, source, calls[0], utf8);
      var (next, rest, _) := Called(c, source, calls[0], utf8);
      AnswersCount(next, rest, calls[1..], utf8);
    }
  }

  // ---------------------------------------------------------------- the round trip

  function Encoded(frames: seq<Bytes>): Bytes {
    if frames == [] then [] else frames[0] + [LF] + Encoded(frames[1..])
  }

  lemma {:induction false} EncodedIsClean(frames: seq<Bytes>, utf8: Bytes -> bool)
    requires forall f | f in frames :: IsFrame(f) && utf8(f)
    ensures Frames(Encoded(frames), utf8) == frames && IsClean(Encoded(frames), utf8)
  {
    if frames != [] {
      EncodedIsClean(frames[1..], utf8);
      GoodLineFirst(frames[0], Encoded(frames[1..]), utf8);
    }
  }

  /** Frames that the encoder accepts come back, and end clean, however their bytes are split. */
  lemma RoundTrip(frames: seq<Bytes>, chunks: seq<Bytes>, utf8: Bytes -> bool)
    requires forall f | f in frames :: IsFrame(f) && utf8(f)
    requires Concat(chunks) == Encoded(frames)
    ensures Received(NEW_CODEC, [], chunks, utf8) == (frames, true)
  {
    ChunkingIsImmaterial(NEW_CODEC, [], chunks, utf8);
    EncodedIsClean(frames, utf8);
    assert [] + Concat(chunks) == Concat(chunks);
  }

  // ---------------------------------------------------------------- the bounded buffer

  /** `encode_json_frame`: a value serialized piece by piece, refused as soon as it exceeds the limit. */
  method EncodeJsonFrame(pieces: seq<Bytes>) returns (frame: Option<Bytes>)
    ensures frame == if |Concat(pieces)| <= MAX_IPC_FRAME_LENGTH then Some(Concat(pieces) + [LF]) else None
  {
    var bytes: Bytes := [];
    for i := 0 to |pieces|
      invariant bytes + Concat(pieces[i..]) == Concat(pieces)
      invariant |bytes| <= MAX_IPC_FRAME_LENGTH
    {
      assert pieces[i..][1..] == pieces[i + 1..];
      if |pieces[i]| > MAX_IPC_FRAME_LENGTH - |bytes| {
        return None;
      }
      bytes := bytes + pieces[i];
    }
    assert pieces[|pieces|..] == [] && bytes == Concat(pieces);
    return Some(bytes + [LF]);
  }
}
