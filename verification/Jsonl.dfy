/** The strict JSON Lines decoder of worker output: bytes arrive in chunks, lines come out. */
module Jsonl {
  import opened Prelude
  import opened Utf8

  const LF: Scalar := 10
  const CR: Scalar := 13

  type Line = Text

  // ---- Malformed bytes -----------------------------------------------------

  /** What stands for bytes that are no character. */
  const REPLACEMENT: Scalar := 0xFFFD

  /** The byte may begin a character of two or more bytes. */
  predicate Begins(lead: Byte) {
    0xC2 <= lead <= 0xF4
  }

  /** The byte may follow this first byte. */
  predicate MayFollow(lead: Byte, second: Byte) {
    && IsContinuation(second)
    && (lead == 0xE0 ==> second >= 0xA0) && (lead == 0xED ==> second < 0xA0)
    && (lead == 0xF0 ==> second >= 0x90) && (lead == 0xF4 ==> second < 0x90)
  }

  /** How many leading bytes go together as the start of one character; at least the first. */
  function Reach(bytes: seq<Byte>): (n: nat)
    requires bytes != []
    ensures 1 <= n <= |bytes|
  {
    if !Begins(bytes[0]) || |bytes| < 2 || !MayFollow(bytes[0], bytes[1]) then 1
    else if Length(bytes[0]) == 2 || |bytes| < 3 || !IsContinuation(bytes[2]) then 2
    else if Length(bytes[0]) == 3 || |bytes| < 4 || !IsContinuation(bytes[3]) then 3
    else 4
  }

  /** A character is complete exactly when the bytes reach as far as its first byte says. */
  lemma {:induction false} CompleteExactlyReached(bytes: seq<Byte>)
    requires bytes != [] && Begins(bytes[0])
    ensures DecodeScalar(bytes).Some? <==> Reach(bytes) == Length(bytes[0])
  {
    var n := Length(bytes[0]);
    if |bytes| >= n {
      assert bytes[..n][0] == bytes[0] && bytes[..n][1] == bytes[1];
      assert n >= 3 ==> bytes[..n][2] == bytes[2];
      assert n == 4 ==> bytes[..n][3] == bytes[3];
    }
  }

  lemma {:induction false} CompleteBegins(bytes: seq<Byte>)
    requires DecodeScalar(bytes).Some?
    ensures bytes[0] < 0x80 || Begins(bytes[0])
  {
    var n := Length(bytes[0]);
    assert bytes[..n][0] == bytes[0];
    assert forall i | 1 <= i < n :: IsContinuation(bytes[i]) && bytes[..n][i] == bytes[i];
  }

  /** The bytes are the start of a character that is not complete yet. */
  predicate Held(bytes: seq<Byte>) {
    bytes != [] && Begins(bytes[0]) && Reach(bytes) == |bytes| && DecodeScalar(bytes) == None
  }

  /** Held are exactly the bytes that more bytes can complete to a character. */
  lemma {:induction false} HeldExactlyWhen(bytes: seq<Byte>)
    requires bytes != [] && DecodeScalar(bytes) == None
    ensures Held(bytes) <==> exists more :: DecodeScalar(bytes + more).Some?
  {
    hide DecodeScalar;
    if Held(bytes) {
      var more := Rest(bytes);
      CompleteExactlyReached(bytes);
      CompleteExactlyReached(bytes + more);
    }
    if more :| DecodeScalar(bytes + more).Some? {
      CompleteBegins(bytes + more);
      if bytes[0] < 0x80 {
        OneByte(bytes);
      } else {
        CompleteExactlyReached(bytes);
        CompleteExactlyReached(bytes + more);
      }
    }
  }

  lemma {:induction false} OneByte(bytes: seq<Byte>)
    requires bytes != [] && bytes[0] < 0x80
    ensures DecodeScalar(bytes) == Some((bytes[0], 1))
  {
  }

  /** Bytes that complete a character. */
  function Rest(bytes: seq<Byte>): seq<Byte>
    requires bytes != []
  {
    var n := Length(bytes[0]);
    var second: Byte := if bytes[0] == 0xE0 then 0xA0 else if bytes[0] == 0xF0 then 0x90 else 0x80;
    if |bytes| == 1 then if n == 2 then [second] else if n == 3 then [second, 0x80] else [second, 0x80, 0x80]
    else if |bytes| == 2 then if n == 3 then [0x80] else [0x80, 0x80]
    else [0x80]
  }

  // ---- Characters from chunks ----------------------------------------------

  /**
   * What a string decoder makes of a byte string: its characters, with one replacement character for
   * each malformed stretch, and the bytes it holds back because they may still become a character.
   */
  function Characters(bytes: seq<Byte>): (Text, seq<Byte>)
    decreases |bytes|
  {
    if bytes == [] || Held(bytes) then ([], bytes)
    else
      var first := DecodeScalar(bytes);
      var (c, n) := if first.Some? then first.value else (REPLACEMENT, Reach(bytes));
      var rest := Characters(bytes[n..]);
      ([c] + rest.0, rest.1)
  }

  /** More bytes never change a character that was complete. */
  lemma {:induction false} CompleteStays(bytes: seq<Byte>, more: seq<Byte>)
    requires DecodeScalar(bytes).Some?
    ensures DecodeScalar(bytes + more) == DecodeScalar(bytes) && !Held(bytes + more)
  {
    var n := Length(bytes[0]);
    assert (bytes + more)[..n] == bytes[..n];
    assert forall i | 0 <= i < n :: (bytes + more)[i] == bytes[i];
  }

  /** More bytes never mend a malformed stretch. */
  lemma {:induction false} MalformedStays(bytes: seq<Byte>, more: seq<Byte>)
    requires bytes != [] && DecodeScalar(bytes) == None && !Held(bytes)
    ensures DecodeScalar(bytes + more) == None && !Held(bytes + more) && Reach(bytes + more) == Reach(bytes)
  {
    hide DecodeScalar;
    if Begins(bytes[0]) {
      CompleteExactlyReached(bytes);
      CompleteExactlyReached(bytes + more);
    } else if DecodeScalar(bytes + more).Some? {
      CompleteBegins(bytes + more);
      OneByte(bytes);
    }
  }

  lemma {:induction false} CharactersSplit(a: seq<Byte>, b: seq<Byte>)
    ensures var (text, rest) := Characters(a);
      Characters(a + b) == (text + Characters(rest + b).0, Characters(rest + b).1)
    decreases |a|
  {
    hide DecodeScalar, Held, Reach;
    if a == [] || Held(a) {
      assert [] + Characters(a + b).0 == Characters(a + b).0;
    } else {
      var first := DecodeScalar(a);
      if first.Some? {
        CompleteStays(a, b);
      } else {
        MalformedStays(a, b);
      }
      var (c, n) := if first.Some? then first.value else (REPLACEMENT, Reach(a));
      assert (a + b)[n..] == a[n..] + b;
      CharactersSplit(a[n..], b);
      var (text, rest) := Characters(a[n..]);
      assert [c] + (text + Characters(rest + b).0) == ([c] + text) + Characters(rest + b).0;
    }
  }

  lemma {:induction false} CharactersOfText(text: Text)
    ensures Characters(Encode(text)) == (text, [])
  {
    if text != [] {
      var first := EncodeScalar(text[0]);
      ScalarDecodes(text[0], Encode(text[1..]));
      assert (first + Encode(text[1..]))[|first|..] == Encode(text[1..]);
      CharactersOfText(text[1..]);
      assert text == [text[0]] + text[1..];
    }
  }

  /** What a string decoder makes of a whole stream: bytes still held back at its end are malformed. */
  function StreamText(bytes: seq<Byte>): Text {
    Characters(bytes).0 + if Characters(bytes).1 == [] then [] else [REPLACEMENT]
  }

  /** For a stream of whole characters that is its text. */
  lemma {:induction false} WholeStream(bytes: seq<Byte>)
    requires Decode(bytes).Some?
    ensures StreamText(bytes) == Decode(bytes).value
  {
    EncodeDecode(bytes);
    CharactersOfText(Decode(bytes).value);
  }

  // ---- Lines from characters -----------------------------------------------

  /** The position of the first line feed, or the length. */
  function IndexOfLf(text: Text): (i: nat)
    ensures i <= |text|
    ensures i < |text| ==> text[i] == LF
    ensures forall j | 0 <= j < i :: text[j] != LF
  {
    if text == [] || text[0] == LF then 0 else IndexOfLf(text[1..]) + 1
  }

  function StripCr(line: Line): Line {
    if line != [] && line[|line| - 1] == CR then line[..|line| - 1] else line
  }

  /** A terminated line is dropped when nothing is left of it. */
  function Kept(line: Line): seq<Line> {
    if StripCr(line) == [] then [] else [StripCr(line)]
  }

  /** The lines a text terminates, and what follows the last line feed. */
  function Lines(text: Text): (seq<Line>, Text)
    decreases |text|
  {
    var i := IndexOfLf(text);
    if i == |text| then ([], text)
    else
      var rest := Lines(text[i + 1..]);
      (Kept(text[..i]) + rest.0, rest.1)
  }

  /** Everything a stream yields: its terminated lines, and at its end an unterminated rest, even if only a CR. */
  function AllLines(text: Text): seq<Line> {
    var (lines, rest) := Lines(text);
    lines + if rest == [] then [] else [StripCr(rest)]
  }

  lemma {:induction false} IndexSplit(a: Text, b: Text)
    ensures IndexOfLf(a) < |a| ==> IndexOfLf(a + b) == IndexOfLf(a)
  {
    if a != [] && a[0] != LF {
      assert (a + b)[1..] == a[1..] + b;
      IndexSplit(a[1..], b);
    }
  }

  lemma {:induction false} FirstLine(text: Text)
    requires IndexOfLf(text) < |text|
    ensures var i := IndexOfLf(text);
      Lines(text) == (Kept(text[..i]) + Lines(text[i + 1..]).0, Lines(text[i + 1..]).1)
  {
    hide IndexOfLf, Kept;
  }

  lemma {:induction false} NoLine(text: Text)
    requires IndexOfLf(text) == |text|
    ensures Lines(text) == ([], text)
  {
  }

  lemma {:induction false} LinesSplit(a: Text, b: Text)
    ensures var (lines, rest) := Lines(a);
      Lines(a + b) == (lines + Lines(rest + b).0, Lines(rest + b).1)
    decreases |a|
  {
    hide IndexOfLf, Kept, Lines;
    var i := IndexOfLf(a);
    if i < |a| {
      IndexSplit(a, b);
      assert (a + b)[..i] == a[..i] && (a + b)[i + 1..] == a[i + 1..] + b;
      FirstLine(a);
      FirstLine(a + b);
      LinesSplit(a[i + 1..], b);
      var (lines, rest) := Lines(a[i + 1..]);
      var next := Lines(rest + b);
      assert Kept(a[..i]) + (lines + next.0) == (Kept(a[..i]) + lines) + next.0;
    } else {
      NoLine(a);
      assert [] + Lines(a + b).0 == Lines(a + b).0;
    }
  }

  // ---- Round trip ----------------------------------------------------------

  /** A line as a worker writes it: not empty, without a line feed, and not ending in a carriage return. */
  predicate Plain(line: Line) {
    line != [] && line[|line| - 1] != CR && IndexOfLf(line) == |line|
  }

  function Joined(lines: seq<Line>): Text {
    if lines == [] then [] else lines[0] + [LF] + Joined(lines[1..])
  }

  /** Newline-terminated plain lines come back as they were written. */
  lemma {:induction false} LinesOfJoined(lines: seq<Line>)
    requires forall i | 0 <= i < |lines| :: Plain(lines[i])
    ensures Lines(Joined(lines)) == (lines, []) && AllLines(Joined(lines)) == lines
  {
    hide Lines, Plain, IndexOfLf;
    if lines == [] {
      LinesOfNothing();
    } else {
      LinesOfJoined(lines[1..]);
      OneMoreLine(lines[0], Joined(lines[1..]));
      assert lines == [lines[0]] + lines[1..];
    }
  }

  lemma {:induction false} LinesOfNothing()
    ensures Lines([]) == ([], [])
  {
  }

  lemma {:induction false} OneMoreLine(line: Line, more: Text)
    requires Plain(line)
    ensures Lines(line + [LF] + more) == ([line] + Lines(more).0, Lines(more).1)
  {
    var text := line + [LF] + more;
    FirstLf(line, more);
    assert text[..|line|] == line && text[|line| + 1..] == more;
  }

  lemma {:induction false} FirstLf(line: Line, more: Text)
    requires IndexOfLf(line) == |line|
    ensures IndexOfLf(line + [LF] + more) == |line|
  {
    if line != [] {
      assert (line + [LF] + more)[1..] == line[1..] + [LF] + more;
      FirstLf(line[1..], more);
    }
  }

  /**
   * A line that CR LF ends comes back without exactly that CR LF, whatever it ends in, and a line that
   * LF alone ends comes back whole unless it ends in CR; an empty line is dropped either way.
   */
  lemma {:induction false} LineEndsExactly(line: Line, more: Text)
    requires LF !in line
    ensures Lines(line + [CR, LF] + more) == ((if line == [] then [] else [line]) + Lines(more).0, Lines(more).1)
    ensures line == [] || line[|line| - 1] != CR ==>
      Lines(line + [LF] + more) == ((if line == [] then [] else [line]) + Lines(more).0, Lines(more).1)
  {
    hide Lines, IndexOfLf;
    assert line + [CR, LF] + more == (line + [CR]) + [LF] + more;
    NoLf(line + [CR]);
    KeptLine(line + [CR], more);
    NoLf(line);
    KeptLine(line, more);
  }

  lemma {:induction false} KeptLine(line: Line, more: Text)
    requires IndexOfLf(line) == |line|
    ensures Lines(line + [LF] + more) == (Kept(line) + Lines(more).0, Lines(more).1)
  {
    hide Kept;
    var text := line + [LF] + more;
    FirstLf(line, more);
    assert text[..|line|] == line && text[|line| + 1..] == more;
  }

  lemma {:induction false} NoLf(line: Line)
    requires LF !in line
    ensures IndexOfLf(line) == |line|
  {
  }

  function JoinedCrLf(lines: seq<Line>): Text {
    if lines == [] then [] else lines[0] + [CR, LF] + JoinedCrLf(lines[1..])
  }

  /** Lines that end in CR LF come back as they were written, even those that end in a CR of their own. */
  lemma {:induction false} LinesOfJoinedCrLf(lines: seq<Line>)
    requires forall i | 0 <= i < |lines| :: lines[i] != [] && LF !in lines[i]
    ensures Lines(JoinedCrLf(lines)) == (lines, []) && AllLines(JoinedCrLf(lines)) == lines
  {
    hide Lines;
    if lines == [] {
      LinesOfNothing();
    } else {
      LinesOfJoinedCrLf(lines[1..]);
      LineEndsExactly(lines[0], JoinedCrLf(lines[1..]));
      assert lines == [lines[0]] + lines[1..];
    }
  }

  lemma {:induction false} TerminatedLinesNonempty(text: Text)
    ensures [] !in Lines(text).0
    decreases |text|
  {
    var i := IndexOfLf(text);
    if i < |text| {
      TerminatedLinesNonempty(text[i + 1..]);
    }
  }

  /** The text is a lone CR, or ends in one right after a line feed. */
  predicate EndsInLoneCr(text: Text) {
    text == [CR] || (|text| >= 2 && text[|text| - 2] == LF && text[|text| - 1] == CR)
  }

  lemma {:induction false} LoneCrIsTheRest(text: Text)
    ensures Lines(text).1 == [CR] <==> EndsInLoneCr(text)
    decreases |text|
  {
    hide IndexOfLf, Kept;
    var i := IndexOfLf(text);
    if i < |text| {
      var rest := text[i + 1..];
      LoneCrIsTheRest(rest);
      assert |text| >= 2 && text[|text| - 2] == LF ==> |text| - 2 >= i;
    }
  }

  /** Empty lines are dropped, except that a stream ending in an unterminated lone CR yields one. */
  lemma {:induction false} EmptyLineExactlyWhen(text: Text)
    ensures [] in AllLines(text) <==> EndsInLoneCr(text)
  {
    hide Lines, EndsInLoneCr;
    TerminatedLinesNonempty(text);
    LoneCrIsTheRest(text);
    var (lines, rest) := Lines(text);
    if rest != [] {
      assert (lines + [StripCr(rest)])[|lines|] == StripCr(rest);
      assert StripCr(rest) == [] <==> rest == [CR];
    }
  }

  /** A line, a line feed and a carriage return: the stream yields the line and an empty one. */
  lemma {:induction false} EmptyLineReturned(line: Line)
    requires Plain(line)
    ensures AllLines(line + [LF] + [CR]) == [line, []]
  {
    hide Plain;
    OneMoreLine(line, [CR]);
    NoLine([CR]);
  }

  // ---- The decoder ---------------------------------------------------------

  class StrictJsonlDecoder {
    /** The bytes that the string decoder holds back, and the characters not yet part of a line. */
    var pending: seq<Byte>
    var buffer: Text
    /** All bytes pushed so far and all lines returned so far. */
    ghost var seen: seq<Byte>
    ghost var returned: seq<Line>

    /** Whatever the chunks were, the decoder stands where one single chunk would have brought it. */
    ghost predicate Valid()
      reads this
    {
      && pending == Characters(seen).1
      && buffer == Lines(Characters(seen).0).1
      && returned == Lines(Characters(seen).0).0
    }

    constructor ()
      ensures Valid() && seen == [] && returned == []
    {
      pending, buffer, seen, returned := [], [], [], [];
    }

    method Push(chunk: seq<Byte>) returns (lines: seq<Line>)
      requires Valid()
      modifies this
      ensures Valid() && seen == old(seen) + chunk && returned == old(returned) + lines
    {
      hide Characters, Lines;
      var written := Characters(pending + chunk);
      CharactersSplit(seen, chunk);
      LinesSplit(Characters(seen).0, written.0);
      seen := seen + chunk;
      pending := written.1;
      buffer := buffer + written.0;
      lines := TakeLines();
      returned := returned + lines;
    }

    /** `#takeLines`. */
    method TakeLines() returns (lines: seq<Line>)
      modifies this`buffer
      ensures lines == Lines(old(buffer)).0 && buffer == Lines(old(buffer)).1
    {
      hide IndexOfLf, Lines;
      lines := [];
      var index := IndexOfLf(buffer);
      assert [] + Lines(buffer).0 == Lines(buffer).0;
      while index < |buffer|
        invariant index == IndexOfLf(buffer)
        invariant Lines(old(buffer)) == (lines + Lines(buffer).0, Lines(buffer).1)
        decreases |buffer|
      {
        var line := buffer[..index];
        ghost var before, kept, rest := lines, Kept(line), Lines(buffer[index + 1..]);
        FirstLine(buffer);
        assert before + (kept + rest.0) == (before + kept) + rest.0;
        buffer := buffer[index + 1..];
        if line != [] && line[|line| - 1] == CR {
          line := line[..|line| - 1];
        }
        if line != [] {
          lines := lines + [line];
        }
        assert lines == before + kept;
        index := IndexOfLf(buffer);
      }
      NoLine(buffer);
    }

    /** `end`: bytes that the stream leaves incomplete become a replacement character. */
    method End() returns (lines: seq<Line>)
      requires Valid()
      modifies this
      ensures pending == [] && buffer == [] && returned == old(returned) + lines
      ensures returned == AllLines(StreamText(seen)) && seen == old(seen)
    {
      hide Lines, Characters;
      var tail := if pending == [] then [] else [REPLACEMENT];
      LinesSplit(Characters(seen).0, tail);
      buffer := buffer + tail;
      pending := [];
      lines := TakeLines();
      if buffer != [] {
        lines := lines + [if buffer[|buffer| - 1] == CR then buffer[..|buffer| - 1] else buffer];
        buffer := [];
      }
      returned := returned + lines;
    }
  }

  /** All lines of a stream fed in the given chunks. */
  method DecodeChunks(chunks: seq<seq<Byte>>) returns (lines: seq<Line>)
    ensures lines == AllLines(StreamText(Concat(chunks)))
  {
    var decoder := new StrictJsonlDecoder();
    lines := [];
    for i := 0 to |chunks|
      invariant decoder.Valid() && decoder.seen == Concat(chunks[..i]) && decoder.returned == lines
      invariant fresh(decoder)
    {
      ConcatNext(chunks, i);
      var more := decoder.Push(chunks[i]);
      lines := lines + more;
    }
    assert chunks[..|chunks|] == chunks;
    var last := decoder.End();
    lines := lines + last;
  }

  function Concat(chunks: seq<seq<Byte>>): seq<Byte> {
    if chunks == [] then [] else chunks[0] + Concat(chunks[1..])
  }

  lemma {:induction false} ConcatNext(chunks: seq<seq<Byte>>, i: nat)
    requires i < |chunks|
    ensures Concat(chunks[..i + 1]) == Concat(chunks[..i]) + chunks[i]
  {
    if i == 0 {
      assert chunks[..1] == [chunks[0]] && chunks[..1][1..] == [];
    } else {
      ConcatNext(chunks[1..], i - 1);
      assert chunks[..i + 1][1..] == chunks[1..][..i] && chunks[..i][1..] == chunks[1..][..i - 1];
    }
  }
}
