/** Following the log of a container: whatever the cuts between two reads, the same lines come out. */
module DockerLogs {
  import opened Wrappers
  import opened Bytes
  import opened Utf8

  type Text = seq<Byte>

  const CARRIAGE_RETURN: Byte := 13

  // ---- Lines ----

  function FirstNewline(s: Text): (n: nat)
    ensures n <= |s|
    ensures n < |s| ==> s[n] == NEWLINE
    ensures forall i :: 0 <= i < n ==> s[i] != NEWLINE
  {
    if s == [] || s[0] == NEWLINE then 0 else 1 + FirstNewline(s[1..])
  }

  function TrimRight(line: Text): Text {
    if line != [] && line[|line| - 1] == CARRIAGE_RETURN then TrimRight(line[..|line| - 1]) else line
  }

  /** The lines of a text that a newline ends, without it. */
  function Complete(s: Text): seq<Text>
    decreases |s|
  {
    var n := FirstNewline(s);
    if n == |s| then [] else [TrimRight(s[..n])] + Complete(s[n + 1..])
  }

  /** What follows the last newline. */
  function Tail(s: Text): Text
    decreases |s|
  {
    var n := FirstNewline(s);
    if n == |s| then s else Tail(s[n + 1..])
  }

  lemma FirstNewlineAppend(a: Text, b: Text)
    ensures FirstNewline(a) < |a| ==> FirstNewline(a + b) == FirstNewline(a)
  {
    assert forall i :: 0 <= i < |a| ==> (a + b)[i] == a[i];
  }

  lemma FirstLine(s: Text)
    requires FirstNewline(s) < |s|
    ensures Complete(s) == [TrimRight(s[..FirstNewline(s)])] + Complete(s[FirstNewline(s) + 1..])
    ensures Tail(s) == Tail(s[FirstNewline(s) + 1..])
  {
    hide FirstNewline, TrimRight;
  }

  lemma Associate(a: seq<Text>, b: seq<Text>, c: seq<Text>)
    ensures a + (b + c) == (a + b) + c
  {
  }

  lemma NothingToSend(s: Text)
    requires FirstNewline(s) == |s|
    ensures Complete(s) == [] && Tail(s) == s
  {
  }

  lemma SliceLine(a: Text, b: Text, n: nat)
    requires n < |a|
    ensures (a + b)[n + 1..] == a[n + 1..] + b && (a + b)[..n] == a[..n]
  {
  }

  lemma {:induction false} LinesAppend(a: Text, b: Text)
    ensures Complete(a + b) == Complete(a) + Complete(Tail(a) + b)
    ensures Tail(a + b) == Tail(Tail(a) + b)
    decreases |a|
  {
    hide Complete, Tail, FirstNewline, TrimRight;
    var n := FirstNewline(a);
    if n < |a| {
      FirstNewlineAppend(a, b);
      SliceLine(a, b, n);
      FirstLine(a);
      FirstLine(a + b);
      LinesAppend(a[n + 1..], b);
      Associate([TrimRight(a[..n])], Complete(a[n + 1..]), Complete(Tail(a) + b));
    } else {
      NothingToSend(a);
      assert [] + Complete(a + b) == Complete(a + b);
    }
  }

  /** Splits off the complete lines of `pending`. */
  method SplitLines(pending: Text, sent: seq<Text>) returns (rest: Text, lines: seq<Text>)
    ensures rest == Tail(pending)
    ensures lines == sent + Complete(pending)
  {
    hide Complete, Tail, FirstNewline, TrimRight;
    rest, lines := pending, sent;
    while FirstNewline(rest) < |rest|
      invariant Tail(rest) == Tail(pending)
      invariant lines + Complete(rest) == sent + Complete(pending)
      decreases |rest|
    {
      var n := FirstNewline(rest);
      FirstLine(rest);
      Associate(lines, [TrimRight(rest[..n])], Complete(rest[n + 1..]));
      lines := lines + [TrimRight(rest[..n])];
      rest := rest[n + 1..];
    }
    NothingToSend(rest);
  }

  // ---- What a line is ----

  /** The line of a text, without the carriage returns at its end. */
  ghost predicate IsTrimmed(raw: Text, line: Text) {
    && line <= raw
    && (line != [] ==> line[|line| - 1] != CARRIAGE_RETURN)
    && forall i :: |line| <= i < |raw| ==> raw[i] == CARRIAGE_RETURN
  }

  function Ended(raws: seq<Text>): Text {
    if raws == [] then [] else raws[0] + [NEWLINE] + Ended(raws[1..])
  }

  /** The lines of a text: it is some stretches that each end with a newline, and a last one that has none.
      Those that end give the lines, in order. */
  ghost predicate AreLines(text: Text, lines: seq<Text>) {
    exists raws, tail :: LinesFrom(text, lines, tail, raws)
  }

  ghost predicate LinesFrom(text: Text, lines: seq<Text>, tail: Text, raws: seq<Text>) {
    && text == Ended(raws) + tail && NEWLINE !in tail
    && |raws| == |lines|
    && forall i :: 0 <= i < |raws| ==> NEWLINE !in raws[i] && IsTrimmed(raws[i], lines[i])
  }

  lemma {:induction false} TrimmedEnd(line: Text)
    ensures IsTrimmed(line, TrimRight(line))
    decreases |line|
  {
    if line != [] && line[|line| - 1] == CARRIAGE_RETURN {
      TrimmedEnd(line[..|line| - 1]);
    }
  }

  lemma LinesOneMore(text: Text, n: nat, lines: seq<Text>, tail: Text, raws: seq<Text>)
    requires n < |text| && text[n] == NEWLINE && NEWLINE !in text[..n]
    requires LinesFrom(text[n + 1..], lines, tail, raws)
    ensures LinesFrom(text, [TrimRight(text[..n])] + lines, tail, [text[..n]] + raws)
  {
    hide IsTrimmed, TrimRight;
    TrimmedEnd(text[..n]);
    assert ([text[..n]] + raws)[1..] == raws;
    assert text == text[..n] + [NEWLINE] + text[n + 1..];
    assert text[..n] + [NEWLINE] + (Ended(raws) + tail) == text[..n] + [NEWLINE] + Ended(raws) + tail;
  }

  lemma {:induction false} LinesOfText(text: Text) returns (raws: seq<Text>)
    ensures LinesFrom(text, Complete(text), Tail(text), raws)
    decreases |text|
  {
    hide Complete, Tail, LinesFrom, FirstNewline;
    var n := FirstNewline(text);
    assert NEWLINE !in text[..n];
    if n == |text| {
      NothingToSend(text);
      assert text[..n] == text;
      NoLine(text);
      raws := [];
    } else {
      FirstLine(text);
      raws := LinesOfText(text[n + 1..]);
      LinesOneMore(text, n, Complete(text[n + 1..]), Tail(text[n + 1..]), raws);
      raws := [text[..n]] + raws;
    }
  }

  /** The reader's lines are the lines of the text. */
  lemma CompleteAreLines(text: Text)
    ensures AreLines(text, Complete(text))
  {
    hide Complete, Tail, LinesFrom;
    var raws := LinesOfText(text);
  }

  lemma NoLine(text: Text)
    requires NEWLINE !in text
    ensures LinesFrom(text, [], text, [])
  {
    assert Ended([]) + text == text;
  }

  // ---- Frames ----

  /** Start of a frame of the multiplexed stream: a type, then three zeros. */
  predicate IsFrame(s: seq<Byte>) {
    |s| >= 4 && s[0] <= 2 && s[1] == 0 && s[2] == 0 && s[3] == 0
  }

  function FrameSize(s: seq<Byte>): nat
    requires |s| >= 8
  {
    8 + ValueOf(s[4..8])
  }

  predicate HasFrame(s: seq<Byte>) {
    |s| >= 8 && |s| >= FrameSize(s)
  }

  function FrameText(s: seq<Byte>): Text
    decreases |s|
  {
    if !HasFrame(s) then [] else Repair(s[8..FrameSize(s)]) + FrameText(s[FrameSize(s)..])
  }

  function FrameRest(s: seq<Byte>): seq<Byte>
    decreases |s|
  {
    if !HasFrame(s) then s else FrameRest(s[FrameSize(s)..])
  }

  /** A frame as the engine writes it: a type, three zeros, the length on four bytes, the highest first,
      and the content. */
  datatype Frame = Frame(kind: Byte, content: seq<Byte>)

  predicate Writable(f: Frame) {
    f.kind <= 2 && |f.content| < 0x1_0000_0000
  }

  function Written(f: Frame): seq<Byte>
    requires Writable(f)
  {
    var n := |f.content|;
    [f.kind, 0, 0, 0, n / 0x100_0000, n / 0x1_0000 % 256, n / 256 % 256, n % 256] + f.content
  }

  predicate AllWritable(fs: seq<Frame>) {
    forall i :: 0 <= i < |fs| ==> Writable(fs[i])
  }

  function Stream(fs: seq<Frame>): seq<Byte>
    requires AllWritable(fs)
  {
    if fs == [] then [] else Written(fs[0]) + Stream(fs[1..])
  }

  /** What the frames say, whichever of the two outputs they come from. */
  function Contents(fs: seq<Frame>): Text {
    if fs == [] then [] else Repair(fs[0].content) + Contents(fs[1..])
  }

  /** The beginning of a frame, its last byte still to come. */
  ghost predicate Unfinished(s: seq<Byte>) {
    exists f :: Writable(f) && s < Written(f)
  }

  lemma FourBytesValue(a: Byte, b: Byte, c: Byte, d: Byte)
    ensures ValueOf([a, b, c, d]) == ((a * 256 + b) * 256 + c) * 256 + d
  {
    assert [a, b, c, d][..3] == [a, b, c] && [a, b, c][..2] == [a, b] && [a, b][..1] == [a] && [a][..0] == [];
    assert ValueOf([a]) == a;
    assert ValueOf([a, b]) == a * 256 + b;
    assert ValueOf([a, b, c]) == (a * 256 + b) * 256 + c;
  }

  lemma HeaderBytes(f: Frame, s: seq<Byte>)
    requires Writable(f) && |s| >= 8 && s[..8] == Written(f)[..8]
    ensures var n := |f.content|;
            s[4..8] == [n / 0x100_0000, n / 0x1_0000 % 256, n / 256 % 256, n % 256]
    ensures IsFrame(s)
  {
    var w := Written(f);
    assert forall i :: 0 <= i < 8 ==> s[i] == s[..8][i] && w[i] == w[..8][i];
  }

  lemma LengthValue(n: nat)
    requires n < 0x1_0000_0000
    ensures n / 0x100_0000 < 256
    ensures ValueOf([n / 0x100_0000, n / 0x1_0000 % 256, n / 256 % 256, n % 256]) == n
  {
    FourBytesValue(n / 0x100_0000, n / 0x1_0000 % 256, n / 256 % 256, n % 256);
    assert n / 0x1_0000 == n / 0x100_0000 * 256 + n / 0x1_0000 % 256;
    assert n / 256 == n / 0x1_0000 * 256 + n / 256 % 256;
  }

  lemma HeaderSays(f: Frame, s: seq<Byte>)
    requires Writable(f) && |s| >= 8 && s[..8] == Written(f)[..8]
    ensures FrameSize(s) == 8 + |f.content| && IsFrame(s)
  {
    HeaderBytes(f, s);
    LengthValue(|f.content|);
    hide Written, ValueOf;
  }

  lemma WrittenFirst(f: Frame, rest: seq<Byte>)
    requires Writable(f)
    ensures var s := Written(f) + rest;
            && |s| >= |Written(f)| == 8 + |f.content| && s[..8] == Written(f)[..8]
            && s[8..8 + |f.content|] == f.content && s[8 + |f.content|..] == rest
  {
  }

  lemma UnfinishedHasNoFrame(s: seq<Byte>)
    requires Unfinished(s)
    ensures !HasFrame(s)
    ensures |s| >= 4 ==> IsFrame(s)
  {
    hide FrameSize;
    var f :| Writable(f) && s < Written(f);
    var w := Written(f);
    if |s| >= 8 {
      assert s[..8] == w[..8];
      HeaderSays(f, s);
    }
    assert |s| >= 4 ==> s[0] == w[0] && s[1] == w[1] && s[2] == w[2] && s[3] == w[3];
  }

  /** Reading what was written: the contents repaired, in order, and the bytes of a frame that has not come
      whole are kept. */
  lemma {:induction false} StreamReads(fs: seq<Frame>, rest: seq<Byte>)
    requires AllWritable(fs) && !HasFrame(rest)
    ensures FrameText(Stream(fs) + rest) == Contents(fs)
    ensures FrameRest(Stream(fs) + rest) == rest
    decreases fs
  {
    if fs == [] {
      assert Stream(fs) + rest == rest;
    } else {
      hide Repair, Written, FrameSize;
      var more := Stream(fs[1..]) + rest;
      assert Stream(fs) + rest == Written(fs[0]) + more;
      WrittenFirst(fs[0], more);
      HeaderSays(fs[0], Written(fs[0]) + more);
      StreamReads(fs[1..], rest);
    }
  }

  lemma StreamIsFramed(fs: seq<Frame>, rest: seq<Byte>)
    requires AllWritable(fs) && Unfinished(rest)
    ensures var s := Stream(fs) + rest;
            && (|s| >= 4 ==> IsFrame(s))
            && (|s| < 4 ==> fs == [])
  {
    hide Written, FrameSize, HasFrame;
    UnfinishedHasNoFrame(rest);
    if fs == [] {
      assert Stream(fs) + rest == rest;
    } else {
      var more := Stream(fs[1..]) + rest;
      assert Stream(fs) + rest == Written(fs[0]) + more;
      WrittenFirst(fs[0], more);
      HeaderSays(fs[0], Written(fs[0]) + more);
    }
  }

  lemma {:induction false} FramesAppend(a: seq<Byte>, b: seq<Byte>)
    ensures FrameText(a + b) == FrameText(a) + FrameText(FrameRest(a) + b)
    ensures FrameRest(a + b) == FrameRest(FrameRest(a) + b)
    decreases |a|
  {
    hide Repair, ValueOf;
    if HasFrame(a) {
      assert (a + b)[4..8] == a[4..8];
      var n := FrameSize(a);
      assert (a + b)[8..n] == a[8..n] && (a + b)[n..] == a[n..] + b;
      FramesAppend(a[n..], b);
    }
  }

  // ---- Raw text of a terminal ----

  /** Position after the last newline, 0 without one. */
  function LastCut(s: seq<Byte>): (n: nat)
    ensures n <= |s|
    ensures n > 0 ==> s[n - 1] == NEWLINE
    ensures forall i :: n <= i < |s| ==> s[i] != NEWLINE
  {
    if s == [] then 0
    else if s[|s| - 1] == NEWLINE then |s|
    else LastCut(s[..|s| - 1])
  }

  lemma CutPosition(s: seq<Byte>, n: nat)
    requires n <= |s| && (n > 0 ==> s[n - 1] == NEWLINE)
    requires forall i :: n <= i < |s| ==> s[i] != NEWLINE
    ensures LastCut(s) == n
  {
  }

  // How the pieces before and after the two cuts fit together.
  lemma CutPieces(a: seq<Byte>, b: seq<Byte>, c: nat, d: nat)
    requires c <= |a| && d <= |a[c..] + b|
    ensures (a + b)[..c + d] == a[..c] + (a[c..] + b)[..d]
    ensures (a + b)[c + d..] == (a[c..] + b)[d..]
    ensures forall i :: 0 <= i < |a| - c + |b| ==> (a[c..] + b)[i] == (a + b)[c + i]
  {
  }

  lemma CutMoves(a: seq<Byte>, b: seq<Byte>)
    ensures LastCut(a + b) == LastCut(a) + LastCut(a[LastCut(a)..] + b)
  {
    hide LastCut;
    var c := LastCut(a);
    var buf := a[c..] + b;
    var d := LastCut(buf);
    CutPieces(a, b, c, d);
    forall i | c + d <= i < |a + b| ensures (a + b)[i] != NEWLINE {
      assert (a + b)[i] == buf[i - c];
    }
    CutPosition(a + b, c + d);
  }

  // Text that ends with a newline, or nothing, is repaired apart from what follows.
  lemma RepairApart(a: seq<Byte>, b: seq<Byte>)
    requires a == [] || a[|a| - 1] == NEWLINE
    ensures Repair(a + b) == Repair(a) + Repair(b)
  {
    hide RepairFrom;
    if a == [] {
      RepairNothing(false);
      assert a + b == b;
    } else {
      var head := a[..|a| - 1];
      assert a == head + [NEWLINE];
      assert a + b == head + ([NEWLINE] + b);
      RepairCut(head, b, false);
    }
  }

  lemma CutAppend(a: seq<Byte>, b: seq<Byte>)
    ensures var c, d := LastCut(a), LastCut(a[LastCut(a)..] + b);
            && LastCut(a + b) == c + d
            && Repair((a + b)[..c + d]) == Repair(a[..c]) + Repair((a[c..] + b)[..d])
            && (a + b)[c + d..] == (a[c..] + b)[d..]
  {
    hide LastCut, Repair;
    var c := LastCut(a);
    CutMoves(a, b);
    CutPieces(a, b, c, LastCut(a[c..] + b));
    RepairApart(a[..c], (a[c..] + b)[..LastCut(a[c..] + b)]);
  }

  // ---- The reader ----

  /** Text available in `buf`, and the bytes kept for later. */
  method Demux(buf: seq<Byte>, tty: bool) returns (text: Text, rest: seq<Byte>)
    ensures tty ==> text == Repair(buf[..LastCut(buf)]) && rest == buf[LastCut(buf)..]
    ensures !tty ==> text == FrameText(buf) && rest == FrameRest(buf)
    ensures forall fs, more :: !tty && AllWritable(fs) && Unfinished(more) && buf == Stream(fs) + more ==>
              text == Contents(fs) && rest == more
  {
    forall fs, more | AllWritable(fs) && Unfinished(more) && buf == Stream(fs) + more
      ensures FrameText(buf) == Contents(fs) && FrameRest(buf) == more
    {
      UnfinishedHasNoFrame(more);
      StreamReads(fs, more);
    }
    if tty {
      var cut := LastCut(buf);
      return Repair(buf[..cut]), buf[cut..];
    }
    text, rest := [], buf;
    while |rest| >= 8
      invariant text + FrameText(rest) == FrameText(buf)
      invariant FrameRest(rest) == FrameRest(buf)
      decreases |rest|
    {
      var size := FrameSize(rest);
      if |rest| < size {
        break;
      }
      ghost var more := FrameText(rest[size..]);
      assert text + (Repair(rest[8..size]) + more) == (text + Repair(rest[8..size])) + more;
      text := text + Repair(rest[8..size]);
      rest := rest[size..];
    }
  }

  /** All the text of a stream that arrives in one piece. */
  function WholeText(s: seq<Byte>): Text {
    if |s| < 4 then [] else if IsFrame(s) then FrameText(s) else Repair(s[..LastCut(s)])
  }

  /** The lines of a stream that arrives in one piece. */
  function LinesOf(s: seq<Byte>): seq<Text> {
    Complete(WholeText(s))
  }

  function Joined(chunks: seq<seq<Byte>>): seq<Byte> {
    if chunks == [] then [] else Joined(chunks[..|chunks| - 1]) + chunks[|chunks| - 1]
  }

  // What the reader holds after the bytes `s`.
  ghost predicate Holds(s: seq<Byte>, tty: Option<bool>, buf: seq<Byte>, pending: Text, lines: seq<Text>) {
    && lines == LinesOf(s)
    && pending == Tail(WholeText(s))
    && (tty.None? <==> |s| < 4)
    && buf == (if |s| < 4 then s else if IsFrame(s) then FrameRest(s) else s[LastCut(s)..])
    && (tty.Some? ==> tty.value == !IsFrame(s))
  }

  // Text that more bytes add.
  function Added(s: seq<Byte>, chunk: seq<Byte>, buf: seq<Byte>): Text {
    if |s + chunk| < 4 then []
    else if IsFrame(s + chunk) then FrameText(buf + chunk)
    else Repair((buf + chunk)[..LastCut(buf + chunk)])
  }

  lemma TextGrows(s: seq<Byte>, chunk: seq<Byte>, tty: Option<bool>, buf: seq<Byte>, pending: Text, lines: seq<Text>)
    requires Holds(s, tty, buf, pending, lines)
    ensures WholeText(s + chunk) == WholeText(s) + Added(s, chunk, buf)
    ensures |s| >= 4 ==> IsFrame(s + chunk) == IsFrame(s)
    ensures |s + chunk| >= 4 && IsFrame(s + chunk) ==> FrameRest(s + chunk) == FrameRest(buf + chunk)
    ensures |s + chunk| >= 4 && !IsFrame(s + chunk) ==>
              (s + chunk)[LastCut(s + chunk)..] == (buf + chunk)[LastCut(buf + chunk)..]
  {
    hide LastCut, RepairFrom, Repair, FrameText, FrameRest;
    if |s| >= 4 {
      FramesAppend(s, chunk);
      CutAppend(s, chunk);
    } else {
      assert buf + chunk == s + chunk;
    }
  }

  // ---- Whatever the cuts ----

  /** The reads are the stretches of a stream between cuts. */
  ghost predicate AreReads(chunks: seq<seq<Byte>>, s: seq<Byte>) {
    exists cuts :: CutsFit(chunks, s, cuts)
  }

  ghost predicate CutsFit(chunks: seq<seq<Byte>>, s: seq<Byte>, cuts: seq<nat>) {
    && |cuts| == |chunks| + 1 && cuts[0] == 0 && cuts[|chunks|] == |s|
    && forall i :: 0 <= i < |chunks| ==> Between(chunks[i], s, cuts[i], cuts[i + 1])
  }

  predicate Between(chunk: seq<Byte>, s: seq<Byte>, a: nat, b: nat) {
    a <= b <= |s| && chunk == s[a..b]
  }

  lemma {:induction false} ReadsJoin(chunks: seq<seq<Byte>>, s: seq<Byte>, cuts: seq<nat>, n: nat)
    requires CutsFit(chunks, s, cuts) && n <= |chunks|
    ensures cuts[n] <= |s| && Joined(chunks[..n]) == s[..cuts[n]]
    decreases n
  {
    if n > 0 {
      ReadsJoin(chunks, s, cuts, n - 1);
      assert Between(chunks[n - 1], s, cuts[n - 1], cuts[n - 1 + 1]);
      assert chunks[..n][..n - 1] == chunks[..n - 1];
      assert s[..cuts[n]] == s[..cuts[n - 1]] + s[cuts[n - 1]..cuts[n]];
    }
  }

  /** The lines to send for a stream: those of the contents of its frames, or of its raw text up to the
      last newline, or none while the stream is too short to tell. */
  ghost predicate Sends(s: seq<Byte>, lines: seq<Text>) {
    && (|s| < 4 ==> lines == [])
    && (forall fs, rest :: AllWritable(fs) && Unfinished(rest) && s == Stream(fs) + rest ==> AreLines(Contents(fs), lines))
    && (|s| >= 4 && !(s[0] <= 2 && s[1] == s[2] == s[3] == 0) ==>
          forall raw, rest :: s == raw + rest && (raw == [] || raw[|raw| - 1] == NEWLINE) && NEWLINE !in rest ==>
            AreLines(Repair(raw), lines))
  }

  lemma WholeSends(s: seq<Byte>)
    ensures Sends(s, LinesOf(s))
  {
    hide Complete, Tail, FrameText, FrameRest, Repair, AreLines, LastCut, Contents, Stream, Unfinished;
    CompleteAreLines(WholeText(s));
    NothingToSend([]);
    forall fs, rest | AllWritable(fs) && Unfinished(rest) && s == Stream(fs) + rest ensures AreLines(Contents(fs), LinesOf(s)) {
      FramedText(fs, rest);
    }
    forall raw, rest | s == raw + rest && |s| >= 4 && !IsFrame(s) && (raw == [] || raw[|raw| - 1] == NEWLINE) && NEWLINE !in rest
      ensures AreLines(Repair(raw), LinesOf(s))
    {
      RawText(raw, rest);
    }
  }

  lemma RawText(raw: seq<Byte>, rest: seq<Byte>)
    requires (raw == [] || raw[|raw| - 1] == NEWLINE) && NEWLINE !in rest
    requires |raw + rest| >= 4 && !IsFrame(raw + rest)
    ensures WholeText(raw + rest) == Repair(raw)
  {
    hide Repair, FrameText;
    var s := raw + rest;
    CutPosition(s, |raw|);
    assert s[..|raw|] == raw;
  }

  lemma ReadsSend(chunks: seq<seq<Byte>>, s: seq<Byte>)
    requires AreReads(chunks, s)
    ensures Sends(s, LinesOf(Joined(chunks)))
  {
    hide Sends, LinesOf, Joined;
    var cuts :| CutsFit(chunks, s, cuts);
    ReadsJoin(chunks, s, cuts, |chunks|);
    assert chunks[..|chunks|] == chunks && s[..|s|] == s;
    WholeSends(s);
  }

  lemma FramedText(fs: seq<Frame>, rest: seq<Byte>)
    requires AllWritable(fs) && Unfinished(rest)
    ensures WholeText(Stream(fs) + rest) == Contents(fs)
  {
    hide Stream, Unfinished, FrameText, FrameRest;
    StreamIsFramed(fs, rest);
    UnfinishedHasNoFrame(rest);
    StreamReads(fs, rest);
  }

  /** Every line sent, for a stream cut into any reads, is the one the whole stream gives. */
  method Follow(chunks: seq<seq<Byte>>) returns (lines: seq<Text>)
    ensures lines == LinesOf(Joined(chunks))
    ensures forall s :: AreReads(chunks, s) ==> Sends(s, lines)
  {
    hide Complete, Tail, FrameText, FrameRest, LastCut, Repair, AreReads, Sends;
    forall s | AreReads(chunks, s) ensures Sends(s, LinesOf(Joined(chunks))) {
      ReadsSend(chunks, s);
    }
    NothingToSend([]);
    var buf: seq<Byte>, pending: Text := [], [];
    var tty: Option<bool> := None;
    lines := [];
    ghost var s: seq<Byte> := [];
    for i := 0 to |chunks|
      invariant s == Joined(chunks[..i])
      invariant Holds(s, tty, buf, pending, lines)
    {
      assert chunks[..i + 1][..i] == chunks[..i];
      ghost var t := s + chunks[i];
      TextGrows(s, chunks[i], tty, buf, pending, lines);
      LinesAppend(WholeText(s), Added(s, chunks[i], buf));
      s := t;
      if chunks[i] == [] {
        assert t == Joined(chunks[..i]);
        continue;
      }
      buf := buf + chunks[i];
      if tty.None? {
        if |buf| < 4 {
          continue;
        }
        tty := Some(!IsFrame(buf));
      }
      var text;
      text, buf := Demux(buf, tty.value);
      pending := pending + text;
      pending, lines := SplitLines(pending, lines);
    }
    assert chunks[..|chunks|] == chunks;
  }
}
