/** Base-protocol framing (LSP 3.17, Base Protocol, Header Part): what the client writes, how it
    reads, and what the latency relay forwards. Bodies are opaque bytes. */
module Framing {
  import opened Common

  type byte = b: int | 0 <= b < 256
  type bytes = seq<byte>

  const CR: byte := 13
  const LF: byte := 10
  const COLON: byte := 58
  const CRLF: bytes := [CR, LF]

  // ---- text -----------------------------------------------------------------------------------------

  predicate IsSpace(b: byte) { 9 <= b <= 13 || 28 <= b <= 32 }

  function StripLeft(bs: bytes): bytes {
    if bs != [] && IsSpace(bs[0]) then StripLeft(bs[1..]) else bs
  }

  function StripRight(bs: bytes): bytes {
    if bs != [] && IsSpace(bs[|bs| - 1]) then StripRight(bs[..|bs| - 1]) else bs
  }

  function Strip(bs: bytes): bytes {
    StripRight(StripLeft(bs))
  }

  function LowerByte(b: byte): byte {
    if 65 <= b <= 90 then b + 32 else b
  }

  function Lower(bs: bytes): bytes {
    seq(|bs|, i requires 0 <= i < |bs| => LowerByte(bs[i]))
  }

  /** The bytes of "Content-Length". */
  const CONTENT_LENGTH_FIELD: bytes := [67, 111, 110, 116, 101, 110, 116, 45, 76, 101, 110, 103, 116, 104]

  /** The bytes of "content-length", which it is looked up by. */
  const CONTENT_LENGTH: bytes := [99, 111, 110, 116, 101, 110, 116, 45, 108, 101, 110, 103, 116, 104]

  function Digits(n: nat): (ds: bytes)
    ensures ds != [] && forall i | 0 <= i < |ds| :: 48 <= ds[i] <= 57
  {
    if n < 10 then [48 + n] else Digits(n / 10) + [48 + n % 10]
  }

  /** Decimal digits, single underscores allowed between them. */
  function ParseDigits(bs: bytes): Option<nat> {
    if bs == [] || !(48 <= bs[|bs| - 1] <= 57) then None
    else if |bs| == 1 then Some(bs[0] - 48)
    else
      var front := ParseDigits(if bs[|bs| - 2] == 95 then bs[..|bs| - 2] else bs[..|bs| - 1]);
      if front.None? then None else Some(10 * front.value + (bs[|bs| - 1] - 48))
  }

  function Negated(n: Option<nat>): Option<int> {
    match n
    case None => None
    case Some(value) => Some(0 - value)
  }

  function ParseInt(bs: bytes): Option<int> {
    if bs != [] && bs[0] == 43 then ParseDigits(bs[1..])
    else if bs != [] && bs[0] == 45 then Negated(ParseDigits(bs[1..]))
    else ParseDigits(bs)
  }

  lemma {:induction false} DigitsParse(n: nat)
    ensures ParseDigits(Digits(n)) == Some(n)
  {
    if n >= 10 {
      DigitsParse(n / 10);
      var front := Digits(n / 10);
      assert Digits(n)[..|front|] == front;
      assert Digits(n)[|front| - 1] == front[|front| - 1];
    }
  }

  lemma PrintedLengthParses(n: nat)
    ensures Strip([32] + Digits(n)) == Digits(n) && ParseInt(Digits(n)) == Some(n)
  {
    DigitsParse(n);
    var ds := Digits(n);
    assert ([32] + ds)[1..] == ds;
    assert !IsSpace(ds[0]) && !IsSpace(ds[|ds| - 1]);
    assert StripLeft([32] + ds) == StripLeft(ds);
  }

  // ---- the reader -------------------------------------------------------------------------------------

  /** Up to and with the first line feed. */
  function FirstLine(bs: bytes): (line: bytes)
    ensures line <= bs && (bs != [] ==> line != [])
  {
    if bs == [] then []
    else if bs[0] == LF then [LF]
    else [bs[0]] + FirstLine(bs[1..])
  }

  /** Where the first colon is, or the length. */
  function ColonAt(bs: bytes): (i: nat)
    ensures i <= |bs| && (forall j | 0 <= j < i :: bs[j] != COLON) && (i < |bs| ==> bs[i] == COLON)
  {
    if bs == [] || bs[0] == COLON then 0 else 1 + ColonAt(bs[1..])
  }

  predicate Ascii(bs: bytes) {
    forall i | 0 <= i < |bs| :: bs[i] < 128
  }

  datatype Problem = BadHeader | ClosedInHeaders | NoLength | ClosedMidFrame

  datatype Headers = Done(length: Option<bytes>, rest: bytes) | Broken(problem: Problem)

  /** What one header line adds. */
  function Noted(key: bytes, value: bytes, found: Option<bytes>): Option<bytes> {
    if Lower(Strip(key)) == CONTENT_LENGTH then Some(Strip(value)) else found
  }

  /** `found` is the content length given so far; the last one given counts. */
  function ReadHeaders(bs: bytes, found: Option<bytes>): Headers
    decreases |bs|
  {
    var line := FirstLine(bs);
    if line == [] then Broken(ClosedInHeaders)
    else if line == CRLF || line == [LF] then Done(found, bs[|line|..])
    else if !Ascii(line) || ColonAt(line) == |line| then Broken(BadHeader)
    else
      ReadHeaders(bs[|line|..], Noted(line[..ColonAt(line)], line[ColonAt(line) + 1..], found))
  }

  datatype Reading = Eof | Message(body: bytes, rest: bytes) | Malformed(problem: Problem)

  function ReadMessage(bs: bytes): (r: Reading)
    ensures r.Message? ==> |r.rest| < |bs|
  {
    if bs == [] then Eof
    else
      match ReadHeaders(bs, None)
      case Broken(problem) => Malformed(problem)
      case Done(length, rest) =>
        HeadersConsume(bs, None);
        var n := if length.None? then None else ParseInt(length.value);
        if n.None? then Malformed(NoLength)
        else if n.value <= 0 then Message([], rest)
        else if |rest| < n.value then Malformed(ClosedMidFrame)
        else Message(rest[..n.value], rest[n.value..])
  }

  lemma {:induction false} HeadersConsume(bs: bytes, found: Option<bytes>)
    ensures ReadHeaders(bs, found).Done? ==> |ReadHeaders(bs, found).rest| < |bs|
    decreases |bs|
  {
    var line := FirstLine(bs);
    if line != [] && line != CRLF && line != [LF] && Ascii(line) && ColonAt(line) < |line| {
      HeadersConsume(bs[|line|..], Noted(line[..ColonAt(line)], line[ColonAt(line) + 1..], found));
    }
  }

  /** All messages, and how reading ended. */
  function ReadAll(bs: bytes): (seq<bytes>, Reading)
    decreases |bs|
  {
    var r := ReadMessage(bs);
    if r.Message? then
      var (bodies, end) := ReadAll(r.rest);
      ([r.body] + bodies, end)
    else ([], r)
  }

  // ---- frames --------------------------------------------------------------------------------------------

  datatype Field = Field(name: bytes, value: bytes)

  datatype Frame = Frame(fields: seq<Field>, body: bytes)

  predicate Clean(bs: bytes) {
    forall i | 0 <= i < |bs| :: bs[i] < 128 && bs[i] != CR && bs[i] != LF
  }

  predicate CleanField(f: Field) {
    Clean(f.name) && Clean(f.value) && COLON !in f.name
  }

  function FieldLine(f: Field): bytes {
    f.name + [COLON] + f.value + CRLF
  }

  function HeaderBlock(fields: seq<Field>): bytes {
    if fields == [] then CRLF else FieldLine(fields[0]) + HeaderBlock(fields[1..])
  }

  function Bytes(f: Frame): bytes {
    HeaderBlock(f.fields) + f.body
  }

  /** What a header announces, given what it announced before. */
  function Announced(fields: seq<Field>, found: Option<bytes>): (length: Option<bytes>)
    ensures found.Some? ==> length.Some?
    decreases |fields|
  {
    if fields == [] then found else Announced(fields[1..], Noted(fields[0].name, fields[0].value, found))
  }

  /** Header fields without line breaks, whose lengths are numbers, the last of them the body's. */
  predicate WellFramed(f: Frame) {
    && (forall i | 0 <= i < |f.fields| :: CleanField(f.fields[i]) && NumberIfLength(f.fields[i]))
    && Announced(f.fields, None).Some? && ParseInt(Announced(f.fields, None).value) == Some(|f.body|)
  }

  predicate NumberIfLength(f: Field) {
    Lower(Strip(f.name)) == CONTENT_LENGTH ==> ParseInt(Strip(f.value)).Some?
  }

  function Concat(frames: seq<Frame>): bytes {
    if frames == [] then [] else Bytes(frames[0]) + Concat(frames[1..])
  }

  function Bodies(frames: seq<Frame>): seq<bytes> {
    if frames == [] then [] else [frames[0].body] + Bodies(frames[1..])
  }

  /** What the client writes. */
  function Sent(body: bytes): Frame {
    Frame([Field(CONTENT_LENGTH_FIELD, [32] + Digits(|body|))], body)
  }

  lemma SentIsWellFramed(body: bytes)
    ensures WellFramed(Sent(body))
  {
    LengthFieldName();
    PrintedLengthParses(|body|);
    OneLengthIsWellFramed(Sent(body).fields[0], body);
  }

  lemma LengthFieldName()
    ensures Clean(CONTENT_LENGTH_FIELD) && COLON !in CONTENT_LENGTH_FIELD
    ensures Lower(Strip(CONTENT_LENGTH_FIELD)) == CONTENT_LENGTH
  {
    assert !IsSpace(CONTENT_LENGTH_FIELD[0]) && !IsSpace(CONTENT_LENGTH_FIELD[13]);
    assert Lower(CONTENT_LENGTH_FIELD) == CONTENT_LENGTH;
  }

  lemma OneLengthIsWellFramed(f: Field, body: bytes)
    requires CleanField(f) && Lower(Strip(f.name)) == CONTENT_LENGTH && ParseInt(Strip(f.value)) == Some(|body|)
    ensures WellFramed(Frame([f], body))
  {
    assert [f][1..] == [];
    assert Announced([f], None) == Announced([], Some(Strip(f.value)));
  }

  // ---- lines of clean fields -----------------------------------------------------------------------------

  lemma {:induction false} LineOfClean(text: bytes, rest: bytes)
    requires LF !in text
    ensures FirstLine(text + [LF] + rest) == text + [LF]
    ensures FirstLine(text) == text
  {
    if text == [] {
      assert [] + [LF] + rest == [LF] + rest;
    } else {
      assert (text + [LF] + rest)[1..] == text[1..] + [LF] + rest;
      LineOfClean(text[1..], rest);
    }
  }

  lemma ColonOf(name: bytes, rest: bytes)
    requires COLON !in name
    ensures ColonAt(name + [COLON] + rest) == |name|
  {
    var bs := name + [COLON] + rest;
    assert bs[|name|] == COLON;
    assert forall j | 0 <= j < |name| :: bs[j] == name[j];
  }

  lemma StripDropsLineEnd(value: bytes)
    ensures Strip(value + CRLF) == Strip(value)
  {
    StripRightDropsLineEnd(StripLeft(value));
    StripLeftOfLine(value);
  }

  lemma StripRightDropsLineEnd(bs: bytes)
    ensures StripRight(bs + CRLF) == StripRight(bs)
    ensures StripRight(CRLF) == []
  {
    assert (bs + CRLF)[..|bs| + 1] == bs + [CR];
    assert (bs + [CR])[..|bs|] == bs;
    assert CRLF[..1] == [CR] && [CR][..0] == [];
    assert StripRight([CR]) == StripRight([]);
  }

  lemma {:induction false} StripLeftOfLine(value: bytes)
    ensures StripRight(StripLeft(value + CRLF)) == StripRight(StripLeft(value) + CRLF)
  {
    if value == [] {
      assert value + CRLF == CRLF && CRLF[1..] == [LF] && [LF][1..] == [];
      assert StripLeft(CRLF) == StripLeft([LF]) == StripLeft([]) == [];
      StripRightDropsLineEnd([]);
    } else if IsSpace(value[0]) {
      assert (value + CRLF)[1..] == value[1..] + CRLF;
      StripLeftOfLine(value[1..]);
    }
  }

  lemma LineReads(line: bytes, rest: bytes, found: Option<bytes>)
    requires FirstLine(line + rest) == line && line != [] && line != CRLF && line != [LF]
    requires Ascii(line) && ColonAt(line) < |line|
    ensures
      var colon := ColonAt(line);
      ReadHeaders(line + rest, found) == ReadHeaders(rest, Noted(line[..colon], line[colon + 1..], found))
  {
    assert (line + rest)[|line|..] == rest;
  }

  lemma FieldLineParts(f: Field, rest: bytes)
    requires CleanField(f)
    ensures
      var line := FieldLine(f);
      && FirstLine(line + rest) == line && COLON in line && Ascii(line) && ColonAt(line) == |f.name|
      && line[..|f.name|] == f.name && line[|f.name| + 1..] == f.value + CRLF
  {
    FieldLineEnds(f, rest);
    FieldLineColon(f);
  }

  lemma FieldLineEnds(f: Field, rest: bytes)
    requires CleanField(f)
    ensures FirstLine(FieldLine(f) + rest) == FieldLine(f) && Ascii(FieldLine(f))
  {
    var line, text := FieldLine(f), f.name + [COLON] + f.value + [CR];
    assert line == text + [LF] && line + rest == text + [LF] + rest;
    LineOfClean(text, rest);
  }

  lemma FieldLineColon(f: Field)
    requires CleanField(f)
    ensures
      var line := FieldLine(f);
      && ColonAt(line) == |f.name| && COLON in line
      && line[..|f.name|] == f.name && line[|f.name| + 1..] == f.value + CRLF
  {
    var line := FieldLine(f);
    assert line == f.name + [COLON] + (f.value + CRLF);
    ColonOf(f.name, f.value + CRLF);
    assert line[|f.name|] == COLON;
  }

  lemma FieldLineReads(f: Field, rest: bytes, found: Option<bytes>)
    requires CleanField(f)
    ensures ReadHeaders(FieldLine(f) + rest, found) == ReadHeaders(rest, Noted(f.name, f.value, found))
  {
    var line := FieldLine(f);
    FieldLineParts(f, rest);
    NotedAnyway(f.name, f.value, found);
    assert line != CRLF && line != [LF] by {
      assert COLON in line;
    }
    LineReads(line, rest, found);
  }

  lemma NotedAnyway(name: bytes, value: bytes, found: Option<bytes>)
    ensures Noted(name, value + CRLF, found) == Noted(name, value, found)
  {
    StripDropsLineEnd(value);
  }

  lemma {:induction false} HeaderBlockReads(fields: seq<Field>, rest: bytes, found: Option<bytes>)
    requires forall i | 0 <= i < |fields| :: CleanField(fields[i])
    ensures ReadHeaders(HeaderBlock(fields) + rest, found) == Done(Announced(fields, found), rest)
    decreases |fields|
  {
    if fields == [] {
      assert CRLF + rest == [CR] + [LF] + rest;
      LineOfClean([CR], rest);
      assert (CRLF + rest)[2..] == rest;
    } else {
      var f, tail := fields[0], HeaderBlock(fields[1..]);
      assert HeaderBlock(fields) + rest == FieldLine(f) + (tail + rest);
      FieldLineReads(f, tail + rest, found);
      HeaderBlockReads(fields[1..], rest, Noted(f.name, f.value, found));
    }
  }

  // ---- round trip --------------------------------------------------------------------------------------------

  lemma FrameReads(f: Frame, rest: bytes)
    requires WellFramed(f)
    ensures ReadMessage(Bytes(f) + rest) == Message(f.body, rest)
  {
    assert Bytes(f) + rest == HeaderBlock(f.fields) + (f.body + rest);
    HeaderBlockReads(f.fields, f.body + rest, None);
    assert (f.body + rest)[..|f.body|] == f.body && (f.body + rest)[|f.body|..] == rest;
  }

  /** Any list of frames is read back, body by body, and then the end of the stream. */
  lemma {:induction false} FramesRoundTrip(frames: seq<Frame>)
    requires forall f | f in frames :: WellFramed(f)
    ensures ReadAll(Concat(frames)) == (Bodies(frames), Eof)
    decreases |frames|
  {
    if frames != [] {
      FrameReads(frames[0], Concat(frames[1..]));
      FramesRoundTrip(frames[1..]);
    }
  }

  function SentAll(bodies: seq<bytes>): (frames: seq<Frame>)
    ensures |frames| == |bodies| && forall i | 0 <= i < |bodies| :: frames[i] == Sent(bodies[i])
  {
    if bodies == [] then [] else [Sent(bodies[0])] + SentAll(bodies[1..])
  }

  lemma {:induction false} BodiesOfSent(bodies: seq<bytes>)
    ensures Bodies(SentAll(bodies)) == bodies
  {
    if bodies != [] {
      BodiesOfSent(bodies[1..]);
    }
  }

  /** What a client writes, a client reads. */
  lemma SentRoundTrips(bodies: seq<bytes>)
    ensures ReadAll(Concat(SentAll(bodies))) == (bodies, Eof)
  {
    forall f | f in SentAll(bodies) ensures WellFramed(f) {
      var i :| 0 <= i < |bodies| && SentAll(bodies)[i] == f;
      SentIsWellFramed(bodies[i]);
    }
    FramesRoundTrip(SentAll(bodies));
    BodiesOfSent(bodies);
  }

  /** And nothing else has the same bytes. */
  lemma SentIsInjective(a: seq<bytes>, b: seq<bytes>)
    requires Concat(SentAll(a)) == Concat(SentAll(b))
    ensures a == b
  {
    SentRoundTrips(a);
    SentRoundTrips(b);
  }

  // ---- a stream that is cut ----------------------------------------------------------------------------------

  lemma CutLineBreaks(f: Field, cut: bytes, found: Option<bytes>)
    requires CleanField(f) && cut <= FieldLine(f) && |cut| < |FieldLine(f)|
    ensures ReadHeaders(cut, found).Broken?
  {
    assert LF !in cut by {
      assert FieldLine(f) == f.name + [COLON] + f.value + [CR] + [LF];
    }
    LineOfClean(cut, []);
    assert cut[|cut|..] == [];
    if cut != [] && cut != CRLF && cut != [LF] && Ascii(cut) && ColonAt(cut) < |cut| {
      assert ReadHeaders([], Noted(cut[..ColonAt(cut)], cut[ColonAt(cut) + 1..], found)).Broken?;
    }
  }

  lemma {:induction false} CutHeaderBreaks(fields: seq<Field>, cut: bytes, found: Option<bytes>)
    requires forall i | 0 <= i < |fields| :: CleanField(fields[i])
    requires cut <= HeaderBlock(fields) && |cut| < |HeaderBlock(fields)|
    ensures ReadHeaders(cut, found).Broken?
    decreases |fields|
  {
    if fields == [] {
      if cut != [] {
        assert cut == [CR];
        LineOfClean([CR], []);
        assert ColonAt([CR]) == 1;
      }
    } else {
      var f := fields[0];
      var line, tail := FieldLine(f), HeaderBlock(fields[1..]);
      if |cut| >= |line| {
        var rest := cut[|line|..];
        assert cut == line + rest && rest == tail[..|rest|];
        FieldLineReads(f, rest, found);
        CutHeaderBreaks(fields[1..], rest, Noted(f.name, f.value, found));
      } else {
        assert cut == line[..|cut|];
        CutLineBreaks(f, cut, found);
      }
    }
  }

  /** A frame cut anywhere but at its ends is an error, never another message nor an end of stream. */
  lemma CutFrameIsMalformed(f: Frame, cut: bytes)
    requires WellFramed(f) && cut <= Bytes(f) && 0 < |cut| < |Bytes(f)|
    ensures ReadMessage(cut).Malformed?
  {
    var block := HeaderBlock(f.fields);
    if |cut| < |block| {
      assert cut == block[..|cut|];
      CutHeaderBreaks(f.fields, cut, None);
    } else {
      var rest := cut[|block|..];
      assert cut == block + rest;
      HeaderBlockReads(f.fields, rest, None);
    }
  }

  lemma OneFrameMore(frames: seq<Frame>, j: nat)
    requires j < |frames|
    ensures Concat(frames[..j + 1]) == Bytes(frames[0]) + Concat(frames[1..][..j])
    ensures Bodies(frames[..j + 1]) == [frames[0].body] + Bodies(frames[1..][..j])
  {
    assert frames[..j + 1][1..] == frames[1..][..j];
  }

  /** The cut lies within frame `k`, or at its start; the frames before it are read, and reading
      ends cleanly exactly at its start. */
  ghost predicate ReadsUpTo(frames: seq<Frame>, cut: bytes, k: nat) {
    && k <= |frames| && ReadAll(cut).0 == Bodies(frames[..k])
    && Concat(frames[..k]) <= cut && (k < |frames| ==> |cut| < |Concat(frames[..k + 1])|)
    && if cut == Concat(frames[..k]) then ReadAll(cut).1 == Eof else ReadAll(cut).1.Malformed?
  }

  lemma CutInFirst(frames: seq<Frame>, cut: bytes)
    requires frames != [] && WellFramed(frames[0]) && cut <= Bytes(frames[0]) && |cut| < |Bytes(frames[0])|
    ensures ReadsUpTo(frames, cut, 0)
  {
    if cut != [] {
      CutFrameIsMalformed(frames[0], cut);
    }
    OneFrameMore(frames, 0);
  }

  lemma CutLater(frames: seq<Frame>, rest: bytes, j: nat)
    requires frames != [] && WellFramed(frames[0]) && ReadsUpTo(frames[1..], rest, j)
    ensures ReadsUpTo(frames, Bytes(frames[0]) + rest, j + 1)
  {
    var f := frames[0];
    FrameReads(f, rest);
    OneFrameMore(frames, j);
    if j + 1 < |frames| {
      OneFrameMore(frames, j + 1);
    }
    assert Bytes(f) + rest == Bytes(f) + Concat(frames[1..][..j]) <==> rest == Concat(frames[1..][..j]);
  }

  /** A stream cut anywhere still yields the messages that are complete, and ends cleanly exactly if
      it was cut between two frames. */
  lemma {:induction false} CutStream(frames: seq<Frame>, cut: bytes)
    requires (forall f | f in frames :: WellFramed(f)) && cut <= Concat(frames)
    ensures exists k :: ReadsUpTo(frames, cut, k)
    decreases |frames|
  {
    if frames == [] {
      assert ReadsUpTo(frames, cut, 0);
    } else {
      var whole := Bytes(frames[0]);
      if |cut| < |whole| {
        assert cut == whole[..|cut|];
        CutInFirst(frames, cut);
      } else {
        var rest := cut[|whole|..];
        assert cut == whole + rest;
        CutStream(frames[1..], rest);
        var j :| ReadsUpTo(frames[1..], rest, j);
        CutLater(frames, rest, j);
      }
    }
  }
}
