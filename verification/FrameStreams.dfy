/** Reading frames off a stream: the client's reader and the latency relay in front of it. */
module FrameStreams {
  import opened Common
  import opened Framing

  // ---- what the relay does with a stream ----------------------------------------------------------------

  predicate Terminated(headers: bytes) {
    |headers| >= 4 && headers[|headers| - 4..] == CRLF + CRLF
  }

  /** Bytes go into the header one at a time until it ends with an empty line. */
  function TakeHeaders(headers: bytes, rest: bytes): Option<(bytes, bytes)>
    decreases |rest|
  {
    if Terminated(headers) then Some((headers, rest))
    else if rest == [] then None
    else TakeHeaders(headers + [rest[0]], rest[1..])
  }

  /** Where the first line break is, or the length. */
  function BreakAt(text: bytes): (i: nat)
    ensures i <= |text| && (i == |text| || (i + 2 <= |text| && text[i] == CR && text[i + 1] == LF))
    ensures forall j | 0 <= j < i && j + 1 < |text| :: !(text[j] == CR && text[j + 1] == LF)
  {
    if text == [] then 0
    else if |text| >= 2 && text[0] == CR && text[1] == LF then 0
    else 1 + BreakAt(text[1..])
  }

  /** The last length in the header lines, `length` so far; none if one is not a number. */
  function HeaderLength(text: bytes, length: int): Option<int>
    decreases |text|
  {
    var line := text[..BreakAt(text)];
    var value := if ColonAt(line) < |line| then line[ColonAt(line) + 1..] else [];
    var now := if Lower(Strip(line[..ColonAt(line)])) == CONTENT_LENGTH then ParseInt(Strip(value)) else Some(length);
    if now.None? || BreakAt(text) == |text| then now else HeaderLength(text[BreakAt(text) + 2..], now.value)
  }

  datatype Relayed = Stop | Crash | Forward(message: bytes, rest: bytes)

  function RelayOne(bs: bytes): Relayed {
    match TakeHeaders([], bs)
    case None => Stop
    case Some((headers, rest)) =>
      var length := HeaderLength(headers, 0);
      if length.None? || length.value < -1 then Crash
      else if length.value == -1 || |rest| <= length.value then Forward(headers + rest, [])
      else Forward(headers + rest[..length.value], rest[length.value..])
  }

  lemma {:induction false} HeadersAreTaken(headers: bytes, rest: bytes)
    ensures
      var r := TakeHeaders(headers, rest);
      r.Some? ==> r.value.0 + r.value.1 == headers + rest && |r.value.1| <= |rest| && Terminated(r.value.0)
    decreases |rest|
  {
    if !Terminated(headers) && rest != [] {
      HeadersAreTaken(headers + [rest[0]], rest[1..]);
      assert headers + [rest[0]] + rest[1..] == headers + rest;
    }
  }

  lemma ForwardsAPrefix(bs: bytes)
    ensures RelayOne(bs).Forward? ==> RelayOne(bs).message + RelayOne(bs).rest == bs && |RelayOne(bs).rest| < |bs|
  {
    HeadersAreTaken([], bs);
    assert [] + bs == bs;
  }

  function RelayAll(bs: bytes): bytes
    decreases |bs|
  {
    ForwardsAPrefix(bs);
    var r := RelayOne(bs);
    if r.Forward? then r.message + RelayAll(r.rest) else []
  }

  /** The relay never invents, drops or reorders a byte before the point it stops at. */
  lemma {:induction false} RelayedIsAPrefix(bs: bytes)
    ensures RelayAll(bs) <= bs
    decreases |bs|
  {
    ForwardsAPrefix(bs);
    var r := RelayOne(bs);
    if r.Forward? {
      RelayedIsAPrefix(r.rest);
      assert bs == r.message + RelayAll(r.rest) + r.rest[|RelayAll(r.rest)|..];
    }
  }

  // ---- the header block ends where the relay thinks it does -----------------------------------------------------

  /** Past a line feed in the block comes a name, or the final line break. */
  lemma {:induction false} NoEarlyBreak(fields: seq<Field>, i: nat)
    requires forall k | 0 <= k < |fields| :: CleanField(fields[k])
    requires i + 1 < |HeaderBlock(fields)| - 2 && HeaderBlock(fields)[i] == LF
    ensures HeaderBlock(fields)[i + 1] != CR
    decreases |fields|
  {
    if fields != [] {
      var line, block := FieldLine(fields[0]), HeaderBlock(fields[1..]);
      if i >= |line| {
        NoEarlyBreak(fields[1..], i - |line|);
      } else {
        OnlyLastIsLineFeed(fields[0], i);
        if fields[1..] != [] {
          StartsWithAName(fields[1..]);
        }
      }
    }
  }

  lemma OnlyLastIsLineFeed(f: Field, i: nat)
    requires CleanField(f) && i < |FieldLine(f)| && FieldLine(f)[i] == LF
    ensures i == |FieldLine(f)| - 1
  {
    assert FieldLine(f) == f.name + [COLON] + f.value + [CR] + [LF];
  }

  lemma StartsWithAName(fields: seq<Field>)
    requires fields != [] && CleanField(fields[0])
    ensures HeaderBlock(fields)[0] != CR
  {
    if fields[0].name == [] {
      assert FieldLine(fields[0])[0] == COLON;
    } else {
      assert FieldLine(fields[0])[0] == fields[0].name[0];
    }
  }

  lemma {:induction false} BlockEndsWithBreak(fields: seq<Field>)
    ensures |HeaderBlock(fields)| >= 2 && HeaderBlock(fields)[|HeaderBlock(fields)| - 2..] == CRLF
    ensures fields != [] ==> Terminated(HeaderBlock(fields))
    decreases |fields|
  {
    if fields != [] {
      var line, block := FieldLine(fields[0]), HeaderBlock(fields[1..]);
      BlockEndsWithBreak(fields[1..]);
      assert (line + block)[|line + block| - 2..] == block[|block| - 2..];
      if fields[1..] == [] {
        assert line == (fields[0].name + [COLON] + fields[0].value) + CRLF;
        assert (line + block)[|line + block| - 4..] == CRLF + CRLF;
      } else {
        assert (line + block)[|line + block| - 4..] == block[|block| - 4..];
      }
    }
  }

  lemma NotTerminatedBefore(fields: seq<Field>, i: nat)
    requires (forall k | 0 <= k < |fields| :: CleanField(fields[k])) && i < |HeaderBlock(fields)|
    ensures !Terminated(HeaderBlock(fields)[..i])
  {
    var block := HeaderBlock(fields);
    if i >= 4 && block[i - 3] == LF {
      NoEarlyBreak(fields, i - 3);
      assert block[..i][i - 4..][2] == block[i - 2];
    } else if i >= 4 {
      assert block[..i][i - 4..][1] == block[i - 3];
    }
  }

  lemma {:induction false} HeadersEndAt(headers: bytes, rest: bytes, k: nat)
    requires k <= |rest| && forall i | 0 <= i < k :: !Terminated(headers + rest[..i])
    ensures Terminated(headers + rest[..k]) ==> TakeHeaders(headers, rest) == Some((headers + rest[..k], rest[k..]))
    ensures !Terminated(headers + rest[..k]) && k == |rest| ==> TakeHeaders(headers, rest) == None
    decreases k
  {
    assert headers + rest[..0] == headers;
    if k > 0 {
      assert !Terminated(headers + rest[..0]);
      forall i | 0 <= i <= k - 1 ensures headers + [rest[0]] + rest[1..][..i] == headers + rest[..i + 1] {
      }
      HeadersEndAt(headers + [rest[0]], rest[1..], k - 1);
      assert rest[1..][k - 1..] == rest[k..];
    }
  }

  lemma BlockIsTaken(fields: seq<Field>, rest: bytes)
    requires fields != [] && forall k | 0 <= k < |fields| :: CleanField(fields[k])
    ensures TakeHeaders([], HeaderBlock(fields) + rest) == Some((HeaderBlock(fields), rest))
  {
    var block := HeaderBlock(fields);
    var bs := block + rest;
    forall i | 0 <= i < |block| ensures !Terminated([] + bs[..i]) {
      NotTerminatedBefore(fields, i);
      assert [] + bs[..i] == block[..i];
    }
    BlockEndsWithBreak(fields);
    assert [] + bs[..|block|] == block && bs[|block|..] == rest;
    HeadersEndAt([], bs, |block|);
  }

  lemma CutBlockIsNotTaken(fields: seq<Field>, cut: bytes)
    requires forall k | 0 <= k < |fields| :: CleanField(fields[k])
    requires cut <= HeaderBlock(fields) && |cut| < |HeaderBlock(fields)|
    ensures TakeHeaders([], cut) == None
  {
    var block := HeaderBlock(fields);
    forall i | 0 <= i <= |cut| ensures !Terminated([] + cut[..i]) {
      NotTerminatedBefore(fields, i);
      assert [] + cut[..i] == block[..i];
    }
    HeadersEndAt([], cut, |cut|);
  }

  // ---- and it sees the same length ----------------------------------------------------------------------------------

  lemma FieldBreaks(f: Field, rest: bytes)
    requires CleanField(f)
    ensures
      var line := f.name + [COLON] + f.value;
      && BreakAt(FieldLine(f) + rest) == |line|
      && (FieldLine(f) + rest)[..|line|] == line && (FieldLine(f) + rest)[|line| + 2..] == rest
      && ColonAt(line) == |f.name| && line[..|f.name|] == f.name && line[|f.name| + 1..] == f.value
  {
    var line := f.name + [COLON] + f.value;
    var text := FieldLine(f) + rest;
    assert text == line + [CR] + [LF] + rest;
    assert text[|line|] == CR && text[|line| + 1] == LF;
    assert forall j | 0 <= j < |line| :: text[j] == line[j] != CR;
    ColonOf(f.name, f.value);
  }

  lemma FieldIsSeen(f: Field, rest: bytes, length: int)
    requires CleanField(f) && NumberIfLength(f)
    ensures
      HeaderLength(FieldLine(f) + rest, length) ==
      HeaderLength(rest, if Lower(Strip(f.name)) == CONTENT_LENGTH then ParseInt(Strip(f.value)).value else length)
  {
    FieldBreaks(f, rest);
  }

  lemma {:induction false} LengthIsSeen(fields: seq<Field>, length: int, found: Option<bytes>)
    requires forall k | 0 <= k < |fields| :: CleanField(fields[k]) && NumberIfLength(fields[k])
    requires found.Some? ==> ParseInt(found.value) == Some(length)
    ensures
      var seen := HeaderLength(HeaderBlock(fields), length);
      if Announced(fields, found).Some? then seen == ParseInt(Announced(fields, found).value) else seen == Some(length)
    decreases |fields|
  {
    if fields == [] {
      EmptyLineCounts(length);
    } else {
      var f := fields[0];
      FieldIsSeen(f, HeaderBlock(fields[1..]), length);
      var noted := Noted(f.name, f.value, found);
      var now := if Lower(Strip(f.name)) == CONTENT_LENGTH then ParseInt(Strip(f.value)).value else length;
      LengthIsSeen(fields[1..], now, noted);
    }
  }

  lemma EmptyLineCounts(length: int)
    ensures HeaderLength(CRLF, length) == Some(length)
  {
    assert CRLF[..0] == [] && CRLF[2..] == [] && |Lower([])| == 0;
    assert BreakAt(CRLF) == 0;
    assert HeaderLength([], length) == Some(length) by {
      var none: bytes := [];
      assert none[..0] == [];
    }
  }

  // ---- the relay is transparent -------------------------------------------------------------------------------------

  lemma FrameIsRelayed(f: Frame, rest: bytes)
    requires WellFramed(f)
    ensures RelayOne(Bytes(f) + rest) == Forward(Bytes(f), rest)
  {
    var block := HeaderBlock(f.fields);
    assert Bytes(f) + rest == block + (f.body + rest);
    BlockIsTaken(f.fields, f.body + rest);
    LengthIsSeen(f.fields, 0, None);
    assert (f.body + rest)[..|f.body|] == f.body && (f.body + rest)[|f.body|..] == rest;
    assert rest == [] ==> f.body + rest == f.body;
  }

  /** A stream of frames goes through byte for byte. */
  lemma {:induction false} FramesAreRelayed(frames: seq<Frame>)
    requires forall f | f in frames :: WellFramed(f)
    ensures RelayAll(Concat(frames)) == Concat(frames)
    decreases |frames|
  {
    if frames == [] {
      assert TakeHeaders([], []) == None;
    } else {
      FrameIsRelayed(frames[0], Concat(frames[1..]));
      FramesAreRelayed(frames[1..]);
    }
  }

  /** A client behind the relay reads what a client in its place would. */
  lemma RelayIsTransparent(frames: seq<Frame>)
    requires forall f | f in frames :: WellFramed(f)
    ensures ReadAll(RelayAll(Concat(frames))) == (Bodies(frames), Eof)
  {
    FramesAreRelayed(frames);
    FramesRoundTrip(frames);
  }

  /** The bytes of a frame that broke off: the relay passes on a cut body, but swallows a cut header. */
  lemma CutFrameIsRelayed(f: Frame, cut: bytes)
    requires WellFramed(f) && cut <= Bytes(f) && |cut| < |Bytes(f)|
    ensures RelayAll(cut) == if |cut| < |HeaderBlock(f.fields)| then [] else cut
  {
    CutOfTwo(HeaderBlock(f.fields), f.body, cut);
    if |cut| < |HeaderBlock(f.fields)| {
      CutHeaderIsSwallowed(f.fields, cut);
    } else {
      CutBodyIsRelayed(f, cut[|HeaderBlock(f.fields)|..]);
    }
  }

  lemma CutOfTwo(a: bytes, b: bytes, cut: bytes)
    requires cut <= a + b
    ensures |cut| < |a| ==> cut <= a
    ensures |cut| >= |a| ==> cut == a + cut[|a|..]
  {
    if |cut| < |a| {
      assert cut == a[..|cut|];
    }
  }

  lemma CutHeaderIsSwallowed(fields: seq<Field>, cut: bytes)
    requires forall k | 0 <= k < |fields| :: CleanField(fields[k])
    requires cut <= HeaderBlock(fields) && |cut| < |HeaderBlock(fields)|
    ensures RelayAll(cut) == []
  {
    CutBlockIsNotTaken(fields, cut);
  }

  lemma CutBodyIsRelayed(f: Frame, rest: bytes)
    requires WellFramed(f) && |rest| < |f.body|
    ensures RelayAll(HeaderBlock(f.fields) + rest) == HeaderBlock(f.fields) + rest
  {
    BlockIsTaken(f.fields, rest);
    LengthIsSeen(f.fields, 0, None);
    OneForward(HeaderBlock(f.fields) + rest);
  }

  lemma OneForward(bs: bytes)
    requires RelayOne(bs) == Forward(bs, [])
    ensures RelayAll(bs) == bs
  {
    assert TakeHeaders([], []) == None;
    assert bs + [] == bs;
  }

  /** The stream broke off inside the header of a frame. */
  predicate BreaksInHeader(frames: seq<Frame>, cut: bytes)
    decreases |frames|
  {
    if frames == [] then false
    else if |cut| < |Bytes(frames[0])| then 0 < |cut| < |HeaderBlock(frames[0].fields)|
    else BreaksInHeader(frames[1..], cut[|Bytes(frames[0])|..])
  }

  /** All messages arrive through the relay; and it shows how the stream ended, or, when `hidden`,
      a clean end in place of an error. */
  ghost predicate Relays(bs: bytes, hidden: bool) {
    var direct, relayed := ReadAll(bs), ReadAll(RelayAll(bs));
    relayed.0 == direct.0 && if hidden then relayed.1 == Eof && direct.1.Malformed? else relayed.1 == direct.1
  }

  lemma CutFrameRelays(f: Frame, cut: bytes)
    requires WellFramed(f) && cut <= Bytes(f) && |cut| < |Bytes(f)|
    ensures Relays(cut, 0 < |cut| < |HeaderBlock(f.fields)|)
  {
    CutFrameIsRelayed(f, cut);
    if cut != [] {
      CutFrameIsMalformed(f, cut);
    }
  }

  lemma FrameRelays(f: Frame, rest: bytes, hidden: bool)
    requires WellFramed(f) && Relays(rest, hidden)
    ensures Relays(Bytes(f) + rest, hidden)
  {
    FrameIsRelayed(f, rest);
    FrameReads(f, rest);
    FrameReads(f, RelayAll(rest));
  }

  lemma {:induction false} CutStreamRelays(frames: seq<Frame>, cut: bytes)
    requires (forall f | f in frames :: WellFramed(f)) && cut <= Concat(frames)
    ensures Relays(cut, BreaksInHeader(frames, cut))
    decreases |frames|
  {
    if frames == [] {
      assert TakeHeaders([], []) == None;
    } else {
      var whole := Bytes(frames[0]);
      if |cut| < |whole| {
        assert cut == whole[..|cut|];
        CutFrameRelays(frames[0], cut);
      } else {
        var rest := cut[|whole|..];
        assert cut == whole + rest;
        CutStreamRelays(frames[1..], rest);
        FrameRelays(frames[0], rest, BreaksInHeader(frames[1..], rest));
      }
    }
  }

  /** Cut anywhere, a stream of frames loses no message to the relay, and a client behind it reads
      exactly what it would read in its place unless the stream broke off inside a header; then, and
      only then, an error looks like a clean end. */
  lemma CutStreamIsRelayed(frames: seq<Frame>, cut: bytes)
    requires (forall f | f in frames :: WellFramed(f)) && cut <= Concat(frames)
    ensures ReadAll(RelayAll(cut)).0 == ReadAll(cut).0
    ensures ReadAll(RelayAll(cut)) == ReadAll(cut) <==> !BreaksInHeader(frames, cut)
    ensures BreaksInHeader(frames, cut) <==> ReadAll(cut).1.Malformed? && ReadAll(RelayAll(cut)).1 == Eof
  {
    CutStreamRelays(frames, cut);
  }

  /** The first byte of a message alone is such a stream. */
  lemma LoneByteIsHidden(body: bytes)
    ensures
      var cut := Bytes(Sent(body))[..1];
      && ReadAll(cut).0 == [] && ReadAll(cut).1.Malformed?
      && ReadAll(RelayAll(cut)) == ([], Eof)
  {
    var f := Sent(body);
    SentIsWellFramed(body);
    BlockEndsWithBreak(f.fields);
    CutFrameRelays(f, Bytes(f)[..1]);
  }

  // ---- the loops -------------------------------------------------------------------------------------------

  /** A pipe; a read may come back short, and empty only at the end. */
  class Pipe {
    var rest: bytes

    constructor (bs: bytes)
      ensures rest == bs
    {
      rest := bs;
    }

    method Read(n: nat) returns (chunk: bytes)
      requires n > 0
      modifies this
      ensures chunk + rest == old(rest) && |chunk| <= n && (chunk == [] <==> old(rest) == [])
    {
      if rest == [] {
        return [];
      }
      var k :| 1 <= k <= n && k <= |rest|;
      chunk := rest[..k];
      rest := rest[k..];
    }

    method ReadLine() returns (line: bytes)
      modifies this
      ensures line == FirstLine(old(rest)) && rest == old(rest)[|line|..]
    {
      line := FirstLine(rest);
      rest := rest[|line|..];
    }

    /** Collects chunks until all `n` bytes are there. */
    method ReadExact(n: int) returns (body: Option<bytes>)
      modifies this
      ensures n <= 0 ==> body == Some([]) && rest == old(rest)
      ensures n > 0 && n <= |old(rest)| ==> body == Some(old(rest)[..n]) && rest == old(rest)[n..]
      ensures n > |old(rest)| && n > 0 ==> body == None
    {
      var chunks: bytes := [];
      var remaining := n;
      while remaining > 0
        invariant chunks + rest == old(rest)
        invariant n > 0 ==> remaining == n - |chunks| >= 0
        invariant n <= 0 ==> chunks == []
        decreases remaining
      {
        var chunk := Read(remaining);
        if chunk == [] {
          return None;
        }
        chunks := chunks + chunk;
        remaining := remaining - |chunk|;
      }
      body := Some(chunks);
    }

    /** All bytes up to `n`, or to the end. */
    method ReadUpTo(n: nat) returns (bs: bytes)
      modifies this
      ensures bs == old(rest)[..if n < |old(rest)| then n else |old(rest)|]
      ensures rest == old(rest)[|bs|..]
    {
      var k := if n < |rest| then n else |rest|;
      bs := rest[..k];
      rest := rest[k..];
    }
  }

  lemma NextLine(bs: bytes)
    ensures FirstLine(bs) + bs[|FirstLine(bs)|..] == bs
  {
  }

  /** The lines up to the empty one, the first already read. */
  method ReceiveHeaders(pipe: Pipe, first: bytes) returns (h: Headers)
    requires first != [] && FirstLine(first + pipe.rest) == first
    modifies pipe
    ensures h == ReadHeaders(first + old(pipe.rest), None)
    ensures h.Done? ==> pipe.rest == h.rest
  {
    var line, length := first, None;
    while line != CRLF && line != [LF]
      invariant line != [] && FirstLine(line + pipe.rest) == line
      invariant ReadHeaders(line + pipe.rest, length) == ReadHeaders(first + old(pipe.rest), None)
      decreases |pipe.rest|
    {
      if !Ascii(line) || ColonAt(line) == |line| {
        return Broken(BadHeader);
      }
      LineReads(line, pipe.rest, length);
      NextLine(pipe.rest);
      length := Noted(line[..ColonAt(line)], line[ColonAt(line) + 1..], length);
      line := pipe.ReadLine();
      if line == [] {
        return Broken(ClosedInHeaders);
      }
    }
    assert (line + pipe.rest)[|line|..] == pipe.rest;
    h := Done(length, pipe.rest);
  }

  /** One message, or how the stream ended. */
  method ReceiveMessage(pipe: Pipe) returns (r: Reading)
    modifies pipe
    ensures r == ReadMessage(old(pipe.rest))
    ensures r.Message? ==> pipe.rest == r.rest
  {
    NextLine(pipe.rest);
    var line := pipe.ReadLine();
    if line == [] {
      return Eof;
    }
    var headers := ReceiveHeaders(pipe, line);
    if headers.Broken? {
      return Malformed(headers.problem);
    }
    var n := if headers.length.None? then None else ParseInt(headers.length.value);
    if n.None? {
      return Malformed(NoLength);
    }
    var body := pipe.ReadExact(n.value);
    if body.None? {
      return Malformed(ClosedMidFrame);
    }
    r := Message(body.value, pipe.rest);
  }

  /** All that is still to come, the next message already read. */
  function Remaining(next: Reading): (seq<bytes>, Reading) {
    if next.Message? then ([next.body] + ReadAll(next.rest).0, ReadAll(next.rest).1) else ([], next)
  }

  lemma ReadAllFrom(bs: bytes)
    ensures ReadAll(bs) == Remaining(ReadMessage(bs))
  {
  }

  /** The reader thread: every message in order, and what ended it. */
  method ReceiveAll(pipe: Pipe) returns (bodies: seq<bytes>, end: Reading)
    modifies pipe
    ensures bodies == ReadAll(old(pipe.rest)).0 && end == ReadAll(old(pipe.rest)).1
  {
    bodies := [];
    ghost var all := ReadAll(pipe.rest);
    ReadAllFrom(pipe.rest);
    end := ReceiveMessage(pipe);
    while end.Message?
      invariant end.Message? ==> pipe.rest == end.rest
      invariant bodies + Remaining(end).0 == all.0 && Remaining(end).1 == all.1
      decreases end.Message?, |pipe.rest|
    {
      ReadAllFrom(pipe.rest);
      Regroup(bodies, end.body, ReadAll(end.rest).0);
      bodies := bodies + [end.body];
      end := ReceiveMessage(pipe);
    }
    assert bodies + [] == bodies;
  }

  lemma Regroup(a: seq<bytes>, b: bytes, c: seq<bytes>)
    ensures a + ([b] + c) == a + [b] + c
  {
  }

  /** The relay reads a message byte by byte up to the end of its header. */
  method ReadLsp(pipe: Pipe) returns (r: Relayed)
    modifies pipe
    ensures r == RelayOne(old(pipe.rest))
    ensures r.Forward? ==> pipe.rest == r.rest
  {
    var headers: bytes := [];
    while !Terminated(headers)
      invariant TakeHeaders(headers, pipe.rest) == TakeHeaders([], old(pipe.rest))
      decreases |pipe.rest|
    {
      ghost var rest := pipe.rest;
      var b := pipe.Read(1);
      if b == [] {
        return Stop;
      }
      assert b == [rest[0]] && rest[1..] == pipe.rest;
      headers := headers + b;
    }
    var length := HeaderLength(headers, 0);
    if length.None? || length.value < -1 {
      return Crash;
    }
    var body := pipe.ReadUpTo(if length.value == -1 then |pipe.rest| else length.value);
    r := Forward(headers + body, pipe.rest);
  }

  /** The forwarding loop, while the client keeps reading. */
  method Forwarding(pipe: Pipe) returns (out: bytes)
    modifies pipe
    ensures out == RelayAll(old(pipe.rest))
    ensures out <= old(pipe.rest)
  {
    out := [];
    ghost var bs := pipe.rest;
    RelayedIsAPrefix(bs);
    ForwardsAPrefix(bs);
    var r := ReadLsp(pipe);
    while r.Forward?
      invariant r.Forward? ==> pipe.rest == r.rest
      invariant RelayAll(bs) == if r.Forward? then out + r.message + RelayAll(r.rest) else out
      decreases r.Forward?, |pipe.rest|
    {
      out := out + r.message;
      ghost var rest := pipe.rest;
      ForwardsAPrefix(rest);
      r := ReadLsp(pipe);
    }
  }
}
