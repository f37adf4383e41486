/** What the parts of a frame mean: numbers, header names, and how a frame that is not well-formed is
    read and relayed. */
module FramingLaws {
  import opened Common
  import opened Framing
  import opened FrameStreams

  // ---- numbers ---------------------------------------------------------------------------------------

  predicate IsDigit(b: byte) { 48 <= b <= 57 }

  /** Digits, with single underscores between them. */
  predicate Numeral(bs: bytes) {
    && bs != [] && IsDigit(bs[0]) && IsDigit(bs[|bs| - 1])
    && (forall i | 0 <= i < |bs| :: IsDigit(bs[i]) || bs[i] == 95)
    && forall i | 0 < i < |bs| :: IsDigit(bs[i]) || IsDigit(bs[i - 1])
  }

  lemma {:induction false} NumeralsParse(bs: bytes)
    ensures ParseDigits(bs).Some? <==> Numeral(bs)
    decreases |bs|
  {
    if bs != [] && IsDigit(bs[|bs| - 1]) && |bs| > 1 {
      var n := |bs| - 1;
      var front := if bs[n - 1] == 95 then bs[..n - 1] else bs[..n];
      NumeralsParse(front);
      if Numeral(front) {
        assert forall i | 0 <= i < |front| :: bs[i] == front[i];
        if bs[n - 1] == 95 {
          assert IsDigit(front[|front| - 1]) && front[|front| - 1] == bs[n - 2];
        }
        assert Numeral(bs);
      }
      if Numeral(bs) {
        if bs[n - 1] == 95 {
          assert IsDigit(bs[n - 1]) || IsDigit(bs[n - 2]);
          assert n - 1 > 0;
        }
        assert front[|front| - 1] == bs[|front| - 1];
        assert Numeral(front);
      }
    }
  }

  /** One more digit shifts the number by one place; an underscore before it says nothing. */
  lemma DigitShifts(bs: bytes, digit: byte)
    requires Numeral(bs) && IsDigit(digit)
    ensures ParseDigits(bs).Some?
    ensures
      var digits := ParseDigits(bs + [digit]);
      digits.Some? && digits.value == 10 * ParseDigits(bs).value + (digit - 48)
    ensures ParseDigits(bs + [95, digit]) == ParseDigits(bs + [digit])
  {
    NumeralsParse(bs);
    var a, b := bs + [digit], bs + [95, digit];
    assert a[..|a| - 1] == bs && b[..|b| - 2] == bs;
    assert a[|a| - 2] == bs[|bs| - 1] && a[|a| - 1] == digit && b[|b| - 1] == digit && b[|b| - 2] == 95;
  }

  lemma OneDigit(digit: byte)
    requires IsDigit(digit)
    ensures ParseDigits([digit]).Some? && ParseDigits([digit]).value == digit - 48
  {
  }

  /** A sign may stand before the digits. */
  lemma SignsCount(bs: bytes)
    requires Numeral(bs)
    ensures ParseDigits(bs).Some?
    ensures ParseInt(bs) == Some(ParseDigits(bs).value)
    ensures ParseInt([43] + bs) == Some(ParseDigits(bs).value)
    ensures ParseInt([45] + bs).Some? && ParseInt([45] + bs).value == 0 - ParseDigits(bs).value
  {
    NumeralsParse(bs);
    assert ([43] + bs)[1..] == bs && ([45] + bs)[1..] == bs;
  }

  // ---- header names -------------------------------------------------------------------------------------

  /** The same letter, or the two cases of one. */
  predicate SameLetter(a: byte, b: byte) {
    a == b || (65 <= a <= 90 && b == a + 32) || (65 <= b <= 90 && a == b + 32)
  }

  /** Names are compared letter by letter, whatever their case. */
  lemma CaseDoesNotMatter(a: bytes, b: bytes)
    ensures Lower(a) == Lower(b) <==> |a| == |b| && forall i | 0 <= i < |a| :: SameLetter(a[i], b[i])
  {
    if Lower(a) == Lower(b) {
      assert |Lower(a)| == |a| && |Lower(b)| == |b|;
      forall i | 0 <= i < |a| ensures SameLetter(a[i], b[i]) {
        assert Lower(a)[i] == Lower(b)[i];
      }
    }
  }

  lemma {:induction false} LeadingSpaceGoes(space: bytes, text: bytes)
    requires (forall i | 0 <= i < |space| :: IsSpace(space[i])) && (text != [] ==> !IsSpace(text[0]))
    ensures StripLeft(space + text) == text
    decreases |space|
  {
    if space == [] {
      assert space + text == text;
    } else {
      assert (space + text)[1..] == space[1..] + text;
      LeadingSpaceGoes(space[1..], text);
    }
  }

  lemma {:induction false} TrailingSpaceGoes(text: bytes, space: bytes)
    requires (forall i | 0 <= i < |space| :: IsSpace(space[i])) && (text != [] ==> !IsSpace(text[|text| - 1]))
    ensures StripRight(text + space) == text
    decreases |space|
  {
    if space == [] {
      assert text + space == text;
    } else {
      assert (text + space)[..|text + space| - 1] == text + space[..|space| - 1];
      TrailingSpaceGoes(text, space[..|space| - 1]);
    }
  }

  /** The ten ASCII characters that are white space to Python. */
  predicate Blank(b: byte) {
    b in {9, 10, 11, 12, 13, 28, 29, 30, 31, 32}
  }

  /** White space around a name or a value is no part of it. */
  lemma SpaceAroundGoes(before: bytes, text: bytes, after: bytes)
    requires (forall i | 0 <= i < |before| :: Blank(before[i])) && forall i | 0 <= i < |after| :: Blank(after[i])
    requires text != [] && !Blank(text[0]) && !Blank(text[|text| - 1])
    ensures Strip(before + text + after) == text
  {
    assert before + text + after == before + (text + after);
    LeadingSpaceGoes(before, text + after);
    TrailingSpaceGoes(text, after);
  }

  /** The field's name is "Content-Length", in any case and with any white space around. */
  predicate NamesLength(f: Field) {
    Lower(Strip(f.name)) == Lower([67, 111, 110, 116, 101, 110, 116, 45, 76, 101, 110, 103, 116, 104])
  }

  /** Of several lengths the last is the one that counts; none before it matters. */
  lemma {:induction false} LastLengthCounts(fields: seq<Field>, found: Option<bytes>, k: nat)
    requires forall j | k < j < |fields| :: !NamesLength(fields[j])
    requires k < |fields| ==> NamesLength(fields[k])
    ensures k < |fields| ==> Announced(fields, found) == Some(Strip(fields[k].value))
    ensures (forall j | 0 <= j < |fields| :: !NamesLength(fields[j])) ==> Announced(fields, found) == found
    decreases |fields|
  {
    assert Lower([67, 111, 110, 116, 101, 110, 116, 45, 76, 101, 110, 103, 116, 104]) == CONTENT_LENGTH;
    if fields != [] {
      var now := Noted(fields[0].name, fields[0].value, found);
      if k > 0 {
        LastLengthCounts(fields[1..], now, k - 1);
      } else {
        LastLengthCounts(fields[1..], now, |fields|);
      }
    }
  }

  // ---- frames that are not well-formed -------------------------------------------------------------------

  /** What is read behind clean header fields is decided by the length they announce. */
  lemma ReadByLength(fields: seq<Field>, rest: bytes)
    requires forall i | 0 <= i < |fields| :: CleanField(fields[i])
    ensures
      var length := Announced(fields, None);
      var n := if length.None? then None else ParseInt(length.value);
      ReadMessage(HeaderBlock(fields) + rest) ==
      if n.None? then Malformed(NoLength)
      else if n.value <= 0 then Message([], rest)
      else if |rest| < n.value then Malformed(ClosedMidFrame)
      else Message(rest[..n.value], rest[n.value..])
  {
    HeaderBlockReads(fields, rest, None);
    assert HeaderBlock(fields) + rest != [] by {
      BlockIsNotEmpty(fields);
    }
  }

  lemma BlockIsNotEmpty(fields: seq<Field>)
    ensures HeaderBlock(fields) != []
  {
  }

  /** An empty line ends the headers, with or without a carriage return. */
  lemma EmptyLineEndsHeaders(rest: bytes, found: Option<bytes>)
    ensures ReadHeaders([13, 10] + rest, found) == Done(found, rest)
    ensures ReadHeaders([10] + rest, found) == Done(found, rest)
  {
    LineOfClean([13], rest);
    LineOfClean([], rest);
    assert [13] + [LF] == [13, 10] && [] + [LF] == [10];
    assert ([13, 10] + rest)[2..] == rest && ([10] + rest)[1..] == rest;
  }

  /** A line without a colon is no header. */
  lemma LineWithoutColon(line: bytes, rest: bytes)
    requires LF !in line && COLON !in line && line != [] && line != [CR]
    ensures ReadMessage(line + [LF] + rest) == Malformed(BadHeader)
  {
    LineOfClean(line, rest);
    var whole := line + [LF];
    assert FirstLine(whole + rest) == whole && COLON !in whole;
    assert whole != CRLF && whole != [LF] by {
      assert whole[..|whole| - 1] == line;
    }
    assert ColonAt(whole) == |whole|;
  }

  /** A header cut before its colon is no header; cut behind it, the stream is closed among headers. */
  lemma CutFieldReads(f: Field, cut: bytes, found: Option<bytes>)
    requires CleanField(f) && 0 < |cut| < |FieldLine(f)| && cut <= FieldLine(f)
    ensures ReadHeaders(cut, found) == Broken(if |cut| <= |f.name| then BadHeader else ClosedInHeaders)
  {
    var line := FieldLine(f);
    assert line == f.name + [COLON] + f.value + [CR] + [LF];
    assert LF !in cut;
    LineOfClean(cut, []);
    assert cut[|cut|..] == [];
    assert forall i | 0 <= i < |cut| :: cut[i] == line[i];
    assert Ascii(cut);
    if |cut| <= |f.name| {
      assert forall i | 0 <= i < |cut| :: cut[i] == f.name[i];
      assert ColonAt(cut) == |cut| && cut != CRLF && cut != [LF];
    } else {
      assert cut[|f.name|] == COLON;
      assert cut != CRLF && cut != [LF] && ColonAt(cut) < |cut|;
    }
  }

  /** What is relayed of such a frame: nothing more if its length is below -1, all there is for -1, and
      else as much as is announced and there; 0 is announced by a frame without a length. */
  lemma RelayByLength(fields: seq<Field>, rest: bytes)
    requires fields != [] && forall i | 0 <= i < |fields| :: CleanField(fields[i]) && NumberIfLength(fields[i])
    ensures
      var length := Announced(fields, None);
      var n := if length.None? || ParseInt(length.value).None? then 0 else ParseInt(length.value).value;
      RelayOne(HeaderBlock(fields) + rest) ==
      if n < -1 then Crash
      else if n == -1 || |rest| <= n then Forward(HeaderBlock(fields) + rest, [])
      else Forward(HeaderBlock(fields) + rest[..n], rest[n..])
  {
    BlockIsTaken(fields, rest);
    LengthIsSeen(fields, 0, None);
    var length := Announced(fields, None);
    assert HeaderLength(HeaderBlock(fields), 0) == if length.None? then Some(0) else ParseInt(length.value);
    if length.Some? {
      LengthsAreNumbers(fields, None);
    }
  }

  lemma {:induction false} LengthsAreNumbers(fields: seq<Field>, found: Option<bytes>)
    requires forall i | 0 <= i < |fields| :: NumberIfLength(fields[i])
    requires found.Some? ==> ParseInt(found.value).Some?
    ensures Announced(fields, found).Some? ==> ParseInt(Announced(fields, found).value).Some?
    decreases |fields|
  {
    if fields != [] {
      LengthsAreNumbers(fields[1..], Noted(fields[0].name, fields[0].value, found));
    }
  }
}
