/**
 The slcan decoder on whole streams: it does exactly what splitting the stream
 into lines and reading each line does, and gives back every encoded frame.
 */
module SlcanStream {
  import opened CanTypes
  import opened Slcan

  /* ---- The decoder refines splitting into lines ---- */

  function OptionalItem(item: Option<Item>): seq<Item> {
    if item.Some? then [item.value] else []
  }

  /** The items a decoder yields when fed a whole stream. */
  function FeedAll(d: Decoder, stream: string): seq<Item>
    decreases |stream|
  {
    if stream == [] then []
    else
      var (d', item) := FeedOne(d, stream[0]);
      OptionalItem(item) + FeedAll(d', stream[1..])
  }

  predicate IsTerminator(c: char) {
    c == BELL || c == CARRIAGE_RETURN
  }

  /** Where the first line ends, or the length of the stream. */
  function LineEnd(stream: string): (k: nat)
    ensures k <= |stream|
  {
    if stream == [] || IsTerminator(stream[0]) then 0 else 1 + LineEnd(stream[1..])
  }

  lemma {:induction false} LineEndIsFirst(stream: string)
    ensures LineEnd(stream) < |stream| ==> IsTerminator(stream[LineEnd(stream)])
    ensures forall i :: 0 <= i < LineEnd(stream) ==> !IsTerminator(stream[i])
  {
    if stream != [] && !IsTerminator(stream[0]) { LineEndIsFirst(stream[1..]); }
  }

  lemma {:induction false} LineEndOf(stream: string, k: nat)
    requires k <= |stream| && (k < |stream| ==> IsTerminator(stream[k]))
    requires forall i :: 0 <= i < k ==> !IsTerminator(stream[i])
    ensures LineEnd(stream) == k
  {
    if k > 0 { LineEndOf(stream[1..], k - 1); }
  }

  /** What a line with its terminator stands for: a bell reports an error whatever precedes it, and a line of more than
      64 characters is ignored. */
  function LineItem(line: string, terminator: char): Option<Item> {
    if terminator == BELL then Some(Error)
    else if |line| > 64 then None
    else ItemOf(line)
  }

  /** The items of a stream, line by line; text after the last terminator stands for nothing yet. */
  function StreamItems(stream: string): seq<Item> {
    LineByLine(LineItem, stream)
  }

  type Reader = (string, char) -> Option<Item>

  /** What a reader of single lines makes of a stream. */
  function LineByLine(read: Reader, stream: string): seq<Item>
    decreases |stream|
  {
    var k := LineEnd(stream);
    if k == |stream| then []
    else OptionalItem(read(stream[..k], stream[k])) + LineByLine(read, stream[k + 1..])
  }

  /** The decoder has been fed `text` since the last terminator. */
  predicate HasRead(d: Decoder, text: string) {
    && (forall i :: 0 <= i < |text| ==> !IsTerminator(text[i]))
    && d.line == text[..Min(|text|, MAX_LINE)]
    && (d.discarding <==> |text| > MAX_LINE)
  }

  lemma LineThenRest(read: Reader, line: string, c: char, rest: string)
    requires IsTerminator(c) && forall i :: 0 <= i < |line| ==> !IsTerminator(line[i])
    ensures LineByLine(read, line + [c] + rest) == OptionalItem(read(line, c)) + LineByLine(read, rest)
  {
    var stream := line + [c] + rest;
    assert stream[|line|] == c && forall i :: 0 <= i < |line| ==> stream[i] == line[i];
    LineEndOf(stream, |line|);
    assert stream[..|line|] == line && stream[|line| + 1..] == rest;
  }

  /** One character keeps a decoder in step with the text it has read. */
  lemma FeedOneReads(d: Decoder, text: string, c: char)
    requires HasRead(d, text)
    ensures IsTerminator(c) ==> FeedOne(d, c) == (FRESH, LineItem(text, c))
    ensures !IsTerminator(c) ==> FeedOne(d, c).1.None? && HasRead(FeedOne(d, c).0, text + [c])
  {
    assert |text| <= MAX_LINE ==> d.line == text;
    if !IsTerminator(c) {
      var longer := text + [c];
      assert |text| < MAX_LINE ==> longer[..Min(|longer|, MAX_LINE)] == text + [c];
      assert |text| >= MAX_LINE ==> longer[..MAX_LINE] == text[..MAX_LINE];
    }
  }

  lemma {:induction false} FeedRefinesSplitting(d: Decoder, text: string, stream: string)
    requires HasRead(d, text)
    ensures FeedAll(d, stream) == StreamItems(text + stream)
    decreases |stream|
  {
    if stream == [] {
      assert text + stream == text;
      LineEndOf(text, |text|);
    } else {
      var c, rest := stream[0], stream[1..];
      FeedOneReads(d, text, c);
      assert text + stream == text + [c] + rest;
      if IsTerminator(c) {
        LineThenRest(LineItem, text, c, rest);
        FeedRefinesSplitting(FRESH, [], rest);
        assert [] + rest == rest;
      } else {
        FeedRefinesSplitting(FeedOne(d, c).0, text + [c], rest);
      }
    }
  }

  /** A fresh decoder yields exactly the items of the stream. */
  lemma DecoderYieldsStreamItems(stream: string)
    ensures FeedAll(FRESH, stream) == StreamItems(stream)
  {
    FeedRefinesSplitting(FRESH, [], stream);
    assert [] + stream == stream;
  }

  /* ---- Numbers survive ---- */

  function Pow16(n: nat): nat {
    if n == 0 then 1 else 0x10 * Pow16(n - 1)
  }

  lemma HexCharRoundTrip(d: nat)
    requires d < 0x10
    ensures HexDigit(HexChar(d)) == Some(d)
    ensures !IsTerminator(HexChar(d))
  {
  }

  lemma {:induction false} HexRoundTrip(value: nat, digits: nat)
    requires value < Pow16(digits)
    ensures HexValue(Hex(value, digits)) == Some(value)
    ensures forall i :: 0 <= i < digits ==> !IsTerminator(Hex(value, digits)[i])
  {
    if digits > 0 {
      HexRoundTrip(value / 0x10, digits - 1);
      HexCharRoundTrip(value % 0x10);
    }
  }

  /* ---- Frames survive ---- */

  lemma BytesOfAppend(a: string, b: string, bytes: seq<byte>, last: byte)
    requires |b| == 2 && BytesOf(a) == Some(bytes) && HexValue(b) == Some(last)
    ensures BytesOf(a + b) == Some(bytes + [last])
  {
    var s := a + b;
    assert s[..|a|] == a;
    assert s[|a|..] == b;
    BytesSplit(s, |a|, bytes, last);
  }

  lemma BytesSplit(s: string, n: nat, bytes: seq<byte>, last: byte)
    requires |s| == n + 2 && BytesOf(s[..n]) == Some(bytes) && HexValue(s[n..]) == Some(last)
    ensures BytesOf(s) == Some(bytes + [last])
  {
  }

  lemma OneMoreByte(init: seq<byte>, last: byte)
    requires BytesOf(HexBytes(init)) == Some(init)
    ensures BytesOf(HexBytes(init) + Hex(last, 2)) == Some(init + [last])
  {
    ByteRoundTrip(last);
    BytesOfAppend(HexBytes(init), Hex(last, 2), init, last);
  }

  lemma {:induction false} BytesRoundTrip(data: seq<byte>)
    ensures BytesOf(HexBytes(data)) == Some(data)
  {
    if data != [] {
      var init, last := data[..|data| - 1], data[|data| - 1];
      BytesRoundTrip(init);
      OneMoreByte(init, last);
      assert data == init + [last];
    }
  }

  lemma ByteRoundTrip(b: byte)
    ensures HexValue(Hex(b, 2)) == Some(b)
    ensures forall i :: 0 <= i < 2 ==> !IsTerminator(Hex(b, 2)[i])
  {
    assert Pow16(2) == 0x100 by { assert Pow16(1) == 0x10; }
    HexRoundTrip(b, 2);
  }

  lemma {:induction false} HexBytesOnOneLine(data: seq<byte>)
    ensures forall i :: 0 <= i < |HexBytes(data)| ==> !IsTerminator(HexBytes(data)[i])
  {
    if data != [] {
      HexBytesOnOneLine(data[..|data| - 1]);
      ByteRoundTrip(data[|data| - 1]);
    }
  }

  /** The frame that an encoded command carries: the identifier cut to its width, never a remote frame. */
  function Carried(id: nat, extended: bool, data: Message): SlcanFrame {
    SlcanFrame(id % (IdMask(extended) + 1), extended, false, data)
  }

  lemma IdFits(id: nat, extended: bool)
    ensures id % (IdMask(extended) + 1) < Pow16(IdDigits(extended))
  {
    assert Pow16(3) == 0x1000 by { assert Pow16(1) == 0x10 && Pow16(2) == 0x100; }
    assert Pow16(8) == 0x1_0000_0000 by {
      assert Pow16(4) == 0x1_0000 && Pow16(5) == 0x10_0000;
      assert Pow16(6) == 0x100_0000 && Pow16(7) == 0x1000_0000;
    }
  }

  /** The parts of an encoded line, by position. */
  predicate HasParts(line: string, extended: bool, raw: nat, data: Message) {
    var digits := IdDigits(extended);
    && |line| == 2 + digits + 2 * |data|
    && line[0] == (if extended then 'T' else 't')
    && line[1..1 + digits] == Hex(raw, digits)
    && line[1 + digits] == HexChar(|data|)
    && line[2 + digits..] == HexBytes(data)
  }

  lemma LineParts(id: nat, extended: bool, data: Message)
    ensures HasParts(LineOf(id, extended, data), extended, id % (IdMask(extended) + 1), data)
  {
  }

  lemma HeaderRead(line: string, extended: bool, raw: nat, data: Message)
    requires raw <= IdMask(extended) && raw < Pow16(IdDigits(extended)) && HasParts(line, extended, raw, data)
    ensures HeaderOf(line) == Some(Header(raw, extended, false, |data|))
  {
    var digits := IdDigits(extended);
    assert HexAt(line, 1, digits) == Some(raw) by { HexRoundTrip(raw, digits); }
    assert HexDigit(line[1 + digits]) == Some(|data|) by { HexCharRoundTrip(|data|); }
  }

  lemma PayloadRead(line: string, extended: bool, raw: nat, data: Message)
    requires HasParts(line, extended, raw, data)
    ensures PayloadAt(line, 2 + IdDigits(extended), |data|) == Some(data)
  {
    BytesRoundTrip(data);
    PayloadOf(line, 2 + IdDigits(extended), HexBytes(data), data);
  }

  lemma SliceToEnd(line: string, offset: nat, n: nat)
    requires |line| == offset + n
    ensures line[offset..offset + n] == line[offset..]
  {
  }

  lemma PayloadOf(line: string, offset: nat, text: string, data: Message)
    requires |line| == offset + 2 * |data| && text == line[offset..] && BytesOf(text) == Some(data)
    ensures PayloadAt(line, offset, |data|) == Some(data)
  {
    SliceToEnd(line, offset, 2 * |data|);
  }

  /** A line made of such parts is read as the frame they describe. */
  lemma PartsRead(line: string, extended: bool, raw: nat, data: Message)
    requires raw <= IdMask(extended) && raw < Pow16(IdDigits(extended)) && HasParts(line, extended, raw, data)
    ensures FrameOf(line) == Some(SlcanFrame(raw, extended, false, data))
  {
    HeaderRead(line, extended, raw, data);
    PayloadRead(line, extended, raw, data);
  }

  lemma PartsOnOneLine(line: string, extended: bool, raw: nat, data: Message)
    requires raw < Pow16(IdDigits(extended)) && HasParts(line, extended, raw, data)
    ensures forall i :: 0 <= i < |line| ==> !IsTerminator(line[i])
  {
    var digits := IdDigits(extended);
    HexRoundTrip(raw, digits);
    HexCharRoundTrip(|data|);
    HexBytesOnOneLine(data);
    forall i | 0 <= i < |line|
      ensures !IsTerminator(line[i])
    {
      if 1 <= i < 1 + digits { assert line[i] == line[1..1 + digits][i - 1]; }
      else if i >= 2 + digits { assert line[i] == line[2 + digits..][i - 2 - digits]; }
    }
  }

  lemma LineRoundTrip(id: nat, extended: bool, data: Message)
    ensures ItemOf(LineOf(id, extended, data)) == Some(FrameReceived(Carried(id, extended, data)))
    ensures |LineOf(id, extended, data)| <= MAX_LINE
    ensures forall i :: 0 <= i < |LineOf(id, extended, data)| ==> !IsTerminator(LineOf(id, extended, data)[i])
  {
    LineParts(id, extended, data);
    IdFits(id, extended);
    PartsRead(LineOf(id, extended, data), extended, id % (IdMask(extended) + 1), data);
    PartsOnOneLine(LineOf(id, extended, data), extended, id % (IdMask(extended) + 1), data);
  }

  /* ---- Streams of frames survive ---- */

  datatype ToSend = ToSend(id: nat, extended: bool, data: Message)

  function EncodeAll(frames: seq<ToSend>): string {
    if frames == [] then []
    else LineOf(frames[0].id, frames[0].extended, frames[0].data) + [CARRIAGE_RETURN] + EncodeAll(frames[1..])
  }

  function ReceivedAll(frames: seq<ToSend>): seq<Item> {
    if frames == [] then []
    else [FrameReceived(Carried(frames[0].id, frames[0].extended, frames[0].data))] + ReceivedAll(frames[1..])
  }

  lemma {:induction false} EncodedStreamItems(frames: seq<ToSend>)
    ensures StreamItems(EncodeAll(frames)) == ReceivedAll(frames)
  {
    if frames != [] {
      var f := frames[0];
      LineRoundTrip(f.id, f.extended, f.data);
      LineThenRest(LineItem, LineOf(f.id, f.extended, f.data), CARRIAGE_RETURN, EncodeAll(frames[1..]));
      EncodedStreamItems(frames[1..]);
    }
  }

  lemma Associate<T>(a: seq<T>, b: seq<T>, c: seq<T>)
    ensures a + b + c == a + (b + c)
  {
  }

  lemma FirstLineConcat(read: Reader, line: string, c: char, rest: string, b: string)
    requires IsTerminator(c) && forall i :: 0 <= i < |line| ==> !IsTerminator(line[i])
    requires LineByLine(read, rest + b) == LineByLine(read, rest) + LineByLine(read, b)
    ensures LineByLine(read, line + [c] + rest + b) == LineByLine(read, line + [c] + rest) + LineByLine(read, b)
  {
    calc {
      LineByLine(read, line + [c] + rest + b);
      { Associate(line + [c], rest, b); }
      LineByLine(read, line + [c] + (rest + b));
      { LineThenRest(read, line, c, rest + b); }
      OptionalItem(read(line, c)) + LineByLine(read, rest + b);
      OptionalItem(read(line, c)) + (LineByLine(read, rest) + LineByLine(read, b));
      { Associate(OptionalItem(read(line, c)), LineByLine(read, rest), LineByLine(read, b)); }
      OptionalItem(read(line, c)) + LineByLine(read, rest) + LineByLine(read, b);
      { LineThenRest(read, line, c, rest); }
      LineByLine(read, line + [c] + rest) + LineByLine(read, b);
    }
  }

  /** Whatever ends with a terminator can be read on its own. */
  lemma {:induction false} LineByLineConcat(read: Reader, a: string, b: string)
    requires a == [] || IsTerminator(a[|a| - 1])
    ensures LineByLine(read, a + b) == LineByLine(read, a) + LineByLine(read, b)
    decreases |a|
  {
    if a == [] {
      assert a + b == b;
    } else {
      var k := LineEnd(a);
      LineEndIsFirst(a);
      LineEndInside(a);
      LineByLineConcat(read, a[k + 1..], b);
      FirstLineConcat(read, a[..k], a[k], a[k + 1..], b);
      SlicesOf(a, k);
    }
  }

  lemma LineEndInside(a: string)
    requires a != [] && IsTerminator(a[|a| - 1])
    ensures LineEnd(a) < |a|
  {
    LineEndIsFirst(a);
  }

  lemma SlicesOf(a: string, k: nat)
    requires k < |a|
    ensures a[..k] + [a[k]] + a[k + 1..] == a
  {
  }

  /** Round trip on streams: after any garbage that ends with a terminator, the frames of any encoded list come out, in
      order, behind whatever the garbage itself stood for. */
  lemma FramesSurvive(garbage: string, frames: seq<ToSend>)
    requires garbage == [] || IsTerminator(garbage[|garbage| - 1])
    ensures FeedAll(FRESH, garbage + EncodeAll(frames)) == StreamItems(garbage) + ReceivedAll(frames)
  {
    DecoderYieldsStreamItems(garbage + EncodeAll(frames));
    LineByLineConcat(LineItem, garbage, EncodeAll(frames));
    EncodedStreamItems(frames);
  }

  /* ---- The other way round ---- */

  function Capital(c: char): char {
    if 'a' <= c <= 'f' then (c as int - 'a' as int + 'A' as int) as char else c
  }

  function Capitals(s: string): (r: string)
    ensures |r| == |s|
  {
    if s == [] then [] else Capitals(s[..|s| - 1]) + [Capital(s[|s| - 1])]
  }

  lemma {:induction false} HexOfValue(s: string)
    requires HexValue(s).Some?
    ensures Hex(HexValue(s).value, |s|) == Capitals(s)
  {
    if s != [] {
      HexOfValue(s[..|s| - 1]);
      var low := HexDigit(s[|s| - 1]).value;
      assert HexChar(low) == Capital(s[|s| - 1]);
    }
  }

  lemma {:induction false} CapitalsConcat(a: string, b: string)
    ensures Capitals(a + b) == Capitals(a) + Capitals(b)
  {
    if b == [] {
      assert a + b == a;
    } else {
      assert (a + b)[..|a + b| - 1] == a + b[..|b| - 1];
      CapitalsConcat(a, b[..|b| - 1]);
    }
  }

  /** What the parser reads out of a payload, the encoder writes back in capitals. */
  lemma {:induction false} BytesInCapitals(digits: string)
    requires BytesOf(digits).Some?
    ensures 2 * |BytesOf(digits).value| == |digits|
    ensures HexBytes(BytesOf(digits).value) == Capitals(digits)
  {
    if digits != [] {
      var n := |digits| - 2;
      var before, last := digits[..n], digits[n..];
      BytesInCapitals(before);
      TwoDigits(last);
      ByteInCapitals(before, last, BytesOf(before).value, HexValue(last).value);
      assert before + last == digits;
    }
  }

  /** One byte more, read and written back. */
  lemma ByteInCapitals(before: string, last: string, bytes: seq<byte>, value: byte)
    requires |last| == 2 && HexValue(last) == Some(value as nat) && HexBytes(bytes) == Capitals(before)
    ensures HexBytes(bytes + [value]) == Capitals(before + last)
  {
    HexOfValue(last);
    CapitalsConcat(before, last);
    HexBytesAppend(bytes, value);
  }

  lemma HexBytesAppend(bytes: seq<byte>, last: byte)
    ensures HexBytes(bytes + [last]) == HexBytes(bytes) + Hex(last, 2)
  {
    assert (bytes + [last])[..|bytes|] == bytes;
  }

  lemma {:induction false} BytesLength(digits: string)
    requires BytesOf(digits).Some?
    ensures 2 * |BytesOf(digits).value| == |digits|
  {
    if digits != [] { BytesLength(digits[..|digits| - 2]); }
  }

  lemma TwoDigits(s: string)
    requires |s| == 2 && HexValue(s).Some?
    ensures HexValue(s).value < 0x100
  {
    assert s[..1][..0] == [];
    assert HexValue(s[..1]).value < 0x10;
  }

  /** The digits of an identifier, of a count and of a payload, read and written back. */
  lemma PartsInCapitals(raw: string, count: char, payload: string, id: nat, length: nat, data: seq<byte>)
    requires HexValue(raw) == Some(id) && HexDigit(count) == Some(length) && length <= 8
    requires HexBytes(data) == Capitals(payload)
    ensures Hex(id, |raw|) + [HexChar(length)] + HexBytes(data) == Capitals(raw + [count] + payload)
  {
    HexOfValue(raw);
    assert HexChar(length) == Capital(count);
    assert [count][..0] == [];
    assert Capitals([count]) == [Capital(count)];
    CapitalsConcat(raw, [count]);
    CapitalsConcat(raw + [count], payload);
  }

  lemma PayloadLength(line: string, offset: nat, length: nat)
    requires PayloadAt(line, offset, length).Some?
    ensures |PayloadAt(line, offset, length).value| == length
  {
    if length > 0 { BytesLength(line[offset..offset + 2 * length]); }
  }

  /** The parts of a line that was read as a data frame. */
  lemma PartsOfRead(line: string)
    requires line != [] && FrameOf(line).Some? && !FrameOf(line).value.remote
    ensures var f := FrameOf(line).value;
            && HeaderOf(line) == Some(Header(f.id, f.extended, false, |f.data|))
            && PayloadAt(line, 2 + IdDigits(f.extended), |f.data|) == Some(f.data)
  {
    var h := HeaderOf(line).value;
    PayloadLength(line, 2 + IdDigits(h.extended), h.length);
  }

  lemma HeaderParts(line: string, h: Header)
    requires line != [] && HeaderOf(line) == Some(h)
    ensures var digits := IdDigits(h.extended);
            && |line| > 1 + digits
            && HexValue(line[1..1 + digits]) == Some(h.id) && h.id <= IdMask(h.extended)
            && HexDigit(line[1 + digits]) == Some(h.length) && h.length <= 8
            && (h.extended <==> line[0] == 'T' || line[0] == 'R')
            && (h.remote <==> line[0] == 'r' || line[0] == 'R')
  {
  }

  lemma PartsWritten(kind: char, id: nat, extended: bool, data: Message, middle: string)
    requires id <= IdMask(extended) && kind == (if extended then 'T' else 't')
    requires Hex(id, IdDigits(extended)) + [HexChar(|data|)] + HexBytes(data) == middle
    ensures LineOf(id, extended, data) == [kind] + middle
  {
    assert id % (IdMask(extended) + 1) == id;
    Regroup([kind], Hex(id, IdDigits(extended)), [HexChar(|data|)], HexBytes(data));
  }

  lemma Regroup(a: string, b: string, c: string, d: string)
    ensures a + b + c + d == a + (b + c + d)
  {
  }

  lemma LinePartsInCapitals(line: string, digits: nat, id: nat, data: Message)
    requires |line| > 1 + digits && HexValue(line[1..1 + digits]) == Some(id) && HexDigit(line[1 + digits]) == Some(|data|)
    requires PayloadAt(line, 2 + digits, |data|) == Some(data)
    ensures var n := 2 + digits + 2 * |data|;
            n <= |line| && Hex(id, digits) + [HexChar(|data|)] + HexBytes(data) == Capitals(line[1..n])
  {
    var n := 2 + digits + 2 * |data|;
    var payload := line[2 + digits..n];
    BytesInCapitals(payload);
    PartsInCapitals(line[1..1 + digits], line[1 + digits], payload, id, |data|, data);
    SlicesAround(line, 1 + digits, n);
  }

  lemma SlicesAround(line: string, k: nat, n: nat)
    requires 1 <= k < n <= |line|
    ensures line[1..k] + [line[k]] + line[k + 1..n] == line[1..n]
  {
  }

  /** A data line that parses is, up to capitals and anything behind its payload, the line of the frame it gives. */
  lemma ParseThenEncode(line: string)
    requires line != [] && IsFrameType(line[0]) && FrameOf(line).Some? && !FrameOf(line).value.remote
    ensures var f := FrameOf(line).value;
            var n := 2 + IdDigits(f.extended) + 2 * |f.data|;
            && |f.data| <= 8 && n <= |line|
            && LineOf(f.id, f.extended, f.data) == [line[0]] + Capitals(line[1..n])
  {
    PartsOfRead(line);
    var f := FrameOf(line).value;
    HeaderParts(line, HeaderOf(line).value);
    LinePartsInCapitals(line, IdDigits(f.extended), f.id, f.data);
    PartsWritten(line[0], f.id, f.extended, f.data, Capitals(line[1..2 + IdDigits(f.extended) + 2 * |f.data|]));
  }
}
