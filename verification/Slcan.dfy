/**
 The slcan text protocol (SlcanCodec.cpp): an encoder of CAN frames as lines of
 text, a line parser, and a decoder fed one character at a time.
 */
module Slcan {
  import opened CanTypes

  const BELL: char := '\U{7}'
  const CARRIAGE_RETURN: char := '\r'
  const STANDARD_DIGITS := 3
  const EXTENDED_DIGITS := 8
  const STANDARD_MASK := 0x7ff
  const EXTENDED_MASK := 0x1fff_ffff
  const MAX_LINE := 64

  datatype SlcanFrame = SlcanFrame(id: nat, extended: bool, remote: bool, data: seq<byte>)

  datatype Item = FrameReceived(frame: SlcanFrame) | Acknowledged | Error

  /* ---- Hexadecimal digits ---- */

  function HexDigit(c: char): Option<nat> {
    if '0' <= c <= '9' then Some(c as int - '0' as int)
    else if 'a' <= c <= 'f' then Some(c as int - 'a' as int + 10)
    else if 'A' <= c <= 'F' then Some(c as int - 'A' as int + 10)
    else None
  }

  function HexChar(d: nat): char
    requires d < 0x10
  {
    if d < 10 then ('0' as int + d) as char else ('A' as int + d - 10) as char
  }

  /** The value of a string of hexadecimal digits. */
  function HexValue(s: string): Option<nat> {
    if s == [] then Some(0)
    else
      var high, low := HexValue(s[..|s| - 1]), HexDigit(s[|s| - 1]);
      if high.Some? && low.Some? then Some(high.value * 0x10 + low.value) else None
  }

  /** The last `digits` hexadecimal digits of a number, in capitals. */
  function Hex(value: nat, digits: nat): (s: string)
    ensures |s| == digits
  {
    if digits == 0 then [] else Hex(value / 0x10, digits - 1) + [HexChar(value % 0x10)]
  }

  /** `value >> (4 * digits)`. */
  function ShiftRight(value: nat, digits: nat): nat {
    if digits == 0 then value else ShiftRight(value / 0x10, digits - 1)
  }

  function HexAt(text: string, offset: nat, digits: nat): Option<nat> {
    if |text| < offset + digits then None else HexValue(text[offset..offset + digits])
  }

  method ParseHex(text: string, offset: nat, digits: nat) returns (value: Option<nat>)
    ensures value == HexAt(text, offset, digits)
  {
    if |text| < offset + digits {
      return None;
    }
    var v := 0;
    for index := 0 to digits
      invariant HexValue(text[offset..offset + index]) == Some(v)
    {
      var digit := HexDigit(text[offset + index]);
      var s := text[offset..offset + index + 1];
      assert s[..index] == text[offset..offset + index];
      if digit.None? {
        ghost var whole := text[offset..offset + digits];
        assert whole[..index + 1] == s;
        BadPrefix(whole, index + 1);
        return None;
      }
      v := v * 0x10 + digit.value;
    }
    return Some(v);
  }

  lemma {:induction false} BadPrefix(s: string, k: nat)
    requires k <= |s| && HexValue(s[..k]).None?
    ensures HexValue(s).None?
    decreases |s|
  {
    if k == |s| {
      assert s[..k] == s;
    } else {
      assert s[..|s| - 1][..k] == s[..k];
      BadPrefix(s[..|s| - 1], k);
    }
  }

  method AppendHex(out: string, value: nat, digits: nat) returns (longer: string)
    ensures longer == out + Hex(value, digits)
  {
    longer := out;
    var index := digits;
    while index > 0
      invariant 0 <= index <= digits
      invariant longer + Hex(value, index) == out + Hex(value, digits)
    {
      HexFromTheTop(value, index);
      longer := longer + [HexChar(ShiftRight(value, index - 1) % 0x10)];
      index := index - 1;
    }
  }

  /** Digits can be taken from the most significant end. */
  lemma {:induction false} HexFromTheTop(value: nat, digits: nat)
    requires digits > 0
    ensures Hex(value, digits) == [HexChar(ShiftRight(value, digits - 1) % 0x10)] + Hex(value, digits - 1)
  {
    if digits > 1 {
      HexFromTheTop(value / 0x10, digits - 1);
    }
  }

  /* ---- Lines ---- */

  predicate IsFrameType(c: char) {
    c == 't' || c == 'T' || c == 'r' || c == 'R'
  }

  function IdDigits(extended: bool): nat {
    if extended then EXTENDED_DIGITS else STANDARD_DIGITS
  }

  function IdMask(extended: bool): nat {
    if extended then EXTENDED_MASK else STANDARD_MASK
  }

  /** Bytes written as two digits each. */
  function BytesOf(digits: string): Option<seq<byte>> {
    if digits == [] then Some([])
    else if |digits| == 1 then None
    else
      var n := |digits| - 2;
      var before, last := BytesOf(digits[..n]), HexValue(digits[n..]);
      if before.Some? && last.Some? then Some(before.value + [last.value % 0x100]) else None
  }

  function PayloadAt(line: string, offset: nat, length: nat): Option<seq<byte>> {
    if length == 0 then Some([])
    else if |line| < offset + 2 * length then None
    else BytesOf(line[offset..offset + 2 * length])
  }

  datatype Header = Header(id: nat, extended: bool, remote: bool, length: nat)

  /** Frame type, identifier and payload length of a line. */
  function HeaderOf(line: string): Option<Header>
    requires line != []
  {
    var extended := line[0] == 'T' || line[0] == 'R';
    var digits := IdDigits(extended);
    var id := HexAt(line, 1, digits);
    var length := if |line| > 1 + digits then HexDigit(line[1 + digits]) else None;
    if id.None? || length.None? || length.value > 8 || id.value > IdMask(extended) then None
    else Some(Header(id.value, extended, line[0] == 'r' || line[0] == 'R', length.value))
  }

  function FrameOf(line: string): Option<SlcanFrame>
    requires line != []
  {
    var header := HeaderOf(line);
    if header.None? then None
    else
      var h := header.value;
      var data := if h.remote then Some([]) else PayloadAt(line, 2 + IdDigits(h.extended), h.length);
      if data.None? then None else Some(SlcanFrame(h.id, h.extended, h.remote, data.value))
  }

  /** What a complete line means, if anything. */
  function ItemOf(line: string): Option<Item> {
    if line == [] || line == "z" || line == "Z" then Some(Acknowledged)
    else if IsFrameType(line[0]) && FrameOf(line).Some? then Some(FrameReceived(FrameOf(line).value))
    else None
  }

  method ParsePayload(line: string, offset: nat, length: nat) returns (data: Option<seq<byte>>)
    ensures data == PayloadAt(line, offset, length)
  {
    var bytes: seq<byte> := [];
    for index := 0 to length
      invariant PayloadAt(line, offset, index) == Some(bytes)
    {
      var value := ParseHex(line, offset + 2 * index, 2);
      PayloadStep(line, offset, index);
      if value.None? {
        PayloadStaysBad(line, offset, index + 1, length);
        return None;
      }
      bytes := bytes + [value.value % 0x100];
    }
    return Some(bytes);
  }

  lemma PayloadStep(line: string, offset: nat, index: nat)
    ensures PayloadAt(line, offset, index + 1) ==
            if PayloadAt(line, offset, index).Some? && HexAt(line, offset + 2 * index, 2).Some?
            then Some(PayloadAt(line, offset, index).value + [HexAt(line, offset + 2 * index, 2).value % 0x100]) else None
  {
    var here := offset + 2 * index;
    if here + 2 <= |line| {
      var longer := line[offset..here + 2];
      assert longer[..|longer| - 2] == line[offset..here];
      assert longer[|longer| - 2..] == line[here..here + 2];
      assert BytesOf([]) == Some([]);
    }
  }

  lemma PayloadStaysBad(line: string, offset: nat, k: nat, length: nat)
    requires 0 < k <= length && PayloadAt(line, offset, k).None?
    ensures PayloadAt(line, offset, length).None?
  {
    if |line| >= offset + 2 * length {
      var digits := line[offset..offset + 2 * length];
      assert digits[..2 * k] == line[offset..offset + 2 * k];
      BadPayload(digits, 2 * k);
    }
  }

  lemma {:induction false} BadPayload(digits: string, k: nat)
    requires |digits| % 2 == 0 && k % 2 == 0 && k <= |digits| && BytesOf(digits[..k]).None?
    ensures BytesOf(digits).None?
    decreases |digits|
  {
    if k == |digits| {
      assert digits[..k] == digits;
    } else {
      var n := |digits| - 2;
      assert digits[..n][..k] == digits[..k];
      BadPayload(digits[..n], k);
    }
  }

  method ParseFrame(line: string) returns (frame: Option<SlcanFrame>)
    requires line != []
    ensures frame == FrameOf(line)
  {
    var extended := line[0] == 'T' || line[0] == 'R';
    var remote := line[0] == 'r' || line[0] == 'R';
    var digits := IdDigits(extended);
    var id := ParseHex(line, 1, digits);
    var length := if |line| > 1 + digits then HexDigit(line[1 + digits]) else None;
    if id.None? || length.None? || length.value > 8 || id.value > IdMask(extended) {
      return None;
    }
    if remote {
      return Some(SlcanFrame(id.value, extended, remote, []));
    }
    var data := ParsePayload(line, 2 + digits, length.value);
    if data.None? {
      return None;
    }
    return Some(SlcanFrame(id.value, extended, remote, data.value));
  }

  /* ---- The encoder ---- */

  function HexBytes(data: seq<byte>): (s: string)
    ensures |s| == 2 * |data|
  {
    if data == [] then [] else HexBytes(data[..|data| - 1]) + Hex(data[|data| - 1], 2)
  }

  /** The line that stands for a data frame, without its terminator. */
  function LineOf(id: nat, extended: bool, data: Message): string {
    [if extended then 'T' else 't'] + Hex(id % (IdMask(extended) + 1), IdDigits(extended)) + [HexChar(|data|)] + HexBytes(data)
  }

  /** Masking with 2^k - 1 is written as a remainder. */
  method EncodeSlcanFrame(id: nat, extended: bool, data: Message) returns (command: string)
    ensures command == LineOf(id, extended, data) + [CARRIAGE_RETURN]
    ensures |command| <= 27
  {
    command := [if extended then 'T' else 't'];
    command := AppendHex(command, id % (IdMask(extended) + 1), IdDigits(extended));
    command := command + [('0' as int + |data|) as char];
    ghost var head := command;
    for i := 0 to |data|
      invariant command == head + HexBytes(data[..i])
    {
      command := AppendHex(command, data[i], 2);
      assert data[..i + 1][..i] == data[..i];
    }
    assert data[..|data|] == data;
    command := command + [CARRIAGE_RETURN];
  }

  /* ---- The decoder ---- */

  datatype Decoder = Decoder(line: string, discarding: bool)

  const FRESH := Decoder([], false)

  function FeedOne(d: Decoder, c: char): (Decoder, Option<Item>) {
    if c == BELL then (FRESH, Some(Error))
    else if c != CARRIAGE_RETURN then
      (if |d.line| >= MAX_LINE then d.(discarding := true) else d.(line := d.line + [c]), None)
    else (FRESH, if d.discarding then None else ItemOf(d.line))
  }

  class SlcanDecoder {
    var line: string
    var discarding: bool

    ghost function Abs(): Decoder
      reads this
    {
      Decoder(line, discarding)
    }

    constructor ()
      ensures Abs() == FRESH
    {
      line, discarding := [], false;
    }

    method Feed(c: char) returns (item: Option<Item>)
      modifies this
      ensures (Abs(), item) == FeedOne(old(Abs()), c)
    {
      if c == BELL {
        Reset();
        return Some(Error);
      }
      if c != CARRIAGE_RETURN {
        if |line| >= MAX_LINE {
          discarding := true;
        } else {
          line := line + [c];
        }
        return None;
      }
      if discarding {
        item := None;
      } else {
        item := ParseLine(line);
      }
      Reset();
    }

    method Reset()
      modifies this
      ensures Abs() == FRESH
    {
      line, discarding := [], false;
    }

    static method ParseLine(line: string) returns (item: Option<Item>)
      ensures item == ItemOf(line)
    {
      if line == [] || line == "z" || line == "Z" {
        return Some(Acknowledged);
      }
      if IsFrameType(line[0]) {
        var frame := ParseFrame(line);
        if frame.Some? {
          return Some(FrameReceived(frame.value));
        }
      }
      return None;
    }
  }
}
