/**
 Exactly which lines mean what: the grammar of data frames, remote frames and
 acknowledgements, for lines of any text.
 */
module SlcanLines {
  import opened CanTypes
  import opened Slcan
  import opened SlcanStream

  /* ---- Digits in either case ---- */

  lemma {:induction false} CapitalsAt(s: string, i: nat)
    requires i < |s|
    ensures Capitals(s)[i] == Capital(s[i])
  {
    if i < |s| - 1 { CapitalsAt(s[..|s| - 1], i); }
  }

  /** The same digits, in either case. */
  predicate Alike(s: string, u: string) {
    |s| == |u| && forall i :: 0 <= i < |s| ==> HexDigit(s[i]) == HexDigit(u[i])
  }

  lemma {:induction false} HexAlike(s: string, u: string)
    requires Alike(s, u)
    ensures HexValue(s) == HexValue(u)
  {
    if s != [] { HexAlike(s[..|s| - 1], u[..|u| - 1]); }
  }

  lemma {:induction false} BytesAlike(s: string, u: string)
    requires Alike(s, u)
    ensures BytesOf(s) == BytesOf(u)
  {
    if |s| > 1 {
      BytesAlike(s[..|s| - 2], u[..|u| - 2]);
      HexAlike(s[|s| - 2..], u[|u| - 2..]);
    }
  }

  lemma CapitalsAlike(s: string)
    ensures Alike(s, Capitals(s))
  {
    forall i | 0 <= i < |s|
      ensures HexDigit(s[i]) == HexDigit(Capitals(s)[i])
    {
      CapitalsAt(s, i);
    }
  }

  /* ---- Data frames ---- */

  /** Identifiers have 11 bits, or 29. */
  function IdLimit(extended: bool): nat {
    if extended then 0x2000_0000 else 0x800
  }

  /** `u` is the beginning of `line`, up to capitals behind its first character. */
  predicate BeginsLike(line: string, u: string) {
    1 <= |u| <= |line| && u[0] == line[0] && forall i :: 1 <= i < |u| ==> u[i] == Capital(line[i])
  }

  lemma SliceAlike(line: string, u: string, i: nat, j: nat)
    requires BeginsLike(line, u) && 1 <= i <= j <= |u|
    ensures Alike(line[i..j], u[i..j])
  {
    forall k | 0 <= k < j - i
      ensures HexDigit(line[i..j][k]) == HexDigit(u[i..j][k])
    {
      assert u[i + k] == Capital(line[i + k]);
    }
  }

  lemma SameHeader(line: string, u: string, digits: nat)
    requires BeginsLike(line, u) && 1 + digits < |u|
    ensures HexAt(line, 1, digits) == HexAt(u, 1, digits) && HexDigit(u[1 + digits]) == HexDigit(line[1 + digits])
  {
    SliceAlike(line, u, 1, 1 + digits);
    HexAlike(line[1..1 + digits], u[1..1 + digits]);
  }

  lemma SamePayload(line: string, u: string, offset: nat, length: nat)
    requires BeginsLike(line, u) && 1 <= offset && offset + 2 * length == |u|
    ensures PayloadAt(line, offset, length) == PayloadAt(u, offset, length)
  {
    SliceAlike(line, u, offset, |u|);
    BytesAlike(line[offset..|u|], u[offset..|u|]);
  }

  /** A line that begins like a well-formed data line means the same. */
  lemma MeansTheSame(line: string, u: string, f: SlcanFrame)
    requires BeginsLike(line, u) && FrameOf(u) == Some(f) && !f.remote
    requires |u| == 2 + IdDigits(f.extended) + 2 * |f.data|
    ensures FrameOf(line) == Some(f)
  {
    var digits := IdDigits(f.extended);
    PartsOfRead(u);
    HeaderParts(u, HeaderOf(u).value);
    SameHeader(line, u, digits);
    assert HeaderOf(line) == HeaderOf(u);
    SamePayload(line, u, 2 + digits, |f.data|);
  }

  lemma LineLength(id: nat, extended: bool, data: Message)
    ensures |LineOf(id, extended, data)| == (if extended then 10 else 5) + 2 * |data|
    ensures LineOf(id, extended, data)[0] == if extended then 'T' else 't'
  {
  }

  lemma ReadLineBegins(line: string, f: SlcanFrame)
    requires !f.remote && ItemOf(line) == Some(FrameReceived(f))
    ensures |f.data| <= 8 && f.id < IdLimit(f.extended) && BeginsLike(line, LineOf(f.id, f.extended, f.data))
  {
    ParseThenEncode(line);
    PartsOfRead(line);
    HeaderParts(line, HeaderOf(line).value);
    LineLength(f.id, f.extended, f.data);
    CapitalsBegin(line, LineOf(f.id, f.extended, f.data));
  }

  lemma CapitalsBegin(line: string, u: string)
    requires 1 <= |u| <= |line| && u == [line[0]] + Capitals(line[1..|u|])
    ensures BeginsLike(line, u)
  {
    forall i | 1 <= i < |u|
      ensures u[i] == Capital(line[i])
    {
      CapitalsAt(line[1..|u|], i - 1);
    }
  }

  lemma BegunLineIsRead(line: string, id: nat, extended: bool, data: Message, u: string)
    requires id < IdLimit(extended) && u == LineOf(id, extended, data) && BeginsLike(line, u)
    ensures ItemOf(line) == Some(FrameReceived(SlcanFrame(id, extended, false, data)))
  {
    LineLength(id, extended, data);
    WrittenIsRead(id, extended, data, u);
    MeansTheSame(line, u, SlcanFrame(id, extended, false, data));
  }

  lemma WrittenIsRead(id: nat, extended: bool, data: Message, u: string)
    requires id < IdLimit(extended) && u == LineOf(id, extended, data)
    ensures u != [] && IsFrameType(u[0]) && FrameOf(u) == Some(SlcanFrame(id, extended, false, data))
  {
    LineLength(id, extended, data);
    LineRoundTrip(id, extended, data);
  }

  /** A line means a data frame exactly if it begins, digits in either case, with the line that the frame is written as. */
  lemma DataLineMeans(line: string, id: nat, extended: bool, data: Message)
    ensures ItemOf(line) == Some(FrameReceived(SlcanFrame(id, extended, false, data))) <==>
              id < IdLimit(extended) && BeginsLike(line, LineOf(id, extended, data))
  {
    if ItemOf(line) == Some(FrameReceived(SlcanFrame(id, extended, false, data))) {
      ReadLineBegins(line, SlcanFrame(id, extended, false, data));
    } else if id < IdLimit(extended) && BeginsLike(line, LineOf(id, extended, data)) {
      BegunLineIsRead(line, id, extended, data, LineOf(id, extended, data));
    }
  }

  /* ---- Remote frames ---- */

  /** A line means a remote frame exactly if it begins with its type, the digits of its identifier and a length of at most
      eight; what follows is ignored, and the frame carries no data. */
  lemma RemoteLineMeans(line: string, id: nat, extended: bool, data: seq<byte>)
    ensures ItemOf(line) == Some(FrameReceived(SlcanFrame(id, extended, true, data))) <==>
              var digits := if extended then 8 else 3;
              && data == [] && id < IdLimit(extended) && |line| >= 2 + digits
              && line[0] == (if extended then 'R' else 'r')
              && Capitals(line[1..1 + digits]) == Hex(id, digits)
              && '0' <= line[1 + digits] <= '8'
  {
    var f, digits := SlcanFrame(id, extended, true, data), if extended then 8 else 3;
    if ItemOf(line) == Some(FrameReceived(f)) {
      HeaderParts(line, HeaderOf(line).value);
      HexOfValue(line[1..1 + digits]);
    } else if |line| >= 2 + digits && Capitals(line[1..1 + digits]) == Hex(id, digits) && id < IdLimit(extended) {
      IdFits(id, extended);
      HexRoundTrip(id, digits);
      CapitalsAlike(line[1..1 + digits]);
      HexAlike(line[1..1 + digits], Hex(id, digits));
    }
  }

  /* ---- Acknowledgements ---- */

  function Terminated(lines: seq<string>): string {
    if lines == [] then [] else lines[0] + "\r" + Terminated(lines[1..])
  }

  lemma AcknowledgementLine(line: string, rest: string)
    requires line in ["", "z", "Z"]
    ensures StreamItems(line + "\r" + rest) == [Acknowledged] + StreamItems(rest)
  {
    assert "\r" == [CARRIAGE_RETURN];
    LineThenRest(LineItem, line, CARRIAGE_RETURN, rest);
  }

  lemma {:induction false} AcknowledgementItems(lines: seq<string>)
    requires forall i :: 0 <= i < |lines| ==> lines[i] in ["", "z", "Z"]
    ensures StreamItems(Terminated(lines)) == seq(|lines|, i => Acknowledged)
  {
    if lines != [] {
      AcknowledgementLine(lines[0], Terminated(lines[1..]));
      AcknowledgementItems(lines[1..]);
    }
  }

  /** A stream of empty lines, `z` and `Z` yields exactly as many acknowledgements. */
  lemma EveryAcknowledgementCounts(lines: seq<string>)
    requires forall i :: 0 <= i < |lines| ==> lines[i] in ["", "z", "Z"]
    ensures FeedAll(FRESH, Terminated(lines)) == seq(|lines|, i => Acknowledged)
  {
    DecoderYieldsStreamItems(Terminated(lines));
    AcknowledgementItems(lines);
  }

  /** A line with its carriage return means an acknowledgement only if it is one of those three, and never an error. */
  lemma OnlyThreeAcknowledge(line: string)
    ensures ItemOf(line) == Some(Acknowledged) ==> line in ["", "z", "Z"]
    ensures ItemOf(line) != Some(Error)
  {
  }
}
