/**
 The connection: frames written to and read from a byte stream, messages split into fields.
 Writes succeed while connected; the input is everything that will still arrive before the end.
 */
module Connection {
  import opened Wrappers
  import opened Wire
  import opened Framing

  /** Is the text made of single bytes? */
  ghost predicate IsBytes(s: string) {
    forall i :: 0 <= i < |s| ==> s[i] as int < 256
  }

  function BytesOf(s: string): (r: seq<byte>)
    requires IsBytes(s)
    ensures |r| == |s|
  {
    seq(|s|, i requires 0 <= i < |s| => s[i] as int)
  }

  function TextOf(bytes: seq<byte>): (r: string)
    ensures |r| == |bytes|
  {
    seq(|bytes|, i requires 0 <= i < |bytes| => bytes[i] as char)
  }

  lemma TextRoundTrip(s: string)
    requires IsBytes(s)
    ensures TextOf(BytesOf(s)) == s
  {
    assert forall i :: 0 <= i < |s| ==> BytesOf(s)[i] == s[i] as int;
  }

  datatype Reading = Fields(fields: seq<string>) | NotConnected | Ended | Empty | Oversized(n: nat)

  /** What reading a message off the input comes to. */
  function Read(input: seq<byte>): Reading {
    match ReadFrame(input)
    case Payload(payload, _) => Fields(FieldsOf(TextOf(payload)))
    case EndOfInput => Ended
    case ZeroLength => Empty
    case TooLarge(n) => Oversized(n)
  }

  /** A message that is read has at least one field. */
  lemma ReadHasFields(input: seq<byte>)
    requires Read(input).Fields?
    ensures |Read(input).fields| > 0
  {
    ReadIsFramed(input);
    var msg := TextOf(ReadFrame(input).payload);
    if FieldsOf(msg) == [] {
      FieldsRoundTripIff(msg);
      LastPieceEmptyIff(msg);
      assert false;
    }
  }

  ghost predicate Transmissible(fields: seq<Field>) {
    && (forall i :: 0 <= i < |fields| ==> Clean(fields[i]))
    && IsBytes(Message(fields)) && Sendable(BytesOf(Message(fields)))
  }

  function PayloadOf(fields: seq<Field>): seq<byte>
    requires Transmissible(fields)
  {
    BytesOf(Message(fields))
  }

  function PayloadsOf(ms: seq<seq<Field>>): (r: seq<seq<byte>>)
    requires forall i :: 0 <= i < |ms| ==> Transmissible(ms[i])
  {
    seq(|ms|, i requires 0 <= i < |ms| => PayloadOf(ms[i]))
  }

  /**
   Messages of NUL-free fields, built, framed and sent one after the other, arrive as exactly
   that sequence of messages, each split into exactly its encoded fields, with nothing left over.
   */
  lemma ConversationRoundTrip(ms: seq<seq<Field>>)
    requires forall i :: 0 <= i < |ms| ==> Transmissible(ms[i])
    ensures var payloads := PayloadsOf(ms);
            && ReadFrames(Frames(payloads, |ms|), |ms|) == Some((payloads, []))
            && forall i :: 0 <= i < |ms| ==> FieldsOf(TextOf(payloads[i])) == Slots(ms[i], |ms[i]|)
  {
    var payloads := PayloadsOf(ms);
    StreamRoundTripIff(payloads);
    forall i | 0 <= i < |ms| ensures FieldsOf(TextOf(payloads[i])) == Slots(ms[i], |ms[i]|) {
      TextRoundTrip(Message(ms[i]));
      BuiltMessageReadsBackIff(ms[i]);
    }
  }

  class Connection {
    var connected: bool
    var output: seq<byte>
    var input: seq<byte>
    var numBytesSent: nat
    var numMsgSent: nat
    var numBytesRecv: nat
    var numMsgRecv: nat

    constructor (arriving: seq<byte>)
      ensures connected && output == [] && input == arriving
      ensures numBytesSent == numMsgSent == numBytesRecv == numMsgRecv == 0
    {
      connected, output, input := true, [], arriving;
      numBytesSent, numMsgSent, numBytesRecv, numMsgRecv := 0, 0, 0, 0;
    }

    method SendMessage(payload: seq<byte>) returns (ok: bool)
      modifies this
      ensures ok == old(connected) == connected
      ensures output == if ok then old(output) + Frame(payload) else old(output)
      ensures numBytesSent == old(numBytesSent) + if ok then 4 + |payload| else 0
      ensures numMsgSent == old(numMsgSent) + if ok then 1 else 0
      ensures input == old(input) && numBytesRecv == old(numBytesRecv) && numMsgRecv == old(numMsgRecv)
    {
      if !connected {
        return false;
      }
      var header := new byte[4];
      PutUint32(header, Uint32(|payload|));
      output := output + header[..];
      output := output + payload;
      numBytesSent := numBytesSent + 4 + |payload|;
      numMsgSent := numMsgSent + 1;
      return true;
    }

    static method PutUint32(buf: array<byte>, n: nat)
      requires buf.Length == 4
      modifies buf
      ensures buf[..] == Header(n)
    {
      buf[0] := n / 0x100_0000 % 0x100;
      buf[1] := n / 0x1_0000 % 0x100;
      buf[2] := n / 0x100 % 0x100;
      buf[3] := n % 0x100;
      HeaderBytes(n);
    }

    /** Fills the buffer, or fails at the end of the input. */
    method ReadFull(buf: array<byte>) returns (ok: bool)
      modifies this`input, buf
      ensures ok <==> buf.Length <= |old(input)|
      ensures ok ==> buf[..] == old(input)[..buf.Length] && input == old(input)[buf.Length..]
      ensures !ok ==> input == []
    {
      if |input| < buf.Length {
        input := [];
        return false;
      }
      forall i | 0 <= i < buf.Length {
        buf[i] := input[i];
      }
      input := input[buf.Length..];
      return true;
    }

    /** Reads one message; every error leaves the input somewhere inside or after the frame. */
    method ReadMessage() returns (r: Reading)
      modifies this`input, this`numBytesRecv, this`numMsgRecv
      ensures r == if connected then Read(old(input)) else NotConnected
      ensures r.Fields? ==>
                && ReadFrame(old(input)).Payload? && input == ReadFrame(old(input)).rest
                && numBytesRecv == old(numBytesRecv) + |old(input)| - |input| && numMsgRecv == old(numMsgRecv) + 1
      ensures !r.Fields? ==> numBytesRecv == old(numBytesRecv) && numMsgRecv == old(numMsgRecv)
    {
      if !connected {
        return NotConnected;
      }
      var header := new byte[4];
      var ok := ReadFull(header);
      if !ok {
        return Ended;
      }
      var msgLen := HeaderValue(header[..]);
      if msgLen == 0 {
        return Empty;
      }
      if msgLen > MAX_MESSAGE {
        return Oversized(msgLen);
      }
      var body := new byte[msgLen];
      ok := ReadFull(body);
      if !ok {
        return Ended;
      }
      SplitBody(old(input), msgLen);
      numBytesRecv := numBytesRecv + 4 + msgLen;
      numMsgRecv := numMsgRecv + 1;
      var text := TextOf(body[..]);
      return Fields(FieldsOf(text));
    }
  }

  lemma SplitBody(s: seq<byte>, n: nat)
    requires 4 + n <= |s|
    ensures s[4..][..n] == s[4..4 + n] && s[4..][n..] == s[4 + n..]
  {
  }
}
