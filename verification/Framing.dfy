/**
 Message framing: each payload goes out behind its length in 4 big-endian bytes, and the reader
 accepts lengths from 1 byte to 10 MiB.
 */
module Framing {
  import opened Wrappers

  type byte = x: int | 0 <= x < 256

  const MAX_MESSAGE: nat := 10 * 1024 * 1024

  /** The low `width` bytes of `n`, most significant first. */
  function BigEndian(n: nat, width: nat): (r: seq<byte>)
    ensures |r| == width
  {
    if width == 0 then [] else BigEndian(n / 256, width - 1) + [n % 256]
  }

  function Value(h: seq<byte>, k: nat): nat
    requires k <= |h|
  {
    if k == 0 then 0 else Shifted(Value(h, k - 1), h[k - 1])
  }

  function Shifted(n: nat, b: nat): nat { n * 256 + b }

  function Pow256(k: nat): nat {
    if k == 0 then 1 else 256 * Pow256(k - 1)
  }

  lemma {:induction false} ValuePrefix(h: seq<byte>, t: seq<byte>, k: nat)
    requires k <= |h|
    ensures Value(h + t, k) == Value(h, k)
  {
    if k > 0 {
      ValuePrefix(h, t, k - 1);
    }
  }

  lemma {:induction false} BigEndianValue(n: nat, width: nat)
    requires n < Pow256(width)
    ensures Value(BigEndian(n, width), width) == n
  {
    if width > 0 {
      BigEndianValue(n / 256, width - 1);
      ValuePrefix(BigEndian(n / 256, width - 1), [n % 256], width - 1);
    }
  }

  lemma {:induction false} ValueBigEndian(h: seq<byte>, k: nat)
    requires k <= |h|
    ensures BigEndian(Value(h, k), k) == h[..k] && Value(h, k) < Pow256(k)
  {
    if k > 0 {
      ValueBigEndian(h, k - 1);
      var v, b: nat := Value(h, k - 1), h[k - 1];
      assert (v * 256 + b) / 256 == v && (v * 256 + b) % 256 == b;
      assert h[..k] == h[..k - 1] + [h[k - 1]];
    }
  }

  /** The buffer a header is written to or read into. */
  const BUFFER: seq<byte> := [0, 0, 0, 0]

  function Header(n: nat): (r: seq<byte>)
    ensures |r| == 4
  {
    BigEndian(n, |BUFFER|)
  }

  /** The four bytes, by shifts. */
  lemma HeaderBytes(n: nat)
    ensures Header(n) == [n / 0x100_0000 % 0x100, n / 0x1_0000 % 0x100, n / 0x100 % 0x100, n % 0x100]
  {
    var a, b := n / 256, n / 256 / 256;
    assert b == n / 0x1_0000 && b / 256 == n / 0x100_0000;
    assert BigEndian(b / 256 / 256, 0) == [];
    assert BigEndian(b / 256, 1) == [b / 256 % 256];
    assert BigEndian(b, 2) == [b / 256 % 256, b % 256];
    assert BigEndian(a, 3) == [b / 256 % 256, b % 256, a % 256];
  }

  function HeaderValue(h: seq<byte>): nat
    requires |h| == 4
  {
    Value(h, |h|)
  }

  lemma HeaderRoundTrip(n: nat)
    requires n < 0x1_0000_0000
    ensures HeaderValue(Header(n)) == n
  {
    assert Pow256(4) == 0x1_0000_0000;
    BigEndianValue(n, 4);
  }

  lemma ValueRoundTrip(h: seq<byte>)
    requires |h| == 4
    ensures Header(HeaderValue(h)) == h
  {
    ValueBigEndian(h, 4);
    assert h[..4] == h;
  }

  /** A conversion to 32 unsigned bits. */
  function Uint32(n: nat): nat {
    if n < 0x1_0000_0000 then n else n % 0x1_0000_0000
  }

  /** What is written for a payload; its length is cut to 32 bits. */
  function Frame(payload: seq<byte>): seq<byte> {
    Header(Uint32(|payload|)) + payload
  }

  datatype Received = Payload(payload: seq<byte>, rest: seq<byte>) | EndOfInput | ZeroLength | TooLarge(n: nat)

  /** What is read off the bytes at hand. */
  function ReadFrame(s: seq<byte>): Received {
    if |s| < 4 then EndOfInput else
    var n := HeaderValue(s[..4]);
    if n == 0 then ZeroLength
    else if n > MAX_MESSAGE then TooLarge(n)
    else if |s| < 4 + n then EndOfInput
    else Payload(s[4..4 + n], s[4 + n..])
  }

  /** What a header of length `n` leads to: nothing, too much, or the next `n` bytes if they are there. */
  lemma HeaderDecides(n: nat, rest: seq<byte>)
    requires n < 0x1_0000_0000
    ensures n == 0 ==> ReadFrame(Header(n) + rest) == ZeroLength
    ensures n > 10 * 1024 * 1024 ==> ReadFrame(Header(n) + rest) == TooLarge(n)
    ensures 1 <= n <= 10 * 1024 * 1024 ==>
              ReadFrame(Header(n) + rest) == if n <= |rest| then Payload(rest[..n], rest[n..]) else EndOfInput
  {
    HeaderRoundTrip(n);
    var s := Header(n) + rest;
    assert s[..4] == Header(n);
    if n <= |rest| {
      assert s[4..4 + n] == rest[..n] && s[4 + n..] == rest[n..];
    }
  }

  predicate Sendable(payload: seq<byte>) {
    1 <= |payload| <= 10 * 1024 * 1024
  }

  /** A frame is read back, leaving what follows, if and only if its payload is of 1 byte to 10 MiB. */
  lemma FrameRoundTripIff(payload: seq<byte>, rest: seq<byte>)
    ensures ReadFrame(Frame(payload) + rest) == Payload(payload, rest) <==> Sendable(payload)
  {
    var n := Uint32(|payload|);
    var s := Frame(payload) + rest;
    HeaderRoundTrip(n);
    assert s[..4] == Header(n);
    if Sendable(payload) {
      assert n == |payload|;
      assert s[4..4 + n] == payload && s[4 + n..] == rest;
    }
  }

  /** Whatever is read was framed: no two byte streams are read as the same payload and rest. */
  lemma ReadIsFramed(s: seq<byte>)
    requires ReadFrame(s).Payload?
    ensures Sendable(ReadFrame(s).payload) && Frame(ReadFrame(s).payload) + ReadFrame(s).rest == s
  {
    var n := HeaderValue(s[..4]);
    SplitAt(s, 4, 4 + n);
    FrameOf(s[..4], s[4..4 + n]);
  }

  lemma FrameOf(h: seq<byte>, payload: seq<byte>)
    requires |h| == 4 && HeaderValue(h) == |payload| < 0x1_0000_0000
    ensures Frame(payload) == h + payload
  {
    ValueRoundTrip(h);
  }

  lemma SplitAt(s: seq<byte>, i: nat, j: nat)
    requires i <= j <= |s|
    ensures s[..i] + s[i..j] + s[j..] == s && |s[i..j]| == j - i
  {
  }

  /** The first `n` payloads, framed one after the other. */
  function Frames(payloads: seq<seq<byte>>, n: nat): seq<byte>
    requires n <= |payloads|
  {
    if n == 0 then [] else Frames(payloads, n - 1) + Frame(payloads[n - 1])
  }

  /** Reading `n` frames: the payloads and what is left, or None when a read fails. */
  function ReadFrames(s: seq<byte>, n: nat): Option<(seq<seq<byte>>, seq<byte>)> {
    if n == 0 then Some(([], s)) else
    match ReadFrames(s, n - 1)
    case None => None
    case Some(r) =>
      match ReadFrame(r.1)
      case Payload(payload, rest) => Some((r.0 + [payload], rest))
      case _ => None
  }

  lemma ReadFramesStep(s: seq<byte>, n: nat, before: seq<seq<byte>>, p: seq<byte>, rest: seq<byte>)
    requires ReadFrames(s, n) == Some((before, Frame(p) + rest)) && Sendable(p)
    ensures ReadFrames(s, n + 1) == Some((before + [p], rest))
  {
    FrameRoundTripIff(p, rest);
  }

  lemma FramesStep(payloads: seq<seq<byte>>, n: nat, rest: seq<byte>)
    requires n < |payloads|
    ensures Frames(payloads, n + 1) + rest == Frames(payloads, n) + (Frame(payloads[n]) + rest)
  {
  }

  lemma NothingBefore(s: seq<byte>)
    ensures [] + s == s
  {
  }

  lemma NothingAfter(s: seq<byte>)
    ensures s + [] == s
  {
  }

  function Take(payloads: seq<seq<byte>>, n: nat): seq<seq<byte>>
    requires n <= |payloads|
  {
    if n == 0 then [] else Take(payloads, n - 1) + [payloads[n - 1]]
  }

  lemma {:induction false} TakeIsPrefix(payloads: seq<seq<byte>>, n: nat)
    requires n <= |payloads|
    ensures Take(payloads, n) == payloads[..n]
  {
    if n > 0 {
      TakeIsPrefix(payloads, n - 1);
    }
  }

  predicate AllSendable(payloads: seq<seq<byte>>) {
    forall i :: 0 <= i < |payloads| ==> Sendable(payloads[i])
  }

  lemma ReadOneMore(payloads: seq<seq<byte>>, k: nat, rest: seq<byte>)
    requires k < |payloads| && AllSendable(payloads)
    requires ReadFrames(Frames(payloads, k) + (Frame(payloads[k]) + rest), k)
             == Some((Take(payloads, k), Frame(payloads[k]) + rest))
    ensures ReadFrames(Frames(payloads, k + 1) + rest, k + 1) == Some((Take(payloads, k + 1), rest))
  {
    FramesStep(payloads, k, rest);
    ReadFramesStep(Frames(payloads, k + 1) + rest, k, Take(payloads, k), payloads[k], rest);
  }

  lemma {:induction false} ReadFramesPrefix(payloads: seq<seq<byte>>, k: nat, rest: seq<byte>)
    requires k <= |payloads| && AllSendable(payloads)
    ensures ReadFrames(Frames(payloads, k) + rest, k) == Some((Take(payloads, k), rest))
  {
    if k == 0 {
      NothingBefore(rest);
    } else {
      ReadFramesPrefix(payloads, k - 1, Frame(payloads[k - 1]) + rest);
      ReadOneMore(payloads, k - 1, rest);
    }
  }

  lemma ReadFramesBack(s: seq<byte>, n: nat) returns (before: seq<seq<byte>>, p: seq<byte>, rest: seq<byte>)
    requires ReadFrames(s, n + 1).Some?
    ensures ReadFrames(s, n) == Some((before, Frame(p) + rest)) && Sendable(p)
    ensures ReadFrames(s, n + 1) == Some((before + [p], rest))
  {
    before := ReadFrames(s, n).value.0;
    var left := ReadFrames(s, n).value.1;
    p, rest := ReadFrame(left).payload, ReadFrame(left).rest;
    ReadIsFramed(left);
  }

  lemma {:induction false} FramesPrefix(a: seq<seq<byte>>, b: seq<seq<byte>>, n: nat)
    requires n <= |a| && n <= |b| && forall i :: 0 <= i < n ==> a[i] == b[i]
    ensures Frames(a, n) == Frames(b, n)
  {
    if n > 0 {
      FramesPrefix(a, b, n - 1);
    }
  }

  lemma SendableExtend(before: seq<seq<byte>>, p: seq<byte>)
    requires AllSendable(before) && Sendable(p)
    ensures AllSendable(before + [p])
  {
  }

  lemma FramesExtend(before: seq<seq<byte>>, p: seq<byte>, after: seq<seq<byte>>, rest: seq<byte>)
    requires after == before + [p]
    ensures Frames(after, |before| + 1) + rest == Frames(before, |before|) + (Frame(p) + rest)
  {
    assert after[|before|] == p;
    FramesPrefix(after, before, |before|);
    FramesStep(after, |before|, rest);
  }

  /** Whatever sequence of payloads is read, the stream was those payloads framed. */
  lemma {:induction false} ReadFramesAreFramed(s: seq<byte>, n: nat, payloads: seq<seq<byte>>, rest: seq<byte>)
    requires ReadFrames(s, n) == Some((payloads, rest))
    ensures |payloads| == n && AllSendable(payloads) && Frames(payloads, n) + rest == s
    decreases n
  {
    if n == 0 {
      NothingBefore(s);
    } else {
      var before, p, left := ReadFramesBack(s, n - 1);
      ReadFramesAreFramed(s, n - 1, before, Frame(p) + left);
      SendableExtend(before, p);
      FramesExtend(before, p, payloads, left);
    }
  }

  lemma TakeAll(payloads: seq<seq<byte>>)
    ensures Take(payloads, |payloads|) == payloads
  {
    TakeIsPrefix(payloads, |payloads|);
  }

  lemma SendableStream(payloads: seq<seq<byte>>)
    requires AllSendable(payloads)
    ensures ReadFrames(Frames(payloads, |payloads|), |payloads|) == Some((payloads, []))
  {
    ReadFramesPrefix(payloads, |payloads|, []);
    NothingAfter(Frames(payloads, |payloads|));
    TakeAll(payloads);
  }

  /**
   Payloads framed one after the other are read back as exactly that sequence, with nothing
   left over, if and only if each is of 1 byte to 10 MiB.
   */
  lemma StreamRoundTripIff(payloads: seq<seq<byte>>)
    ensures ReadFrames(Frames(payloads, |payloads|), |payloads|) == Some((payloads, [])) <==> AllSendable(payloads)
  {
    if AllSendable(payloads) {
      SendableStream(payloads);
    } else if ReadFrames(Frames(payloads, |payloads|), |payloads|) == Some((payloads, [])) {
      ReadFramesAreFramed(Frames(payloads, |payloads|), |payloads|, payloads, []);
    }
  }
}
