/**
 ReadMessageMax (internal/peer/message.go): cutting a byte stream back into BGP messages, per the
 header of section 4.1 of RFC 4271. Whether the body parses is a question put to the codec.
 */
module Framing {
  import opened Outcomes

  const HEADER_LEN: nat := 19

  type Byte = b: nat | b < 256

  datatype ReadError = Eof | UnexpectedEof | BadMarker | TooSmall(len: nat) | TooBig(len: nat) | Unparsable(raw: seq<Byte>)

  /** A message read, with the octets left, or an error with the octets left. */
  datatype Outcome = Got(raw: seq<Byte>, rest: seq<Byte>) | Failed(error: ReadError, left: seq<Byte>)

  function Length(hdr: seq<Byte>): nat
    requires |hdr| == HEADER_LEN
  {
    256 * (hdr[16] as int) + hdr[17] as int
  }

  ghost predicate Marked(hdr: seq<Byte>)
    requires |hdr| == HEADER_LEN
  {
    forall i :: 0 <= i < 16 ==> hdr[i] == 0xff
  }

  /** One message whose header tells its own length. */
  ghost predicate WellFramed(m: seq<Byte>, maxLen: nat) {
    HEADER_LEN <= |m| <= maxLen && Marked(m[..HEADER_LEN]) && Length(m[..HEADER_LEN]) == |m|
  }

  /** ParseBGPMessage accepts the message. */
  type Codec = seq<Byte> -> bool

  /** What one call makes of the octets still unread. */
  ghost function ReadOne(s: seq<Byte>, maxLen: nat, codec: Codec): Outcome {
    if s == [] then Failed(Eof, [])
    else if |s| < HEADER_LEN then Failed(UnexpectedEof, [])
    else
      var hdr := s[..HEADER_LEN];
      var len := Length(hdr);
      if !Marked(hdr) then Failed(BadMarker, s[HEADER_LEN..])
      else if len < HEADER_LEN then Failed(TooSmall(len), s[HEADER_LEN..])
      else if len > maxLen then Failed(TooBig(len), s[HEADER_LEN..])
      else if |s| >= len then
        if codec(s[..len]) then Got(s[..len], s[len..]) else Failed(Unparsable(s[..len]), s[len..])
      else Failed(if |s| == HEADER_LEN then Eof else UnexpectedEof, [])
  }

  class Reader {
    var data: seq<Byte>
    var pos: nat

    ghost predicate Valid() reads this { pos <= |data| }

    ghost function Rest(): seq<Byte> reads this requires Valid() { data[pos..] }

    constructor (data: seq<Byte>)
      ensures Valid() && Rest() == data
    {
      this.data, pos := data, 0;
    }

    /** io.ReadFull into a buffer of n octets. */
    method ReadFull(n: nat) returns (r: Result<seq<Byte>, ReadError>)
      requires Valid()
      modifies this`pos
      ensures Valid()
      ensures if n <= |old(Rest())| then r == Ok(old(Rest())[..n]) && Rest() == old(Rest())[n..]
              else r == Err(if old(Rest()) == [] then Eof else UnexpectedEof) && Rest() == []
    {
      var left := |data| - pos;
      if left < n {
        pos := |data|;
        return Err(if left == 0 then Eof else UnexpectedEof);
      }
      var out := data[pos..pos + n];
      assert out == Rest()[..n];
      pos := pos + n;
      return Ok(out);
    }

    method ReadMessageMax(maxLen: nat, codec: Codec) returns (r: Result<seq<Byte>, ReadError>)
      requires Valid()
      modifies this`pos
      ensures Valid()
      ensures match ReadOne(old(Rest()), maxLen, codec)
              case Got(raw, rest) => r == Ok(raw) && Rest() == rest
              case Failed(error, left) => r == Err(error) && Rest() == left
    {
      ghost var s := Rest();
      var hdr := ReadFull(HEADER_LEN);
      if hdr.Err? { return Err(hdr.error); }
      for i := 0 to 16
        invariant forall j :: 0 <= j < i ==> hdr.value[j] == 0xff
        invariant Rest() == s[HEADER_LEN..]
      {
        if hdr.value[i] != 0xff { return Err(BadMarker); }
      }
      var mlen := Length(hdr.value);
      if mlen < HEADER_LEN { return Err(TooSmall(mlen)); }
      if mlen > maxLen { return Err(TooBig(mlen)); }
      var full := hdr.value;
      if mlen > HEADER_LEN {
        var body := ReadFull(mlen - HEADER_LEN);
        if body.Err? { return Err(body.error); }
        full := full + body.value;
      }
      assert full == s[..mlen];
      if !codec(full) { return Err(Unparsable(full)); }
      return Ok(full);
    }
  }

  /** A well-framed message at the head of any stream is cut off as it is, and nothing more; it is
      returned exactly when it parses. */
  lemma ReadHead(m: seq<Byte>, more: seq<Byte>, maxLen: nat, codec: Codec)
    requires WellFramed(m, maxLen)
    ensures ReadOne(m + more, maxLen, codec) == if codec(m) then Got(m, more) else Failed(Unparsable(m), more)
  {
    assert (m + more)[..HEADER_LEN] == m[..HEADER_LEN];
    assert (m + more)[..|m|] == m && (m + more)[|m|..] == more;
  }

  /** Conversely, what one call returns is a well-framed message at the head of the stream, and it fails
      only if no such message that parses is there. */
  lemma ReadIsSound(s: seq<Byte>, maxLen: nat, codec: Codec)
    ensures match ReadOne(s, maxLen, codec)
            case Got(raw, rest) => WellFramed(raw, maxLen) && codec(raw) && s == raw + rest
            case Failed(_, _) => forall m, more :: WellFramed(m, maxLen) && codec(m) ==> s != m + more
  {
    if ReadOne(s, maxLen, codec).Got? {
      var raw := ReadOne(s, maxLen, codec).raw;
      assert raw[..HEADER_LEN] == s[..HEADER_LEN];
    } else {
      forall m, more | WellFramed(m, maxLen) && codec(m) ensures s != m + more {
        ReadHead(m, more, maxLen, codec);
      }
    }
  }

  function Joined(ms: seq<seq<Byte>>): seq<Byte> {
    if ms == [] then [] else ms[0] + Joined(ms[1..])
  }

  /** Calls until the first error: the messages and that error. */
  ghost function ReadAll(s: seq<Byte>, maxLen: nat, codec: Codec): (seq<seq<Byte>>, Outcome)
    decreases |s|
  {
    match ReadOne(s, maxLen, codec)
    case Failed(e, left) => ([], Failed(e, left))
    case Got(raw, rest) =>
      if |rest| < |s| then var (ms, end) := ReadAll(rest, maxLen, codec); ([raw] + ms, end)
      else ([], Got(raw, rest))
  }

  /** Least index of a message that does not parse, or |ms|. */
  ghost function Bad(ms: seq<seq<Byte>>, codec: Codec): (n: nat)
    ensures n <= |ms| && (n < |ms| ==> !codec(ms[n])) && forall i :: 0 <= i < n ==> codec(ms[i])
  {
    if ms == [] || !codec(ms[0]) then 0 else 1 + Bad(ms[1..], codec)
  }

  /** Framing round trip: any concatenation of well-framed messages is read back message by message. The
      stream ends cleanly between messages, or at the first message that does not parse, with all that
      follows it unread. */
  lemma {:induction false} FramingRoundTrip(ms: seq<seq<Byte>>, maxLen: nat, codec: Codec)
    requires forall i :: 0 <= i < |ms| ==> WellFramed(ms[i], maxLen)
    ensures var n := Bad(ms, codec);
            ReadAll(Joined(ms), maxLen, codec)
            == (ms[..n], if n == |ms| then Failed(Eof, []) else Failed(Unparsable(ms[n]), Joined(ms[n + 1..])))
  {
    if ms != [] {
      ReadHead(ms[0], Joined(ms[1..]), maxLen, codec);
      if codec(ms[0]) {
        var n := Bad(ms[1..], codec);
        FramingRoundTrip(ms[1..], maxLen, codec);
        assert ms[..n + 1] == [ms[0]] + ms[1..][..n];
      }
    }
  }

  /** So two interleavings with the same octets are the same messages: message boundaries cannot be
      mistaken. */
  lemma FramingIsUnambiguous(ms: seq<seq<Byte>>, ns: seq<seq<Byte>>, maxLen: nat)
    requires forall i :: 0 <= i < |ms| ==> WellFramed(ms[i], maxLen)
    requires forall i :: 0 <= i < |ns| ==> WellFramed(ns[i], maxLen)
    requires Joined(ms) == Joined(ns)
    ensures ms == ns
  {
    FramingRoundTrip(ms, maxLen, _ => true);
    FramingRoundTrip(ns, maxLen, _ => true);
    assert ms[..|ms|] == ms && ns[..|ns|] == ns;
  }

  /** A stream that breaks off inside a message is an unexpected end, except right behind the header, where it
      cannot be told from a clean one. */
  lemma TruncationIsNoticed(m: seq<Byte>, k: nat, maxLen: nat, codec: Codec)
    requires WellFramed(m, maxLen) && 0 < k < |m|
    ensures ReadOne(m[..k], maxLen, codec) == Failed(if k == HEADER_LEN then Eof else UnexpectedEof, [])
  {
    if HEADER_LEN <= k { assert m[..k][..HEADER_LEN] == m[..HEADER_LEN]; }
  }

  /** A message over the reader's cap stops the stream at its header, whatever follows. */
  lemma OversizeStops(m: seq<Byte>, more: seq<Byte>, maxLen: nat, codec: Codec)
    requires WellFramed(m, 65535) && maxLen < |m|
    ensures ReadOne(m + more, maxLen, codec) == Failed(TooBig(|m|), m[HEADER_LEN..] + more)
  {
    assert (m + more)[..HEADER_LEN] == m[..HEADER_LEN];
    assert (m + more)[HEADER_LEN..] == m[HEADER_LEN..] + more;
  }
}
