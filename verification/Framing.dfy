// Length-prefixed audio messages (src/trx-core/src/audio.rs:78-184): one type octet, a
// big-endian length, the payload.
module Framing {
  import opened Basics
  import opened Octets

  const HISTORY_COMPRESSED: octet := 0x0a
  const RX_FRAME_CH: octet := 0x0b
  const MAX_PAYLOAD_SIZE := 1_048_576
  const MAX_HISTORY_PAYLOAD_SIZE := 16_777_216

  datatype Msg = Msg(kind: octet, payload: Octets)

  datatype Error = UnexpectedEof | TooLarge(kind: octet, length: u32) | TooShort

  function Limit(kind: octet): u32 {
    if kind == HISTORY_COMPRESSED then MAX_HISTORY_PAYLOAD_SIZE else MAX_PAYLOAD_SIZE
  }

  // A megabyte, and sixteen for the compressed history.
  predicate WithinLimit(m: Msg) {
    |m.payload| <= if m.kind == 0x0a then 0x100_0000 else 0x10_0000
  }

  // The length is cut to 32 bits, and nothing is refused.
  function Wire(m: Msg): Octets {
    [m.kind] + (Be32(|m.payload| % U32) + m.payload)
  }

  class Writer {
    var sent: Octets

    constructor ()
      ensures sent == []
    {
      sent := [];
    }

    method WriteAudioMsg(kind: octet, payload: Octets)
      modifies this
      ensures sent == old(sent) + Wire(Msg(kind, payload))
    {
      hide Be32;
      var len := |payload| % U32;
      sent := sent + [kind];
      sent := sent + Be32(len);
      sent := sent + payload;
      WireInOrder(old(sent), kind, Be32(len), payload);
    }

    method WriteVchanAudioFrame(uuid: Octets, opus: Octets)
      requires |uuid| == 16
      modifies this
      ensures sent == old(sent) + Wire(Msg(RX_FRAME_CH, uuid + opus))
    {
      var payload := uuid;
      payload := payload + opus;
      WriteAudioMsg(RX_FRAME_CH, payload);
    }
  }

  lemma WireInOrder(sent: Octets, kind: octet, length: Octets, payload: Octets)
    ensures sent + [kind] + length + payload == sent + ([kind] + (length + payload))
  {
  }

  // What one read returns, and what it leaves unread.
  function ReadMsg(bytes: Octets): (Result<Msg, Error>, Octets) {
    if |bytes| < 5 then (Err(UnexpectedEof), [])
    else
      var kind, len := bytes[0], Get32(bytes[1..]);
      if len > Limit(kind) then (Err(TooLarge(kind, len)), bytes[5..])
      else if |bytes| < 5 + len then (Err(UnexpectedEof), [])
      else (Ok(Msg(kind, bytes[5..5 + len])), bytes[5 + len..])
  }

  // A stream that ends after the octets it holds.
  class Reader {
    var incoming: Octets

    constructor (bytes: Octets)
      ensures incoming == bytes
    {
      incoming := bytes;
    }

    method ReadExact(n: nat) returns (r: Result<Octets, Error>)
      modifies this
      ensures r == if |old(incoming)| < n then Err(UnexpectedEof) else Ok(old(incoming)[..n])
      ensures incoming == if |old(incoming)| < n then [] else old(incoming)[n..]
    {
      if |incoming| < n {
        incoming := [];
        return Err(UnexpectedEof);
      }
      r := Ok(incoming[..n]);
      incoming := incoming[n..];
    }

    method ReadAudioMsg() returns (r: Result<Msg, Error>)
      modifies this
      ensures (r, incoming) == ReadMsg(old(incoming))
    {
      var kind := ReadExact(1);
      if kind.Err? {
        return Err(kind.error);
      }
      var length := ReadExact(4);
      if length.Err? {
        return Err(length.error);
      }
      var len := FromBe32(length.value[0], length.value[1], length.value[2], length.value[3]);
      assert incoming == old(incoming)[5..];
      var limit := if kind.value[0] == HISTORY_COMPRESSED then MAX_HISTORY_PAYLOAD_SIZE else MAX_PAYLOAD_SIZE;
      if len > limit {
        return Err(TooLarge(kind.value[0], len));
      }
      var payload := ReadExact(len);
      assert payload.Ok? ==> payload.value == old(incoming)[5..5 + len] && incoming == old(incoming)[5 + len..];
      if payload.Err? {
        return Err(payload.error);
      }
      return Ok(Msg(kind.value[0], payload.value));
    }
  }

  lemma HeaderRead(m: Msg, rest: Octets, all: Octets)
    requires all == Wire(m) + rest
    ensures |all| >= 5 && all[0] == m.kind && Get32(all[1..]) == |m.payload| % U32 && all[5..] == m.payload + rest
  {
    hide Be32, Get32;
    var len := |m.payload| % U32;
    WireSplit(m.kind, Be32(len), m.payload, rest);
    Get32Front(len, m.payload + rest);
    assert all[1..] == Be32(len) + (m.payload + rest);
    assert all[5..] == all[1..][4..];
  }

  // A message comes back, with the stream behind it untouched, exactly when its payload is
  // within the limit for its type.
  lemma MessageReadBack(m: Msg, rest: Octets)
    ensures ReadMsg(Wire(m) + rest) == (Ok(m), rest) <==> WithinLimit(m)
  {
    HeaderRead(m, rest, Wire(m) + rest);
    ReadFrom(Wire(m) + rest, m, rest);
  }

  lemma ReadFrom(all: Octets, m: Msg, rest: Octets)
    requires |all| >= 5 && all[0] == m.kind && Get32(all[1..]) == |m.payload| % U32 && all[5..] == m.payload + rest
    ensures ReadMsg(all) == (Ok(m), rest) <==> WithinLimit(m)
  {
    hide Get32;
    if WithinLimit(m) {
      var len := |m.payload|;
      assert all[5..5 + len] == all[5..][..len] == m.payload && all[5 + len..] == all[5..][len..] == rest;
    }
  }

  lemma WireSplit(kind: octet, length: Octets, payload: Octets, rest: Octets)
    ensures ([kind] + (length + payload)) + rest == [kind] + (length + (payload + rest))
  {
  }

  // Nothing else is ever returned: what was read, written, gives back the octets.
  lemma ReadIsWritten(bytes: Octets)
    ensures var (r, rest) := ReadMsg(bytes);
            r.Ok? ==> WithinLimit(r.value) && bytes == Wire(r.value) + rest
  {
    hide Be32, ReadMsg, Wire;
    if ReadMsg(bytes).0.Ok? {
      ReadParts(bytes);
      var len := Get32(bytes[1..]);
      Be32OfGet32(bytes[1..]);
      FourParts(bytes, len);
      WireParts(Msg(bytes[0], bytes[5..5 + len]), bytes[1..][..4]);
    }
  }

  lemma ReadParts(bytes: Octets)
    requires ReadMsg(bytes).0.Ok?
    ensures |bytes| >= 5 && var len := Get32(bytes[1..]);
                            && 5 + len <= |bytes| && WithinLimit(Msg(bytes[0], bytes[5..5 + len]))
                            && ReadMsg(bytes) == (Ok(Msg(bytes[0], bytes[5..5 + len])), bytes[5 + len..])
  {
    hide Get32;
  }

  lemma WireParts(m: Msg, length: Octets)
    requires |m.payload| < U32 && length == Be32(|m.payload|)
    ensures Wire(m) == [m.kind] + (length + m.payload)
  {
    hide Be32;
  }

  lemma FourParts(bytes: Octets, len: nat)
    requires |bytes| >= 5 + len
    ensures bytes == ([bytes[0]] + (bytes[1..][..4] + bytes[5..5 + len])) + bytes[5 + len..]
  {
  }

  // A message over its limit, whose length fits into 32 bits, is refused with its type and length
  // when its header has been read.
  lemma TooLargeRefused(m: Msg, rest: Octets)
    requires !WithinLimit(m) && |m.payload| < U32
    ensures ReadMsg(Wire(m) + rest) == (Err(TooLarge(m.kind, |m.payload|)), m.payload + rest)
  {
    hide Wire, Get32, Be32;
    var all := Wire(m) + rest;
    HeaderRead(m, rest, all);
  }

  // A stream that ends inside a message gives no part of it.
  lemma CutMessage(m: Msg, k: nat)
    requires WithinLimit(m) && k < |Wire(m)|
    ensures ReadMsg(Wire(m)[..k]) == (Err(UnexpectedEof), [])
  {
    hide Be32;
    var cut := Wire(m)[..k];
    if k >= 5 {
      HeaderRead(m, [], Wire(m) + []);
      assert Wire(m) + [] == Wire(m);
      SameNumber(cut[1..], Wire(m)[1..]);
    }
  }

  lemma SameNumber(a: Octets, b: Octets)
    requires |a| >= 4 && |b| >= 4 && a[0] == b[0] && a[1] == b[1] && a[2] == b[2] && a[3] == b[3]
    ensures Get32(a) == Get32(b)
  {
  }

  function Stream(msgs: seq<Msg>): Octets {
    if msgs == [] then [] else Wire(msgs[0]) + Stream(msgs[1..])
  }

  // Reading until the first error.
  function ReadAll(bytes: Octets): (seq<Msg>, Error)
    decreases |bytes|
  {
    var (first, rest) := ReadMsg(bytes);
    if first.Err? then ([], first.error)
    else
      var (others, error) := ReadAll(rest);
      ([first.value] + others, error)
  }

  // A whole stream gives back exactly its messages, and then its end.
  lemma {:induction false} StreamReadBack(msgs: seq<Msg>)
    requires forall m :: m in msgs ==> WithinLimit(m)
    ensures ReadAll(Stream(msgs)) == (msgs, UnexpectedEof)
  {
    if msgs == [] {
    } else {
      hide Wire, ReadMsg;
      MessageReadBack(msgs[0], Stream(msgs[1..]));
      StreamReadBack(msgs[1..]);
      WireNotEmpty(msgs[0]);
      assert [msgs[0]] + msgs[1..] == msgs;
    }
  }

  lemma WireNotEmpty(m: Msg)
    ensures |Wire(m)| >= 5
  {
  }

  // ---- virtual channels ------------------------------------------------------------------

  function ParseVchanAudioFrame(payload: Octets): Result<(Octets, Octets), Error> {
    if |payload| < 16 then Err(TooShort) else Ok((payload[..16], payload[16..]))
  }

  // A channel's audio reaches the other side under its own identifier.
  lemma VchanFrameReadBack(uuid: Octets, opus: Octets, rest: Octets)
    requires |uuid| == 16 && 16 + |opus| <= 1_048_576
    ensures var (m, left) := ReadMsg(Wire(Msg(RX_FRAME_CH, uuid + opus)) + rest);
            m.Ok? && m.value.kind == 0x0b && left == rest
            && ParseVchanAudioFrame(m.value.payload) == Ok((uuid, opus))
  {
    MessageReadBack(Msg(RX_FRAME_CH, uuid + opus), rest);
    Front(uuid, opus);
  }
}
