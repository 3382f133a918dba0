/**
 * The wire format written by `Connection::WriteHeader`/`WriteBody` and
 * read back by `ReadHeader`/`ReadBody` (xProject/network/Connection.hpp):
 * each message is its header followed by exactly the body's bytes, with
 * no delimiter beyond the declared `sizeData`.  The header is an abstract
 * record (one token), not its host memory layout.
 */
module Framing {
  import opened Common
  import opened StructMessage

  datatype Token<T, S> = HeaderTok(header: HeaderMessage<T, S>) | ByteTok(b: byte)

  function Bytes<T, S>(data: seq<byte>): (r: seq<Token<T, S>>)
    ensures |r| == |data|
  {
    seq(|data|, i requires 0 <= i < |data| => ByteTok(data[i]))
  }

  /** One message on the wire: the header write, then the body write when the body is non-empty. */
  function Encode<T, S>(m: Message<T, S>): seq<Token<T, S>>
  {
    [HeaderTok(m.header)] + Bytes(m.body)
  }

  /** A sequence of messages written one after the other. */
  function EncodeAll<T, S>(ms: seq<Message<T, S>>): seq<Token<T, S>>
  {
    if ms == [] then [] else Encode(ms[0]) + EncodeAll(ms[1..])
  }

  predicate AllValid<T, S>(ms: seq<Message<T, S>>)
  {
    forall i | 0 <= i < |ms| :: ms[i].Valid()
  }

  /** `ReadBody`'s `async_read`: exactly `n` bytes, or failure if the stream does not hold them. */
  function ReadBytes<T, S>(ts: seq<Token<T, S>>, n: nat): (r: Option<seq<byte>>)
    ensures r.Some? ==> |r.value| == n && n <= |ts|
    ensures r.Some? ==> forall i | 0 <= i < n :: ts[i] == ByteTok(r.value[i])
    decreases n
  {
    if n == 0 then Some([])
    else if ts == [] || !ts[0].ByteTok? then None
    else match ReadBytes(ts[1..], n - 1)
      case None => None
      case Some(rest) => Some([ts[0].b] + rest)
  }

  /**
   * The read cycle as a function of the whole stream: a header, then
   * `sizeData` bytes of body, repeated.  A stream that does not split this
   * way is a protocol error (`None`).
   */
  function Decode<T, S>(ts: seq<Token<T, S>>): (r: Option<seq<Message<T, S>>>)
    ensures r.Some? ==> AllValid(r.value)
    decreases |ts|
  {
    if ts == [] then Some([])
    else if !ts[0].HeaderTok? then None
    else
      var h := ts[0].header;
      match ReadBytes(ts[1..], h.sizeData)
      case None => None
      case Some(body) =>
        match Decode(ts[1 + h.sizeData..])
        case None => None
        case Some(rest) => Some([Message(h, body)] + rest)
  }

  lemma {:induction false} EncodeAllAppend<T, S>(a: seq<Message<T, S>>, b: seq<Message<T, S>>)
    ensures EncodeAll(a + b) == EncodeAll(a) + EncodeAll(b)
    decreases |a|
  {
    if a == [] {
      assert a + b == b;
    } else {
      assert (a + b)[1..] == a[1..] + b;
      EncodeAllAppend(a[1..], b);
    }
  }

  lemma EncodeAllSnoc<T, S>(a: seq<Message<T, S>>, m: Message<T, S>)
    ensures EncodeAll(a + [m]) == EncodeAll(a) + Encode(m)
  {
    EncodeAllAppend(a, [m]);
    assert EncodeAll([m]) == Encode(m) + EncodeAll([]);
  }

  lemma {:induction false} ReadBytesOfBytes<T, S>(data: seq<byte>, rest: seq<Token<T, S>>)
    ensures ReadBytes(Bytes<T, S>(data) + rest, |data|) == Some(data)
    decreases |data|
  {
    if data != [] {
      var ts := Bytes<T, S>(data) + rest;
      assert ts[1..] == Bytes<T, S>(data[1..]) + rest;
      ReadBytesOfBytes(data[1..], rest);
      assert [data[0]] + data[1..] == data;
    }
  }

  /** Framing round trip: a reader decodes exactly the messages written, when each declares its true length. */
  lemma {:induction false} DecodeEncodeAll<T, S>(ms: seq<Message<T, S>>)
    requires AllValid(ms)
    ensures Decode(EncodeAll(ms)) == Some(ms)
    decreases |ms|
  {
    if ms != [] {
      var m := ms[0];
      var ts := EncodeAll(ms);
      assert ts == [HeaderTok(m.header)] + (Bytes(m.body) + EncodeAll(ms[1..]));
      assert ts[1..] == Bytes(m.body) + EncodeAll(ms[1..]);
      ReadBytesOfBytes(m.body, EncodeAll(ms[1..]));
      assert ts[1 + m.header.sizeData..] == EncodeAll(ms[1..]);
      assert AllValid(ms[1..]);
      DecodeEncodeAll(ms[1..]);
      assert [Message(m.header, m.body)] + ms[1..] == ms;
    }
  }

  /** A message whose `sizeData` is not its body length desynchronises the stream. */
  lemma InvalidDesynchronizes<T, S>(m: Message<T, S>)
    requires !m.Valid()
    ensures Decode(Encode(m)) == None
  {
    var ts := Encode(m);
    var n := m.header.sizeData;
    assert ts[1..] == Bytes(m.body);
    if n < |m.body| {
      match ReadBytes(ts[1..], n)
      case None =>
      case Some(body) =>
        assert ts[1 + n..][0] == ByteTok(m.body[n]);
        assert Decode(ts[1 + n..]) == None;
    }
  }

  lemma {:induction false} BytesInjective<T, S>(a: seq<byte>, b: seq<byte>)
    requires |a| == |b| && Bytes<T, S>(a) == Bytes<T, S>(b)
    ensures a == b
  {
    forall i | 0 <= i < |a| ensures a[i] == b[i] {
      assert Bytes<T, S>(a)[i] == ByteTok(a[i]);
      assert Bytes<T, S>(b)[i] == ByteTok(b[i]);
    }
  }

  /**
   * A reader that has consumed a prefix of the writer's stream, up to a
   * message boundary, has received a prefix of the messages written, in
   * writing order.
   */
  lemma {:induction false} PrefixRoundTrip<T, S>(sent: seq<Message<T, S>>, got: seq<Message<T, S>>)
    requires AllValid(sent) && AllValid(got)
    requires EncodeAll(got) <= EncodeAll(sent)
    ensures got <= sent
    decreases |got|
  {
    if got != [] {
      var g := got[0];
      assert EncodeAll(got) == Encode(g) + EncodeAll(got[1..]);
      assert EncodeAll(got)[0] == HeaderTok(g.header);
      assert sent != [];
      var m := sent[0];
      assert EncodeAll(sent) == Encode(m) + EncodeAll(sent[1..]);
      assert EncodeAll(sent)[0] == HeaderTok(m.header);
      assert g.header == m.header;
      var n := |g.body|;
      assert n == |m.body|;
      var gs := EncodeAll(got);
      var ss := EncodeAll(sent);
      assert gs[1..1 + n] == Bytes(g.body);
      assert ss[1..1 + n] == Bytes(m.body);
      assert gs[1..1 + n] == ss[1..1 + n];
      BytesInjective<T, S>(g.body, m.body);
      assert gs[1 + n..] == EncodeAll(got[1..]);
      assert ss[1 + n..] == EncodeAll(sent[1..]);
      assert AllValid(got[1..]) && AllValid(sent[1..]);
      PrefixRoundTrip(sent[1..], got[1..]);
      assert got == [g] + got[1..];
      assert sent == [m] + sent[1..];
      assert g == m;
    }
  }
}
