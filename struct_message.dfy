/**
 * The framing data type of the first API generation
 * (xProject/network/StructMessage.hpp): a header with two application
 * tags and a 32-bit body length, followed by a byte body.
 *
 * `Message` is a C++ value struct that is copied into every queue it is
 * pushed on, so it is modelled as a datatype; each mutator is a member
 * function returning the updated value, and a caller that mutates a
 * message in place reassigns the field that holds it.
 */
module StructMessage {
  import opened Common

  datatype HeaderMessage<T, S> = HeaderMessage(msgType: T, status: S, sizeData: u32)

  datatype Message<T, S> = Message(header: HeaderMessage<T, S>, body: seq<byte>)
  {
    /** The framing invariant: the declared length is the body length. */
    predicate Valid() {
      header.sizeData == |body|
    }

    function GetType(): T { header.msgType }

    function GetStatus(): S { header.status }

    /** `SetType`: only the type tag changes. */
    function SetType(t: T): (r: Message<T, S>)
      ensures r.GetType() == t
      ensures r.GetStatus() == GetStatus()
      ensures r.header.sizeData == header.sizeData && r.body == body
    {
      this.(header := header.(msgType := t))
    }

    /** `SetStatus`: only the status tag changes. */
    function SetStatus(s: S): (r: Message<T, S>)
      ensures r.GetStatus() == s
      ensures r.GetType() == GetType()
      ensures r.header.sizeData == header.sizeData && r.body == body
    {
      this.(header := header.(status := s))
    }

    /** `Clear`: empties the body and recomputes the length, keeping both tags. */
    function Clear(): (r: Message<T, S>)
      ensures r.body == [] && r.header.sizeData == 0
      ensures r.GetType() == GetType() && r.GetStatus() == GetStatus()
      ensures r.Valid()
    {
      Message(header.(sizeData := ToU32(0)), [])
    }

    /**
     * The container `operator<<`: the container's bytes are copied after
     * the body, and the length is set to the new body size converted to
     * `uint32_t` (so it wraps once the body reaches 2^32 bytes).
     */
    function Append(data: seq<byte>): (r: Message<T, S>)
      ensures r.body == body + data
      ensures r.header.sizeData == ToU32(|body| + |data|)
      ensures r.GetType() == GetType() && r.GetStatus() == GetStatus()
      ensures |body| + |data| < U32_MODULUS ==> r.Valid()
    {
      var b := body + data;
      Message(header.(sizeData := ToU32(|b|)), b)
    }

    /** `GetStrData`: the body reinterpreted as characters, byte for byte. */
    function GetStrData(): (r: string)
      ensures |r| == |body|
      ensures forall i | 0 <= i < |r| :: r[i] as int == body[i]
      ensures body == [] ==> r == ""
    {
      BytesToString(body)
    }
  }

  function BytesToString(b: seq<byte>): (r: string)
    ensures |r| == |b|
  {
    seq(|b|, i requires 0 <= i < |b| => b[i] as char)
  }

  /** The inverse of `BytesToString` on strings of 8-bit characters. */
  function StringToBytes(s: string): (r: seq<byte>)
    requires forall i | 0 <= i < |s| :: s[i] as int < 0x100
    ensures |r| == |s|
  {
    seq(|s|, i requires 0 <= i < |s| => s[i] as int)
  }

  /** `GetStrData` loses nothing: the body can be recovered from the string. */
  lemma StrDataRoundTrip<T, S>(m: Message<T, S>)
    ensures forall i | 0 <= i < |m.GetStrData()| :: m.GetStrData()[i] as int < 0x100
    ensures StringToBytes(m.GetStrData()) == m.body
  {
    var r := m.GetStrData();
    assert forall i | 0 <= i < |r| :: r[i] as int == m.body[i];
  }

  /**
   * `OwnerMessage`: a received message paired with the connection it came
   * from.  The connection type is a parameter here (it is a nullable
   * reference in the connection module).
   */
  datatype OwnerMessage<C, T, S> = OwnerMessage(remoteConnection: C, remoteMsg: Message<T, S>)

  function MakeOwnerMessage<C, T, S>(con: C, msg: Message<T, S>): (r: OwnerMessage<C, T, S>)
    ensures r.remoteConnection == con && r.remoteMsg == msg
  {
    OwnerMessage(con, msg)
  }

  /** A default-constructed message: `sizeData` is 0 and the body is empty. */
  function DefaultMessage<T, S>(t: T, s: S): (r: Message<T, S>)
    ensures r.body == [] && r.header.sizeData == 0 && r.Valid()
  {
    Message(HeaderMessage(t, s, 0), [])
  }

  /** `MessageFactory::CreateMessage(type, status)`. */
  function CreateMessage<T, S>(t: T, s: S): (r: Message<T, S>)
    ensures r.GetType() == t && r.GetStatus() == s
    ensures r.body == [] && r.header.sizeData == 0
    ensures r.Valid()
  {
    DefaultMessage(t, s).SetType(t).SetStatus(s)
  }

  /** `MessageFactory::CreateMessage(type, status, data)` for a container `data`. */
  function CreateMessageWith<T, S>(t: T, s: S, data: seq<byte>): (r: Message<T, S>)
    ensures r.GetType() == t && r.GetStatus() == s
    ensures r.body == data
    ensures r.header.sizeData == ToU32(|data|)
    ensures |data| < U32_MODULUS ==> r.Valid()
  {
    DefaultMessage(t, s).SetType(t).SetStatus(s).Append(data)
  }

  /**
   * Every mutator keeps the framing invariant as long as the body stays
   * below 2^32 bytes.
   */
  lemma MutatorsPreserveValid<T, S>(m: Message<T, S>, t: T, s: S, data: seq<byte>)
    requires m.Valid()
    ensures m.SetType(t).Valid() && m.SetStatus(s).Valid() && m.Clear().Valid()
    ensures |m.body| + |data| < U32_MODULUS ==> m.Append(data).Valid()
    ensures |m.body| + |data| >= U32_MODULUS ==> !m.Append(data).Valid()
  {
  }

  /** Appending twice is appending the concatenation. */
  lemma AppendAppend<T, S>(m: Message<T, S>, a: seq<byte>, b: seq<byte>)
    ensures m.Append(a).Append(b) == m.Append(a + b)
  {
    assert m.body + a + b == m.body + (a + b);
  }
}
