/**
 * The second API generation of the message type
 * (xProject/network/MessageInterface.hpp): `IHeader` with protected tags
 * and size, `IBody` with its byte vector, and `IMessage` pairing the two.
 * All three are value structs; setters are member functions returning the
 * updated value.
 */
module MessageInterface {
  import opened Common

  datatype IHeader<T, S> = IHeader(msgType: T, status: S, sizeData: u32)
  {
    function Size(): u32 { sizeData }

    function Type(): T { msgType }

    function Status(): S { status }

    function SetSize(n: u32): (r: IHeader<T, S>)
      ensures r.Size() == n
      ensures r.Type() == Type() && r.Status() == Status()
    {
      this.(sizeData := n)
    }

    function SetType(t: T): (r: IHeader<T, S>)
      ensures r.Type() == t
      ensures r.Status() == Status() && r.Size() == Size()
    {
      this.(msgType := t)
    }

    function SetStatus(s: S): (r: IHeader<T, S>)
      ensures r.Status() == s
      ensures r.Type() == Type() && r.Size() == Size()
    {
      this.(status := s)
    }
  }

  /**
   * A value-initialised header (`TypeHeader header{}`): the size is 0; the
   * tags are the enumerations' zero values, passed in here.
   */
  function DefaultHeader<T, S>(zeroType: T, zeroStatus: S): (r: IHeader<T, S>)
    ensures r.Size() == 0
  {
    IHeader(zeroType, zeroStatus, 0)
  }

  datatype IBody = IBody(data: seq<byte>)
  {
    /** `data.size()` returned as `uint32_t`. */
    function Size(): (r: u32)
      ensures |data| < U32_MODULUS ==> r == |data|
    {
      ToU32(|data|)
    }

    function Empty(): (r: bool)
      ensures r <==> data == []
    {
      |data| == 0
    }

    function Data(): seq<byte> { data }

    function Clear(): (r: IBody)
      ensures r.Empty() && r.Size() == 0
    {
      IBody([])
    }
  }

  datatype IMessage<T, S> = IMessage(header: IHeader<T, S>, body: IBody)
  {
    function HSize(): (r: u32)
      ensures r == header.sizeData
    {
      header.Size()
    }

    function BSize(): (r: u32)
      ensures |body.data| < U32_MODULUS ==> r == |body.data|
    {
      body.Size()
    }
  }

  datatype OwnerMessage<C, M> = OwnerMessage(remoteConnection: C, remoteMsg: M)

  function MakeOwnerMessage<C, M>(con: C, msg: M): (r: OwnerMessage<C, M>)
    ensures r.remoteConnection == con && r.remoteMsg == msg
  {
    OwnerMessage(con, msg)
  }

  /** Each setter is read back by its getter and touches no other field. */
  lemma {:induction false} SetThenGet<T, S>(h: IHeader<T, S>, n: u32, t: T, s: S)
    ensures h.SetSize(n).Size() == n
    ensures h.SetType(t).Type() == t && h.SetStatus(s).Status() == s
    ensures h.SetSize(n).SetType(t).SetStatus(s) == IHeader(t, s, n)
  {
  }

  /** `Size()` is the 32-bit truncation of the byte count, and 0 exactly for an empty body when it fits. */
  lemma {:induction false} BodySizeEmpty(b: IBody)
    requires |b.data| < U32_MODULUS
    ensures b.Empty() <==> b.Size() == 0
  {
  }

  /** A body of exactly 2^32 bytes reports size 0 while not being empty. */
  lemma BodySizeWraps()
    ensures var b := IBody(seq(U32_MODULUS, i => 0)); !b.Empty() && b.Size() == 0
  {
  }
}
