/**
 * `Net::Connection` (xProject/network/Connection.hpp) as a sequential,
 * event-driven machine.  Asio runs completion handlers one at a time on
 * the connection's `io_service`, so each completion handler is a method
 * here, and each private `Read*`/`Write*` member is a method that issues
 * the asynchronous operation (records it as pending).  A lambda handed to
 * `post` runs at the point it is posted.
 *
 * Besides the source's own fields (`msgQueueOut`, the shared
 * `msgQueueIn`, `temporaryMessage`, `owner`, the socket's open flag) the
 * class records the pending operations; the ghost fields `sent`,
 * `written` and `delivered` give the stream the socket has written
 * (`Wire`) and the stream the read cycle has taken (`Consumed`), which
 * state the FIFO and framing properties.
 */
module Connections {
  import opened Common
  import opened StructMessage
  import opened Framing
  import opened LockFreeQueue

  datatype OwnerConnection = Server | Client

  /** `OwnerMessage<TypeMsg, TypeMsgStatus>`: the origin is null for a client-side receipt. */
  type Owned<T(0), S(0)> = OwnerMessage<Connection?<T, S>, T, S>

  /**
   * The read side: at most one read in flight, no read while connecting,
   * every delivered message has its declared length, and the assembly
   * message is empty between messages and sized to its header while its
   * body is awaited.
   */
  ghost predicate ReadInv<T, S>(readsInFlight: nat, connectPending: bool, bodyExpected: bool,
                                temporaryMessage: Message<T, S>, delivered: seq<Message<T, S>>)
  {
    && readsInFlight <= 1
    && (connectPending ==> readsInFlight == 0 && !bodyExpected)
    && AllValid(delivered)
    && (!bodyExpected ==> temporaryMessage.body == [])
    && (bodyExpected ==>
          && temporaryMessage.header.sizeData > 0
          && |temporaryMessage.body| == temporaryMessage.header.sizeData)
  }

  /**
   * The write side: at most one write in flight, a pending write always
   * has a message to write, a half-written front has a body, and every
   * sent message is either completely written or still queued, in order.
   */
  ghost predicate WriteInv<T, S>(writesInFlight: nat, headerWritten: bool, queue: seq<Message<T, S>>,
                                 sent: seq<Message<T, S>>, written: seq<Message<T, S>>)
  {
    && writesInFlight <= 1
    && (writesInFlight == 1 ==> queue != [])
    && (headerWritten ==> queue != [] && queue[0].body != [])
    && sent == written + queue
  }

  lemma Assoc<X>(a: seq<X>, b: seq<X>, c: seq<X>)
    ensures (a + b) + c == a + (b + c)
  {
  }

  /** A complete body after its header completes the frame of one more message. */
  lemma FrameOfBody<T, S>(ms: seq<Message<T, S>>, h: HeaderMessage<T, S>, data: seq<byte>)
    ensures (EncodeAll(ms) + [HeaderTok(h)]) + Bytes(data) == EncodeAll(ms + [Message(h, data)])
  {
    EncodeAllSnoc(ms, Message(h, data));
    Assoc(EncodeAll(ms), [HeaderTok(h)], Bytes<T, S>(data));
  }

  /** A header declaring an empty body is by itself the frame of one more message. */
  lemma FrameOfHeaderOnly<T, S>(ms: seq<Message<T, S>>, h: HeaderMessage<T, S>)
    ensures EncodeAll(ms) + [HeaderTok(h)] == EncodeAll(ms + [Message(h, [])])
  {
    EncodeAllSnoc(ms, Message(h, []));
    assert Bytes<T, S>([]) == [];
    assert Encode(Message(h, [])) == [HeaderTok(h)];
  }

  class Connection<T(0), S(0)> {
    const owner: OwnerConnection
    /** `connectSocket.is_open()`. */
    var open: bool
    /** The outbound `QueueLF`, by its contents (oldest first). */
    var msgQueueOut: seq<Message<T, S>>
    /** The inbound queue shared with the owning interface and its other connections. */
    const msgQueueIn: QueueLF<Owned<T, S>>
    /** The assembly message: the header just read, then its body. */
    var temporaryMessage: Message<T, S>

    /** An `async_connect` is pending. */
    var connectPending: bool
    /** Number of `async_read`s pending; `bodyExpected` says the header of `temporaryMessage` has been read. */
    var readsInFlight: nat
    var bodyExpected: bool
    /** Number of `async_write`s pending; `headerWritten` says the front's header is on the wire and its body is not. */
    var writesInFlight: nat
    var headerWritten: bool
    /**
     * The pending read (write) was issued while the socket was open.  An
     * operation issued on a closed socket can only fail; one issued on an
     * open socket may still succeed after a later close, when it had
     * already finished and its completion was queued behind the close.
     */
    ghost var readIssuedOpen: bool
    ghost var writeIssuedOpen: bool

    /** Every message passed to `Send`, in order. */
    ghost var sent: seq<Message<T, S>>
    /** The messages whose header and body have both been written, in order. */
    ghost var written: seq<Message<T, S>>
    /** Every message this connection has pushed on `msgQueueIn`, in order. */
    ghost var delivered: seq<Message<T, S>>

    /** The read and write invariants of this connection. */
    ghost predicate Valid()
      reads this
    {
      && ReadInv(readsInFlight, connectPending, bodyExpected, temporaryMessage, delivered)
      && WriteInv(writesInFlight, headerWritten, msgQueueOut, sent, written)
    }

    /** The shared inbound queue is well formed and does not contain this connection. */
    ghost predicate Linked()
      reads msgQueueIn, msgQueueIn.Repr
    {
      msgQueueIn.Valid() && this !in msgQueueIn.Repr
    }

    /** Everything the socket has been given to write, in order. */
    ghost function Wire(): seq<Token<T, S>>
      reads this
    {
      EncodeAll(written) + (if headerWritten && msgQueueOut != [] then [HeaderTok(msgQueueOut[0].header)] else [])
    }

    /** Everything the read cycle has taken from the socket, in order. */
    ghost function Consumed(): seq<Token<T, S>>
      reads this
    {
      EncodeAll(delivered) + (if bodyExpected then [HeaderTok(temporaryMessage.header)] else [])
    }

    constructor (ownerConnection: OwnerConnection, socketOpen: bool, msgIn: QueueLF<Owned<T, S>>)
      requires msgIn.Valid()
      ensures Valid() && Linked()
      ensures owner == ownerConnection && open == socketOpen && msgQueueIn == msgIn
      ensures msgQueueOut == [] && sent == [] && written == [] && delivered == []
      ensures readsInFlight == 0 && writesInFlight == 0 && !connectPending && !bodyExpected && !headerWritten
    {
      owner := ownerConnection;
      open := socketOpen;
      msgQueueIn := msgIn;
      msgQueueOut := [];
      // a default-constructed header leaves both tags indeterminate
      var anyType: T := *;
      var anyStatus: S := *;
      temporaryMessage := DefaultMessage(anyType, anyStatus);
      connectPending, readsInFlight, bodyExpected := false, 0, false;
      writesInFlight, headerWritten := 0, false;
      readIssuedOpen, writeIssuedOpen := false, false;
      sent, written, delivered := [], [], [];
    }

    method IsConnected() returns (r: bool)
      ensures r == open
    {
      r := open;
    }

    /** `ConnectToClient`: a server-side connection on an open socket starts its read cycle. */
    method ConnectToClient()
      requires Valid() && readsInFlight == 0 && !connectPending && !bodyExpected
      modifies this`readsInFlight, this`readIssuedOpen
      ensures Valid()
      ensures readsInFlight == (if owner == Server && open then 1 else 0)
      ensures readsInFlight == 1 ==> readIssuedOpen
    {
      if owner == Server {
        var connected := IsConnected();
        if connected {
          ReadHeader();
        }
      }
    }

    /**
     * `ConnectToServer`: a client-side connection issues the range
     * `async_connect` over the resolved endpoints; `attempted` says whether
     * there is any endpoint to try.  Starting the first attempt opens a
     * closed socket at once, so the socket is open from the call on.
     */
    method ConnectToServer(attempted: bool)
      requires Valid() && readsInFlight == 0 && !connectPending && !bodyExpected
      modifies this`connectPending, this`open
      ensures Valid()
      ensures connectPending == (owner == Client)
      ensures open == (old(open) || (owner == Client && attempted))
    {
      if owner == Client {
        connectPending := true;
        open := open || attempted;
      }
    }

    /**
     * Completion of `async_connect`: the handler starts the read cycle on
     * success and ignores an error.  A failed attempt does not close the
     * socket again, and a close while the connect is pending aborts it and
     * leaves the socket closed, so the completion never changes `open`.
     */
    method OnConnected(ok: bool)
      requires Valid() && connectPending
      requires ok ==> open
      modifies this`connectPending, this`readsInFlight, this`readIssuedOpen
      ensures Valid()
      ensures !connectPending && open == old(open)
      ensures readsInFlight == (if ok then 1 else 0)
      ensures ok ==> readIssuedOpen
    {
      connectPending := false;
      if ok {
        ReadHeader();
      }
    }

    /** `Disconnect`: the posted close. */
    method Disconnect()
      requires Valid()
      modifies this`open
      ensures Valid()
      ensures !open
    {
      var connected := IsConnected();
      if connected {
        open := false;
      }
    }

    /**
     * `Send`: the posted lambda appends the message to the outbound queue and
     * kick-starts writing only if the queue was empty, when no write can be
     * in flight.  Nothing reaches the socket yet.
     */
    method Send(msg: Message<T, S>)
      requires Valid()
      modifies this`msgQueueOut, this`sent, this`writesInFlight, this`writeIssuedOpen
      ensures Valid()
      ensures sent == old(sent) + [msg]
      ensures msgQueueOut == old(msgQueueOut) + [msg]
      ensures old(msgQueueOut) == [] ==> old(writesInFlight) == 0 && writesInFlight == 1 && writeIssuedOpen == open
      ensures old(msgQueueOut) != [] ==> writesInFlight == old(writesInFlight)
      ensures Wire() == old(Wire())
    {
      var messageIsEmpty := msgQueueOut == [];
      Assoc(written, msgQueueOut, [msg]);
      msgQueueOut := msgQueueOut + [msg];
      sent := sent + [msg];
      if messageIsEmpty {
        WriteHeader();
      }
    }

    /** `ReadHeader`: issue the fixed-size read of a header into `temporaryMessage`. */
    method ReadHeader()
      requires readsInFlight == 0
      modifies this`readsInFlight, this`readIssuedOpen
      ensures readsInFlight == 1 && readIssuedOpen == open
    {
      readsInFlight, readIssuedOpen := 1, open;
    }

    /** `ReadBody`: issue the read of exactly `sizeData` bytes into the resized body. */
    method ReadBody()
      requires readsInFlight == 0
      modifies this`readsInFlight, this`readIssuedOpen
      ensures readsInFlight == 1 && readIssuedOpen == open
    {
      readsInFlight, readIssuedOpen := 1, open;
    }

    /**
     * Completion of the header read.  On failure the socket is closed and
     * nothing more is read.  On success the header is stored; a non-zero
     * `sizeData` sizes the body and reads it, a zero one delivers the
     * message at once.  The handler tests only the error code, so a read
     * issued on an open socket may succeed after a later close.
     */
    method OnHeaderRead(ok: bool, h: HeaderMessage<T, S>)
      requires Valid() && Linked() && readsInFlight == 1 && !bodyExpected
      requires ok ==> readIssuedOpen
      modifies this`readsInFlight, this`readIssuedOpen, this`temporaryMessage, this`bodyExpected,
               this`open, this`delivered, msgQueueIn.Repr
      ensures Valid() && Linked() && fresh(msgQueueIn.Repr - old(msgQueueIn.Repr))
      ensures !ok ==> !open && readsInFlight == 0 && delivered == old(delivered)
                      && msgQueueIn.Contents == old(msgQueueIn.Contents)
                      && bodyExpected == old(bodyExpected) && temporaryMessage == old(temporaryMessage)
                      && Consumed() == old(Consumed())
      ensures ok ==> open == old(open) && readsInFlight == 1 && readIssuedOpen == open
                     && Consumed() == old(Consumed()) + [HeaderTok(h)]
      ensures ok && h.sizeData > 0 ==>
                && bodyExpected && temporaryMessage.header == h
                && delivered == old(delivered) && msgQueueIn.Contents == old(msgQueueIn.Contents)
      ensures ok && h.sizeData == 0 ==>
                && !bodyExpected
                && delivered == old(delivered) + [Message(h, [])]
                && msgQueueIn.Contents == old(msgQueueIn.Contents)
                   + [OwnerMessage(if owner == Server then this else null, Message(h, []))]
    {
      if ok {
        var received := temporaryMessage.(header := h);
        if h.sizeData > 0 {
          temporaryMessage, bodyExpected, readsInFlight := received.(body := Zeros(h.sizeData)), true, 0;
          ReadBody();
        } else {
          FrameOfHeaderOnly(delivered, h);
          temporaryMessage, readsInFlight := received, 0;
          AddMessageToQueue();
        }
      } else {
        open, readsInFlight := false, 0;
      }
    }

    /**
     * Completion of the body read: `async_read` completes successfully only
     * once all `sizeData` bytes have arrived.
     */
    method OnBodyRead(ok: bool, data: seq<byte>)
      requires Valid() && Linked() && readsInFlight == 1 && bodyExpected
      requires ok ==> readIssuedOpen && |data| == temporaryMessage.header.sizeData
      modifies this`readsInFlight, this`readIssuedOpen, this`temporaryMessage, this`bodyExpected,
               this`open, this`delivered, msgQueueIn.Repr
      ensures Valid() && Linked() && fresh(msgQueueIn.Repr - old(msgQueueIn.Repr))
      ensures !ok ==> !open && readsInFlight == 0 && delivered == old(delivered)
                      && msgQueueIn.Contents == old(msgQueueIn.Contents)
                      && bodyExpected == old(bodyExpected) && temporaryMessage == old(temporaryMessage)
                      && Consumed() == old(Consumed())
      ensures ok ==>
                && open == old(open) && !bodyExpected && readsInFlight == 1 && readIssuedOpen == open
                && Consumed() == old(Consumed()) + Bytes(data)
                && delivered == old(delivered) + [Message(old(temporaryMessage).header, data)]
                && msgQueueIn.Contents == old(msgQueueIn.Contents)
                   + [OwnerMessage(if owner == Server then this else null,
                                   Message(old(temporaryMessage).header, data))]
    {
      if ok {
        var h := temporaryMessage.header;
        FrameOfBody(delivered, h, data);
        temporaryMessage, bodyExpected, readsInFlight := Message(h, data), false, 0;
        AddMessageToQueue();
      } else {
        open, readsInFlight := false, 0;
      }
    }

    /**
     * `AddMessageToQueue`: hand the assembled message, with this connection
     * as origin for a server-side connection and null for a client-side one,
     * to the inbound queue; clear the assembly message and read the next
     * header.
     */
    method AddMessageToQueue()
      requires Linked()
      requires WriteInv(writesInFlight, headerWritten, msgQueueOut, sent, written)
      requires readsInFlight == 0 && !bodyExpected && !connectPending
      requires AllValid(delivered) && temporaryMessage.Valid()
      modifies this`readsInFlight, this`readIssuedOpen, this`temporaryMessage, this`delivered, msgQueueIn.Repr
      ensures Valid() && Linked() && fresh(msgQueueIn.Repr - old(msgQueueIn.Repr))
      ensures msgQueueIn.Contents == old(msgQueueIn.Contents)
              + [OwnerMessage(if owner == Server then this else null, old(temporaryMessage))]
      ensures delivered == old(delivered) + [old(temporaryMessage)]
      ensures temporaryMessage == old(temporaryMessage).Clear()
      ensures readsInFlight == 1 && readIssuedOpen == open
    {
      var origin: Connection?<T, S> := if owner == Server then this else null;
      msgQueueIn.PushBack(OwnerMessage(origin, temporaryMessage));
      delivered := delivered + [temporaryMessage];
      temporaryMessage := temporaryMessage.Clear();
      ReadHeader();
    }

    /** `WriteHeader`: issue the write of the front message's header. */
    method WriteHeader()
      requires writesInFlight == 0
      modifies this`writesInFlight, this`writeIssuedOpen
      ensures writesInFlight == 1 && writeIssuedOpen == open
    {
      writesInFlight, writeIssuedOpen := 1, open;
    }

    /** `WriteBody`: issue the write of the front message's body. */
    method WriteBody()
      requires writesInFlight == 0
      modifies this`writesInFlight, this`writeIssuedOpen
      ensures writesInFlight == 1 && writeIssuedOpen == open
    {
      writesInFlight, writeIssuedOpen := 1, open;
    }

    /**
     * Completion of a header write.  A non-empty body is written next;
     * otherwise the front is popped and the next header write is issued
     * only if messages remain.  On failure the socket is closed and nothing
     * more is written.  As for reads, a write issued on an open socket may
     * succeed after a later close.
     */
    method OnHeaderWritten(ok: bool)
      requires Valid() && writesInFlight == 1 && !headerWritten
      requires ok ==> writeIssuedOpen
      modifies this`writesInFlight, this`writeIssuedOpen, this`headerWritten, this`msgQueueOut,
               this`written, this`open
      ensures Valid()
      ensures !ok ==> !open && writesInFlight == 0 && Wire() == old(Wire()) && msgQueueOut == old(msgQueueOut)
      ensures ok ==> open == old(open) && Wire() == old(Wire()) + [HeaderTok(old(msgQueueOut)[0].header)]
      ensures ok && old(msgQueueOut)[0].body != [] ==>
                headerWritten && writesInFlight == 1 && writeIssuedOpen == open && msgQueueOut == old(msgQueueOut)
      ensures ok && old(msgQueueOut)[0].body == [] ==>
                && !headerWritten
                && msgQueueOut == old(msgQueueOut)[1..]
                && written == old(written) + [old(msgQueueOut)[0]]
                && writesInFlight == (if msgQueueOut != [] then 1 else 0)
                && (writesInFlight == 1 ==> writeIssuedOpen == open)
    {
      writesInFlight := 0;
      if ok {
        var front := msgQueueOut[0];
        if |front.body| > 0 {
          headerWritten := true;
          WriteBody();
        } else {
          assert front == Message(front.header, []);
          FrameOfHeaderOnly(written, front.header);
          Assoc(written, [front], msgQueueOut[1..]);
          written, msgQueueOut := written + [front], msgQueueOut[1..];
          if msgQueueOut != [] {
            WriteHeader();
          }
        }
      } else {
        open := false;
      }
    }

    /** Completion of a body write: pop the front and chain to the next header. */
    method OnBodyWritten(ok: bool)
      requires Valid() && writesInFlight == 1 && headerWritten
      requires ok ==> writeIssuedOpen
      modifies this`writesInFlight, this`writeIssuedOpen, this`headerWritten, this`msgQueueOut,
               this`written, this`open
      ensures Valid()
      ensures !ok ==> !open && writesInFlight == 0 && Wire() == old(Wire()) && msgQueueOut == old(msgQueueOut)
      ensures ok ==>
                && open == old(open)
                && Wire() == old(Wire()) + Bytes(old(msgQueueOut)[0].body)
                && !headerWritten
                && msgQueueOut == old(msgQueueOut)[1..]
                && written == old(written) + [old(msgQueueOut)[0]]
                && writesInFlight == (if msgQueueOut != [] then 1 else 0)
                && (writesInFlight == 1 ==> writeIssuedOpen == open)
    {
      writesInFlight := 0;
      if ok {
        var front := msgQueueOut[0];
        FrameOfBody(written, front.header, front.body);
        Assoc(written, [front], msgQueueOut[1..]);
        written, headerWritten, msgQueueOut := written + [front], false, msgQueueOut[1..];
        if msgQueueOut != [] {
          WriteHeader();
        }
      } else {
        open := false;
      }
    }
  }

  /** The body after `resize(n)` on an empty body: `n` zero bytes. */
  function Zeros(n: nat): (r: seq<byte>)
    ensures |r| == n
    ensures forall i | 0 <= i < n :: r[i] == 0
  {
    seq(n, i => 0)
  }

  /** The wire of a valid connection is always a prefix of the frames of the messages sent. */
  lemma WireIsPrefixOfSent<T(0), S(0)>(c: Connection<T, S>)
    requires c.Valid()
    ensures c.Wire() <= EncodeAll(c.sent)
  {
    EncodeAllAppend(c.written, c.msgQueueOut);
    if c.headerWritten {
      var q := c.msgQueueOut;
      assert EncodeAll(q) == Encode(q[0]) + EncodeAll(q[1..]);
      assert EncodeAll(q)[..1] == [HeaderTok(q[0].header)];
    }
  }

  /**
   * Framing round trip across two connections: if the reader has consumed
   * a prefix of the writer's wire and every sent message declares its true
   * length, the messages the reader delivered are the first messages the
   * writer sent, in order, with the same tags and bodies.
   */
  lemma RoundTrip<T(0), S(0)>(writer: Connection<T, S>, reader: Connection<T, S>)
    requires writer.Valid() && reader.Valid()
    requires AllValid(writer.sent)
    requires reader.Consumed() <= writer.Wire()
    ensures reader.delivered <= writer.sent
  {
    WireIsPrefixOfSent(writer);
    // what the reader consumed starts with the frames of what it delivered
    assert EncodeAll(reader.delivered) <= reader.Consumed();
    PrefixRoundTrip(writer.sent, reader.delivered);
  }
}
