/**
 * `Net::HandlerMediator` (xProject/network/Handler.hpp): a registry from
 * message type to handler, and a thread pool that runs one job per
 * accepted message.  The pool is an abstract FIFO of submitted jobs, and
 * a pool worker taking the oldest job is the method `RunNextJob`.
 */
module Handlers {
  import opened Common
  import opened StructMessage
  import opened Connections

  /** `MessageHandler::handle`: turns a received owned message into the reply. */
  datatype MessageHandler<!T(0), !S(0)> = MessageHandler(handle: Owned<T, S> -> Message<T, S>)

  /** The reply a handler table gives for a message whose type is registered. */
  function Reply<T(0,==), S(0)>(handlers: map<T, MessageHandler<T, S>>, msg: Owned<T, S>): Message<T, S>
    requires msg.remoteMsg.GetType() in handlers
  {
    handlers[msg.remoteMsg.GetType()].handle(msg)
  }

  class HandlerMediator<T(0,==), S(0)> {
    /** The size the thread pool was created with. */
    const threadCount: byte
    var mapHandler: map<T, MessageHandler<T, S>>
    /** The jobs submitted to the pool and not yet run, oldest first. */
    var jobs: seq<Owned<T, S>>

    /** Every pending job's type has a handler (handlers are only ever added or replaced). */
    ghost predicate Valid()
      reads this
    {
      forall j | j in jobs :: j.remoteMsg.GetType() in mapHandler
    }

    constructor (count: byte)
      ensures Valid() && threadCount == count && mapHandler == map[] && jobs == []
    {
      threadCount := count;
      mapHandler := map[];
      jobs := [];
    }

    /** `RegisterHandler`: `h` becomes the handler for `t`, replacing any earlier one. */
    method RegisterHandler(t: T, h: MessageHandler<T, S>)
      requires Valid()
      modifies this`mapHandler
      ensures Valid()
      ensures mapHandler == old(mapHandler)[t := h]
    {
      mapHandler := mapHandler[t := h];
    }

    /** `HandleMessage`: submit one job exactly when the message's type has a handler. */
    method HandleMessage(ownMsg: Owned<T, S>)
      requires Valid()
      modifies this`jobs
      ensures Valid()
      ensures ownMsg.remoteMsg.GetType() in mapHandler ==> jobs == old(jobs) + [ownMsg]
      ensures ownMsg.remoteMsg.GetType() !in mapHandler ==> jobs == old(jobs)
    {
      if ownMsg.remoteMsg.GetType() in mapHandler {
        jobs := jobs + [ownMsg];
      }
    }

    /** `RunHandlers`: look the handler up now and send its reply to the message's origin. */
    method RunHandlers(ownMsg: Owned<T, S>)
      requires ownMsg.remoteMsg.GetType() in mapHandler
      requires ownMsg.remoteConnection != null && ownMsg.remoteConnection.Valid()
      modifies ownMsg.remoteConnection`msgQueueOut, ownMsg.remoteConnection`sent,
               ownMsg.remoteConnection`writesInFlight, ownMsg.remoteConnection`writeIssuedOpen
      ensures ownMsg.remoteConnection.Valid()
      ensures ownMsg.remoteConnection.sent == old(ownMsg.remoteConnection.sent) + [Reply(mapHandler, ownMsg)]
    {
      var replMsg := mapHandler[ownMsg.remoteMsg.GetType()].handle(ownMsg);
      ownMsg.remoteConnection.Send(replMsg);
    }

    /** A pool worker runs the oldest pending job with the handler registered at that moment. */
    method RunNextJob()
      requires Valid() && jobs != []
      requires jobs[0].remoteConnection != null && jobs[0].remoteConnection.Valid()
      modifies this`jobs, jobs[0].remoteConnection`msgQueueOut, jobs[0].remoteConnection`sent,
               jobs[0].remoteConnection`writesInFlight, jobs[0].remoteConnection`writeIssuedOpen
      ensures Valid()
      ensures jobs == old(jobs[1..])
      ensures old(jobs[0]).remoteConnection.sent ==
              old(jobs[0].remoteConnection.sent) + [Reply(mapHandler, old(jobs[0]))]
    {
      var job := jobs[0];
      jobs := jobs[1..];
      RunHandlers(job);
    }
  }

  /**
   * The handler is looked up when the job runs, not when it is submitted:
   * replacing the handler between `HandleMessage` and the run changes the
   * reply to the new handler's.
   */
  method LateBinding<T(0,==), S(0)>(mediator: HandlerMediator<T, S>, ownMsg: Owned<T, S>,
                                  first: MessageHandler<T, S>, second: MessageHandler<T, S>)
    requires mediator.Valid() && mediator.jobs == []
    requires ownMsg.remoteConnection != null && ownMsg.remoteConnection.Valid()
    modifies mediator`mapHandler, mediator`jobs, ownMsg.remoteConnection`msgQueueOut,
             ownMsg.remoteConnection`sent, ownMsg.remoteConnection`writesInFlight,
             ownMsg.remoteConnection`writeIssuedOpen
    ensures mediator.jobs == []
    ensures ownMsg.remoteConnection.sent == old(ownMsg.remoteConnection.sent) + [second.handle(ownMsg)]
  {
    var t := ownMsg.remoteMsg.GetType();
    mediator.RegisterHandler(t, first);
    mediator.HandleMessage(ownMsg);
    mediator.RegisterHandler(t, second);
    mediator.RunNextJob();
  }
}
