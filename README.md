# xProjectLib core, modelled in Dafny

xProjectLib is a small C++ TCP messaging framework built on Boost.Asio.
This project models the sequential logic under its sockets and threads, and
proves properties of that model:

- **Messages** (`Net::Message`, `Net::IMessage`). A message is a header
  (type tag, status tag, 32-bit `sizeData`) plus a byte body. The
  invariant `sizeData == |body|` is the predicate `Message.Valid`. Every
  mutator and factory is proved to keep it while the body stays below
  2^32 bytes.
- **The connection state machine** (`Net::Connection`).
  - Each Asio completion handler is a method on a class. The class holds:
    - the outbound queue;
    - the assembly message;
    - the shared inbound queue;
    - the open flag;
    - counts of the reads and writes in flight.
  - The wire is a sequence of tokens: one header token followed by one
    token per body byte. `Connection.Valid` states three things:
    - at most one write in flight;
    - every sent message is either completely written or still queued,
      in order. From this, `WireIsPrefixOfSent` proves that the wire is a
      prefix of the framing of what was sent;
    - every delivered message satisfies the size invariant.
  - The tokens the reader has consumed, `Consumed()`, are defined as the
    framing of the delivered messages followed by a header whose body is
    still awaited. `RoundTrip` assumes the reader consumed a prefix of
    the writer's wire. It concludes that the reader delivered a prefix of
    what the writer sent.
- **The two queues.**
  - `Utils::QueueLF` is a sentinel-headed linked list of heap nodes,
    considered single-threaded.
  - `Utils::Queue` is a deque.
- **Server bookkeeping** (`Net::ServerInterface`):
  - the accept handler;
  - the `Update` drain of the inbound queue;
  - the `CheckClientConnection` sweep, proved to be a stable filter with
    one `OnDisconnect` per dropped connection.
- **The handler registry** (`Net::HandlerMediator`). It maps a type tag
  to a handler, submits a job only for registered tags, and looks the
  handler up when the job runs. The thread pool is an abstract FIFO of
  jobs.
- **The command line** (`Utils::Command`, `CommandTask`, `CommandParser`).
  - Whitespace tokenisation, with the six C-locale space characters.
  - The required-arguments guard.
  - Registration by name, and dispatch of one input line by its title.
- **Path normalisation** (`FileS::PathStruct::Normalize`). It is an
  in-place rewrite of a character buffer with an input index and an
  output index. It is proved equal to a declarative definition
  `Normalized`. Lemmas about `Normalized` cover three things:
  - no doubled separators;
  - the leading `//` rule;
  - idempotence.

Each component is one module:

| module | file | C++ source |
|---|---|---|
| `Common` | `common.dfy` | shared `byte`, `u32` and `Option` |
| `StructMessage` | `struct_message.dfy` | `xProject/network/StructMessage.hpp` |
| `MessageInterface` | `message_interface.dfy` | `xProject/network/MessageInterface.hpp` |
| `Framing` | `framing.dfy` | the wire format of `xProject/network/Connection.hpp` |
| `Connections` | `connection.dfy` | `xProject/network/Connection.hpp` |
| `LockFreeQueue` | `queue_lockfree.dfy` | `xProject/collections/QeueuLockfree.hpp` |
| `DequeQueue` | `queue_deque.dfy` | `xProject/collections/Queue.hpp` |
| `ServerInterfaces` | `server_interface.dfy` | `xProject/network/ServerInterface.hpp` |
| `Handlers` | `handler.dfy` | `xProject/network/Handler.hpp` |
| `CommandParsing` | `command_parser.dfy` | `xProject/utils/CommandParser.hpp` |
| `FileS` | `path_struct.dfy` | `xProject/filesystem/PathStruct.hpp` |

### Modelling choices

- **Integer widths.** `uint32_t` is the subset type `u32`. Converting a
  `size_t` length into it is `ToU32`, which wraps modulo 2^32. An
  over-long body therefore gets a wrong `sizeData`. This is stated
  (`MutatorsPreserveValid`, `BodySizeWraps`), not excluded by a
  precondition.
- **Completions as events.** An Asio completion is a method call that
  takes the outcome (`ok`) and any data that arrived. Issuing an
  asynchronous operation raises an in-flight count. A completion
  requires that count to be 1.
  - Issuing a read or a write also records, in the ghost flags
    `readIssuedOpen` and `writeIssuedOpen`, whether the socket was open
    at that moment.
  - A completion may report success only if its operation was issued
    on an open socket. Nothing else is required: `async_read` and
    `async_write` do not check `is_open`.
  - So a read or write that finished before a later `Disconnect` may
    still succeed on the closed socket. The handler then goes on as the
    source does: it writes the body, pops the front, or delivers the
    message to the inbound queue.
  - An operation issued on a closed socket can only fail.
- **QueueLF `front` and `pop_front` on an empty queue.** The C++ code does
  not fail here. It returns the value stored in the sentinel node and
  leaves the queue empty. The model keeps that branch: the result is the
  ghost `Stale()` value and the contents stay `[]`. It is not modelled as
  a precondition "not empty".
- **Deque operations on an empty queue.** The `Queue` deque's
  `pop_back`, `pop_front`, `front` and `back` call the `std::deque`
  members, which are undefined on an empty deque. These methods therefore
  require a non-empty queue.
- **Posted work runs at once.** `Send` and `Disconnect` post their work
  to the I/O context. The model performs that work within the call,
  because the completion handlers are serialised on the same context.
  A completion that was already queued when the close was posted runs
  after it. Its outcome is described under "Completions as events".
- **When the client socket opens.** `ConnectToServer` starts Asio's
  range `async_connect`. Starting the first attempt opens a closed socket
  at once, so `IsConnected()` is true from the call on, provided at least
  one endpoint was resolved. The model passes that fact as `attempted`.
  The completion handler ignores errors:
  - a failed attempt does not return the socket to the closed state;
  - a close while the connect is pending aborts it, and the socket stays
    closed.
  So `OnConnected(ok)` never changes `open`, and a success requires an
  open socket.
- **The outbound queue of a `Connection`** is a `seq` field. The shared
  inbound queue is the heap `QueueLF` class.
- **Callbacks become logs.** `OnConnect`, `OnDisconnect` and `OnMessage`
  (the server's virtual callbacks) and the functions bound to command
  tasks are not executed. Each call is recorded in a log field: `events`
  on the server, `calls` on a task.

## Model

| member | source | states |
|---|---|---|
| Common.ToU32 | xProject/network/MessageInterface.hpp:31 | a length converted to `uint32_t` is unchanged below 2^32 and never larger than the length |
| StructMessage.Message.GetType | xProject/network/StructMessage.hpp:42 | the header's type (a getter; the contracts about it are those of `SetType`, `SetStatus` and the factories) |
| StructMessage.Message.GetStatus | xProject/network/StructMessage.hpp:45 | the header's status (a getter; the contracts about it are those of `SetType`, `SetStatus` and the factories) |
| StructMessage.Message.SetType | xProject/network/StructMessage.hpp:43 | the new type is `t`; status, `sizeData` and body are untouched |
| StructMessage.Message.SetStatus | xProject/network/StructMessage.hpp:46 | the new status is `s`; type, `sizeData` and body are untouched |
| StructMessage.Message.Clear | xProject/network/StructMessage.hpp:48-52 | body empty, `sizeData` 0, type and status unchanged, and the size invariant holds |
| StructMessage.Message.Append | xProject/network/StructMessage.hpp:93-105 | body is the old body followed by the data; `sizeData` is the new length as `uint32_t`; tags unchanged; the invariant holds when the length fits in 32 bits |
| StructMessage.Message.GetStrData | xProject/network/StructMessage.hpp:59-70 | the string has the body's length and is byte-for-byte equal to it; an empty body gives `""` |
| StructMessage.StrDataRoundTrip | xProject/network/StructMessage.hpp:59-70 | every character of `GetStrData` is a byte, and converting it back gives the body |
| StructMessage.MakeOwnerMessage | xProject/network/StructMessage.hpp:116 | the owned message stores the given connection and message unchanged |
| StructMessage.DefaultMessage | xProject/network/StructMessage.hpp:11-19 | a default message has an empty body, `sizeData` 0, and satisfies the invariant |
| StructMessage.CreateMessage | xProject/network/StructMessage.hpp:137-144 | the given tags, empty body, `sizeData` 0, invariant holds |
| StructMessage.CreateMessageWith | xProject/network/StructMessage.hpp:127-135 | the given tags, body equal to the data, `sizeData` its length as `uint32_t`, invariant holds below 2^32 |
| StructMessage.MutatorsPreserveValid | xProject/network/StructMessage.hpp:42-105 | the setters and `Clear` keep `sizeData == \|body\|`; `Append` keeps it exactly when the new length is below 2^32 and breaks it otherwise |
| StructMessage.AppendAppend | xProject/network/StructMessage.hpp:93-105 | appending `a` then `b` is the same as appending `a + b` |
| MessageInterface.IHeader.Size | xProject/network/MessageInterface.hpp:16 | the size field (a getter; its contract is `SetThenGet` and the setters') |
| MessageInterface.IHeader.Type | xProject/network/MessageInterface.hpp:19 | the type field (a getter; its contract is `SetThenGet` and the setters') |
| MessageInterface.IHeader.Status | xProject/network/MessageInterface.hpp:20 | the status field (a getter; its contract is `SetThenGet` and the setters') |
| MessageInterface.IHeader.SetSize | xProject/network/MessageInterface.hpp:16-17 | `Size()` afterwards is `n`; type and status unchanged |
| MessageInterface.IHeader.SetType | xProject/network/MessageInterface.hpp:22 | `Type()` afterwards is `t`; status and size unchanged |
| MessageInterface.IHeader.SetStatus | xProject/network/MessageInterface.hpp:23 | `Status()` afterwards is `s`; type and size unchanged |
| MessageInterface.DefaultHeader | xProject/network/MessageInterface.hpp:14 | the default header size is 0 |
| MessageInterface.IBody.Data | xProject/network/MessageInterface.hpp:33 | the body bytes (a getter; `Size`, `Empty` and `Clear` are stated in terms of them) |
| MessageInterface.IBody.Size | xProject/network/MessageInterface.hpp:31 | the size is the data length whenever that fits in `uint32_t` |
| MessageInterface.IBody.Empty | xProject/network/MessageInterface.hpp:32 | `Empty()` holds iff the data is empty |
| MessageInterface.IBody.Clear | xProject/network/MessageInterface.hpp:34 | the cleared body is empty and has size 0 |
| MessageInterface.IMessage.HSize | xProject/network/MessageInterface.hpp:49 | `HSize()` is the header's size field |
| MessageInterface.IMessage.BSize | xProject/network/MessageInterface.hpp:50 | `BSize()` is the body's data length when it fits in `uint32_t` |
| MessageInterface.MakeOwnerMessage | xProject/network/MessageInterface.hpp:61 | the owned message stores the given connection and message unchanged |
| MessageInterface.SetThenGet | xProject/network/MessageInterface.hpp:16-23 | each setter followed by its getter returns the set value; setting all three fields gives exactly that header |
| MessageInterface.BodySizeEmpty | xProject/network/MessageInterface.hpp:31-32 | below 2^32 bytes, `Empty()` holds iff `Size()` is 0 |
| MessageInterface.BodySizeWraps | xProject/network/MessageInterface.hpp:31-32 | a body of exactly 2^32 bytes is not empty, yet its `uint32_t` size is 0 |
| Framing.ReadBytes | xProject/network/Connection.hpp:115-116 | a successful read of `n` bytes returns exactly the `n` byte tokens at the front of the stream |
| Framing.Decode | xProject/network/Connection.hpp:96-127 | every message decoded from the wire satisfies `sizeData == \|body\|` |
| Framing.EncodeAllAppend | xProject/network/Connection.hpp:129-167 | the framing of two message sequences in order is the concatenation of their framings |
| Framing.ReadBytesOfBytes | xProject/network/Connection.hpp:115-116 | reading `\|data\|` bytes from a stream that starts with `data` yields `data` |
| Framing.DecodeEncodeAll | xProject/network/Connection.hpp:96-167 | decoding the framing of messages that satisfy the size invariant gives the same messages back |
| Framing.InvalidDesynchronizes | xProject/network/Connection.hpp:96-127 | a message whose `sizeData` disagrees with its body does not decode from its own framing |
| Framing.PrefixRoundTrip | xProject/network/Connection.hpp:96-167 | if the framing of one valid sequence is a prefix of the framing of another, the first sequence is a prefix of the second |
| Connections.Connection.constructor | xProject/network/Connection.hpp:39-43 | a new connection has the given owner, socket state and inbound queue, empty queues and logs, and no operation in flight |
| Connections.Connection.IsConnected | xProject/network/Connection.hpp:79-81 | the result is the socket's open flag |
| Connections.Connection.ConnectToClient | xProject/network/Connection.hpp:52-58 | a header read is issued iff the owner is Server and the socket is open |
| Connections.Connection.ConnectToServer | xProject/network/Connection.hpp:60-70 | a connect is pending iff the owner is Client; for a Client owner with at least one endpoint the socket is open from the call on, otherwise its state is unchanged |
| Connections.Connection.OnConnected | xProject/network/Connection.hpp:62-68 | the connect completion issues a header read iff it succeeded; an error is ignored; the socket's state is left as it is (open unless closed while the connect was pending) |
| Connections.Connection.Disconnect | xProject/network/Connection.hpp:72-78 | afterwards the socket is closed and the invariant still holds |
| Connections.Connection.Send | xProject/network/Connection.hpp:83-94 | the message is appended to the outbound queue and to the sent log; a header write starts iff the queue was empty, so at most one write is in flight; nothing reaches the wire yet |
| Connections.Connection.ReadHeader | xProject/network/Connection.hpp:96-97 | one read is issued, and `readIssuedOpen` records whether the socket is open |
| Connections.Connection.OnHeaderRead | xProject/network/Connection.hpp:98-113 | success is possible whenever the read was issued on an open socket, even if it has been closed since; failure closes the socket with no further read and leaves the assembly message, the delivered messages and the consumed tokens as they were; success consumes the header token, then reads `sizeData` body bytes when it is positive and enqueues the message at once when it is 0 |
| Connections.Connection.ReadBody | xProject/network/Connection.hpp:115-116 | one read is issued, and `readIssuedOpen` records whether the socket is open |
| Connections.Connection.OnBodyRead | xProject/network/Connection.hpp:117-126 | success is possible whenever the read was issued on an open socket, even if it has been closed since; failure closes the socket with no further read and leaves the assembly message, the delivered messages and the consumed tokens as they were; success consumes exactly the body bytes, delivers the assembled message to the inbound queue and re-arms the header read |
| Connections.Connection.AddMessageToQueue | xProject/network/Connection.hpp:169-179 | one owned message is pushed to the inbound queue, carrying this connection for a Server owner and null for a Client owner; the assembly message is cleared and a header read is issued |
| Connections.Connection.WriteHeader | xProject/network/Connection.hpp:129-130 | one write is issued, and `writeIssuedOpen` records whether the socket is open |
| Connections.Connection.OnHeaderWritten | xProject/network/Connection.hpp:131-149 | success is possible whenever the write was issued on an open socket, even if it has been closed since; failure closes the socket with nothing more written; success puts the front header on the wire, then writes its body if non-empty, and otherwise pops the front and starts the next header write iff messages remain |
| Connections.Connection.WriteBody | xProject/network/Connection.hpp:151-152 | one write is issued, and `writeIssuedOpen` records whether the socket is open |
| Connections.Connection.OnBodyWritten | xProject/network/Connection.hpp:153-166 | success is possible whenever the write was issued on an open socket, even if it has been closed since; failure closes the socket; success puts exactly the front body's bytes on the wire, pops the front, and starts the next header write iff messages remain |
| Connections.Zeros | xProject/network/Connection.hpp:102 | the resized body has `n` bytes, all zero |
| Connections.WireIsPrefixOfSent | xProject/network/Connection.hpp:83-167 | the wire is always a prefix of the framing of the sent messages, in submission order |
| Connections.RoundTrip | xProject/network/Connection.hpp:96-167 | if the reader consumed a prefix of the writer's wire and every sent message is valid, the reader delivered a prefix of the writer's sent messages |
| LockFreeQueue.Node.Empty | xProject/collections/QeueuLockfree.hpp:17 | the sentinel node has no successor |
| LockFreeQueue.Node.constructor | xProject/collections/QeueuLockfree.hpp:15-16 | the node stores the value and has no successor |
| LockFreeQueue.QueueLF.constructor | xProject/collections/QeueuLockfree.hpp:37-42 | a new queue is empty, with `head == tail` on the sentinel |
| LockFreeQueue.QueueLF.IsEmpty | xProject/collections/QeueuLockfree.hpp:146-149 | the result holds iff the contents are empty, and iff `head == tail` |
| LockFreeQueue.QueueLF.Front | xProject/collections/QeueuLockfree.hpp:50-57 | on a non-empty queue, the oldest value; on an empty one, the sentinel's stale value; the queue is unchanged |
| LockFreeQueue.QueueLF.PushBack | xProject/collections/QeueuLockfree.hpp:59-82 | the contents gain `v` at the back, and `tail` is the new last node |
| LockFreeQueue.QueueLF.PopFront | xProject/collections/QeueuLockfree.hpp:109-144 | on a non-empty queue, returns the oldest value and removes it, keeping the rest in order; on an empty one, returns the stale sentinel value and stays empty; the node the value was moved out of is left holding an unspecified value |
| LockFreeQueue.QueueLF.Clear | xProject/collections/QeueuLockfree.hpp:151-157 | the queue is empty afterwards |
| DequeQueue.Queue.constructor | xProject/collections/Queue.hpp:18 | a new queue is empty |
| DequeQueue.Queue.PushBack | xProject/collections/Queue.hpp:22-29 | `v` becomes the last element and the others are unchanged |
| DequeQueue.Queue.PushFront | xProject/collections/Queue.hpp:30-37 | `v` becomes the first element and the others are unchanged |
| DequeQueue.Queue.PopBack | xProject/collections/Queue.hpp:56-63 | returns and removes the last element; the rest keep their order |
| DequeQueue.Queue.PopFront | xProject/collections/Queue.hpp:65-72 | returns and removes the first element; the rest keep their order |
| DequeQueue.Queue.Front | xProject/collections/Queue.hpp:74-78 | returns the first element and changes nothing |
| DequeQueue.Queue.Back | xProject/collections/Queue.hpp:79-83 | returns the last element and changes nothing |
| DequeQueue.Queue.Empty | xProject/collections/Queue.hpp:85-89 | holds iff the count is 0, and iff there are no elements |
| DequeQueue.Queue.Clear | xProject/collections/Queue.hpp:91-95 | no elements remain and the count is 0 |
| DequeQueue.Queue.Count | xProject/collections/Queue.hpp:96-100 | the count is the number of elements, and 0 exactly when there are none |
| ServerInterfaces.RemoveNulls | xProject/network/ServerInterface.hpp:99-102 | the erase/remove of null slots keeps every non-null connection, adds none, and leaves no null |
| ServerInterfaces.Receipts | xProject/network/ServerInterface.hpp:69-75 | one `OnMessage` event per drained message, in the same order |
| ServerInterfaces.ServerInterface.constructor | xProject/network/ServerInterface.hpp:22 | a new server listens on the given port and has no connections, no events and an empty inbound queue |
| ServerInterfaces.ServerInterface.WaitForClientConnection | xProject/network/ServerInterface.hpp:39-43 | an accept is pending |
| ServerInterfaces.ServerInterface.OnAccept | xProject/network/ServerInterface.hpp:44-58 | a successful accept appends a new Server-owned open connection that shares the inbound queue, logs `OnConnect`, and starts its header read; an error adds nothing; the accept is re-armed in both cases |
| ServerInterfaces.ServerInterface.Update | xProject/network/ServerInterface.hpp:62-76 | every queued message produces one `OnMessage` in FIFO order, and the inbound queue ends empty |
| ServerInterfaces.Drain | xProject/network/ServerInterface.hpp:69-75 | the `while (!empty()) pop_front()` loop yields every queued value, oldest first, and leaves the queue empty |
| ServerInterfaces.ServerInterface.CheckClientConnection | xProject/network/ServerInterface.hpp:78-103 | the connections become the open ones in their old order, and one `OnDisconnect` is logged per closed non-null connection, in order |
| ServerInterfaces.Sweep | xProject/network/ServerInterface.hpp:80-102 | the loop with the erase returns exactly the surviving connections and the disconnect events |
| ServerInterfaces.MaskedSurvivors | xProject/network/ServerInterface.hpp:89-102 | resetting each closed slot to null and then erasing the nulls gives the survivors |
| ServerInterfaces.SurvivorsAllLive | xProject/network/ServerInterface.hpp:80-102 | if every slot is non-null and open, the collection is unchanged |
| ServerInterfaces.SurvivorsMembership | xProject/network/ServerInterface.hpp:78-103 | a connection survives iff it was in the collection, non-null and open |
| ServerInterfaces.SurvivorsSubset | xProject/network/ServerInterface.hpp:78-103 | every survivor was in the collection and is non-null and open |
| ServerInterfaces.SurvivorsAppend | xProject/network/ServerInterface.hpp:101 | the filter is stable: the survivors of `a + b` are the survivors of `a` followed by those of `b` |
| ServerInterfaces.SweepAccounts | xProject/network/ServerInterface.hpp:89-102 | each non-null slot either survives or yields exactly one `OnDisconnect` |
| Handlers.HandlerMediator.constructor | xProject/network/Handler.hpp:20 | the thread count is stored; no handlers and no jobs |
| Handlers.HandlerMediator.RegisterHandler | xProject/network/Handler.hpp:22-24 | `h` becomes the handler for `t`, replacing any earlier one; other tags are untouched |
| Handlers.HandlerMediator.HandleMessage | xProject/network/Handler.hpp:26-30 | exactly one job is submitted when the type has a handler; otherwise nothing changes |
| Handlers.HandlerMediator.RunHandlers | xProject/network/Handler.hpp:34-39 | the handler's reply is sent to the message's origin connection |
| Handlers.HandlerMediator.RunNextJob | xProject/network/Handler.hpp:28-39 | the oldest job leaves the pool, and the reply of the handler registered at run time goes to its origin |
| Handlers.LateBinding | xProject/network/Handler.hpp:37 | replacing the handler after submission changes the reply to the new handler's |
| CommandParsing.Extract | xProject/utils/CommandParser.hpp:29-35 | one `>>` extraction: it succeeds iff non-space input remains; the token is the next maximal non-space run and the rest follows it; the token list of the stream is this token followed by the tokens of the rest |
| CommandParsing.Parse | xProject/utils/CommandParser.hpp:16-19 | `Command(input)` keeps the input as `fullCommand`; every argument is a token; there are no arguments without a title; the title followed by the arguments is exactly the input's non-space characters |
| CommandParsing.Command.ArgumentsEmpty | xProject/utils/CommandParser.hpp:21-24 | holds iff there are no arguments (its definition; the contract about it is `ArgumentsEmptyIffOneToken`) |
| CommandParsing.ArgumentsEmptyIffOneToken | xProject/utils/CommandParser.hpp:21-37 | a parsed line has no arguments iff it holds at most one token |
| CommandParsing.ParsingCommandLine | xProject/utils/CommandParser.hpp:27-37 | the title is the first token and the arguments are the remaining tokens in order (empty title when there is none) |
| CommandParsing.TokensAreTokens | xProject/utils/CommandParser.hpp:29-35 | no token is empty or contains whitespace |
| CommandParsing.AllSpaceIsEmpty | xProject/utils/CommandParser.hpp:29-35 | all-whitespace input gives no tokens, an empty title and no arguments |
| CommandParsing.TokensKeepNonSpace | xProject/utils/CommandParser.hpp:29-35 | the tokens, concatenated, are the input's non-space characters in order |
| CommandParsing.TokensOfJoin | xProject/utils/CommandParser.hpp:29-35 | tokenising tokens joined by single spaces gives back the same tokens |
| CommandParsing.ParseOfOwnTokens | xProject/utils/CommandParser.hpp:27-37 | the title followed by the arguments is exactly the input's token list |
| CommandParsing.CommandTask.constructor | xProject/utils/CommandParser.hpp:45-62 | a new task does not require arguments and has not run |
| CommandParsing.CommandTask.Execute | xProject/utils/CommandParser.hpp:54-64 | the bound function runs iff arguments are not required or the command has some; a run records the command |
| CommandParsing.CommandTask.RequiredArgs | xProject/utils/CommandParser.hpp:66-70 | the flag is set and the task itself is returned, so a second call changes nothing |
| CommandParsing.CommandTask.IsRequiredArgs | xProject/utils/CommandParser.hpp:72-75 | the result is the flag |
| CommandParsing.CommandParser.constructor | xProject/utils/CommandParser.hpp:99-105 | no commands are registered and the parser is stopped |
| CommandParsing.CommandParser.RegisterCommand | xProject/utils/CommandParser.hpp:112-116 | a fresh task replaces any earlier task under the name |
| CommandParsing.CommandParser.ExecuteParse | xProject/utils/CommandParser.hpp:118-122 | the parser is running |
| CommandParsing.CommandParser.StopParse | xProject/utils/CommandParser.hpp:124-127 | the parser is stopped |
| CommandParsing.CommandParser.DispatchLine | xProject/utils/CommandParser.hpp:144-148 | a line whose title is registered executes that task on the parsed command; an unknown title changes nothing; no task's required-arguments flag changes, and no other task's calls change |
| FileS.IsPathSeparator | xProject/filesystem/PathStruct.hpp:10-12 | a character is a separator iff it is `/` (its definition; every lemma about `Normalized` is stated with it) |
| FileS.PathStruct.GetPath | xProject/filesystem/PathStruct.hpp:30-33 | the path has the stored length |
| FileS.PathStruct.constructor | xProject/filesystem/PathStruct.hpp:22-26 | the stored path is the normalised argument |
| FileS.CString | xProject/filesystem/PathStruct.hpp:35-37 | the string a `const char*` denotes is the longest prefix without a NUL: it ends at the first NUL or at the end |
| FileS.PathStruct.SetPath | xProject/filesystem/PathStruct.hpp:35-39 | the stored path becomes the normalised argument, cut at its first NUL |
| FileS.PathStruct.Normalize | xProject/filesystem/PathStruct.hpp:109-132 | the path is replaced by `Normalized` of its old value |
| FileS.NormalizeBuffer | xProject/filesystem/PathStruct.hpp:111-131 | the two-index rewrite of the buffer leaves `Normalized` of the old contents in its first `outputIndex` cells, and `outputIndex` is at most the old length |
| FileS.EmitAt | xProject/filesystem/PathStruct.hpp:121-127 | one loop step writes the emitted output at the output index and leaves the cells after it untouched |
| FileS.WrittenIsCollapsed | xProject/filesystem/PathStruct.hpp:113-129 | the output after `i` input characters is the kept prefix followed by the collapse of those characters |
| FileS.WrittenBehind | xProject/filesystem/PathStruct.hpp:113-129 | the output index never passes the input index, except within the preserved `//` |
| FileS.WrittenAll | xProject/filesystem/PathStruct.hpp:109-132 | the output after the whole input is `Normalized` of the input |
| FileS.CollapseLNoDouble | xProject/filesystem/PathStruct.hpp:125-127 | the collapse has no two adjacent separators |
| FileS.NormalizedNoDouble | xProject/filesystem/PathStruct.hpp:109-132 | after normalisation no two adjacent characters are both `/`, except a preserved leading `//` |
| FileS.NormalizedPrefixIff | xProject/filesystem/PathStruct.hpp:114-118 | the result starts with `//` iff the input has length at least 3 and starts with two separators followed by a non-separator |
| FileS.NormalizedLength | xProject/filesystem/PathStruct.hpp:120-131 | the result is never longer than the input, and an empty path stays empty |
| FileS.NonSeparatorsAppend | xProject/filesystem/PathStruct.hpp:121-123 | the non-separator characters in a concatenation are those of each part, in order |
| FileS.CollapseLKeepsNonSeparators | xProject/filesystem/PathStruct.hpp:121-127 | the collapse keeps every non-separator character, in order |
| FileS.NormalizedKeepsNonSeparators | xProject/filesystem/PathStruct.hpp:121-123 | normalisation keeps every non-separator character, in order |
| FileS.CollapseLIsSqueeze | xProject/filesystem/PathStruct.hpp:125-127 | the loop-shaped collapse equals the reference definition in which each run of separators becomes one `/` |
| FileS.NormalizedIdempotent | xProject/filesystem/PathStruct.hpp:109-132 | normalising an already normalised path leaves it unchanged |

## Left out

- **Asio plumbing.** Sockets, `io_service`/`post`, the asynchronous
  connect, read, write and accept calls, endpoints and the context thread
  are left out. Each asynchronous call is an in-flight count, and its
  completion is a method taking the outcome. The server's and
  connection's `Start`, `Stop`, `GetAddress` and `GetPort` are left out
  too.
- **Partial writes and reads.** An asynchronous write or read either
  transfers the whole buffer or fails, as `async_write`/`async_read`
  promise.
- **Wire header layout.** The header crosses the wire as
  `sizeof(HeaderMessage)` raw bytes. That layout is host-specific and is
  modelled as one abstract token.
- **Object lifetime.** The handlers capture `this` rather than a shared
  pointer. Use-after-free and shared-pointer lifetimes are not modelled.
- **Concurrency.**
  - `QueueLF`: the compare-and-swap retry paths, memory orders, the loaded
    `expected` variable and `wait`/`stop_wait` are left out.
  - The lagging-tail branch of `pop_front` (`QeueuLockfree.hpp:122-129`)
    is left out; it cannot be reached single-threaded.
  - The mutexes, the condition variable and `wait` of `Queue.hpp` are left
    out.
  - The atomic flags of `CommandTask` and `CommandParser` are plain fields.
- **LockFreeQueue.QueueLF.PushBack** covers only the uncontended path
  (lines 59-82); the second `push_back` overload (lines 84-107) takes
  its argument by move and has the same effect.
- **DequeQueue.Queue.PushBack and PushFront** cover the by-reference
  overloads. The by-move overloads (lines 39-54) have the same effect.
- **The thread pool** (`xProject/utils/ThreadPool.hpp`) is not part of
  this model. A Handler job queue stands in for it, and one worker step
  is `RunNextJob`.
- **Other files not part of this model.**
  - `xProject/network/ClientInterface.hpp`: resolver and thread plumbing.
  - `xProject/utils/Handler.hpp`: a stale duplicate of the network
    handler.
  - `xProject/filesystem/FileIO.hpp` and `FilesystemManager.hpp`: file
    I/O.
  - `xProject/utils/Utils.hpp`.
  - The precompiled header.
- **JSON.** `Message::IsValidate` and `GetJSONData` depend on a foreign
  JSON library.
- **The standard-layout `operator<<`** (`StructMessage.hpp:77-91`) copies
  raw object bytes. Only the container overload is modelled, as
  `Append`.
- **StructMessage.Message.Append** takes a byte sequence. The container
  overload copies `_message.size()` bytes from `_message.data()`, which
  is the whole contents only for a container of one-byte elements
  (`std::string`, `std::vector<uint8_t>`). The model covers that case.
  For wider elements it copies only the first `size()` bytes, and that
  case is not modelled.
- **Win32 path functions.** The following are left out:
  - `pathW` and the UTF-8/UTF-16 conversion;
  - the file-name, directory and absolute-path queries;
  - `GettingFileLength` and the `fileLength` field it sets. After
    `Normalize`, `PathProcessing` runs it to open the file and read its
    size (`PathStruct.hpp:82-107`).

  The model runs `Normalize` where `PathProcessing` would run.
- **Handlers.HandlerMediator.RunHandlers** requires a non-null origin
  connection. A Client-owned connection supplies null (the source would
  dereference it), and that case is not modelled.
- **Null handlers.** A null handler registered in the map is not modelled.
- **Console I/O in CommandParser.**
  - The prompt, `getline` and the `while` loop of `GettingCommandLine` are
    left out. One iteration is `DispatchLine` on a given line.
  - `ExecuteParse` only sets the state; it does not start the loop.
  - `spdlog` messages, the `std::apply` argument binding, `Incoming()` and
    `commandQueue` are left out.
- **ServerInterfaces.ServerInterface.Update**: the `wait` flag, which
  blocks on the inbound queue's condition variable before draining, is
  left out. The model is `Update()` with its default argument.
- **Callbacks.** The bodies of `OnConnect`, `OnDisconnect`, `OnMessage`
  and the command functions belong to user code. They appear only as
  logged events.
