/**
 * The bridge's event loop as a protocol: one slot for a running prompt, lines from the client, joins of
 * the prompt task, and the responses written. Messages follow JSON-RPC 2.0, sections 4, 4.1 and 5.
 */
module BridgeLoop {
  import opened Wrappers
  import opened Permissions
  import opened Sequences

  const METHOD_NOT_FOUND: int := -32601
  const INVALID_PARAMS: int := -32602
  const INTERNAL_ERROR: int := -32603
  const METHOD_NOT_FOUND_PREFIX: string := "Method not found: "

  datatype RpcError = RpcError(code: int, message: string)
  const BUSY: RpcError := RpcError(INTERNAL_ERROR, "another session/prompt is already in flight")
  const MISSING_SESSION: RpcError := RpcError(INVALID_PARAMS, "missing sessionId")

  datatype Response = Response(id: Id, outcome: Result<string, RpcError>)

  /** An incoming message; `sessionId` is the parameter of that name, empty when it is missing or no string. */
  datatype Message = Message(
    id: Option<Id>, rpcMethod: Option<string>, sessionId: string, result: Option<string>, error: Option<string>)

  /** What the reader thread hands over: the wire gone, a failed read, a line that is no message, or a message. */
  datatype Line = EndOfInput | ReadFailed | Noise | Parsed(message: Message)

  /** How a prompt task ended. */
  datatype TaskEnd = Returned(result: Result<string, string>) | WasAborted | Panicked(message: string)

  datatype InFlight = InFlight(sessionId: string, requestId: Id, aborted: bool)

  /** One turn of the loop. `handled` is what the method's own handler answers when the line is a request. */
  datatype Event = Joined(end: TaskEnd) | Arrived(line: Line, handled: Result<string, string>) | AskedPermission

  // ----- which kind of message it is

  predicate HasId(m: Message) {
    m.id.Some? && !m.id.value.NullId?
  }

  function MethodOf(m: Message): string {
    if m.rpcMethod.Some? then m.rpcMethod.value else ""
  }

  predicate IsReply(m: Message) {
    MethodOf(m) == "" && HasId(m) && (m.result.Some? || m.error.Some?)
  }

  predicate IsNotification(m: Message) {
    !IsReply(m) && !HasId(m)
  }

  predicate IsRequest(m: Message) {
    !IsReply(m) && HasId(m)
  }

  function ReplyOf(m: Message): Reply {
    if m.error.Some? then Refused(m.error.value) else Granted(m.result)
  }

  /** A blank or unreadable line is passed over. */
  function After(line: Line): Result<bool, string> {
    match line
    case EndOfInput => Success(false)
    case ReadFailed => Failure("read failed")
    case Noise => Success(true)
    case Parsed(_) => Success(true)
  }

  // ----- pure decisions

  datatype PromptSlot = Busy | MissingSessionId | Ready(sessionId: string)

  function PromptSlotCheck(inFlight: bool, sessionId: string): PromptSlot {
    if inFlight then Busy else if sessionId == "" then MissingSessionId else Ready(sessionId)
  }

  /** An aborted task is a cancelled turn and not an error. */
  function PromptJoinOutcome(end: TaskEnd): Result<string, RpcError> {
    match end
    case Returned(Success(value)) => Success(value)
    case Returned(Failure(message)) => Failure(RpcError(INTERNAL_ERROR, message))
    case WasAborted => Success("stopReason: cancelled")
    case Panicked(message) => Failure(RpcError(INTERNAL_ERROR, "prompt task failed: " + message))
  }

  function HandledOutcome(handled: Result<string, string>): Result<string, RpcError> {
    match handled
    case Success(value) => Success(value)
    case Failure(message) =>
      Failure(RpcError(if METHOD_NOT_FOUND_PREFIX <= message then METHOD_NOT_FOUND else INTERNAL_ERROR, message))
  }

  // ----- the ledger

  function Ids(responses: seq<Response>): seq<Id> {
    if responses == [] then [] else Ids(responses[..|responses| - 1]) + [responses[|responses| - 1].id]
  }

  function SlotIds(inFlight: Option<InFlight>): multiset<Id> {
    if inFlight.Some? then multiset{inFlight.value.requestId} else multiset{}
  }

  /** Every request read is answered once under its id, except the one in the slot. */
  ghost predicate Balanced(requests: seq<Id>, responses: seq<Response>, inFlight: Option<InFlight>) {
    multiset(requests) == multiset(Ids(responses)) + SlotIds(inFlight)
  }

  lemma IdsSnoc(responses: seq<Response>, r: Response)
    ensures Ids(responses + [r]) == Ids(responses) + [r.id]
  {
    assert (responses + [r])[..|responses|] == responses;
  }

  lemma AnsweredAtOnce(requests: seq<Id>, responses: seq<Response>, inFlight: Option<InFlight>, r: Response)
    requires Balanced(requests, responses, inFlight)
    ensures Balanced(requests + [r.id], responses + [r], inFlight)
  {
    IdsSnoc(responses, r);
  }

  lemma TakesTheSlot(requests: seq<Id>, responses: seq<Response>, taken: InFlight)
    requires Balanced(requests, responses, None)
    ensures Balanced(requests + [taken.requestId], responses, Some(taken))
  {
  }

  lemma LeavesTheSlot(requests: seq<Id>, responses: seq<Response>, taken: InFlight, r: Response)
    requires Balanced(requests, responses, Some(taken)) && r.id == taken.requestId
    ensures Balanced(requests, responses + [r], None)
  {
    IdsSnoc(responses, r);
  }

  lemma SameRequestInSlot(requests: seq<Id>, responses: seq<Response>, taken: InFlight)
    requires Balanced(requests, responses, Some(taken))
    ensures Balanced(requests, responses, Some(taken.(aborted := true)))
  {
  }

  class Bridge {
    var inFlight: Option<InFlight>
    var responses: seq<Response>
    const broker: PermissionBroker
    /** Ids of the requests read so far, and the cancels read since the prompt in the slot started. */
    ghost var requests: seq<Id>
    ghost var cancels: set<string>

    ghost predicate Valid()
      reads this, broker
    {
      && broker.Valid()
      && Balanced(requests, responses, inFlight)
      && (inFlight.Some? ==> (inFlight.value.aborted <==> inFlight.value.sessionId in cancels))
    }

    /** What a cancel for a session does: no waiter is left without an answer, and its prompt is aborted. */
    twostate predicate CancelTaken(sessionId: string)
      reads this, broker
    {
      && broker.pending == map[] && (forall n :: 1 <= n < broker.nextId ==> n in broker.answers)
      && CancelledSince(old(broker.answers), broker.answers) && cancels == old(cancels) + {sessionId}
      && inFlight == (if old(inFlight).Some? && old(inFlight).value.sessionId == sessionId
                      then Some(old(inFlight).value.(aborted := true)) else old(inFlight))
    }

    twostate predicate WaitersKept()
      reads this, broker
    {
      broker.pending == old(broker.pending) && broker.answers == old(broker.answers)
    }

    twostate predicate SlotKept()
      reads this
    {
      inFlight == old(inFlight) && cancels == old(cancels)
    }

    /** A notification does nothing unless it is a cancel that names a session. */
    twostate predicate Notified(rpcMethod: string, sessionId: string)
      reads this, broker
    {
      if rpcMethod == "session/cancel" && sessionId != "" then CancelTaken(sessionId) else SlotKept() && WaitersKept()
    }

    /** The reply is the answer of the waiter under its id; without such a waiter nothing happens. */
    twostate predicate Replied(m: Message)
      requires IsReply(m)
      reads this, broker
    {
      var key, waiting := IdKey(m.id.value), old(broker.pending);
      && broker.pending == waiting - {key}
      && broker.answers
         == if key in waiting then old(broker.answers)[waiting[key] := ReplyOf(m)] else old(broker.answers)
    }

    /** A prompt is refused with its error, or takes the free slot without a response. */
    twostate predicate Prompted(id: Id, sessionId: string)
      reads this
    {
      if old(inFlight).Some? then
        SlotKept() && responses == old(responses)
          + [Response(id, Failure(RpcError(-32603, "another session/prompt is already in flight")))]
      else if sessionId == "" then
        SlotKept() && responses == old(responses) + [Response(id, Failure(RpcError(-32602, "missing sessionId")))]
      else
        inFlight == Some(InFlight(sessionId, id, false)) && cancels == {} && responses == old(responses)
    }

    /** A request other than a prompt is answered at once with what its handler says. */
    twostate predicate Requested(m: Message, handled: Result<string, string>)
      requires IsRequest(m)
      reads this
    {
      if m.rpcMethod == Some("session/prompt") then Prompted(m.id.value, m.sessionId)
      else
        && SlotKept()
        && responses == old(responses) + [Response(m.id.value,
             match handled
             case Success(value) => Success(value)
             case Failure(message) =>
               Failure(RpcError(if "Method not found: " <= message then -32601 else -32603, message)))]
    }

    /** What one message does, whatever it is: a reply, a notification or a request. */
    twostate predicate Dispatched(m: Message, handled: Result<string, string>)
      reads this, broker
    {
      && requests == old(requests) + (if IsRequest(m) then [m.id.value] else [])
      && (!IsRequest(m) ==> responses == old(responses))
      && (IsReply(m) ==> SlotKept() && Replied(m))
      && (IsNotification(m) ==> Notified(MethodOf(m), m.sessionId))
      && (IsRequest(m) ==> WaitersKept() && Requested(m, handled))
    }

    constructor ()
      ensures Valid() && fresh(broker) && requests == [] && responses == [] && inFlight == None && cancels == {}
    {
      broker := new PermissionBroker();
      inFlight, responses, requests, cancels := None, [], [], {};
    }

    method WriteRpcResponse(id: Id, outcome: Result<string, RpcError>)
      modifies this`responses
      ensures responses == old(responses) + [Response(id, outcome)]
    {
      responses := responses + [Response(id, outcome)];
    }

    /** The prompt in the slot has ended: the slot is free and its request has its response. */
    method HandlePromptJoin(end: TaskEnd)
      requires Valid() && inFlight.Some? && Enabled(Joined(end), inFlight)
      modifies this
      ensures Valid() && inFlight == None && requests == old(requests) && cancels == old(cancels)
      ensures end.WasAborted? ==> old(inFlight).value.sessionId in cancels
      ensures responses == old(responses) + [Response(old(inFlight).value.requestId,
                match end
                case Returned(Success(value)) => Success(value)
                case Returned(Failure(message)) => Failure(RpcError(-32603, message))
                case WasAborted => Success("stopReason: cancelled")
                case Panicked(message) => Failure(RpcError(-32603, "prompt task failed: " + message)))]
    {
      hide Balanced;
      var id := inFlight.value.requestId;
      LeavesTheSlot(requests, responses, inFlight.value, Response(id, PromptJoinOutcome(end)));
      inFlight := None;
      WriteRpcResponse(id, PromptJoinOutcome(end));
    }

    method SpawnPromptIfFree(id: Id, sessionId: string)
      requires Valid()
      modifies this
      ensures Valid() && requests == old(requests) + [id]
      ensures old(inFlight).Some? ==>
        && inFlight == old(inFlight) && cancels == old(cancels)
        && responses == old(responses)
           + [Response(id, Failure(RpcError(-32603, "another session/prompt is already in flight")))]
      ensures old(inFlight).None? && sessionId == "" ==>
        && inFlight == None && cancels == old(cancels)
        && responses == old(responses) + [Response(id, Failure(RpcError(-32602, "missing sessionId")))]
      ensures old(inFlight).None? && sessionId != "" ==>
        inFlight == Some(InFlight(sessionId, id, false)) && cancels == {} && responses == old(responses)
    {
      hide Balanced;
      AnsweredAtOnce(requests, responses, inFlight, Response(id, Failure(BUSY)));
      AnsweredAtOnce(requests, responses, inFlight, Response(id, Failure(MISSING_SESSION)));
      if inFlight.None? {
        TakesTheSlot(requests, responses, InFlight(sessionId, id, false));
      }
      requests := requests + [id];
      match PromptSlotCheck(inFlight.Some?, sessionId) {
        case Busy =>
          WriteRpcResponse(id, Failure(BUSY));
        case MissingSessionId =>
          WriteRpcResponse(id, Failure(MISSING_SESSION));
        case Ready(sid) =>
          inFlight, cancels := Some(InFlight(sid, id, false)), {};
      }
    }

    /** A reply to one of the bridge's own requests goes to its waiter and is never answered. */
    method ApplyClientRpcReply(m: Message) returns (applied: bool)
      requires Valid()
      modifies broker
      ensures Valid() && applied == IsReply(m)
      ensures if applied then Replied(m) else WaitersKept()
    {
      applied := IsReply(m);
      if applied {
        broker.Complete(m.id.value, m.result, m.error);
      }
    }

    /** A cancel drops every permission waiter and stops the prompt in the slot when it is its session's. */
    method DispatchNotification(rpcMethod: string, sessionId: string)
      requires Valid()
      modifies this, broker
      ensures Valid() && responses == old(responses) && requests == old(requests)
      ensures Notified(rpcMethod, sessionId)
    {
      hide Balanced, Table;
      if rpcMethod != "session/cancel" || sessionId == "" {
        return;
      }
      broker.CancelAll();
      cancels := cancels + {sessionId};
      if inFlight.Some? && inFlight.value.sessionId == sessionId {
        SameRequestInSlot(requests, responses, inFlight.value);
        inFlight := Some(inFlight.value.(aborted := true));
      }
    }

    /** A reply and a notification are not answered; a request is answered at once or takes the slot. */
    method DispatchStdinMessage(m: Message, handled: Result<string, string>)
      requires Valid()
      modifies this, broker
      ensures Valid() && Dispatched(m, handled)
      ensures m.id.None? || m.id.value.NullId? ==> responses == old(responses) && requests == old(requests)
      ensures (m.id.None? || m.id.value.NullId?) && m.rpcMethod == Some("session/cancel") && m.sessionId != "" ==>
                CancelTaken(m.sessionId)
      ensures m.id.Some? && !m.id.value.NullId?
              && m.rpcMethod in {None, Some("")} && (m.result.Some? || m.error.Some?) ==>
                responses == old(responses) && requests == old(requests) && Replied(m)
      ensures m.id.Some? && !m.id.value.NullId?
              && !(m.rpcMethod in {None, Some("")} && (m.result.Some? || m.error.Some?)) ==>
                requests == old(requests) + [m.id.value] && Requested(m, handled)
    {
      hide Balanced, Table;
      var applied := ApplyClientRpcReply(m);
      if applied {
        return;
      }
      var rpcMethod := MethodOf(m);
      if !HasId(m) {
        DispatchNotification(rpcMethod, m.sessionId);
        return;
      }
      var id := m.id.value;
      if rpcMethod == "session/prompt" {
        SpawnPromptIfFree(id, m.sessionId);
        return;
      }
      AnsweredAtOnce(requests, responses, inFlight, Response(id, HandledOutcome(handled)));
      requests := requests + [id];
      WriteRpcResponse(id, HandledOutcome(handled));
    }

    /** Returns whether the loop goes on; a failed read ends it with an error. */
    method HandleStdinLine(line: Line, handled: Result<string, string>) returns (more: Result<bool, string>)
      requires Valid()
      modifies this, broker
      ensures Valid()
      ensures more == match line
                      case EndOfInput => Success(false)
                      case ReadFailed => Failure("read failed")
                      case _ => Success(true)
      ensures if line.Parsed? then Dispatched(line.message, handled)
              else requests == old(requests) && responses == old(responses) && SlotKept() && WaitersKept()
    {
      match line {
        case EndOfInput => more := Success(false);
        case ReadFailed => more := Failure("read failed");
        case Noise => more := Success(true);
        case Parsed(m) =>
          DispatchStdinMessage(m, handled);
          more := Success(true);
      }
    }

    /** At the end of input the prompt in the slot is aborted and its outcome is thrown away. */
    method Shutdown()
      requires Valid()
      modifies this
      ensures inFlight == None && responses == old(responses) && requests == old(requests)
      ensures multiset(requests) == multiset(Ids(responses)) + SlotIds(old(inFlight))
    {
      inFlight := None;
    }
  }

  // ----- whole runs

  /** A join needs a task, and only an aborted task ends as aborted. */
  predicate Enabled(e: Event, inFlight: Option<InFlight>) {
    e.Joined? ==> inFlight.Some? && (e.end.WasAborted? ==> inFlight.value.aborted)
  }

  predicate GoesOn(e: Event) {
    e.Arrived? ==> After(e.line) == Success(true)
  }

  function RequestsIn(e: Event): seq<Id> {
    if e.Arrived? && e.line.Parsed? && IsRequest(e.line.message) then [e.line.message.id.value] else []
  }

  /** The ids of the requests among the lines, up to the line that ends the loop. */
  function RequestsRead(events: seq<Event>): seq<Id> {
    if events == [] then [] else RequestsIn(events[0]) + if GoesOn(events[0]) then RequestsRead(events[1..]) else []
  }

  /** One turn of the loop. An event that is not enabled in its state does not happen. */
  method Turn(bridge: Bridge, e: Event) returns (more: Result<bool, string>)
    requires bridge.Valid()
    modifies bridge, bridge.broker
    ensures bridge.Valid() && bridge.requests == old(bridge.requests) + RequestsIn(e)
    ensures GoesOn(e) <==> more == Success(true)
    ensures e.Arrived? && e.line.Parsed? ==> bridge.Dispatched(e.line.message, e.handled)
    ensures e.Joined? && old(bridge.inFlight).Some? && (e.end.WasAborted? ==> old(bridge.inFlight).value.aborted) ==>
              && bridge.inFlight == None && |bridge.responses| == |old(bridge.responses)| + 1
              && bridge.responses[|old(bridge.responses)|].id == old(bridge.inFlight).value.requestId
    ensures e.AskedPermission? ==> bridge.broker.nextId == old(bridge.broker.nextId) + 1
  {
    hide Balanced, Table, HandledOutcome, PromptJoinOutcome;
    more := Success(true);
    if Enabled(e, bridge.inFlight) {
      match e {
        case Joined(end) => bridge.HandlePromptJoin(end);
        case Arrived(line, handled) => more := bridge.HandleStdinLine(line, handled);
        case AskedPermission => var _ := bridge.broker.Rpc();
      }
    }
  }

  /**
   * In every state the loop can reach, under any interleaving of lines, cancels, replies, permission requests
   * and joins, the ledger balances: the responses written and the request in the slot are, id for id, the
   * requests read.
   */
  method RunLoop(events: seq<Event>) returns (bridge: Bridge, outcome: Result<bool, string>)
    ensures bridge.Valid() && fresh(bridge) && fresh(bridge.broker)
    ensures bridge.requests == RequestsRead(events)
    ensures Balanced(bridge.requests, bridge.responses, bridge.inFlight)
  {
    hide Balanced, Table, Enabled, GoesOn, RequestsIn, IsRequest, IsReply, IsNotification;
    bridge := new Bridge();
    outcome := Success(true);
    var i := 0;
    assert events[0..] == events && [] + RequestsRead(events) == RequestsRead(events);
    while i < |events| && outcome == Success(true)
      invariant 0 <= i <= |events| && bridge.Valid() && fresh(bridge) && fresh(bridge.broker)
      invariant bridge.requests + (if outcome == Success(true) then RequestsRead(events[i..]) else [])
             == RequestsRead(events)
    {
      var e := events[i];
      assert events[i..][0] == e && events[i..][1..] == events[i + 1..];
      ghost var before, rest := bridge.requests, RequestsRead(events[i + 1..]);
      assert before + (RequestsIn(e) + rest) == before + RequestsIn(e) + rest;
      outcome := Turn(bridge, e);
      i := i + 1;
    }
  }

  /**
   * When the input has ended, at most the request that was in the slot stays without a response; a failed read
   * ends the process as it stands.
   */
  method Serve(events: seq<Event>) returns (bridge: Bridge, ghost slot: Option<InFlight>)
    ensures bridge.requests == RequestsRead(events)
    ensures multiset(bridge.requests) == multiset(Ids(bridge.responses)) + SlotIds(slot)
  {
    var outcome;
    bridge, outcome := RunLoop(events);
    slot := bridge.inFlight;
    if outcome.Success? {
      bridge.Shutdown();
    }
  }

  /** Where the client never reuses an id, each request has exactly one response, except at most one without any. */
  lemma EachRequestAnsweredOnce(requests: seq<Id>, responses: seq<Response>, inFlight: Option<InFlight>, id: Id)
    requires Balanced(requests, responses, inFlight)
    requires Distinct(requests)
    ensures id in requests && !(inFlight.Some? && inFlight.value.requestId == id) ==>
              exists k :: 0 <= k < |responses| && responses[k].id == id
                && forall j :: 0 <= j < |responses| && responses[j].id == id ==> j == k
    ensures id !in requests || (inFlight.Some? && inFlight.value.requestId == id) ==>
              forall k :: 0 <= k < |responses| ==> responses[k].id != id
  {
    IdsAt(responses);
    OnceInDistinct(requests, id);
    assert multiset(requests)[id] == multiset(Ids(responses))[id] + SlotIds(inFlight)[id];
    if id in requests && !(inFlight.Some? && inFlight.value.requestId == id) {
      assert id in multiset(Ids(responses));
      var k :| 0 <= k < |Ids(responses)| && Ids(responses)[k] == id;
      forall j | 0 <= j < |responses| && responses[j].id == id
        ensures j == k
      {
        if j != k {
          TwiceCounts(Ids(responses), j, k);
        }
      }
      assert responses[k].id == id;
    } else {
      forall k | 0 <= k < |responses|
        ensures responses[k].id != id
      {
        assert Ids(responses)[k] in multiset(Ids(responses));
      }
    }
  }

  lemma {:induction false} IdsAt(responses: seq<Response>)
    ensures |Ids(responses)| == |responses|
    ensures forall k :: 0 <= k < |responses| ==> Ids(responses)[k] == responses[k].id
  {
    if responses != [] {
      IdsAt(responses[..|responses| - 1]);
    }
  }
}
