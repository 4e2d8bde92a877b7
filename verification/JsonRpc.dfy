/** `JsonRpc` as it runs: ids, outstanding requests and handler names are fields that its methods
    update. What callbacks and handlers do is up to their owners: how a handler ends is a
    parameter, and so are the requests that callbacks and handlers send in turn. */
module JsonRpc {
  import opened Bytes
  import opened JsonText
  import opened RpcCalls

  class JsonRpc {
    /** The keys of `_callbacks`. */
    var callbacks: set<string>
    var currentId: int
    var currentRequests: map<int, nat>
    ghost var issued: seq<Issue>
    ghost var calls: seq<Call>
    /** Messages passed to `_sendMessage`. */
    var sent: seq<Fields>

    ghost function State(): Peer
      reads this
    {
      Peer(currentId, currentRequests, issued, calls, sent)
    }

    constructor ()
      ensures State() == START && callbacks == {}
    {
      callbacks, currentId, currentRequests, issued, calls, sent := {}, 0, map[], [], [], [];
    }

    /** `setRpcCallback`. */
    method SetRpcCallback(name: string)
      modifies this`callbacks
      ensures callbacks == old(callbacks) + {name}
    {
      callbacks := callbacks + {name};
    }

    /** A callback given to `sendRequest` runs: it is recorded, and sends what it sends. */
    method Invoke(callback: nat, ghost cause: Cause, result: Json, error: Json, nested: seq<Send>)
      modifies this
      ensures State() == SendAll(Invoked(old(State()), callback, cause, result, error), nested)
      ensures callbacks == old(callbacks)
      decreases nested, |nested|, 1
    {
      calls := calls + [Call(callback, cause, result, error)];
      SendEach(nested);
    }

    method SendEach(sends: seq<Send>)
      modifies this
      ensures State() == SendAll(old(State()), sends) && callbacks == old(callbacks)
      decreases sends, |sends|, 0
    {
      if sends == [] {
        return;
      }
      SendEach(sends[..|sends| - 1]);
      SendRequest(sends[|sends| - 1]);
    }

    /** `sendRequest`. */
    method SendRequest(s: Send)
      modifies this
      ensures State() == RpcCalls.SendRequest(old(State()), s) && callbacks == old(callbacks)
      decreases s
    {
      if !s.params.Arr? {
        if s.callback.Some? {
          Invoke(s.callback.value, NotAnArray, Null, NOT_AN_ARRAY, s.nested);
        }
        return;
      }
      if s.name == "" {
        if s.callback.Some? {
          Invoke(s.callback.value, EmptyMethod, Null, EMPTY_METHOD, s.nested);
        }
        return;
      }
      var id: Option<Json> := None;
      ghost var number := currentId;
      if s.callback.Some? {
        currentRequests := currentRequests[currentId := s.callback.value];
        issued := issued + [Issue(s.callback.value, s.delivered)];
        id := Some(Int(currentId));
        currentId := currentId + 1;
      }
      sent := sent + [Request(s.name, s.params, id)];
      if !s.delivered {
        if s.callback.Some? {
          Invoke(s.callback.value, SendFailed(number), Null, SEND_FAILED, s.nested);
        }
      }
    }

    /** `_processRequest`, for a table of synchronous handlers. Its only caller has checked that the
        message has a method. */
    method ProcessRequest(request: Fields, outcome: Outcome, nested: seq<Send>) returns (response: Option<Fields>)
      modifies this
      ensures response == ResponseTo(request, callbacks, outcome)
      ensures State() == if Dispatched(request, callbacks) then SendAll(old(State()), nested) else old(State())
      ensures callbacks == old(callbacks)
    {
      var id := Member(request, "id");
      if !Has(request, "method") {
        return Some(ErrorResponse(id, MISSING_METHOD));
      }
      var called := Member(request, "method").value;
      if !called.Str? {
        return Some(ErrorResponse(id, METHOD_NOT_A_STRING));
      }
      if called.s !in callbacks {
        return Some(ErrorResponse(id, NotFound(called.s)));
      }
      SendEach(nested);
      match outcome
      case Raised =>
        response := None;
      case Returned(result, error) =>
        if result != Null {
          response := Some(ResultResponse(id, result));
        } else if error != Null {
          response := Some(ErrorResponse(id, error));
        } else {
          response := Some(ErrorResponse(id, INVALID_RESPONSE));
        }
    }

    /** `_processJsonMessage`. */
    method ProcessJsonMessage(message: Fields, outcome: Outcome, nested: seq<Send>)
      modifies this
      ensures State() == Step(old(State()), callbacks, Receive(message, outcome, nested))
      ensures callbacks == old(callbacks)
    {
      if Has(message, "method") {
        var response := ProcessRequest(message, outcome, nested);
        if response.Some? && Has(message, "id") {
          sent := sent + [response.value];
        }
      } else if Has(message, "error") || Has(message, "result") {
        if Has(message, "id") {
          var id := Member(message, "id").value;
          if id.Int? && FitsInt(id.i) {
            if id.i in currentRequests {
              Invoke(currentRequests[id.i], Answer(id.i),
                     MemberOrNull(message, "result"), MemberOrNull(message, "error"), nested);
              currentRequests := currentRequests - {id.i};
            }
          }
        }
      }
    }
  }
}
