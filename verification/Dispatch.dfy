/**
 * How a request goes through a tree of routers: middleware, param handlers, the route, error handlers.
 *
 * What handlers do is not known. A script holds every action that handlers take, in the order in which
 * they take them, whichever handler is running: any finite behaviour, one that depends on what happened
 * before included, gives some script. At the end of the script every handler returns at once.
 */
module Dispatch {
  import opened Options

  datatype Error = Error(status: int, message: string)

  /** What is written to the client: a body, or the error page of the app's first error handler. */
  datatype Reply = Body(text: string) | Page(error: Error)

  datatype Action =
    | Send(text: string)
    | SendFile(content: Option<string>)
    | SetError(error: Option<Error>)
    | Next
    | Return

  datatype Kind = Middleware(index: nat) | Param(index: nat) | Route | ErrorHandler(index: nat)

  /** A handler that was called, whether it belongs to the app's own router, and the error that was set then. */
  datatype Call = Call(router: string, isBase: bool, kind: Kind, err: Option<Error>)

  /** `target` is the method and path of the request. */
  datatype State = State(target: string, didSend: bool, err: Option<Error>, written: seq<Reply>, calls: seq<Call>)

  /**
   * A router as one request sees it: whether its base path matches, how many handlers it has, which param
   * handlers have a key, and whether one of its routes matches. That a router is the app's own is a
   * parameter of the functions: mounted routers never are.
   */
  datatype Router = Router(
    name: string, matches: bool, middlewares: nat, params: seq<bool>, route: bool, errorHandlers: nat,
    routers: seq<Router>)

  function Start(target: string): State {
    State(target, false, None, [], [])
  }

  /** error404. */
  function NotFound(st: State): Error {
    Error(404, "Cannot " + st.target)
  }

  /** The router that express() makes: it matches every request and has the default error handler in front. */
  predicate App(r: Router) {
    r.matches && r.errorHandlers > 0
  }

  /** expressResSend: only the first response is written. */
  function Sent(st: State, reply: Reply): State {
    if st.didSend then st else st.(didSend := true, written := st.written + [reply])
  }

  /** expressResSendFile: a file that is missing sets an error. */
  function FileSent(st: State, content: Option<string>): State {
    if st.didSend then st
    else if content.None? then st.(err := Some(NotFound(st)))
    else Sent(st, Body(content.value))
  }

  function Called(st: State, r: Router, isBase: bool, kind: Kind): State {
    st.(calls := st.calls + [Call(r.name, isBase, kind, st.err)])
  }

  /** The state afterwards and the actions not yet taken. */
  datatype Outcome = Outcome(st: State, script: seq<Action>)

  /** What the running handler does: its actions, up to its return. */
  function Acts(r: Router, isBase: bool, kind: Kind, st: State, script: seq<Action>): (o: Outcome)
    requires kind.ErrorHandler? ==> !isBase
    ensures |o.script| <= |script|
    decreases |script|, r, 0, 0
  {
    if script == [] then Outcome(st, [])
    else
      var rest := script[1..];
      match script[0]
      case Send(text) => Acts(r, isBase, kind, Sent(st, Body(text)), rest)
      case SendFile(content) => Acts(r, isBase, kind, FileSent(st, content), rest)
      case SetError(error) => Acts(r, isBase, kind, st.(err := error), rest)
      case Return => Outcome(st, rest)
      case Next =>
        var o := Continue(r, isBase, kind, st, rest);
        Acts(r, isBase, kind, o.st, o.script)
  }

  /** What a handler's `next` does. A route handler is given none. */
  function Continue(r: Router, isBase: bool, kind: Kind, st: State, script: seq<Action>): (o: Outcome)
    requires kind.ErrorHandler? ==> !isBase
    ensures |o.script| <= |script|
    decreases |script|, r, 4, 0
  {
    match kind
    case Middleware(index) => RunMiddleware(index + 1, r, isBase, st, script)
    case Param(index) => RunParamHandlers(index + 1, r, isBase, st, script)
    case ErrorHandler(index) => RunErrorHandlers(index + 1, r, isBase, st, script)
    case Route => Outcome(st, script)
  }

  function RunErrorHandlers(index: nat, r: Router, isBase: bool, st: State, script: seq<Action>): (o: Outcome)
    requires isBase ==> index == 0
    ensures |o.script| <= |script|
    decreases |script|, r, 1, 0
  {
    if st.err.None? || index >= r.errorHandlers then Outcome(st, script)
    else if isBase then
      Outcome(Sent(Called(st, r, isBase, ErrorHandler(0)), Page(st.err.value)), script)
    else Acts(r, isBase, ErrorHandler(index), Called(st, r, isBase, ErrorHandler(index)), script)
  }

  /** The route that matches the request is called if no error is set. */
  function RunRoute(r: Router, isBase: bool, st: State, script: seq<Action>): (o: Outcome)
    ensures |o.script| <= |script|
    decreases |script|, r, 1, 0
  {
    if r.route && st.err.None? then Acts(r, isBase, Route, Called(st, r, isBase, Route), script)
        else Outcome(st, script)
  }

  function RunParamHandlers(index: nat, r: Router, isBase: bool, st: State, script: seq<Action>): (o: Outcome)
    ensures |o.script| <= |script|
    decreases |script|, r, 2, |r.params| - index
  {
    if index >= |r.params| then RunRoute(r, isBase, st, script)
    else if !r.params[index] then RunParamHandlers(index + 1, r, isBase, st, script)
    else
      var o := Acts(r, isBase, Param(index), Called(st, r, isBase, Param(index)), script);
      RunErrorHandlers(0, r, isBase, o.st, o.script)
  }

  function RunMiddleware(index: nat, r: Router, isBase: bool, st: State, script: seq<Action>): (o: Outcome)
    ensures |o.script| <= |script|
    decreases |script|, r, 3, r.middlewares - index
  {
    if index >= r.middlewares then RunParamHandlers(0, r, isBase, st, script)
    else
      var o := Acts(r, isBase, Middleware(index), Called(st, r, isBase, Middleware(index)), script);
      RunErrorHandlers(0, r, isBase, o.st, o.script)
  }

  /** The routers mounted on `r`, from the `i`-th on. */
  function RunRouters(i: nat, r: Router, st: State, script: seq<Action>): (o: Outcome)
    requires i <= |r.routers|
    ensures |o.script| <= |script|
    decreases |script|, r, 4, |r.routers| - i
  {
    if i == |r.routers| then Outcome(st, script)
    else
      var o := Handle(r.routers[i], false, st, script);
      RunRouters(i + 1, r, o.st, o.script)
  }

  /** Nothing was sent and no error is set when the app's router is done: the page was not found. */
  function Missing(r: Router, isBase: bool, st: State): State {
    if isBase && !st.didSend && st.err.None? then st.(err := Some(NotFound(st))) else st
  }

  /** A router's handler. */
  function Handle(r: Router, isBase: bool, st: State, script: seq<Action>): (o: Outcome)
    ensures |o.script| <= |script|
    decreases |script|, r, 5, 0
  {
    if !r.matches then Outcome(st, script)
    else
      var ran := RunMiddleware(0, r, isBase, st, script);
      var all := RunRouters(0, r, ran.st, ran.script);
      RunErrorHandlers(0, r, isBase, Missing(r, isBase, all.st), all.script)
  }

  /**
   * The app's own error handlers are never called but for the default one; routes are called without an
   * error, error handlers with one.
   */
  predicate Proper(calls: seq<Call>) {
    forall i :: 0 <= i < |calls| ==>
      && (calls[i].isBase && calls[i].kind.ErrorHandler? ==> calls[i].kind.index == 0)
      && (calls[i].kind.Route? ==> calls[i].err.None?)
      && (calls[i].kind.ErrorHandler? ==> calls[i].err.Some?)
  }

  /** At most one response is written, exactly when the flag says so. */
  predicate Once(st: State) {
    |st.written| == if st.didSend then 1 else 0
  }

  predicate IsDefault(call: Call) {
    call.isBase && call.kind.ErrorHandler?
  }

  /** The error that the app's default error handler was given when it was called first. */
  function FirstError(calls: seq<Call>): Option<Error> {
    if calls == [] then None else if IsDefault(calls[0]) then calls[0].err else FirstError(calls[1..])
  }

  /** A page that is written is that of the error which the default error handler was given first. */
  predicate Answered(st: State) {
    && (|st.written| == 1 && st.written[0].Page? ==> FirstError(st.calls) == Some(st.written[0].error))
    && (!st.didSend ==> forall i :: 0 <= i < |st.calls| ==> !IsDefault(st.calls[i]))
  }

  lemma {:induction false} FirstErrorLast(calls: seq<Call>, call: Call)
    requires call.err.Some? || !IsDefault(call)
    ensures (forall i :: 0 <= i < |calls| ==> !IsDefault(calls[i])) ==>
              FirstError(calls + [call]) == if IsDefault(call) then call.err else None
    ensures FirstError(calls).Some? ==> FirstError(calls + [call]) == FirstError(calls)
    decreases |calls|
  {
    if calls == [] {
      assert [call][1..] == [];
    } else {
      assert (calls + [call])[1..] == calls[1..] + [call];
      FirstErrorLast(calls[1..], call);
    }
  }

  /** What no handler can undo: a response that is written stays the only one, and calls that were made were made. */
  predicate Later(st: State, later: State) {
    && later.target == st.target
    && (st.didSend ==> later.didSend && later.written == st.written)
    && (Once(st) ==> Once(later))
    && (Once(st) && Answered(st) ==> Answered(later))
    && st.calls <= later.calls
    && (Proper(st.calls) ==> Proper(later.calls))
  }

  lemma LaterStill(a: State, b: State, c: State)
    requires Later(a, b) && Later(b, c)
    ensures Later(a, c)
  {
    hide Proper;
  }

  lemma CalledLater(st: State, r: Router, isBase: bool, kind: Kind)
    requires kind.Route? ==> st.err.None?
    requires kind.ErrorHandler? ==> st.err.Some? && !isBase
    ensures Later(st, Called(st, r, isBase, kind))
  {
    FirstErrorLast(st.calls, Call(r.name, isBase, kind, st.err));
    hide FirstError;
  }

  /** The default error handler answers with the page of the error that is set. */
  lemma DefaultLater(st: State, r: Router)
    requires st.err.Some?
    ensures Later(st, Sent(Called(st, r, true, ErrorHandler(0)), Page(st.err.value)))
  {
    FirstErrorLast(st.calls, Call(r.name, true, ErrorHandler(0), st.err));
    hide FirstError;
  }

  lemma {:induction false} ActsKeep(r: Router, isBase: bool, kind: Kind, st: State, script: seq<Action>)
    requires kind.ErrorHandler? ==> !isBase
    ensures Later(st, Acts(r, isBase, kind, st, script).st)
    decreases |script|, r, 0, 0
  {
    if script != [] {
      var rest := script[1..];
      hide Proper, Continue;
      match script[0]
      case Send(text) => ActsKeep(r, isBase, kind, Sent(st, Body(text)), rest);
      case SendFile(content) => ActsKeep(r, isBase, kind, FileSent(st, content), rest);
      case SetError(error) => ActsKeep(r, isBase, kind, st.(err := error), rest);
      case Return =>
      case Next =>
        var o := Continue(r, isBase, kind, st, rest);
        ContinueKeeps(r, isBase, kind, st, rest);
        ActsKeep(r, isBase, kind, o.st, o.script);
    }
  }

  lemma {:induction false} ContinueKeeps(r: Router, isBase: bool, kind: Kind, st: State, script: seq<Action>)
    requires kind.ErrorHandler? ==> !isBase
    ensures Later(st, Continue(r, isBase, kind, st, script).st)
    decreases |script|, r, 4, 0
  {
    hide Later, RunMiddleware, RunParamHandlers, RunErrorHandlers;
    match kind
    case Middleware(index) => MiddlewareKeeps(index + 1, r, isBase, st, script);
    case Param(index) => ParamHandlersKeep(index + 1, r, isBase, st, script);
    case ErrorHandler(index) => ErrorHandlersKeep(index + 1, r, isBase, st, script);
    case Route => LaterSame(st);
  }

  lemma LaterSame(st: State)
    ensures Later(st, st)
  {
  }

  lemma {:induction false} ErrorHandlersKeep(index: nat, r: Router, isBase: bool, st: State, script: seq<Action>)
    requires isBase ==> index == 0
    ensures Later(st, RunErrorHandlers(index, r, isBase, st, script).st)
    ensures isBase && App(r) && st.err.Some? ==> RunErrorHandlers(index, r, isBase, st, script).st.didSend
    decreases |script|, r, 1, 0
  {
    if st.err.Some? && index < r.errorHandlers {
      if isBase {
        DefaultLater(st, r);
      } else {
        CalledLater(st, r, isBase, ErrorHandler(index));
        ActsKeep(r, isBase, ErrorHandler(index), Called(st, r, isBase, ErrorHandler(index)), script);
      }
    }
    hide Proper;
  }

  lemma {:induction false} RouteKeeps(r: Router, isBase: bool, st: State, script: seq<Action>)
    ensures Later(st, RunRoute(r, isBase, st, script).st)
    decreases |script|, r, 1, 0
  {
    if r.route && st.err.None? {
      CalledLater(st, r, isBase, Route);
      ActsKeep(r, isBase, Route, Called(st, r, isBase, Route), script);
    }
    hide Proper;
  }

  lemma {:induction false} ParamHandlersKeep(index: nat, r: Router, isBase: bool, st: State, script: seq<Action>)
    ensures Later(st, RunParamHandlers(index, r, isBase, st, script).st)
    decreases |script|, r, 2, |r.params| - index
  {
    hide Later, Acts, RunRoute, RunErrorHandlers;
    if index >= |r.params| {
      RouteKeeps(r, isBase, st, script);
    } else if !r.params[index] {
      ParamHandlersKeep(index + 1, r, isBase, st, script);
    } else {
      var called := Called(st, r, isBase, Param(index));
      var o := Acts(r, isBase, Param(index), called, script);
      CalledLater(st, r, isBase, Param(index));
      ActsKeep(r, isBase, Param(index), called, script);
      LaterStill(st, called, o.st);
      ErrorHandlersKeep(0, r, isBase, o.st, o.script);
      LaterStill(st, o.st, RunErrorHandlers(0, r, isBase, o.st, o.script).st);
    }
  }

  lemma {:induction false} MiddlewareKeeps(index: nat, r: Router, isBase: bool, st: State, script: seq<Action>)
    ensures Later(st, RunMiddleware(index, r, isBase, st, script).st)
    decreases |script|, r, 3, r.middlewares - index
  {
    hide Later, Acts, RunParamHandlers, RunErrorHandlers;
    if index >= r.middlewares {
      ParamHandlersKeep(0, r, isBase, st, script);
    } else {
      var called := Called(st, r, isBase, Middleware(index));
      var o := Acts(r, isBase, Middleware(index), called, script);
      CalledLater(st, r, isBase, Middleware(index));
      ActsKeep(r, isBase, Middleware(index), called, script);
      LaterStill(st, called, o.st);
      ErrorHandlersKeep(0, r, isBase, o.st, o.script);
      LaterStill(st, o.st, RunErrorHandlers(0, r, isBase, o.st, o.script).st);
    }
  }

  lemma {:induction false} RoutersKeep(i: nat, r: Router, st: State, script: seq<Action>)
    requires i <= |r.routers|
    ensures Later(st, RunRouters(i, r, st, script).st)
    decreases |script|, r, 4, |r.routers| - i
  {
    hide Later, Handle;
    if i == |r.routers| {
      LaterSame(st);
    } else {
      var o := Handle(r.routers[i], false, st, script);
      HandleKeeps(r.routers[i], false, st, script);
      RoutersKeep(i + 1, r, o.st, o.script);
      LaterStill(st, o.st, RunRouters(i + 1, r, o.st, o.script).st);
    }
  }

  lemma {:induction false} HandleKeeps(r: Router, isBase: bool, st: State, script: seq<Action>)
    ensures Later(st, Handle(r, isBase, st, script).st)
    ensures isBase && App(r) ==> Handle(r, isBase, st, script).st.didSend
    decreases |script|, r, 5, 0
  {
    hide RunMiddleware, RunRouters, RunErrorHandlers, Proper;
    if r.matches {
      var ran := RunMiddleware(0, r, isBase, st, script);
      var all := RunRouters(0, r, ran.st, ran.script);
      MiddlewareKeeps(0, r, isBase, st, script);
      RoutersKeep(0, r, ran.st, ran.script);
      ErrorHandlersKeep(0, r, isBase, Missing(r, isBase, all.st), all.script);
    } else {
      LaterSame(st);
    }
  }

  /**
   * Whatever the handlers do, by the time the app's router returns exactly one response is written. If it is
   * a page, it is that of the error that was set when the app's default error handler ran first. The app's own
   * error handlers behind the default one are never called.
   */
  lemma {:induction false} ExactlyOneResponse(app: Router, target: string, script: seq<Action>)
    requires App(app)
    ensures var st := Handle(app, true, Start(target), script).st;
            && st.didSend && |st.written| == 1 && Proper(st.calls)
            && (st.written[0].Page? ==> FirstError(st.calls) == Some(st.written[0].error))
  {
    HandleKeeps(app, true, Start(target), script);
    hide Handle;
  }

  /** The script of a route that sends its router's name. */
  function RouteScript(r: Router): seq<Action> {
    if r.route then [Send(r.name), Return] else []
  }

  function RouteCalls(r: Router, isBase: bool): seq<Call> {
    if r.route then [Call(r.name, isBase, Route, None)] else []
  }

  /** The script of param handlers that only call `next`, and of the route behind them. */
  function ParamScript(r: Router, i: nat): seq<Action>
    decreases |r.params| - i
  {
    if i >= |r.params| then RouteScript(r)
    else if !r.params[i] then ParamScript(r, i + 1)
    else [Next] + (ParamScript(r, i + 1) + [Return])
  }

  function ParamCalls(r: Router, isBase: bool, i: nat): seq<Call>
    decreases |r.params| - i
  {
    if i >= |r.params| then RouteCalls(r, isBase)
    else if !r.params[i] then ParamCalls(r, isBase, i + 1)
    else [Call(r.name, isBase, Param(i), None)] + ParamCalls(r, isBase, i + 1)
  }

  function MiddlewareScript(r: Router, i: nat): seq<Action>
    decreases r.middlewares - i
  {
    if i >= r.middlewares then ParamScript(r, 0) else [Next] + (MiddlewareScript(r, i + 1) + [Return])
  }

  function MiddlewareCalls(r: Router, isBase: bool, i: nat): seq<Call>
    decreases r.middlewares - i
  {
    if i >= r.middlewares then ParamCalls(r, isBase, 0)
    else [Call(r.name, isBase, Middleware(i), None)] + MiddlewareCalls(r, isBase, i + 1)
  }

  /** Every handler below `r` that the request reaches calls `next`, and every route sends its router's name. */
  function TreeScript(r: Router): seq<Action>
    decreases r, 1, 0
  {
    if !r.matches then [] else MiddlewareScript(r, 0) + RoutersScript(r, 0)
  }

  function RoutersScript(r: Router, i: nat): seq<Action>
    decreases r, 0, |r.routers| - i
  {
    if i >= |r.routers| then [] else TreeScript(r.routers[i]) + RoutersScript(r, i + 1)
  }

  /**
   * The handlers of a tree that match, in order: middleware, params and route of a router, then the
   * routers mounted on it.
   */
  function TreeCalls(r: Router, isBase: bool): seq<Call>
    decreases r, 1, 0
  {
    if !r.matches then [] else MiddlewareCalls(r, isBase, 0) + RoutersCalls(r, 0)
  }

  function RoutersCalls(r: Router, i: nat): seq<Call>
    decreases r, 0, |r.routers| - i
  {
    if i >= |r.routers| then [] else TreeCalls(r.routers[i], false) + RoutersCalls(r, i + 1)
  }

  /** The responses that the matching routes of a tree try to send. */
  function TreeReplies(r: Router): seq<Reply>
    decreases r, 1, 0
  {
    if !r.matches then [] else RouteReplies(r) + RoutersReplies(r, 0)
  }

  function RouteReplies(r: Router): seq<Reply> {
    if r.route then [Body(r.name)] else []
  }

  function RoutersReplies(r: Router, i: nat): seq<Reply>
    decreases r, 0, |r.routers| - i
  {
    if i >= |r.routers| then [] else TreeReplies(r.routers[i]) + RoutersReplies(r, i + 1)
  }

  /** The calls are made, and of the responses only the first counts. */
  function Offered(st: State, calls: seq<Call>, replies: seq<Reply>): State {
    var after := st.(calls := st.calls + calls);
    if replies == [] then after else Sent(after, replies[0])
  }

  lemma OfferedTwice(st: State, calls: seq<Call>, replies: seq<Reply>, moreCalls: seq<Call>, moreReplies: seq<Reply>)
    ensures Offered(Offered(st, calls, replies), moreCalls, moreReplies)
            == Offered(st, calls + moreCalls, replies + moreReplies)
  {
    assert st.calls + calls + moreCalls == st.calls + (calls + moreCalls);
  }

  lemma OfferedNothing(st: State)
    ensures Offered(st, [], []) == st
  {
    assert st.calls + [] == st.calls;
  }

  lemma {:induction false} RoutePasses(r: Router, isBase: bool, st: State, tail: seq<Action>)
    requires st.err.None?
    ensures RunRoute(r, isBase, st, RouteScript(r) + tail)
            == Outcome(Offered(st, RouteCalls(r, isBase), RouteReplies(r)), tail)
  {
    var script := RouteScript(r) + tail;
    if r.route {
      var rest := script[1..];
      assert script[0] == Send(r.name) && rest[0] == Return && rest[1..] == tail;
      var after := Sent(Called(st, r, isBase, Route), Body(r.name));
      assert Acts(r, isBase, Route, after, rest) == Outcome(after, tail);
    } else {
      assert script == tail;
      OfferedNothing(st);
    }
  }

  /** A handler that calls `next` and returns: what follows happens, and then the handler is done. */
  lemma {:induction false} Passes(r: Router, isBase: bool, kind: Kind, st: State, inner: seq<Action>,
                                  tail: seq<Action>, after: State)
    requires kind.ErrorHandler? ==> !isBase
    requires Continue(r, isBase, kind, st, inner + ([Return] + tail)) == Outcome(after, [Return] + tail)
    ensures Acts(r, isBase, kind, st, [Next] + (inner + [Return]) + tail) == Outcome(after, tail)
  {
    hide Continue;
    var script := [Next] + (inner + [Return]) + tail;
    assert script[1..] == inner + ([Return] + tail);
    var rest := [Return] + tail;
    assert rest[0] == Return && rest[1..] == tail;
    assert Acts(r, isBase, kind, after, rest) == Outcome(after, tail);
  }

  lemma {:induction false} ParamsPass(i: nat, r: Router, isBase: bool, st: State, tail: seq<Action>)
    requires st.err.None?
    ensures RunParamHandlers(i, r, isBase, st, ParamScript(r, i) + tail)
            == Outcome(Offered(st, ParamCalls(r, isBase, i), RouteReplies(r)), tail)
    decreases |r.params| - i
  {
    hide RunRoute, RouteReplies, RouteScript, RouteCalls;
    if i >= |r.params| {
      RoutePasses(r, isBase, st, tail);
    } else if !r.params[i] {
      ParamsPass(i + 1, r, isBase, st, tail);
    } else {
      var called := Called(st, r, isBase, Param(i));
      var first := Call(r.name, isBase, Param(i), None);
      ParamsPass(i + 1, r, isBase, called, [Return] + tail);
      var after := Offered(called, ParamCalls(r, isBase, i + 1), RouteReplies(r));
      Passes(r, isBase, Param(i), called, ParamScript(r, i + 1), tail, after);
      FirstCall(st, first, ParamCalls(r, isBase, i + 1), RouteReplies(r));
    }
  }

  lemma FirstCall(st: State, first: Call, calls: seq<Call>, replies: seq<Reply>)
    ensures Offered(st.(calls := st.calls + [first]), calls, replies) == Offered(st, [first] + calls, replies)
    ensures Offered(st, calls, replies).err == st.err
  {
    assert st.calls + [first] + calls == st.calls + ([first] + calls);
  }

  lemma {:induction false} MiddlewarePasses(i: nat, r: Router, isBase: bool, st: State, tail: seq<Action>)
    requires st.err.None?
    ensures RunMiddleware(i, r, isBase, st, MiddlewareScript(r, i) + tail)
         == Outcome(Offered(st, MiddlewareCalls(r, isBase, i), RouteReplies(r)), tail)
    decreases r.middlewares - i
  {
    hide RunParamHandlers, RouteReplies, ParamScript, ParamCalls;
    if i >= r.middlewares {
      ParamsPass(0, r, isBase, st, tail);
    } else {
      var called := Called(st, r, isBase, Middleware(i));
      var first := Call(r.name, isBase, Middleware(i), None);
      MiddlewarePasses(i + 1, r, isBase, called, [Return] + tail);
      var after := Offered(called, MiddlewareCalls(r, isBase, i + 1), RouteReplies(r));
      Passes(r, isBase, Middleware(i), called, MiddlewareScript(r, i + 1), tail, after);
      FirstCall(st, first, MiddlewareCalls(r, isBase, i + 1), RouteReplies(r));
    }
  }

  lemma {:induction false} RoutersPass(i: nat, r: Router, st: State, tail: seq<Action>)
    requires st.err.None? && i <= |r.routers|
    ensures RunRouters(i, r, st, RoutersScript(r, i) + tail)
            == Outcome(Offered(st, RoutersCalls(r, i), RoutersReplies(r, i)), tail)
    decreases r, 0, |r.routers| - i
  {
    hide Handle, TreeScript, TreeCalls, TreeReplies;
    if i == |r.routers| {
      OfferedNothing(st);
      assert [] + tail == tail;
    } else {
      var sub := r.routers[i];
      var rest := RoutersScript(r, i + 1) + tail;
      assert RoutersScript(r, i) + tail == TreeScript(sub) + rest;
      TreePasses(sub, st, rest);
      var after := Offered(st, TreeCalls(sub, false), TreeReplies(sub));
      RoutersPass(i + 1, r, after, tail);
      OfferedTwice(st, TreeCalls(sub, false), TreeReplies(sub), RoutersCalls(r, i + 1), RoutersReplies(r, i + 1));
    }
  }

  lemma {:induction false} OwnThenRouters(r: Router, isBase: bool, st: State, tail: seq<Action>)
    requires r.matches && st.err.None?
    ensures var ran := RunMiddleware(0, r, isBase, st, TreeScript(r) + tail);
            RunRouters(0, r, ran.st, ran.script) == Outcome(Offered(st, TreeCalls(r, isBase), TreeReplies(r)), tail)
    decreases r, 0, |r.routers| + 1
  {
    hide RunMiddleware, RunRouters, MiddlewareScript, RoutersScript, MiddlewareCalls, RoutersCalls, RoutersReplies,
        RouteReplies;
    var rest := RoutersScript(r, 0) + tail;
    assert TreeScript(r) + tail == MiddlewareScript(r, 0) + rest;
    MiddlewarePasses(0, r, isBase, st, rest);
    RoutersPass(0, r, Offered(st, MiddlewareCalls(r, isBase, 0), RouteReplies(r)), tail);
    OfferedTwice(st, MiddlewareCalls(r, isBase, 0), RouteReplies(r), RoutersCalls(r, 0), RoutersReplies(r, 0));
  }

  /**
   * When every handler passes the request on, the handlers of a mounted tree run in the order in which they
   * were registered, routers after the router they are mounted on; every matching route is called, and the
   * first of them is the one that answers.
   */
  lemma {:induction false} TreePasses(r: Router, st: State, tail: seq<Action>)
    requires st.err.None?
    ensures Handle(r, false, st, TreeScript(r) + tail)
            == Outcome(Offered(st, TreeCalls(r, false), TreeReplies(r)), tail)
    decreases r, 1, 0
  {
    if !r.matches {
      OfferedNothing(st);
      assert [] + tail == tail;
    } else {
      hide TreeScript, TreeCalls, TreeReplies, RunMiddleware, RunRouters;
      OwnThenRouters(r, false, st, tail);
    }
  }

  /** The same for the app's router: if no route matches, the answer is the page that says so. */
  lemma {:induction false} AppPasses(app: Router, target: string, tail: seq<Action>)
    requires App(app)
    ensures var o := Handle(app, true, Start(target), TreeScript(app) + tail);
            var replies := TreeReplies(app);
            && o.script == tail
            && o.st.written == [if replies == [] then Page(Error(404, "Cannot " + target)) else replies[0]]
            && o.st.calls
            == TreeCalls(app, true)
               + (if replies != [] then []
                  else [Call(app.name, true, ErrorHandler(0), Some(Error(404, "Cannot " + target)))])
  {
    hide TreeScript, TreeCalls, TreeReplies, RunMiddleware, RunRouters;
    OwnThenRouters(app, true, Start(target), tail);
    assert [] + TreeCalls(app, true) == TreeCalls(app, true) && TreeCalls(app, true) + [] == TreeCalls(app, true);
  }
}
