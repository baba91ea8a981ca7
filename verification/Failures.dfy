/** What becomes of an error: the error handlers that run, and what the app answers with. */
module Failures {
  import opened Options
  import opened Dispatch

  /** The script of error handlers that only call `next`, from the `i`-th on. */
  function ErrorScript(r: Router, i: nat): seq<Action>
    decreases r.errorHandlers - i
  {
    if i >= r.errorHandlers then [] else [Next] + (ErrorScript(r, i + 1) + [Return])
  }

  function ErrorCalls(r: Router, i: nat, e: Error): seq<Call>
    decreases r.errorHandlers - i
  {
    if i >= r.errorHandlers then []
    else [Call(r.name, false, ErrorHandler(i), Some(e))] + ErrorCalls(r, i + 1, e)
  }

  lemma {:induction false} ErrorCallsAt(r: Router, i: nat, e: Error, k: nat)
    requires i <= r.errorHandlers && k < r.errorHandlers - i
    ensures |ErrorCalls(r, i, e)| == r.errorHandlers - i
    ensures ErrorCalls(r, i, e)[k] == Call(r.name, false, ErrorHandler(i + k), Some(e))
    decreases r.errorHandlers - i
  {
    if i + 1 < r.errorHandlers {
      ErrorCallsAt(r, i + 1, e, if k == 0 then 0 else k - 1);
    }
  }

  lemma Grown(st: State, calls: seq<Call>, more: seq<Call>)
    ensures st.(calls := st.calls + calls).(calls := st.calls + calls + more) == st.(calls := st.calls + (calls + more))
  {
    assert st.calls + calls + more == st.calls + (calls + more);
  }

  /**
   * The error handlers of a mounted router are called in order with the error that is set, each through the
   * `next` of the one before.
   */
  lemma {:induction false} ErrorHandlersPass(i: nat, r: Router, st: State, e: Error, tail: seq<Action>)
    requires st.err == Some(e)
    ensures RunErrorHandlers(i, r, false, st, ErrorScript(r, i) + tail)
         == Outcome(st.(calls := st.calls + ErrorCalls(r, i, e)), tail)
    decreases r.errorHandlers - i
  {
    if i >= r.errorHandlers {
      assert [] + tail == tail && st.calls + [] == st.calls;
    } else {
      var first := Call(r.name, false, ErrorHandler(i), Some(e));
      var called := Called(st, r, false, ErrorHandler(i));
      ErrorHandlersPass(i + 1, r, called, e, [Return] + tail);
      var after := called.(calls := called.calls + ErrorCalls(r, i + 1, e));
      Passes(r, false, ErrorHandler(i), called, ErrorScript(r, i + 1), tail, after);
      Grown(st, [first], ErrorCalls(r, i + 1, e));
    }
  }

  /** An error handler that clears the error keeps those behind it from being called. */
  lemma {:induction false} ErrorHandlerClears(i: nat, r: Router, st: State, tail: seq<Action>)
    requires st.err.Some? && i < r.errorHandlers
    ensures RunErrorHandlers(i, r, false, st, [SetError(None), Next, Return] + tail)
         == Outcome(Called(st, r, false, ErrorHandler(i)).(err := None), tail)
  {
    var script := [SetError(None), Next, Return] + tail;
    var called := Called(st, r, false, ErrorHandler(i));
    assert script[1..] == [Next, Return] + tail;
    var next := [Next, Return] + tail;
    assert next[1..] == [Return] + tail;
    var last := [Return] + tail;
    assert last[1..] == tail;
    var cleared := called.(err := None);
    assert RunErrorHandlers(i + 1, r, false, cleared, last) == Outcome(cleared, last);
    assert Continue(r, false, ErrorHandler(i), cleared, last) == Outcome(cleared, last);
    hide Continue;
    assert Acts(r, false, ErrorHandler(i), cleared, last) == Outcome(cleared, tail);
    assert Acts(r, false, ErrorHandler(i), cleared, next) == Outcome(cleared, tail);
  }

  /** Either the error is set and nothing is sent, or its page is the response. */
  predicate Failing(st: State, e: Error) {
    if st.didSend then st.written == [Page(e)] else st.err == Some(e) && st.written == []
  }

  lemma QuietErrorHandlers(index: nat, r: Router, isBase: bool, st: State, e: Error)
    requires (isBase ==> index == 0) && Failing(st, e)
    ensures var o := RunErrorHandlers(index, r, isBase, st, []); o.script == [] && Failing(o.st, e)
  {
  }

  lemma QuietRoute(r: Router, isBase: bool, st: State, e: Error)
    requires Failing(st, e)
    ensures var o := RunRoute(r, isBase, st, []); o.script == [] && Failing(o.st, e)
  {
  }

  lemma {:induction false} QuietParams(i: nat, r: Router, isBase: bool, st: State, e: Error)
    requires Failing(st, e)
    ensures var o := RunParamHandlers(i, r, isBase, st, []); o.script == [] && Failing(o.st, e)
    decreases |r.params| - i
  {
    hide RunRoute, RunErrorHandlers;
    if i >= |r.params| {
      QuietRoute(r, isBase, st, e);
    } else if !r.params[i] {
      QuietParams(i + 1, r, isBase, st, e);
    } else {
      QuietErrorHandlers(0, r, isBase, Called(st, r, isBase, Param(i)), e);
    }
  }

  lemma {:induction false} QuietMiddleware(i: nat, r: Router, isBase: bool, st: State, e: Error)
    requires Failing(st, e)
    ensures var o := RunMiddleware(i, r, isBase, st, []); o.script == [] && Failing(o.st, e)
  {
    hide RunParamHandlers, RunErrorHandlers;
    if i >= r.middlewares {
      QuietParams(0, r, isBase, st, e);
    } else {
      QuietErrorHandlers(0, r, isBase, Called(st, r, isBase, Middleware(i)), e);
    }
  }

  lemma {:induction false} QuietRouters(i: nat, r: Router, st: State, e: Error)
    requires Failing(st, e) && i <= |r.routers|
    ensures var o := RunRouters(i, r, st, []); o.script == [] && Failing(o.st, e)
    decreases r, 0, |r.routers| - i
  {
    hide Handle, Failing;
    if i < |r.routers| {
      QuietHandle(r.routers[i], false, st, e);
      QuietRouters(i + 1, r, Handle(r.routers[i], false, st, []).st, e);
    }
  }

  /** Handlers that return at once let an error through, and the app answers with its page. */
  lemma {:induction false} QuietHandle(r: Router, isBase: bool, st: State, e: Error)
    requires Failing(st, e)
    ensures var o := Handle(r, isBase, st, []); o.script == [] && Failing(o.st, e)
    decreases r, 1, 0
  {
    if r.matches {
      QuietMiddleware(0, r, isBase, st, e);
      QuietAfter(r, isBase, RunMiddleware(0, r, isBase, st, []).st, e);
      hide RunMiddleware, RunRouters, RunErrorHandlers;
    }
  }

  /** What follows a router's own handlers. */
  lemma {:induction false} QuietAfter(r: Router, isBase: bool, st: State, e: Error)
    requires Failing(st, e)
    ensures var all := RunRouters(0, r, st, []);
            var o := RunErrorHandlers(0, r, isBase, Missing(r, isBase, all.st), all.script);
            o.script == [] && Failing(o.st, e)
    decreases r, 0, |r.routers| + 1
  {
    QuietRouters(0, r, st, e);
    var all := RunRouters(0, r, st, []);
    hide RunRouters, RunErrorHandlers;
    QuietErrorHandlers(0, r, isBase, Missing(r, isBase, all.st), e);
  }

  /** `k` handlers that call `next`. */
  function Nexts(k: nat): seq<Action> {
    if k == 0 then [] else [Next] + Nexts(k - 1)
  }

  /** A handler sets an error and returns; the error handlers of its router, if it is mounted, pass it on. */
  function Fails(r: Router, isBase: bool, e: Error): seq<Action> {
    [SetError(Some(e)), Return] + if isBase then [] else ErrorScript(r, 0)
  }

  /** The error handlers of a mounted router were called one after the other with this error. */
  predicate Handled(r: Router, isBase: bool, e: Error, calls: seq<Call>) {
    isBase || exists j :: 0 <= j <= |calls| && ErrorCalls(r, 0, e) <= calls[j..]
  }

  lemma HandledStill(r: Router, isBase: bool, e: Error, calls: seq<Call>, later: seq<Call>)
    requires Handled(r, isBase, e, calls) && calls <= later
    ensures Handled(r, isBase, e, later)
  {
    if !isBase {
      var j :| 0 <= j <= |calls| && ErrorCalls(r, 0, e) <= calls[j..];
      assert later[j..][..|calls| - j] == calls[j..];
      assert ErrorCalls(r, 0, e) <= later[j..];
    }
  }

  /** The failing middleware itself. */
  lemma {:induction false} MiddlewareFails(i: nat, r: Router, isBase: bool, st: State, e: Error)
    requires i < r.middlewares && !st.didSend && st.written == []
    ensures var o := RunMiddleware(i, r, isBase, st, Fails(r, isBase, e));
            o.script == [] && Failing(o.st, e) && Handled(r, isBase, e, o.st.calls)
  {
    var script := Fails(r, isBase, e);
    var called := Called(st, r, isBase, Middleware(i));
    var failed := called.(err := Some(e));
    var after := if isBase then [] else ErrorScript(r, 0);
    var rest := script[1..];
    assert rest[0] == Return && rest[1..] == after;
    assert Acts(r, isBase, Middleware(i), failed, rest) == Outcome(failed, after);
    assert Acts(r, isBase, Middleware(i), called, script) == Outcome(failed, after);
    hide Acts;
    if isBase {
      QuietErrorHandlers(0, r, true, failed, e);
    } else {
      assert after + [] == after;
      ErrorHandlersPass(0, r, failed, e, []);
      var calls := failed.calls + ErrorCalls(r, 0, e);
      assert calls[|failed.calls|..] == ErrorCalls(r, 0, e);
    }
  }

  lemma NextQuiet(r: Router, isBase: bool, kind: Kind, st: State, rest: seq<Action>)
    requires !kind.ErrorHandler? && Continue(r, isBase, kind, st, rest).script == []
    ensures Acts(r, isBase, kind, st, [Next] + rest) == Continue(r, isBase, kind, st, rest)
  {
    hide Continue;
    assert ([Next] + rest)[1..] == rest;
  }

  /** A middleware that passes on in front of one that fails. */
  lemma {:induction false} FailsBehind(i: nat, k: nat, r: Router, isBase: bool, st: State, e: Error)
    requires i + k < r.middlewares && !st.didSend && st.written == []
    ensures var o := RunMiddleware(i, r, isBase, st, Nexts(k) + Fails(r, isBase, e));
            o.script == [] && Failing(o.st, e) && Handled(r, isBase, e, o.st.calls)
    decreases k
  {
    if k == 0 {
      assert Nexts(0) + Fails(r, isBase, e) == Fails(r, isBase, e);
      MiddlewareFails(i, r, isBase, st, e);
    } else {
      var rest := Nexts(k - 1) + Fails(r, isBase, e);
      assert Nexts(k) + Fails(r, isBase, e) == [Next] + rest;
      var called := Called(st, r, isBase, Middleware(i));
      FailsBehind(i + 1, k - 1, r, isBase, called, e);
      var o := RunMiddleware(i + 1, r, isBase, called, rest);
      NextQuiet(r, isBase, Middleware(i), called, rest);
      hide Acts, RunErrorHandlers, Failing, Handled, Fails, Nexts;
      QuietErrorHandlers(0, r, isBase, o.st, e);
      ErrorHandlersKeep(0, r, isBase, o.st, []);
      HandledStill(r, isBase, e, o.st.calls, RunErrorHandlers(0, r, isBase, o.st, []).st.calls);
    }
  }

  /** What a router needs to have for its `k`-th middleware to be reached along a path of mounted routers. */
  predicate Reached(r: Router, path: seq<nat>, k: nat)
    decreases path
  {
    && r.matches
    && if path == [] then k < r.middlewares
       else path[0] < |r.routers| && !r.route && Silent(r, path[0]) && Reached(r.routers[path[0]], path[1..], k)
  }

  /** No route of the first `n` mounted routers matches. */
  predicate Silent(r: Router, n: nat)
    requires n <= |r.routers|
  {
    forall i :: 0 <= i < n ==> TreeReplies(r.routers[i]) == []
  }

  /** All handlers in front of it pass on, then the `k`-th middleware of the router at the end of the path fails. */
  function FailScript(r: Router, isBase: bool, path: seq<nat>, k: nat, e: Error): seq<Action>
    requires Reached(r, path, k)
    decreases path
  {
    if path == [] then Nexts(k) + Fails(r, isBase, e)
    else MiddlewareScript(r, 0) + BeforeScript(r, path[0]) + FailScript(r.routers[path[0]], false, path[1..], k, e)
  }

  /** The first `n` mounted routers pass on. */
  function BeforeScript(r: Router, n: nat): seq<Action>
    requires n <= |r.routers|
  {
    if n == 0 then [] else BeforeScript(r, n - 1) + TreeScript(r.routers[n - 1])
  }

  /** Routers that pass on without a reply. */
  lemma {:induction false} BeforePass(r: Router, i: nat, n: nat, st: State, tail: seq<Action>) returns (passed: State)
    requires i <= n <= |r.routers| && Silent(r, n) && st.err.None? && !st.didSend
    ensures passed.err.None? && !passed.didSend && passed.written == st.written && st.calls <= passed.calls
    ensures RunRouters(i, r, st, PassScript(r, i, n) + tail) == RunRouters(n, r, passed, tail)
    decreases n - i
  {
    if i == n {
      passed := st;
      assert [] + tail == tail;
    } else {
      var sub := r.routers[i];
      var rest := PassScript(r, i + 1, n) + tail;
      assert PassScript(r, i, n) + tail == TreeScript(sub) + rest;
      TreePasses(sub, st, rest);
      var after := Offered(st, TreeCalls(sub, false), TreeReplies(sub));
      hide Handle, TreeScript, TreeCalls, TreeReplies;
      passed := BeforePass(r, i + 1, n, after, tail);
    }
  }

  function PassScript(r: Router, i: nat, n: nat): seq<Action>
    requires i <= n <= |r.routers|
    decreases n - i
  {
    if i == n then [] else TreeScript(r.routers[i]) + PassScript(r, i + 1, n)
  }

  lemma {:induction false} PassIsBefore(r: Router, i: nat, n: nat)
    requires i <= n <= |r.routers|
    ensures BeforeScript(r, i) + PassScript(r, i, n) == BeforeScript(r, n)
    decreases n - i
  {
    hide TreeScript;
    if i == n {
      assert BeforeScript(r, n) + [] == BeforeScript(r, n);
    } else {
      PassIsBefore(r, i + 1, n);
      var b, t, p := BeforeScript(r, i), TreeScript(r.routers[i]), PassScript(r, i + 1, n);
      assert b + (t + p) == b + t + p;
    }
  }

  /** The router at the end of a path. */
  function At(r: Router, path: seq<nat>, k: nat): Router
    requires Reached(r, path, k)
    decreases path
  {
    if path == [] then r else At(r.routers[path[0]], path[1..], k)
  }

  lemma {:induction false} TreeFails(r: Router, isBase: bool, path: seq<nat>, k: nat, st: State, e: Error)
    requires Reached(r, path, k) && Fresh(st)
    ensures var o := Handle(r, isBase, st, FailScript(r, isBase, path, k, e));
            o.script == [] && Failing(o.st, e) && Handled(At(r, path, k), isBase && path == [], e, o.st.calls)
    decreases path
  {
    var script := FailScript(r, isBase, path, k, e);
    var ran := RunMiddleware(0, r, isBase, st, script);
    var all := RunRouters(0, r, ran.st, ran.script);
    if path == [] {
      FailsBehind(0, k, r, isBase, st, e);
      QuietAfter(r, isBase, ran.st, e);
    } else {
      RoutersFail(r, isBase, path, k, st, e);
      hide RunMiddleware, RunRouters, RunErrorHandlers, Failing, Handled, FailScript;
      QuietErrorHandlersMissing(r, isBase, all.st, e);
    }
    hide RunMiddleware, RunRouters, RunErrorHandlers, Failing, Handled, FailScript;
    LaterHandled(r, isBase, At(r, path, k), isBase && path == [], e, ran, all, path);
  }

  lemma QuietErrorHandlersMissing(r: Router, isBase: bool, st: State, e: Error)
    requires Failing(st, e)
    ensures Failing(Missing(r, isBase, st), e)
    ensures var o := RunErrorHandlers(0, r, isBase, Missing(r, isBase, st), []); o.script == [] && Failing(o.st, e)
  {
    hide RunErrorHandlers;
    QuietErrorHandlers(0, r, isBase, Missing(r, isBase, st), e);
  }

  lemma LaterHandled(r: Router, isBase: bool, failed: Router, own: bool, e: Error, ran: Outcome, all: Outcome,
                     path: seq<nat>)
    requires all == RunRouters(0, r, ran.st, ran.script)
    requires if path == [] then Handled(failed, own, e, ran.st.calls) else Handled(failed, own, e, all.st.calls)
    ensures Handled(failed, own, e, RunErrorHandlers(0, r, isBase, Missing(r, isBase, all.st), all.script).st.calls)
  {
    hide RunRouters, RunErrorHandlers, Handled;
    RoutersKeep(0, r, ran.st, ran.script);
    if path == [] {
      HandledStill(failed, own, e, ran.st.calls, all.st.calls);
    }
    ErrorHandlersKeep(0, r, isBase, Missing(r, isBase, all.st), all.script);
    HandledStill(failed, own, e, all.st.calls,
                 RunErrorHandlers(0, r, isBase, Missing(r, isBase, all.st), all.script).st.calls);
  }

  /** Nothing has been sent and no error is set. */
  predicate Fresh(st: State) {
    st.err.None? && !st.didSend && st.written == []
  }

  lemma ReachedBelow(r: Router, isBase: bool, path: seq<nat>, k: nat, e: Error)
    requires Reached(r, path, k) && path != []
    ensures path[0] < |r.routers| && !r.route && Silent(r, path[0])
    ensures Reached(r.routers[path[0]], path[1..], k) && At(r, path, k) == At(r.routers[path[0]], path[1..], k)
    ensures FailScript(r, isBase, path, k, e)
         == MiddlewareScript(r, 0) + (BeforeScript(r, path[0]) + FailScript(r.routers[path[0]], false, path[1..], k, e))
  {
    hide MiddlewareScript, BeforeScript, Silent;
  }

  lemma {:induction false} OwnPasses(r: Router, isBase: bool, st: State, rest: seq<Action>) returns (own: State)
    requires Fresh(st) && !r.route
    ensures Fresh(own) && RunMiddleware(0, r, isBase, st, MiddlewareScript(r, 0) + rest) == Outcome(own, rest)
  {
    hide RunMiddleware, MiddlewareScript, MiddlewareCalls;
    MiddlewarePasses(0, r, isBase, st, rest);
    own := Offered(st, MiddlewareCalls(r, isBase, 0), RouteReplies(r));
  }

  lemma {:induction false} MountedPass(r: Router, n: nat, st: State, inner: seq<Action>) returns (passed: State)
    requires n <= |r.routers| && Silent(r, n) && Fresh(st)
    ensures Fresh(passed) && RunRouters(0, r, st, BeforeScript(r, n) + inner) == RunRouters(n, r, passed, inner)
  {
    hide RunRouters, BeforeScript, PassScript, Silent;
    PassIsBefore(r, 0, n);
    assert BeforeScript(r, 0) == [] && [] + PassScript(r, 0, n) == PassScript(r, 0, n) by {
      NoneBefore(r);
    }
    passed := BeforePass(r, 0, n, st, inner);
  }

  lemma NoneBefore(r: Router)
    ensures BeforeScript(r, 0) == []
  {
  }

  /** What follows a mounted router that has failed. */
  lemma {:induction false} FailedThen(r: Router, n: nat, failed: Router, st: State, script: seq<Action>, e: Error)
    requires n < |r.routers|
    requires var o := Handle(r.routers[n], false, st, script);
             o.script == [] && Failing(o.st, e) && Handled(failed, false, e, o.st.calls)
    ensures var all := RunRouters(n, r, st, script);
            all.script == [] && Failing(all.st, e) && Handled(failed, false, e, all.st.calls)
  {
    hide Handle, Failing, Handled;
    var o := Handle(r.routers[n], false, st, script);
    QuietRouters(n + 1, r, o.st, e);
    RoutersKeep(n + 1, r, o.st, []);
    HandledStill(failed, false, e, o.st.calls, RunRouters(n + 1, r, o.st, []).st.calls);
  }

  /** The failure is below one of the routers that are mounted here. */
  lemma {:induction false} RoutersFail(r: Router, isBase: bool, path: seq<nat>, k: nat, st: State, e: Error)
    requires Reached(r, path, k) && path != [] && Fresh(st)
    ensures var ran := RunMiddleware(0, r, isBase, st, FailScript(r, isBase, path, k, e));
            var all := RunRouters(0, r, ran.st, ran.script);
            all.script == [] && Failing(all.st, e) && Handled(At(r, path, k), false, e, all.st.calls)
    decreases path, 0
  {
    hide *;
    ReachedBelow(r, isBase, path, k, e);
    var n := path[0];
    var sub := r.routers[n];
    var inner := FailScript(sub, false, path[1..], k, e);
    var own := OwnPasses(r, isBase, st, BeforeScript(r, n) + inner);
    var passed := MountedPass(r, n, own, inner);
    TreeFails(sub, false, path[1..], k, passed, e);
    FailedThen(r, n, At(r, path, k), passed, inner, e);
  }

  /**
   * Wherever in the tree a middleware fails, all handlers in front of it having passed the request on and
   * none behind it doing anything: the error handlers of its router are called in order with its error, and
   * the app answers with the page of this error.
   */
  lemma {:induction false} FailureAnswered(app: Router, target: string, path: seq<nat>, k: nat, e: Error)
    requires App(app) && Reached(app, path, k)
    ensures var st := Handle(app, true, Start(target), FailScript(app, true, path, k, e)).st;
            st.written == [Page(e)] && (path != [] ==> Handled(At(app, path, k), false, e, st.calls))
  {
    TreeFails(app, true, path, k, Start(target), e);
    HandleKeeps(app, true, Start(target), FailScript(app, true, path, k, e));
    hide Handle, FailScript;
  }

  /** What the first middleware of the app does, and what it is answered with, whatever happens afterwards. */
  lemma {:induction false} FirstActs(app: Router, target: string, action: Action, script: seq<Action>)
    requires App(app) && app.middlewares > 0
    ensures var written := Handle(app, true, Start(target), [action, Return] + script).st.written;
            match action
            case Send(text) => written == [Body(text)]
            case SendFile(content) =>
              written == [if content.Some? then Body(content.value) else Page(Error(404, "Cannot " + target))]
            case SetError(error) => error.Some? ==> written == [Page(error.value)]
            case _ => true
  {
    var all := [action, Return] + script;
    var rest := all[1..];
    assert rest[0] == Return && rest[1..] == script;
    var called := Called(Start(target), app, true, Middleware(0));
    var acted := match action
      case Send(text) => Sent(called, Body(text))
      case SendFile(content) => FileSent(called, content)
      case SetError(error) => called.(err := error)
      case _ => called;
    if !action.Next? && !action.Return? {
      assert Acts(app, true, Middleware(0), acted, rest) == Outcome(acted, script);
      assert Acts(app, true, Middleware(0), called, all) == Outcome(acted, script);
      var ran := RunErrorHandlers(0, app, true, acted, script);
      assert RunMiddleware(0, app, true, Start(target), all) == ran;
      hide RunMiddleware, Acts;
      RoutersKeep(0, app, ran.st, ran.script);
      var last := RunRouters(0, app, ran.st, ran.script);
      ErrorHandlersKeep(0, app, true, Missing(app, true, last.st), last.script);
      hide RunRouters;
    }
  }
}
