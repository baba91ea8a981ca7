/** A request and its response going through the routers' handlers, with the response's fields updated in place. */
module Exchange {
  import opened Options
  import opened Dispatch

  class Exchange {
    const target: string
    var didSend: bool
    var err: Option<Error>
    /** What was written to the client's socket. */
    var written: seq<Reply>
    /** The actions that handlers are still to take. */
    var script: seq<Action>
    ghost var calls: seq<Call>

    constructor (target: string, script: seq<Action>)
      ensures St() == Start(target) && this.script == script
    {
      this.target, this.script := target, script;
      didSend, err, written, calls := false, None, [], [];
    }

    ghost function St(): State
      reads this
    {
      State(target, didSend, err, written, calls)
    }

    /** expressResSend. */
    method Send(reply: Reply)
      modifies this`didSend, this`written
      ensures St() == Sent(old(St()), reply)
    {
      if didSend {
        return;
      }
      didSend := true;
      written := written + [reply];
    }

    /** expressResSendFile. */
    method SendFile(content: Option<string>)
      modifies this`didSend, this`written, this`err
      ensures St() == FileSent(old(St()), content)
    {
      if didSend {
        return;
      }
      if content.None? {
        err := Some(Error(404, "Cannot " + target));
        return;
      }
      didSend := true;
      written := written + [Body(content.value)];
    }

    /** A handler's body: the actions of the script up to its return. */
    method Act(r: Router, isBase: bool, kind: Kind)
      requires kind.ErrorHandler? ==> !isBase
      modifies this
      ensures Outcome(St(), script) == Acts(r, isBase, kind, old(St()), old(script))
      decreases |script|, r, 0, 0
    {
      ghost var whole := Acts(r, isBase, kind, St(), script);
      var running := true;
      while running && script != []
        invariant |script| <= old(|script|)
        invariant whole == if running then Acts(r, isBase, kind, St(), script) else Outcome(St(), script)
        decreases |script|
      {
        var action := script[0];
        script := script[1..];
        match action
        case Send(text) => Send(Body(text));
        case SendFile(content) => SendFile(content);
        case SetError(error) => err := error;
        case Return => running := false;
        case Next => CallNext(r, isBase, kind);
      }
    }

    method CallNext(r: Router, isBase: bool, kind: Kind)
      requires kind.ErrorHandler? ==> !isBase
      modifies this
      ensures Outcome(St(), script) == Continue(r, isBase, kind, old(St()), old(script))
      decreases |script|, r, 4, 0
    {
      match kind
      case Middleware(index) => DoMiddleware(index + 1, r, isBase);
      case Param(index) => DoParamHandlers(index + 1, r, isBase);
      case ErrorHandler(index) => DoErrorHandlers(index + 1, r, isBase);
      case Route =>
    }

    /** runErrorHandlers. */
    method DoErrorHandlers(index: nat, r: Router, isBase: bool)
      requires isBase ==> index == 0
      modifies this
      ensures Outcome(St(), script) == RunErrorHandlers(index, r, isBase, old(St()), old(script))
      decreases |script|, r, 1, 0
    {
      if err.Some? {
        if index < r.errorHandlers {
          calls := calls + [Call(r.name, isBase, ErrorHandler(index), err)];
          if isBase {
            Send(Page(err.value));
          } else {
            Act(r, isBase, ErrorHandler(index));
          }
        }
      }
    }

    /** The block that calls the route that matches. */
    method DoRoute(r: Router, isBase: bool)
      modifies this
      ensures Outcome(St(), script) == RunRoute(r, isBase, old(St()), old(script))
      decreases |script|, r, 1, 0
    {
      if r.route && err.None? {
        calls := calls + [Call(r.name, isBase, Route, err)];
        Act(r, isBase, Route);
      }
    }

    /** runParamHandlers. */
    method DoParamHandlers(index: nat, r: Router, isBase: bool)
      modifies this
      ensures Outcome(St(), script) == RunParamHandlers(index, r, isBase, old(St()), old(script))
      decreases |script|, r, 2, |r.params| - index
    {
      if index < |r.params| {
        if r.params[index] {
          calls := calls + [Call(r.name, isBase, Param(index), err)];
          Act(r, isBase, Param(index));
          DoErrorHandlers(0, r, isBase);
        } else {
          DoParamHandlers(index + 1, r, isBase);
        }
      } else {
        DoRoute(r, isBase);
      }
    }

    /** runMiddleware. */
    method DoMiddleware(index: nat, r: Router, isBase: bool)
      modifies this
      ensures Outcome(St(), script) == RunMiddleware(index, r, isBase, old(St()), old(script))
      decreases |script|, r, 3, r.middlewares - index
    {
      if index < r.middlewares {
        calls := calls + [Call(r.name, isBase, Middleware(index), err)];
        Act(r, isBase, Middleware(index));
        DoErrorHandlers(0, r, isBase);
      } else {
        DoParamHandlers(0, r, isBase);
      }
    }

    /** The handler block of a router. */
    method DoHandle(r: Router, isBase: bool)
      modifies this
      ensures Outcome(St(), script) == Handle(r, isBase, old(St()), old(script))
      decreases |script|, r, 5, 0
    {
      if !r.matches {
        return;
      }
      DoMiddleware(0, r, isBase);
      ghost var ran := Outcome(St(), script);
      ghost var all := RunRouters(0, r, ran.st, ran.script);
      for i := 0 to |r.routers|
        invariant |script| <= old(|script|)
        invariant all == RunRouters(i, r, St(), script)
      {
        DoHandle(r.routers[i], false);
      }
      if isBase && !didSend {
        if err.None? {
          err := Some(Error(404, "Cannot " + target));
        }
      }
      DoErrorHandlers(0, r, isBase);
    }
  }

  /**
   * A request served by the app: one response is written, whatever the handlers do, and if it is a page, it is
   * that of the error which the app's default error handler was given first.
   */
  method Serve(app: Router, target: string, script: seq<Action>) returns (reply: Reply)
    requires App(app)
    ensures Handle(app, true, Start(target), script).st.written == [reply]
    ensures reply.Page? ==> FirstError(Handle(app, true, Start(target), script).st.calls) == Some(reply.error)
  {
    var exchange := new Exchange(target, script);
    exchange.DoHandle(app, true);
    ExactlyOneResponse(app, target, script);
    hide Handle;
    reply := exchange.written[0];
  }
}
