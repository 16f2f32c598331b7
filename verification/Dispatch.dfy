/**
 One call of the transaction processor's dispatch: handlers, registration, and the processing of one received item.

 What a call does not decide is given from outside: the item its future resolves to, and what happens to the
 connection, the handlers and the registration replies meanwhile.
 */
module Dispatch {
  import opened Wrappers

  datatype Handler = Handler(family: string, versions: seq<string>, namespaces: seq<string>)

  datatype Header = Header(family: string, version: string)

  /** The handlers in the order added, the requested feature level and the header style. */
  datatype Config = Config(handlers: seq<Handler>, feature: nat, style: nat)

  datatype Request = Request(family: string, version: string, namespaces: seq<string>, feature: nat, style: nat)

  datatype Status = OK | INVALID_TRANSACTION | INTERNAL_ERROR

  datatype Sent = Register(request: Request)
                | ProcessResponse(id: nat, status: Status)
                | PingResponse(id: nat)
                | Unregister

  /** What a future from `receive` resolves to. */
  datatype Item = Cancelled | Reconnected | Ping(id: nat) | ProcessRequest(id: nat, header: Header) | OtherMessage

  /** How a handler's apply ends.  RuntimeFailure is a RuntimeError, TimesOut a timeout of a future it waited for. */
  datatype Applied = Succeeds | Invalid | Internal | Unauthorized | ConnectionLost
                   | RuntimeFailure | TimesOut | OtherError

  datatype Reply = Lost | Replied(version: nat, error: bool)

  /** The circumstances of one call: functions take the handler's, or the request's, position. */
  datatype Env = Env(ready: bool, apply: nat -> Applied, sendOk: bool, sends: nat -> bool, replies: nat -> Reply)

  /** Continue, or the exception that leaves the call: ValidatorVersionError, RuntimeError, a timeout, or any other. */
  datatype End = Continue | VersionError | Failed | TimedOut | Crash

  // ----- handlers and registration

  predicate Matches(h: Handler, header: Header)
  {
    header.family == h.family && header.version in h.versions
  }

  /** The first matching handler. */
  function FindHandler(handlers: seq<Handler>, header: Header): (r: Option<nat>)
    ensures r.Some? ==> r.value < |handlers| && Matches(handlers[r.value], header)
    ensures forall i :: 0 <= i < |handlers| && (r.Some? ==> i < r.value) ==> !Matches(handlers[i], header)
  {
    if handlers == [] then None
    else if Matches(handlers[0], header) then Some(0)
    else
      match FindHandler(handlers[1..], header)
      case None => None
      case Some(i) => Some(i + 1)
  }

  function HandlerRequests(cfg: Config, h: Handler, versions: seq<string>): seq<Request>
  {
    if versions == [] then []
    else [Request(h.family, versions[0], h.namespaces, cfg.feature, cfg.style)] + HandlerRequests(cfg, h, versions[1..])
  }

  function RequestsOf(cfg: Config, handlers: seq<Handler>): seq<Request>
  {
    if handlers == [] then []
    else HandlerRequests(cfg, handlers[0], handlers[0].versions) + RequestsOf(cfg, handlers[1..])
  }

  function RegisterRequests(cfg: Config): seq<Request>
  {
    RequestsOf(cfg, cfg.handlers)
  }

  lemma {:induction false} HandlerRequestsMembers(cfg: Config, h: Handler, versions: seq<string>, q: Request)
    ensures q in HandlerRequests(cfg, h, versions) <==>
      q.version in versions && q == Request(h.family, q.version, h.namespaces, cfg.feature, cfg.style)
    decreases |versions|
  {
    if versions != [] {
      HandlerRequestsMembers(cfg, h, versions[1..], q);
      assert versions == [versions[0]] + versions[1..];
    }
  }

  /** q announces a version of handler i. */
  ghost predicate Announces(cfg: Config, handlers: seq<Handler>, i: nat, q: Request)
    requires i < |handlers|
  {
    var h := handlers[i];
    q.version in h.versions && q == Request(h.family, q.version, h.namespaces, cfg.feature, cfg.style)
  }

  /** The registration list holds exactly one kind of request: some handler's family with one of its versions. */
  lemma {:induction false} RequestsMembers(cfg: Config, handlers: seq<Handler>, q: Request)
    ensures q in RequestsOf(cfg, handlers) <==> exists i :: 0 <= i < |handlers| && Announces(cfg, handlers, i, q)
    decreases |handlers|
  {
    if handlers != [] {
      var rest := handlers[1..];
      HandlerRequestsMembers(cfg, handlers[0], handlers[0].versions, q);
      RequestsMembers(cfg, rest, q);
      if i :| 0 <= i < |handlers| && Announces(cfg, handlers, i, q) {
        assert i == 0 || Announces(cfg, rest, i - 1, q);
      }
      if q in HandlerRequests(cfg, handlers[0], handlers[0].versions) {
        assert Announces(cfg, handlers, 0, q);
      } else if j :| 0 <= j < |rest| && Announces(cfg, rest, j, q) {
        assert Announces(cfg, handlers, j + 1, q);
      }
    }
  }

  /** How many versions the first i handlers have together. */
  ghost function VersionsBefore(handlers: seq<Handler>, i: nat): nat
    requires i <= |handlers|
  {
    if i == 0 then 0 else VersionsBefore(handlers, i - 1) + |handlers[i - 1].versions|
  }

  lemma {:induction false} VersionsBeforeRest(handlers: seq<Handler>, i: nat)
    requires 0 < i <= |handlers|
    ensures VersionsBefore(handlers, i) == |handlers[0].versions| + VersionsBefore(handlers[1..], i - 1)
    decreases i
  {
    if i > 1 { VersionsBeforeRest(handlers, i - 1); }
  }

  lemma {:induction false} HandlerRequestsByPosition(cfg: Config, h: Handler, versions: seq<string>)
    ensures |HandlerRequests(cfg, h, versions)| == |versions|
    ensures forall v :: 0 <= v < |versions| ==>
      HandlerRequests(cfg, h, versions)[v] == Request(h.family, versions[v], h.namespaces, cfg.feature, cfg.style)
    decreases |versions|
  {
    if versions != [] { HandlerRequestsByPosition(cfg, h, versions[1..]); }
  }

  lemma {:induction false} RequestsLength(cfg: Config, handlers: seq<Handler>)
    ensures |RequestsOf(cfg, handlers)| == VersionsBefore(handlers, |handlers|)
    decreases |handlers|
  {
    if handlers != [] {
      HandlerRequestsByPosition(cfg, handlers[0], handlers[0].versions);
      RequestsLength(cfg, handlers[1..]);
      VersionsBeforeRest(handlers, |handlers|);
    }
  }

  /** The whole list: handler by handler as they were added, version by version, one request for each. */
  lemma {:induction false} RequestsByPosition(cfg: Config, handlers: seq<Handler>, i: nat, v: nat)
    requires i < |handlers| && v < |handlers[i].versions|
    ensures |RequestsOf(cfg, handlers)| == VersionsBefore(handlers, |handlers|)
    ensures var h, k := handlers[i], VersionsBefore(handlers, i) + v;
      && k < |RequestsOf(cfg, handlers)|
      && RequestsOf(cfg, handlers)[k] == Request(h.family, h.versions[v], h.namespaces, cfg.feature, cfg.style)
    decreases |handlers|
  {
    RequestsLength(cfg, handlers);
    HandlerRequestsByPosition(cfg, handlers[0], handlers[0].versions);
    if i > 0 {
      RequestsByPosition(cfg, handlers[1..], i - 1, v);
      VersionsBeforeRest(handlers, i);
    } else {
      RequestsLength(cfg, handlers[1..]);
    }
  }

  /** A request is dispatched to some handler exactly when the registration list announces its family and version. */
  lemma {:induction false} DispatchedIffAnnounced(cfg: Config, header: Header)
    ensures FindHandler(cfg.handlers, header).Some? <==>
      exists q :: q in RegisterRequests(cfg) && q.family == header.family && q.version == header.version
  {
    var r := FindHandler(cfg.handlers, header);
    if r.Some? {
      var h := cfg.handlers[r.value];
      var q := Request(h.family, header.version, h.namespaces, cfg.feature, cfg.style);
      RequestsMembers(cfg, cfg.handlers, q);
      assert Announces(cfg, cfg.handlers, r.value, q);
      assert q in RegisterRequests(cfg);
    }
    if q :| q in RegisterRequests(cfg) && q.family == header.family && q.version == header.version {
      RequestsMembers(cfg, cfg.handlers, q);
    }
  }

  /** Requests go out one by one until a send finds the connection gone; that exception nothing catches. */
  function SendAll(requests: seq<Request>, sends: nat -> bool, i: nat): (seq<Sent>, End)
    requires i <= |requests|
    decreases |requests| - i
  {
    if i == |requests| then ([], Continue)
    else if !sends(i) then ([], Crash)
    else
      var (rest, end) := SendAll(requests, sends, i + 1);
      ([Register(requests[i])] + rest, end)
  }

  function CheckReplies(cfg: Config, n: nat, replies: nat -> Reply, i: nat): End
    requires i <= n
    decreases n - i
  {
    if i == n then Continue
    else
      match replies(i)
      case Lost => CheckReplies(cfg, n, replies, i + 1)
      case Replied(version, error) =>
        if version != cfg.feature then VersionError
        else if error then Failed
        else CheckReplies(cfg, n, replies, i + 1)
  }

  function RegisterAll(cfg: Config, env: Env): (seq<Sent>, End)
  {
    var requests := RegisterRequests(cfg);
    var (sent, end) := SendAll(requests, env.sends, 0);
    if end != Continue then (sent, end) else (sent, CheckReplies(cfg, |requests|, env.replies, 0))
  }

  ghost function AsSent(requests: seq<Request>): seq<Sent>
  {
    seq(|requests|, i requires 0 <= i < |requests| => Register(requests[i]))
  }

  lemma {:induction false} SendAllSends(requests: seq<Request>, sends: nat -> bool, i: nat)
    requires i <= |requests|
    ensures SendAll(requests, sends, i).0 <= AsSent(requests[i..])
    ensures SendAll(requests, sends, i).1 == Continue || SendAll(requests, sends, i).1 == Crash
    ensures SendAll(requests, sends, i).1 != Crash ==> SendAll(requests, sends, i).0 == AsSent(requests[i..])
    ensures SendAll(requests, sends, i).1 == Crash ==>
      var j := i + |SendAll(requests, sends, i).0|; j < |requests| && !sends(j) && forall k :: i <= k < j ==> sends(k)
    decreases |requests| - i
  {
    if i < |requests| {
      SendAllSends(requests, sends, i + 1);
      assert AsSent(requests[i..]) == [Register(requests[i])] + AsSent(requests[i + 1..]);
    }
  }

  lemma {:induction false} SendAllCrashes(requests: seq<Request>, sends: nat -> bool, i: nat)
    requires i <= |requests|
    ensures SendAll(requests, sends, i).1 == Crash <==> exists j :: i <= j < |requests| && !sends(j)
    decreases |requests| - i
  {
    if i < |requests| { SendAllCrashes(requests, sends, i + 1); }
  }

  lemma {:induction false} RepliesNeverCrash(cfg: Config, n: nat, replies: nat -> Reply, i: nat)
    requires i <= n
    ensures CheckReplies(cfg, n, replies, i) != Crash
    decreases n - i
  {
    if i < n { RepliesNeverCrash(cfg, n, replies, i + 1); }
  }

  /** Unless it crashes, registration sends the whole list, each request once and in order. */
  lemma {:induction false} RegistersWholeList(cfg: Config, env: Env)
    ensures RegisterAll(cfg, env).1 != Crash ==> RegisterAll(cfg, env).0 == AsSent(RegisterRequests(cfg))
    ensures RegisterAll(cfg, env).0 <= AsSent(RegisterRequests(cfg))
    ensures RegisterAll(cfg, env).1 == Crash <==> |RegisterAll(cfg, env).0| < |RegisterRequests(cfg)|
  {
    var requests := RegisterRequests(cfg);
    SendAllSends(requests, env.sends, 0);
    RepliesNeverCrash(cfg, |requests|, env.replies, 0);
    assert requests[0..] == requests;
  }

  // ----- one item

  function StatusFor(a: Applied): Option<Status>
  {
    match a
    case Succeeds => Some(OK)
    case Invalid => Some(INVALID_TRANSACTION)
    case Internal => Some(INTERNAL_ERROR)
    case Unauthorized => Some(INVALID_TRANSACTION)
    case _ => None
  }

  /** The exceptions `_process` does not catch; it catches a lost connection and answers nothing. */
  function EndFor(a: Applied): End
  {
    match a
    case RuntimeFailure => Failed
    case TimesOut => TimedOut
    case OtherError => Crash
    case _ => Continue
  }

  function ProcessFuture(cfg: Config, item: Item, env: Env, sigint: bool): (seq<Sent>, End)
  {
    match item
    case Cancelled => ([], Continue)
    case Reconnected => if sigint then ([], Continue) else RegisterAll(cfg, env)
    case Ping(id) => if env.sendOk then ([PingResponse(id)], Continue) else ([], Crash)
    case OtherMessage => ([], Continue)
    case ProcessRequest(id, header) =>
      if !env.ready then ([], Continue)
      else
        match FindHandler(cfg.handlers, header)
        case None => ([], Continue)
        case Some(h) =>
          match StatusFor(env.apply(h))
          case None => ([], EndFor(env.apply(h)))
          case Some(status) => (if env.sendOk then [ProcessResponse(id, status)] else [], Continue)
  }

  ghost predicate FirstMatch(handlers: seq<Handler>, header: Header, h: nat)
    requires h < |handlers|
  {
    Matches(handlers[h], header) && forall g :: 0 <= g < h ==> !Matches(handlers[g], header)
  }

  /** The status that each way of ending calls for; the other ways call for no answer. */
  ghost predicate CallsFor(a: Applied, status: Status)
  {
    match status
    case OK => a == Succeeds
    case INVALID_TRANSACTION => a == Invalid || a == Unauthorized
    case INTERNAL_ERROR => a == Internal
  }

  /** Whether this call answers the item, and with what: independent of everything sent for other items. */
  ghost predicate Answered(cfg: Config, item: Item, env: Env, s: Sent)
  {
    match s
    case ProcessResponse(id, status) =>
      && item.ProcessRequest? && item.id == id && env.ready && env.sendOk
      && exists h :: 0 <= h < |cfg.handlers| && FirstMatch(cfg.handlers, item.header, h)
           && CallsFor(env.apply(h), status)
    case PingResponse(id) => item == Ping(id) && env.sendOk
    case _ => false
  }

  lemma {:induction false} AnswersExactly(cfg: Config, item: Item, env: Env, sigint: bool, s: Sent)
    requires s.ProcessResponse? || s.PingResponse?
    ensures s in ProcessFuture(cfg, item, env, sigint).0 <==> Answered(cfg, item, env, s)
    ensures s in ProcessFuture(cfg, item, env, sigint).0 ==> ProcessFuture(cfg, item, env, sigint).0 == [s]
    ensures item.Reconnected? && !sigint ==> s !in ProcessFuture(cfg, item, env, sigint).0
  {
    if item.Reconnected? {
      RegistersWholeList(cfg, env);
      assert s !in AsSent(RegisterRequests(cfg));
    }
    if item.ProcessRequest? && FindHandler(cfg.handlers, item.header).Some? {
      var f := FindHandler(cfg.handlers, item.header).value;
      assert FirstMatch(cfg.handlers, item.header, f);
      assert forall h :: 0 <= h < |cfg.handlers| && FirstMatch(cfg.handlers, item.header, h) ==> h == f;
    }
  }

  /** Unless it registers, a call sends nothing but its item's answer. */
  lemma {:induction false} OnlyAnswers(cfg: Config, item: Item, env: Env, sigint: bool)
    requires sigint || !item.Reconnected?
    ensures var sent := ProcessFuture(cfg, item, env, sigint).0;
      |sent| <= 1 && forall s :: s in sent ==> Answered(cfg, item, env, s)
  {
    var sent := ProcessFuture(cfg, item, env, sigint).0;
    if |sent| > 0 { AnswersExactly(cfg, item, env, sigint, sent[0]); }
  }

  /** `_register`: send every request, then look at every reply. */
  method SendRegistrations(cfg: Config, env: Env) returns (sent: seq<Sent>, end: End)
    ensures (sent, end) == RegisterAll(cfg, env)
  {
    var requests := RegisterRequests(cfg);
    sent, end := [], Continue;
    var i := 0;
    ghost var all := SendAll(requests, env.sends, 0);
    assert [] + all.0 == all.0;
    while i < |requests|
      invariant 0 <= i <= |requests|
      invariant all == (sent + SendAll(requests, env.sends, i).0, SendAll(requests, env.sends, i).1)
    {
      if !env.sends(i) {
        assert sent + [] == sent;
        return sent, Crash;
      }
      assert sent + ([Register(requests[i])] + SendAll(requests, env.sends, i + 1).0)
          == (sent + [Register(requests[i])]) + SendAll(requests, env.sends, i + 1).0;
      sent := sent + [Register(requests[i])];
      i := i + 1;
    }
    assert sent + [] == sent;
    i := 0;
    while i < |requests|
      invariant 0 <= i <= |requests|
      invariant CheckReplies(cfg, |requests|, env.replies, 0) == CheckReplies(cfg, |requests|, env.replies, i)
    {
      var reply := env.replies(i);
      if reply.Replied? {
        if reply.version != cfg.feature { return sent, VersionError; }
        if reply.error { return sent, Failed; }
      }
      i := i + 1;
    }
  }

  /** `_process` on a process request: every way `apply` can end has its own branch. */
  method Process(cfg: Config, id: nat, header: Header, env: Env) returns (sent: seq<Sent>, end: End)
    ensures forall sigint :: (sent, end) == ProcessFuture(cfg, ProcessRequest(id, header), env, sigint)
    ensures forall status :: ProcessResponse(id, status) in sent <==>
      Answered(cfg, ProcessRequest(id, header), env, ProcessResponse(id, status))
  {
    sent, end := [], Continue;
    if env.ready {
      var handler := FindHandler(cfg.handlers, header);
      if handler.Some? {
        match env.apply(handler.value) {
          case Succeeds =>
            if env.sendOk { sent := [ProcessResponse(id, OK)]; }
          case Invalid =>
            if env.sendOk { sent := [ProcessResponse(id, INVALID_TRANSACTION)]; }
          case Internal =>
            if env.sendOk { sent := [ProcessResponse(id, INTERNAL_ERROR)]; }
          case ConnectionLost =>
          case Unauthorized =>
            if env.sendOk { sent := [ProcessResponse(id, INVALID_TRANSACTION)]; }
          case RuntimeFailure =>
            end := Failed;
          case TimesOut =>
            end := TimedOut;
          case OtherError =>
            end := Crash;
        }
      }
    }
    forall status
      ensures ProcessResponse(id, status) in sent <==>
        Answered(cfg, ProcessRequest(id, header), env, ProcessResponse(id, status))
    {
      AnswersExactly(cfg, ProcessRequest(id, header), env, false, ProcessResponse(id, status));
    }
  }

  /** `_process_future` once its future has a result. */
  method ProcessOne(cfg: Config, item: Item, env: Env, sigint: bool) returns (sent: seq<Sent>, end: End)
    ensures (sent, end) == ProcessFuture(cfg, item, env, sigint)
    ensures forall s: Sent :: s.ProcessResponse? || s.PingResponse? ==> (s in sent <==> Answered(cfg, item, env, s))
  {
    sent, end := [], Continue;
    match item {
      case Cancelled =>
      case Reconnected =>
        if !sigint { sent, end := SendRegistrations(cfg, env); }
      case Ping(id) =>
        if env.sendOk {
          sent := [PingResponse(id)];
        } else {
          end := Crash;
        }
      case ProcessRequest(id, header) =>
        sent, end := Process(cfg, id, header, env);
      case OtherMessage =>
    }
    forall s: Sent | s.ProcessResponse? || s.PingResponse?
      ensures s in sent <==> Answered(cfg, item, env, s)
    {
      AnswersExactly(cfg, item, env, sigint, s);
    }
  }

  // ----- how a call ends

  /** The first matching handler's apply ends like this. */
  ghost predicate HandlerEnds(cfg: Config, header: Header, env: Env, a: Applied)
  {
    exists h :: 0 <= h < |cfg.handlers| && FirstMatch(cfg.handlers, header, h) && env.apply(h) == a
  }

  /** A reply registration goes on after: none, because the connection was lost, or a good one. */
  predicate Fine(cfg: Config, reply: Reply)
  {
    reply == Lost || reply == Replied(cfg.feature, false)
  }

  /** The first reply that is not fine; with none, registration succeeds. */
  ghost predicate FirstBad(cfg: Config, env: Env, i: nat)
  {
    && i < |RegisterRequests(cfg)| && !Fine(cfg, env.replies(i))
    && forall j :: 0 <= j < i ==> Fine(cfg, env.replies(j))
  }

  lemma {:induction false} RepliesExactly(cfg: Config, n: nat, replies: nat -> Reply, i: nat)
    requires i <= n
    ensures CheckReplies(cfg, n, replies, i) == Continue <==> forall j :: i <= j < n ==> Fine(cfg, replies(j))
    ensures forall j :: i <= j < n && !Fine(cfg, replies(j)) && (forall k :: i <= k < j ==> Fine(cfg, replies(k))) ==>
      CheckReplies(cfg, n, replies, i) == if replies(j).version != cfg.feature then VersionError else Failed
    decreases n - i
  {
    if i < n { RepliesExactly(cfg, n, replies, i + 1); }
  }

  lemma {:induction false} EarliestBad(cfg: Config, env: Env, j: nat) returns (i: nat)
    requires j < |RegisterRequests(cfg)| && !Fine(cfg, env.replies(j))
    ensures FirstBad(cfg, env, i)
    decreases j
  {
    if k :| 0 <= k < j && !Fine(cfg, env.replies(k)) {
      i := EarliestBad(cfg, env, k);
    } else {
      i := j;
    }
  }

  /** How registering ends: at the first send that finds the connection gone, by its first bad reply, or well. */
  lemma {:induction false} RegisterEnds(cfg: Config, env: Env)
    ensures var end := RegisterAll(cfg, env).1; var n := |RegisterRequests(cfg)|;
      && (end == Crash <==> exists j :: 0 <= j < n && !env.sends(j))
      && (forall j :: 0 <= j < n && !env.sends(j) && (forall k :: 0 <= k < j ==> env.sends(k)) ==>
            RegisterAll(cfg, env).0 == AsSent(RegisterRequests(cfg)[..j]))
      && (end == Continue <==> (forall j :: 0 <= j < n ==> env.sends(j)) && forall i :: !FirstBad(cfg, env, i))
      && (end != Crash ==> forall i :: FirstBad(cfg, env, i) ==>
            end == if env.replies(i).version != cfg.feature then VersionError else Failed)
  {
    var n := |RegisterRequests(cfg)|;
    SendAllCrashes(RegisterRequests(cfg), env.sends, 0);
    SendAllSends(RegisterRequests(cfg), env.sends, 0);
    RepliesNeverCrash(cfg, n, env.replies, 0);
    RepliesExactly(cfg, n, env.replies, 0);
    if j :| 0 <= j < n && !Fine(cfg, env.replies(j)) {
      var i := EarliestBad(cfg, env, j);
    }
  }

  /** The call registers, and the registration ends like this. */
  ghost predicate RegistrationEnds(cfg: Config, item: Item, env: Env, sigint: bool, end: End)
  {
    item.Reconnected? && !sigint && RegisterAll(cfg, env).1 == end
  }

  ghost predicate RequestEnds(cfg: Config, item: Item, env: Env, a: Applied)
  {
    item.ProcessRequest? && env.ready && HandlerEnds(cfg, item.header, env, a)
  }

  /**
   Exactly how a call ends.  An unknown exception comes from a ping answered while disconnected, from a registration
   request whose send finds the connection gone, or from a handler; losing the connection anywhere else is handled.
   */
  lemma {:induction false} EndsExactly(cfg: Config, item: Item, env: Env, sigint: bool)
    ensures var end := ProcessFuture(cfg, item, env, sigint).1;
      && (end == Crash <==>
            || (item.Ping? && !env.sendOk)
            || (item.Reconnected? && !sigint && exists j :: 0 <= j < |RegisterRequests(cfg)| && !env.sends(j))
            || RequestEnds(cfg, item, env, OtherError))
      && (end == TimedOut <==> RequestEnds(cfg, item, env, TimesOut))
      && (end == Failed <==>
            RegistrationEnds(cfg, item, env, sigint, Failed) || RequestEnds(cfg, item, env, RuntimeFailure))
      && (end == VersionError <==> RegistrationEnds(cfg, item, env, sigint, VersionError))
  {
    match item
    case Reconnected =>
      RegisterEnds(cfg, env);
    case ProcessRequest(id, header) =>
      var f := FindHandler(cfg.handlers, header);
      if f.Some? {
        assert FirstMatch(cfg.handlers, header, f.value);
        assert forall h :: 0 <= h < |cfg.handlers| && FirstMatch(cfg.handlers, header, h) ==> h == f.value;
      }
    case _ =>
  }
}
