/**
 The messaging protocol as a state machine.

 One event is one atomic step: a caller's thread tests the ready event, registers a future, posts a request or
 takes a message; the background loop receives a message, sees a disconnect or connects again.  An event that is
 not enabled leaves the state alone, so every list of events is an interleaving.
 */
module Protocol {
  import opened Wrappers

  type Id = nat

  datatype Message = Message(mtype: nat, id: Id, content: string)

  /** What a future holds: nothing, a FutureError, or a FutureResult. */
  datatype Outcome = Unset | Errored | Resolved(mtype: nat, content: string)

  /** What the receive queue holds: the reconnect event or a message. */
  datatype Item = Reconnect | Inbound(msg: Message)

  /** History: a message received, and whether it resolved a future. */
  datatype Arrival = Arrival(msg: Message, response: bool)

  datatype State = State(
    ready: bool,
    recv: Option<seq<Item>>,
    send: Option<seq<Message>>,
    connections: nat,
    futures: map<Id, Outcome>,  // every future ever registered, as its holder sees it
    open: set<Id>,              // those still in the collection
    passed: nat,                // callers that found the event set and have not registered their future yet
    unposted: set<Message>,     // requests registered and not yet posted
    posted: set<Id>,            // requests that reached a send queue
    written: seq<Message>,      // messages that reached the latest connection's send queue
    wire: seq<Message>,         // those of them handed to the socket
    past: seq<Arrival>,         // arrivals on earlier connections
    arrivals: seq<Arrival>,     // arrivals on the latest connection
    taken: seq<Item>,           // items taken on the latest connection
    recent: set<Id>)            // futures registered since the last disconnect

  datatype Event = Check | Put(msg: Message) | Post(msg: Message) | SendBack(msg: Message)
                 | Transmit | Receive(msg: Message) | Take | Disconnect | Connect

  /** The ready event is set before the first connection is made. */
  const INITIAL := State(true, None, None, 0, map[], {}, 0, {}, {}, [], [], [], [], [], {})

  predicate Connected(s: State)
  {
    s.recv.Some? && s.send.Some?
  }

  function Step(s: State, e: Event): State
  {
    match e
    case Check => if s.ready then s.(passed := s.passed + 1) else s
    case Put(msg) =>
      if s.passed == 0 || msg.id in s.futures then s
      else s.(passed := s.passed - 1, futures := s.futures[msg.id := Unset], open := s.open + {msg.id},
              unposted := s.unposted + {msg}, recent := s.recent + {msg.id})
    case Post(msg) =>
      if msg !in s.unposted || (s.ready && s.send.None?) then s
      else if !s.ready then s.(unposted := s.unposted - {msg})
      else s.(unposted := s.unposted - {msg}, send := Some(s.send.value + [msg]), posted := s.posted + {msg.id},
              written := s.written + [msg])
    case SendBack(msg) =>
      if !s.ready || s.send.None? then s else s.(send := Some(s.send.value + [msg]), written := s.written + [msg])
    case Transmit =>
      if !s.ready || s.send.None? || s.send.value == [] then s
      else s.(send := Some(s.send.value[1..]), wire := s.wire + [s.send.value[0]])
    case Receive(msg) =>
      if !s.ready || !Connected(s) then s
      else if msg.id in s.open then
        s.(futures := s.futures[msg.id := Resolved(msg.mtype, msg.content)], open := s.open - {msg.id},
           arrivals := s.arrivals + [Arrival(msg, true)])
      else
        s.(recv := Some(s.recv.value + [Inbound(msg)]), arrivals := s.arrivals + [Arrival(msg, false)])
    case Take =>
      if s.recv.None? || s.recv.value == [] then s
      else s.(recv := Some(s.recv.value[1..]), taken := s.taken + [s.recv.value[0]])
    case Disconnect =>
      if !Connected(s) then s
      else s.(ready := false, recv := None, send := None, recent := {},
              futures := map id | id in s.futures :: if id in s.open then Errored else s.futures[id])
    case Connect =>
      if Connected(s) then s
      else s.(ready := true, connections := s.connections + 1, send := Some([]),
              recv := Some(if s.connections == 0 then [] else [Reconnect]),
              past := s.past + s.arrivals, arrivals := [], taken := [], written := [], wire := [])
  }

  function Run(s: State, es: seq<Event>): State
    decreases |es|
  {
    if es == [] then s else Run(Step(s, es[0]), es[1..])
  }

  // ----- the invariant

  /** The items an arrival list puts on the receive queue. */
  function Queued(arrivals: seq<Arrival>): seq<Item>
  {
    if arrivals == [] then []
    else
      var last := |arrivals| - 1;
      Queued(arrivals[..last]) + if arrivals[last].response then [] else [Inbound(arrivals[last].msg)]
  }

  function Greeting(connections: nat): seq<Item>
  {
    if connections <= 1 then [] else [Reconnect]
  }

  /** Futures in the collection hold no response; futures out of it hold one. */
  ghost predicate CollectionOk(s: State)
  {
    && s.open <= s.futures.Keys
    && forall id :: id in s.futures ==> (id in s.open <==> !s.futures[id].Resolved?)
  }

  function History(s: State): seq<Arrival>
  {
    s.past + s.arrivals
  }

  ghost predicate Answers(s: State, a: Arrival)
  {
    a.msg.id in s.futures && s.futures[a.msg.id] == Resolved(a.msg.mtype, a.msg.content)
  }

  /** Responses and resolved futures correspond one to one, and agree on the content. */
  ghost predicate ResponsesOk(s: State)
  {
    var h := History(s);
    && (forall i :: 0 <= i < |h| && h[i].response ==> Answers(s, h[i]))
    && (forall i, j :: 0 <= i < j < |h| && h[i].response && h[j].response ==> h[i].msg.id != h[j].msg.id)
    && (forall id :: id in s.futures && s.futures[id].Resolved? ==>
          exists i :: 0 <= i < |h| && h[i].response && h[i].msg.id == id)
  }

  /** On the latest connection, what was taken and what still waits is the greeting and the other arrivals, in order. */
  ghost predicate QueueOk(s: State)
  {
    && (s.recv.Some? ==> s.taken + s.recv.value == Greeting(s.connections) + Queued(s.arrivals))
    && (s.recv.None? ==> s.taken <= Greeting(s.connections) + Queued(s.arrivals))
    && (s.recv.Some? <==> s.send.Some?)
    && (s.connections == 0 ==> s.recv.None? && s.taken == [] && s.arrivals == [])
  }

  /** The unset futures are exactly those registered since the last disconnect and not yet answered. */
  ghost predicate UnsetIsRecent(s: State)
  {
    && s.recent <= s.futures.Keys
    && forall id :: id in s.futures ==> (s.futures[id] == Unset <==> id in s.recent && id in s.open)
  }

  /** On the latest connection messages leave in the order written; a request is written only once, ever. */
  ghost predicate SendOk(s: State)
  {
    && (s.send.Some? ==> s.wire + s.send.value == s.written)
    && (s.send.None? ==> s.wire <= s.written)
    && s.posted <= s.futures.Keys
    && (forall m :: m in s.unposted ==> m.id in s.futures && m.id !in s.posted)
    && (forall m, n :: m in s.unposted && n in s.unposted && m.id == n.id ==> m == n)
  }

  ghost predicate Inv(s: State)
  {
    CollectionOk(s) && ResponsesOk(s) && QueueOk(s) && UnsetIsRecent(s) && SendOk(s)
  }

  lemma {:induction false} InitialInv()
    ensures Inv(INITIAL)
  {
  }

  lemma {:induction false} ReceiveKeepsResponses(s: State, msg: Message)
    requires CollectionOk(s) && ResponsesOk(s)
    ensures ResponsesOk(Step(s, Receive(msg)))
  {
    var t := Step(s, Receive(msg));
    var h, g := History(s), History(t);
    if t != s {
      var n := |h|;
      assert g == h + [Arrival(msg, msg.id in s.open)];
      forall i | 0 <= i < |g| && g[i].response
        ensures Answers(t, g[i]) && (i < n && msg.id in s.open ==> g[i].msg.id != msg.id)
      {
        if i < n { assert h[i].response && Answers(s, h[i]); }
      }
      forall id | id in t.futures && t.futures[id].Resolved?
        ensures exists i :: 0 <= i < |g| && g[i].response && g[i].msg.id == id
      {
        if id == msg.id && msg.id in s.open {
          assert g[n].response && g[n].msg.id == id;
        } else {
          var i :| 0 <= i < n && h[i].response && h[i].msg.id == id;
          assert g[i].response && g[i].msg.id == id;
        }
      }
    }
  }

  lemma {:induction false} ReceiveKeepsQueue(s: State, msg: Message)
    requires QueueOk(s)
    ensures QueueOk(Step(s, Receive(msg)))
  {
    var t := Step(s, Receive(msg));
    if t != s {
      assert t.arrivals[..|s.arrivals|] == s.arrivals;
      if msg.id !in s.open {
        var item := [Inbound(msg)];
        assert s.taken + (s.recv.value + item) == s.taken + s.recv.value + item;
        var greeting, queued := Greeting(s.connections), Queued(s.arrivals);
        assert greeting + (queued + item) == greeting + queued + item;
      } else {
        assert Queued(t.arrivals) == Queued(s.arrivals);
      }
    }
  }

  lemma {:induction false} SameHistory(s: State, t: State)
    requires ResponsesOk(s) && History(t) == History(s)
    requires forall id :: id in s.futures && s.futures[id].Resolved? ==>
      id in t.futures && t.futures[id] == s.futures[id]
    requires forall id :: id in t.futures && t.futures[id].Resolved? ==> id in s.futures && s.futures[id].Resolved?
    ensures ResponsesOk(t)
  {
    forall i | 0 <= i < |History(t)| && History(t)[i].response
      ensures Answers(t, History(t)[i])
    {
      assert Answers(s, History(s)[i]);
    }
  }

  lemma {:induction false} StepKeepsCollection(s: State, e: Event)
    requires CollectionOk(s) && UnsetIsRecent(s)
    ensures CollectionOk(Step(s, e)) && UnsetIsRecent(Step(s, e))
  {
  }

  lemma {:induction false} StepKeepsResponses(s: State, e: Event)
    requires CollectionOk(s) && ResponsesOk(s)
    ensures ResponsesOk(Step(s, e))
  {
    if e.Receive? {
      ReceiveKeepsResponses(s, e.msg);
    } else {
      assert History(Step(s, e)) == History(s);
      SameHistory(s, Step(s, e));
    }
  }

  lemma {:induction false} StepKeepsQueue(s: State, e: Event)
    requires QueueOk(s)
    ensures QueueOk(Step(s, e))
  {
    match e
    case Receive(msg) => ReceiveKeepsQueue(s, msg);
    case Take =>
      if s.recv.Some? && s.recv.value != [] {
        var q := s.recv.value;
        assert s.taken + q == s.taken + [q[0]] + q[1..];
      }
    case Disconnect =>
      if Connected(s) { assert s.taken <= s.taken + s.recv.value; }
    case _ =>
  }

  lemma {:induction false} StepKeepsSend(s: State, e: Event)
    requires SendOk(s)
    ensures SendOk(Step(s, e))
  {
    match e
    case Post(msg) =>
      if s.send.Some? { assert s.wire + (s.send.value + [msg]) == s.wire + s.send.value + [msg]; }
    case SendBack(msg) =>
      if s.send.Some? { assert s.wire + (s.send.value + [msg]) == s.wire + s.send.value + [msg]; }
    case Transmit =>
      if s.send.Some? && s.send.value != [] {
        var q := s.send.value;
        assert s.wire + q == s.wire + [q[0]] + q[1..];
      }
    case Disconnect =>
      if s.send.Some? { assert s.wire <= s.wire + s.send.value; }
    case _ =>
  }

  /** Every step keeps the invariant. */
  lemma {:induction false} StepInv(s: State, e: Event)
    requires Inv(s)
    ensures Inv(Step(s, e))
  {
    StepKeepsCollection(s, e);
    StepKeepsResponses(s, e);
    StepKeepsQueue(s, e);
    StepKeepsSend(s, e);
  }

  lemma {:induction false} RunInv(s: State, es: seq<Event>)
    requires Inv(s)
    ensures Inv(Run(s, es))
    decreases |es|
  {
    if es != [] {
      StepInv(s, es[0]);
      RunInv(Step(s, es[0]), es[1..]);
    }
  }

  // ----- main results, over all interleavings

  function Rank(o: Outcome): nat
  {
    match o case Unset => 0 case Errored => 1 case Resolved(_, _) => 2
  }

  /** What a holder of a future can see over time: it never loses its value, and only gains. */
  ghost predicate Rises(s: State, t: State)
  {
    forall id :: id in s.futures ==>
      id in t.futures && (t.futures[id] == s.futures[id] || Rank(t.futures[id]) > Rank(s.futures[id]))
  }

  lemma {:induction false} StepRises(s: State, e: Event)
    requires Inv(s)
    ensures Rises(s, Step(s, e))
  {
  }

  lemma {:induction false} OutcomesOnlyRise(s: State, es: seq<Event>)
    requires Inv(s)
    ensures Rises(s, Run(s, es))
    decreases |es|
  {
    if es != [] {
      StepRises(s, es[0]);
      StepInv(s, es[0]);
      OutcomesOnlyRise(Step(s, es[0]), es[1..]);
    }
  }

  /** A future that has received a response never changes again, and the response carried the future's own id. */
  lemma {:induction false} ResponseIsFinal(es: seq<Event>, more: seq<Event>, id: Id)
    requires var s := Run(INITIAL, es); id in s.futures && s.futures[id].Resolved?
    ensures var s, t := Run(INITIAL, es), Run(Run(INITIAL, es), more);
      && id in t.futures && t.futures[id] == s.futures[id]
      && exists a :: a in History(s) && a.response && a.msg.id == id
                     && s.futures[id] == Resolved(a.msg.mtype, a.msg.content)
  {
    InitialInv();
    RunInv(INITIAL, es);
    var s := Run(INITIAL, es);
    OutcomesOnlyRise(s, more);
    var h := History(s);
    var i :| 0 <= i < |h| && h[i].response && h[i].msg.id == id;
    assert Answers(s, h[i]) && h[i] in h;
  }

  lemma {:induction false} DisconnectFails(s: State)
    requires CollectionOk(s) && Connected(s)
    ensures var t := Step(s, Disconnect);
      !t.ready && forall id :: id in t.open ==> id in t.futures && t.futures[id] == Errored
  {
  }

  /** Right after a disconnect no future in the collection is unset: every waiting caller is released. */
  lemma {:induction false} DisconnectReleasesAll(es: seq<Event>)
    requires Connected(Run(INITIAL, es))
    ensures var t := Step(Run(INITIAL, es), Disconnect);
      !t.ready && forall id :: id in t.open ==> id in t.futures && t.futures[id] == Errored
  {
    InitialInv();
    RunInv(INITIAL, es);
    DisconnectFails(Run(INITIAL, es));
  }

  function ResponseIds(h: seq<Arrival>): seq<Id>
  {
    if h == [] then []
    else ResponseIds(h[..|h| - 1]) + if h[|h| - 1].response then [h[|h| - 1].msg.id] else []
  }

  ghost predicate Responded(h: seq<Arrival>, id: Id)
  {
    exists i :: 0 <= i < |h| && h[i].response && h[i].msg.id == id
  }

  lemma {:induction false} ResponseIdsMembers(h: seq<Arrival>, id: Id)
    ensures id in ResponseIds(h) <==> Responded(h, id)
    decreases |h|
  {
    if h != [] {
      var last := |h| - 1;
      var front := h[..last];
      ResponseIdsMembers(front, id);
      assert h == front + [h[last]];
      assert Responded(h, id) <==> Responded(front, id) || (h[last].response && h[last].msg.id == id) by {
        if i :| 0 <= i < |front| && front[i].response && front[i].msg.id == id { assert h[i] == front[i]; }
        if i :| 0 <= i < |h| && h[i].response && h[i].msg.id == id { assert i < last ==> h[i] == front[i]; }
      }
    }
  }

  lemma {:induction false} AddNew(ids: seq<Id>, id: Id)
    requires id !in ids && multiset(ids) == multiset(set x | x in ids)
    ensures multiset(ids + [id]) == multiset(set x | x in ids + [id])
  {
    assert (set x | x in ids + [id]) == (set x | x in ids) + {id};
  }

  lemma {:induction false} ResponseIdsDistinct(h: seq<Arrival>)
    requires forall i, j :: 0 <= i < j < |h| && h[i].response && h[j].response ==> h[i].msg.id != h[j].msg.id
    ensures multiset(ResponseIds(h)) == multiset(set id | id in ResponseIds(h))
    decreases |h|
  {
    if h != [] {
      var last := |h| - 1;
      var front := h[..last];
      ResponseIdsDistinct(front);
      if h[last].response {
        ResponseIdsMembers(front, h[last].msg.id);
        AddNew(ResponseIds(front), h[last].msg.id);
      } else {
        assert ResponseIds(h) == ResponseIds(front);
      }
    }
  }

  /**
   Each message received on any connection resolves exactly one future or is queued exactly once: the responses'
   ids are the resolved futures, none twice; and on the latest connection everything else was queued in order,
   behind the reconnect event unless it is the first connection.
   */
  lemma {:induction false} EachArrivalOnce(es: seq<Event>)
    ensures var s := Run(INITIAL, es);
      && multiset(ResponseIds(History(s))) == multiset(s.futures.Keys - s.open)
      && (s.recv.Some? ==> s.taken + s.recv.value == Greeting(s.connections) + Queued(s.arrivals))
      && (s.recv.None? ==> s.taken <= Greeting(s.connections) + Queued(s.arrivals))
  {
    InitialInv();
    RunInv(INITIAL, es);
    var s := Run(INITIAL, es);
    var ids := ResponseIds(History(s));
    ResponseIdsDistinct(History(s));
    forall id
      ensures id in ids <==> id in s.futures.Keys - s.open
    {
      ResponseIdsMembers(History(s), id);
      if i :| 0 <= i < |History(s)| && History(s)[i].response && History(s)[i].msg.id == id {
        assert Answers(s, History(s)[i]);
      }
    }
    assert (set id | id in ids) == s.futures.Keys - s.open;
  }

  /** Messages leave a connection in the order in which they were written to it; only a disconnect loses any. */
  lemma {:induction false} SentInOrder(es: seq<Event>)
    ensures var s := Run(INITIAL, es);
      && (s.send.Some? ==> s.wire + s.send.value == s.written)
      && (s.send.None? ==> s.wire <= s.written)
  {
    InitialInv();
    RunInv(INITIAL, es);
  }

  /** The step writes the request with this id. */
  ghost predicate WritesRequest(s: State, e: Event, id: Id)
  {
    e.Post? && e.msg.id == id && Step(s, e).written != s.written
  }

  /** How often a request is written in a run. */
  ghost function Writes(s: State, es: seq<Event>, id: Id): nat
    decreases |es|
  {
    if es == [] then 0
    else (if WritesRequest(s, es[0], id) then 1 else 0) + Writes(Step(s, es[0]), es[1..], id)
  }

  lemma {:induction false} WritePosts(s: State, e: Event, id: Id)
    requires SendOk(s)
    ensures WritesRequest(s, e, id) ==> id !in s.posted && id in Step(s, e).posted
    ensures id in s.posted ==> id in Step(s, e).posted
  {
  }

  /** A request is written at most once, over all connections together. */
  lemma {:induction false} WrittenAtMostOnce(s: State, es: seq<Event>, id: Id)
    requires Inv(s)
    ensures Writes(s, es, id) <= if id in s.posted then 0 else 1
    decreases |es|
  {
    if es != [] {
      StepInv(s, es[0]);
      WritePosts(s, es[0], id);
      WrittenAtMostOnce(Step(s, es[0]), es[1..], id);
    }
  }

  /**
   When exactly a future changes: while it is in the collection, by its own response, also after it was given a
   FutureError; and from unset to FutureError at a disconnect.
   */
  lemma {:induction false} FutureChangesExactly(s: State, e: Event, id: Id)
    requires Inv(s) && id in s.futures
    ensures Step(s, e).futures[id] != s.futures[id] <==>
            && id in s.open && Connected(s)
            && ((e.Receive? && s.ready && e.msg.id == id) || (e.Disconnect? && s.futures[id] == Unset))
  {
    if e.Put? && e.msg.id == id { assert Step(s, e) == s; }
  }

  // ----- requests that are lost

  /** The request was registered, but is neither queued nor still to be posted: it will never be sent. */
  ghost predicate Lost(s: State, id: Id)
  {
    id in s.futures && id !in s.posted && forall m :: m in s.unposted ==> m.id != id
  }

  /** The step posts this pending request while the event is clear. */
  ghost predicate Drops(s: State, e: Event, id: Id)
  {
    e.Post? && e.msg.id == id && e.msg in s.unposted && !s.ready
  }

  ghost predicate DroppedAt(s: State, es: seq<Event>, id: Id)
    decreases |es|
  {
    es != [] && (Drops(s, es[0], id) || DroppedAt(Step(s, es[0]), es[1..], id))
  }

  lemma {:induction false} StepLoses(s: State, e: Event, id: Id)
    requires CollectionOk(s) && SendOk(s)
    ensures Lost(Step(s, e), id) <==> Lost(s, id) || Drops(s, e, id)
  {
    var t := Step(s, e);
    if e.Put? && t != s {
      assert e.msg in t.unposted;
    } else if Drops(s, e, id) {
      assert forall m :: m in s.unposted && m.id == id ==> m == e.msg;
    }
  }

  /**
   A request fails to reach any send queue exactly when it was posted while the event was clear: at the test in
   `put_message`.  (Requests in a queue that a disconnect drops are a different matter: their holders get an error.)
   */
  lemma {:induction false} LostExactly(s: State, es: seq<Event>, id: Id)
    requires Inv(s)
    ensures Lost(Run(s, es), id) <==> Lost(s, id) || DroppedAt(s, es, id)
    decreases |es|
  {
    if es != [] {
      StepLoses(s, es[0], id);
      StepInv(s, es[0]);
      LostExactly(Step(s, es[0]), es[1..], id);
    }
  }

  /** The connection is up, and the holder waits for the answer to a request that will never be sent. */
  ghost predicate Hangs(s: State, id: Id)
  {
    s.ready && Connected(s) && id in s.futures && s.futures[id] == Unset && Lost(s, id)
  }

  lemma {:induction false} OpenIsUnanswered(t: State, id: Id)
    requires CollectionOk(t) && ResponsesOk(t) && id in t.futures
    ensures id in t.open <==> !Responded(History(t), id)
  {
    if i :| 0 <= i < |History(t)| && History(t)[i].response && History(t)[i].msg.id == id {
      assert Answers(t, History(t)[i]);
    }
  }

  /**
   Exactly when a holder hangs on a live connection: the future was registered since the last disconnect, its
   request was posted while the event was clear, and no message with its id came in nevertheless.
   */
  lemma {:induction false} HangsExactly(es: seq<Event>, id: Id)
    ensures var t := Run(INITIAL, es);
      Hangs(t, id) <==>
        && t.ready && Connected(t)
        && id in t.recent && DroppedAt(INITIAL, es, id) && !Responded(History(t), id)
  {
    InitialInv();
    RunInv(INITIAL, es);
    LostExactly(INITIAL, es, id);
    var t := Run(INITIAL, es);
    if id in t.futures {
      OpenIsUnanswered(t, id);
    }
  }

  lemma {:induction false} RunFirst(s: State, e: Event, es: seq<Event>)
    ensures Run(s, [e] + es) == Run(Step(s, e), es)
  {
    assert ([e] + es)[1..] == es;
  }

  lemma {:induction false} Stranded(s: State, m: Message)
    requires !s.ready && s.send == None && s.passed > 0 && m.id !in s.futures && m.id !in s.posted
    requires forall x :: x in s.unposted ==> x.id != m.id
    ensures Hangs(Run(Step(s, Put(m)), [Post(m), Connect]), m.id)
  {
    var s1 := Step(s, Put(m));
    var s2 := Step(s1, Post(m));
    assert s2 == s1.(unposted := s1.unposted - {m});
    RunFirst(s1, Post(m), [Connect]);
    RunFirst(s2, Connect, []);
  }

  /**
   It does happen, from any connected state: testing the event and registering the future are two steps, and a
   disconnect and a reconnect around the registration leave its holder hanging.
   */
  lemma {:induction false} StrandedSend(s: State, m: Message)
    requires Inv(s) && Connected(s) && s.ready && m.id !in s.futures
    ensures Hangs(Run(s, [Check, Disconnect, Put(m), Post(m), Connect]), m.id)
  {
    var s1 := Step(s, Check);
    var s2 := Step(s1, Disconnect);
    assert !s2.ready && s2.send == None && s2.passed > 0 && m.id !in s2.futures && m.id !in s2.posted;
    assert s2.unposted == s.unposted;
    Stranded(s2, m);
    RunFirst(s2, Put(m), [Post(m), Connect]);
    RunFirst(s1, Disconnect, [Put(m), Post(m), Connect]);
    RunFirst(s, Check, [Disconnect, Put(m), Post(m), Connect]);
  }

  // ----- what every list of events leads to, from the events alone

  /** The connection is up: of connects and disconnects the last was a connect. */
  ghost predicate Up(es: seq<Event>)
  {
    es != [] &&
    match es[|es| - 1]
    case Connect => true
    case Disconnect => false
    case _ => Up(es[..|es| - 1])
  }

  /** How many connections were made. */
  ghost function Connections(es: seq<Event>): nat
  {
    if es == [] then 0
    else
      var front, e := es[..|es| - 1], es[|es| - 1];
      Connections(front) + if e.Connect? && !Up(front) then 1 else 0
  }

  /** The event is set while the connection is up, and before the first one. */
  ghost predicate Ready(es: seq<Event>)
  {
    Up(es) || Connections(es) == 0
  }

  /** The ids registered: a future is registered by a caller that passed the test, for an id not used before. */
  ghost function Ids(es: seq<Event>): set<Id>
    decreases |es|, 0
  {
    if es == [] then {}
    else
      var front, e := es[..|es| - 1], es[|es| - 1];
      if e.Put? && Registers(front, e.msg) then Ids(front) + {e.msg.id} else Ids(front)
  }

  ghost predicate Registers(es: seq<Event>, msg: Message)
    decreases |es|, 1
  {
    Callers(es) > 0 && msg.id !in Ids(es)
  }

  /** How many callers passed the test of the event and have not registered their future yet. */
  ghost function Callers(es: seq<Event>): (n: nat)
    decreases |es|, 0
  {
    if es == [] then 0
    else
      var front, e := es[..|es| - 1], es[|es| - 1];
      if e.Check? && Ready(front) then Callers(front) + 1
      else if e.Put? && Registers(front, e.msg) then Callers(front) - 1
      else Callers(front)
  }

  /** The ids in the collection: registered, and no message with the id heard since. */
  ghost function Open(es: seq<Event>): set<Id>
  {
    if es == [] then {}
    else
      var front, e := es[..|es| - 1], es[|es| - 1];
      if e.Put? && Registers(front, e.msg) then Open(front) + {e.msg.id}
      else if e.Receive? && Up(front) then Open(front) - {e.msg.id}
      else Open(front)
  }

  /** The requests registered and not yet posted; a caller that finds the event set but no queue waits. */
  ghost function Pending(es: seq<Event>): set<Message>
  {
    if es == [] then {}
    else
      var front, e := es[..|es| - 1], es[|es| - 1];
      if e.Put? && Registers(front, e.msg) then Pending(front) + {e.msg}
      else if e.Post? && (Ready(front) ==> Up(front)) then Pending(front) - {e.msg}
      else Pending(front)
  }

  /** The messages heard: all that come in while the connection is up. */
  ghost function Heard(es: seq<Event>): seq<Message>
  {
    if es == [] then []
    else
      var front, e := es[..|es| - 1], es[|es| - 1];
      Heard(front) + if e.Receive? && Up(front) then [e.msg] else []
  }

  /** Everything put on the latest connection's receive queue: the greeting, then each message that answers nothing. */
  ghost function Inbox(es: seq<Event>): seq<Item>
  {
    if es == [] then []
    else
      var front, e := es[..|es| - 1], es[|es| - 1];
      if e.Connect? && !Up(front) then Greeting(Connections(es))
      else if e.Receive? && Up(front) && e.msg.id !in Open(front) then Inbox(front) + [Inbound(e.msg)]
      else Inbox(front)
  }

  /** How many of them were taken: each take gets one if there is one. */
  ghost function TakenSoFar(es: seq<Event>): (n: nat)
    ensures n <= |Inbox(es)|
  {
    if es == [] then 0
    else
      var front, e := es[..|es| - 1], es[|es| - 1];
      if e.Connect? && !Up(front) then 0
      else if e.Take? && Up(front) && TakenSoFar(front) < |Inbox(front)| then TakenSoFar(front) + 1
      else TakenSoFar(front)
  }

  /** Everything put on the send queue of the latest connection: pending requests as they are posted, and answers. */
  ghost function Outbox(es: seq<Event>): seq<Message>
  {
    if es == [] then []
    else
      var front, e := es[..|es| - 1], es[|es| - 1];
      if e.Connect? && !Up(front) then []
      else if (e.SendBack? || (e.Post? && e.msg in Pending(front))) && Up(front) then Outbox(front) + [e.msg]
      else Outbox(front)
  }

  /** How many of them went to the socket. */
  ghost function SentSoFar(es: seq<Event>): (n: nat)
    ensures n <= |Outbox(es)|
  {
    if es == [] then 0
    else
      var front, e := es[..|es| - 1], es[|es| - 1];
      if e.Connect? && !Up(front) then 0
      else if e.Transmit? && Up(front) && SentSoFar(front) < |Outbox(front)| then SentSoFar(front) + 1
      else SentSoFar(front)
  }

  lemma {:induction false} RunLast(s: State, es: seq<Event>)
    requires es != []
    ensures Run(s, es) == Step(Run(s, es[..|es| - 1]), es[|es| - 1])
    decreases |es|
  {
    var last := |es| - 1;
    if last > 0 {
      assert es[1..][..last - 1] == es[..last][1..];
      RunLast(Step(s, es[0]), es[1..]);
    } else {
      assert es[..0] == [] && es[1..] == [];
    }
  }

  ghost predicate LinkIs(s: State, es: seq<Event>)
  {
    && (s.recv.Some? <==> Up(es)) && (s.send.Some? <==> Up(es))
    && (s.ready <==> Ready(es)) && s.connections == Connections(es)
  }

  ghost predicate CallersAre(s: State, es: seq<Event>)
  {
    && s.passed == Callers(es) && s.futures.Keys == Ids(es)
    && s.open == Open(es) && s.unposted == Pending(es)
  }

  /** What waits on each queue is what was put there and not yet taken. */
  ghost predicate QueuesAre(s: State, es: seq<Event>)
  {
    Up(es) ==> s.recv == Some(Inbox(es)[TakenSoFar(es)..]) && s.send == Some(Outbox(es)[SentSoFar(es)..])
  }

  ghost function Messages(h: seq<Arrival>): (ms: seq<Message>)
    ensures |ms| == |h|
  {
    seq(|h|, i requires 0 <= i < |h| => h[i].msg)
  }

  lemma {:induction false} UpIsConnection(es: seq<Event>)
    requires Up(es)
    ensures Connections(es) > 0
    decreases |es|
  {
    var front := es[..|es| - 1];
    if Up(front) { UpIsConnection(front); }
  }

  lemma {:induction false} StepLink(s: State, es: seq<Event>, e: Event)
    requires LinkIs(s, es)
    ensures LinkIs(Step(s, e), es + [e])
  {
    assert (es + [e])[..|es|] == es;
    if Up(es) { UpIsConnection(es); }
  }

  lemma {:induction false} StepCallers(s: State, es: seq<Event>, e: Event)
    requires CollectionOk(s) && LinkIs(s, es) && CallersAre(s, es)
    ensures CallersAre(Step(s, e), es + [e])
  {
    assert (es + [e])[..|es|] == es;
    var t := Step(s, e);
    match e
    case Put(msg) => assert Registers(es, msg) ==> t.futures.Keys == s.futures.Keys + {msg.id};
    case Post(msg) =>
    case Receive(msg) =>
      assert msg.id in s.open ==> t.futures.Keys == s.futures.Keys;
      assert msg.id !in s.open ==> s.open - {msg.id} == s.open;
    case Disconnect => assert t.futures.Keys == s.futures.Keys;
    case _ =>
  }

  lemma {:induction false} StepInbox(s: State, es: seq<Event>, e: Event)
    requires LinkIs(s, es) && CallersAre(s, es) && QueuesAre(s, es)
    ensures Up(es + [e]) ==> Step(s, e).recv == Some(Inbox(es + [e])[TakenSoFar(es + [e])..])
  {
    var box, k := Inbox(es), TakenSoFar(es);
    assert (es + [e])[..|es|] == es;
    match e
    case Connect =>
      if !Up(es) {
        var greeting := Greeting(Connections(es) + 1);
        assert greeting[0..] == greeting;
      }
    case Receive(msg) => assert (box + [Inbound(msg)])[k..] == box[k..] + [Inbound(msg)];
    case Take => assert k < |box| ==> box[k..][1..] == box[k + 1..];
    case _ =>
  }

  lemma {:induction false} StepOutbox(s: State, es: seq<Event>, e: Event)
    requires LinkIs(s, es) && CallersAre(s, es) && QueuesAre(s, es)
    ensures Up(es + [e]) ==> Step(s, e).send == Some(Outbox(es + [e])[SentSoFar(es + [e])..])
  {
    var box, k := Outbox(es), SentSoFar(es);
    assert (es + [e])[..|es|] == es;
    match e
    case Post(msg) => assert (box + [msg])[k..] == box[k..] + [msg];
    case SendBack(msg) => assert (box + [msg])[k..] == box[k..] + [msg];
    case Transmit => assert k < |box| ==> box[k..][1..] == box[k + 1..];
    case _ =>
  }

  lemma {:induction false} StepHeard(s: State, es: seq<Event>, e: Event)
    requires LinkIs(s, es) && Messages(History(s)) == Heard(es)
    ensures Messages(History(Step(s, e))) == Heard(es + [e])
  {
    assert (es + [e])[..|es|] == es;
  }

  /**
   Every interleaving, from its events alone: whether the connection is up, who is registered and pending, what waits
   on either queue, and that the recorded arrivals are exactly the messages heard, in order.
   */
  lemma {:induction false} RunExactly(es: seq<Event>)
    ensures var s := Run(INITIAL, es);
      LinkIs(s, es) && CallersAre(s, es) && QueuesAre(s, es) && Messages(History(s)) == Heard(es)
    decreases |es|
  {
    if es != [] {
      var front, e := es[..|es| - 1], es[|es| - 1];
      var s := Run(INITIAL, front);
      RunExactly(front);
      InitialInv();
      RunInv(INITIAL, front);
      RunLast(INITIAL, es);
      assert es == front + [e];
      StepLink(s, front, e);
      StepCallers(s, front, e);
      StepInbox(s, front, e);
      StepOutbox(s, front, e);
      StepHeard(s, front, e);
    }
  }
}
