/**
 The dispatch loops: the main loop, the shutdown loop, and everything one run sends.

 Given are the items its futures resolve to in the order received, the circumstances of each call, and when an
 interrupt strikes.  Everything sent is recorded in order, tagged with the item whose future was being processed.
 */
module DispatchRuns {
  import opened Wrappers
  import opened Dispatch

  /** What a run is given; the calls of `_process_future` are numbered, envs(k) is the circumstances of call k. */
  datatype Feed = Feed(cfg: Config, items: seq<Item>, envs: nat -> Env)

  datatype Entry = Entry(index: nat, sent: Sent)

  ghost function Tag(index: nat, sent: seq<Sent>): (es: seq<Entry>)
    ensures |es| == |sent|
  {
    seq(|sent|, j requires 0 <= j < |sent| => Entry(index, sent[j]))
  }

  /** What actually goes out. */
  ghost function Wire(es: seq<Entry>): (sent: seq<Sent>)
    ensures |sent| == |es|
  {
    seq(|es|, j requires 0 <= j < |es| => es[j].sent)
  }

  lemma {:induction false} WireConcat(a: seq<Entry>, b: seq<Entry>)
    ensures Wire(a + b) == Wire(a) + Wire(b)
  {
  }

  lemma {:induction false} WireTag(a: seq<Entry>, index: nat, sent: seq<Sent>)
    ensures Wire(a + Tag(index, sent)) == Wire(a) + sent
  {
  }

  /** What call k sends if it is made on item i, and how it ends. */
  type Calls = (nat, nat) -> (seq<Sent>, End)

  ghost function CallsOf(w: Feed, sigint: bool): Calls
  {
    (i: nat, k: nat) =>
      if i < |w.items| then ProcessFuture(w.cfg, w.items[i], w.envs(k), sigint) else ([], Continue)
  }

  /** Items i to hi - 1 in order, until one ends the loop; calls are numbered from k.  Last, the item it stopped at. */
  ghost function Loop(call: Calls, i: nat, hi: nat, k: nat): (r: (seq<Entry>, End, nat))
    requires i <= hi
    ensures i <= r.2 <= hi && (if r.1 == Continue then r.2 == hi else r.2 < hi)
    decreases hi - i
  {
    if i == hi then ([], Continue, i)
    else
      var (sent, end) := call(i, k);
      if end != Continue then (Tag(i, sent), end, i)
      else
        var (rest, e, stop) := Loop(call, i + 1, hi, k + 1);
        (Tag(i, sent) + rest, e, stop)
  }

  // ----- the shutdown loop, turn by turn

  /** `fut` is None as long as nothing was received; `received` counts the futures handed out so far. */
  datatype Shut = Shut(fut: Option<nat>, received: nat, calls: nat, sent: seq<Entry>, ended: Option<End>)

  /**
   One turn: if there is a future, process it, and then receive the next; a future without an item times out.
   Without a future the turn does nothing at all.
   */
  ghost function Turn(w: Feed, s: Shut): Shut
  {
    if s.ended.Some? || s.fut.None? then s
    else if s.fut.value >= |w.items| then s.(ended := Some(TimedOut))
    else
      var (out, end) := CallsOf(w, true)(s.fut.value, s.calls);
      var t := s.(calls := s.calls + 1, sent := s.sent + Tag(s.fut.value, out));
      if end == Continue then t.(fut := Some(s.received), received := s.received + 1) else t.(ended := Some(end))
  }

  ghost function Turns(w: Feed, s: Shut, n: nat): Shut
    decreases n
  {
    if n == 0 then s else Turns(w, Turn(w, s), n - 1)
  }

  /** No number of turns leaves the loop. */
  ghost predicate NeverEnds(w: Feed, s: Shut)
  {
    forall n: nat :: Turns(w, s, n).ended.None?
  }

  /** A loop without a future, or that has ended, never changes again: nothing is sent and nothing received. */
  lemma {:induction false} TurnsStay(w: Feed, s: Shut, n: nat)
    requires s.ended.Some? || s.fut.None?
    ensures Turns(w, s, n) == s
    decreases n
  {
    if n > 0 { TurnsStay(w, s, n - 1); }
  }

  ghost predicate InStep(s: Shut)
  {
    s.fut.Some? ==> s.received == s.fut.value + 1
  }

  /** How the shutdown loop ends: by the first call that does not continue, or by waiting in vain for an item. */
  ghost function ShutdownEnd(end: End): End
  {
    if end == Continue then TimedOut else end
  }

  /** A turn that ends the loop, and one that does not, against the loop over the items left. */
  lemma {:induction false} TurnIsFirst(w: Feed, s: Shut)
    requires s.ended.None? && InStep(s) && s.fut.Some? && s.fut.value <= |w.items|
    ensures var i, t := s.fut.value, Turn(w, s); var (es, end, _) := Loop(CallsOf(w, true), i, |w.items|, s.calls);
      if t.ended.Some? then t.ended == Some(ShutdownEnd(end)) && t.sent == s.sent + es
      else
        && i < |w.items| && InStep(t) && t.fut == Some(i + 1)
        && Loop(CallsOf(w, true), i + 1, |w.items|, t.calls).1 == end
        && t.sent + Loop(CallsOf(w, true), i + 1, |w.items|, t.calls).0 == s.sent + es
  {
    var i := s.fut.value;
    if i == |w.items| {
      assert s.sent + [] == s.sent;
    } else {
      var (out, end) := CallsOf(w, true)(i, s.calls);
      if end == Continue {
        var rest := Loop(CallsOf(w, true), i + 1, |w.items|, s.calls + 1).0;
        assert s.sent + (Tag(i, out) + rest) == (s.sent + Tag(i, out)) + rest;
      }
    }
  }

  /** The turns from a future on send what the loop over the items left sends, and then end. */
  lemma {:induction false} TurnsAreLoop(w: Feed, s: Shut) returns (n: nat)
    requires s.ended.None? && InStep(s) && s.fut.Some? && s.fut.value <= |w.items|
    ensures var (es, end, stop) := Loop(CallsOf(w, true), s.fut.value, |w.items|, s.calls);
      var t := Turns(w, s, n);
      t.ended == Some(ShutdownEnd(end)) && t.sent == s.sent + es
    decreases |w.items| - s.fut.value
  {
    var t := Turn(w, s);
    TurnIsFirst(w, s);
    if t.ended.Some? {
      n := 1;
      assert Turns(w, t, 0) == t;
    } else {
      var m := TurnsAreLoop(w, t);
      n := m + 1;
      assert Turns(w, s, n) == Turns(w, t, m);
    }
  }

  /** The loop spins exactly when it starts without a future. */
  lemma {:induction false} NeverEndsExactly(w: Feed, s: Shut)
    requires InStep(s) && (s.fut.Some? ==> s.fut.value <= |w.items|)
    ensures NeverEnds(w, s) <==> s.ended.None? && s.fut.None?
  {
    if s.ended.Some? {
      assert Turns(w, s, 0) == s;
    } else if s.fut.None? {
      forall n: nat
        ensures Turns(w, s, n).ended.None?
      {
        TurnsStay(w, s, n);
      }
    } else {
      var n := TurnsAreLoop(w, s);
    }
  }

  /** How unregistering goes: whether the request can be sent, and whether its reply times out. */
  datatype Quit = Quit(sendOk: bool, timesOut: bool)

  /** The shutdown loop as it starts, after unregistering, with the future last received if there is one. */
  ghost function Opening(fut: Option<nat>, calls: nat, quit: Quit): (s: Shut)
    ensures InStep(s)
  {
    Shut(fut,
         if fut.Some? then fut.value + 1 else 0,
         calls,
         if quit.sendOk then [Entry(if fut.Some? then fut.value else 0, Unregister)] else [],
         if !quit.sendOk then Some(Crash) else if quit.timesOut then Some(TimedOut) else None)
  }

  /** One turn of the shutdown loop. */
  method ShutdownTurn(w: Feed, fut: nat, received: nat, calls: nat, ghost before: seq<Entry>)
    returns (out: seq<Sent>, fut': nat, received': nat, calls': nat, ended: Option<End>)
    ensures Turn(w, Shut(Some(fut), received, calls, before, None))
         == Shut(Some(fut'), received', calls', before + Tag(fut, out), ended)
  {
    out, fut', received', calls', ended := [], fut, received, calls, None;
    assert before + [] == before;
    if fut >= |w.items| {
      ended := Some(TimedOut);
    } else {
      var end;
      out, end := ProcessOne(w.cfg, w.items[fut], w.envs(calls), true);
      calls' := calls + 1;
      if end == Continue {
        fut', received' := received, received + 1;
      } else {
        ended := Some(end);
      }
    }
  }

  /** How `start` is left: it waits for more, returns normally, stops after an error, raises, or spins. */
  datatype Exit = Waiting | Quits | Stops | Raises | Spins

  function ShutdownExit(end: End): Exit
  {
    if end == TimedOut then Quits else Raises
  }

  lemma {:induction false} TurnsMore(w: Feed, s: Shut, n: nat)
    ensures Turns(w, s, n + 1) == Turn(w, Turns(w, s, n))
    decreases n
  {
    if n > 0 { TurnsMore(w, Turn(w, s), n - 1); }
  }

  /** Unregister, then the shutdown loop, given the future last received if there is one. */
  method RunShutdown(w: Feed, fut: Option<nat>, calls: nat, quit: Quit)
    returns (sent: seq<Sent>, exit: Exit, ghost n: nat)
    requires fut.Some? ==> fut.value <= |w.items|
    ensures var s := Turns(w, Opening(fut, calls, quit), n);
      && sent == Wire(s.sent)
      && (exit != Spins ==> s.ended.Some? && exit == ShutdownExit(s.ended.value))
    ensures exit == Spins <==> NeverEnds(w, Opening(fut, calls, quit))
  {
    ghost var first := Opening(fut, calls, quit);
    NeverEndsExactly(w, first);
    n := 0;
    if !quit.sendOk { return [], Raises, 0; }
    sent := [Unregister];
    if quit.timesOut { return sent, Quits, 0; }
    if fut.None? { return sent, Spins, 0; }
    var f, received, k, ended := fut.value, fut.value + 1, calls, None;
    ghost var entries := first.sent;
    while ended.None?
      invariant received == f + 1 && f <= |w.items|
      invariant sent == Wire(entries)
      invariant Turns(w, first, n) == Shut(Some(f), received, k, entries, ended)
      decreases |w.items| - f, ended.None?
    {
      var out, next;
      ghost var turned := f;
      TurnsMore(w, first, n);
      out, next, received, k, ended := ShutdownTurn(w, f, received, k, entries);
      WireTag(entries, turned, out);
      sent, f, n := sent + out, next, n + 1;
      entries := entries + Tag(turned, out);
    }
    exit := ShutdownExit(ended.value);
  }

  // ----- whole runs

  /** When KeyboardInterrupt strikes: never, waiting for item m, or between processing item m and the next receive. */
  datatype Interrupt = Never | Before(m: nat) | After(m: nat)

  /** The interrupt can strike in a run with n items; the last future may be waiting for an item that never comes. */
  predicate Strikes(interrupt: Interrupt, n: nat)
  {
    match interrupt
    case Never => false
    case Before(m) => m <= n
    case After(m) => m < n
  }

  function Limit(interrupt: Interrupt, n: nat): (hi: nat)
    ensures hi <= n
  {
    match interrupt
    case Never => n
    case Before(m) => if m < n then m else n
    case After(m) => if m < n then m + 1 else n
  }

  /** The main loop of a run. */
  ghost function MainLoop(w: Feed, interrupt: Interrupt): (r: (seq<Entry>, End, nat))
    ensures r.2 <= Limit(interrupt, |w.items|)
    ensures if r.1 == Continue then r.2 == Limit(interrupt, |w.items|) else r.2 < Limit(interrupt, |w.items|)
  {
    Loop(CallsOf(w, false), 0, Limit(interrupt, |w.items|), 0)
  }

  /** The item the shutdown loop starts with: after an interrupt it is the future last received, processed or not. */
  ghost function ShutdownFrom(w: Feed, interrupt: Interrupt): (r: Option<nat>)
    ensures r.Some? ==> r.value <= |w.items|
  {
    var (_, end, stop) := MainLoop(w, interrupt);
    if end == VersionError then Some(stop)
    else if end == Continue && Strikes(interrupt, |w.items|) then Some(interrupt.m)
    else None
  }

  /** Shutting down with the future of item j: unregister, then process what is left. */
  ghost function Shutdown(w: Feed, j: nat, quit: Quit): seq<Entry>
    requires j <= |w.items|
  {
    if !quit.sendOk then []
    else [Entry(j, Unregister)] + if quit.timesOut then [] else Loop(CallsOf(w, true), j, |w.items|, |w.items|).0
  }

  /** Everything sent by the main loop and, after an interrupt or a version error, in shutdown. */
  ghost function Answers(w: Feed, interrupt: Interrupt, quit: Quit): seq<Entry>
  {
    match ShutdownFrom(w, interrupt)
    case None => MainLoop(w, interrupt).0
    case Some(j) => MainLoop(w, interrupt).0 + Shutdown(w, j, quit)
  }

  /** How a shutdown from item j on is left. */
  ghost function ExitFrom(w: Feed, j: nat, quit: Quit): Exit
    requires j <= |w.items|
  {
    if !quit.sendOk then Raises
    else if quit.timesOut then Quits
    else ShutdownExit(ShutdownEnd(Loop(CallsOf(w, true), j, |w.items|, |w.items|).1))
  }

  ghost function ExitOf(w: Feed, interrupt: Interrupt, quit: Quit): Exit
  {
    match ShutdownFrom(w, interrupt)
    case None =>
      (match MainLoop(w, interrupt).1
       case Continue => Waiting
       case Failed => Stops
       case _ => Raises)
    case Some(j) => ExitFrom(w, j, quit)
  }

  lemma {:induction false} SameEnd(w: Feed, s: Shut, m: nat, n: nat)
    requires Turns(w, s, m).ended.Some? && Turns(w, s, n).ended.Some?
    ensures Turns(w, s, m) == Turns(w, s, n)
    decreases m
  {
    if m == 0 || n == 0 {
      TurnsStay(w, s, m);
      TurnsStay(w, s, n);
    } else {
      SameEnd(w, Turn(w, s), m - 1, n - 1);
    }
  }

  /** The turns of the shutdown loop send what `Shutdown` says. */
  lemma {:induction false} ShutdownIsTurns(w: Feed, j: nat, quit: Quit, n: nat)
    requires j <= |w.items|
    ensures var s := Turns(w, Opening(Some(j), |w.items|, quit), n);
      s.ended.Some? ==> s.sent == Shutdown(w, j, quit) && ShutdownExit(s.ended.value) == ExitFrom(w, j, quit)
  {
    var first := Opening(Some(j), |w.items|, quit);
    if first.ended.Some? {
      TurnsStay(w, first, n);
    } else if Turns(w, first, n).ended.Some? {
      var m := TurnsAreLoop(w, first);
      SameEnd(w, first, m, n);
    }
  }

  ghost function Prefixed(before: seq<Entry>, r: (seq<Entry>, End, nat)): (seq<Entry>, End, nat)
  {
    (before + r.0, r.1, r.2)
  }

  /** One turn of the main loop, as a step from one suffix of its items to the next. */
  method MainTurn(w: Feed, fut: nat, hi: nat, k: nat, ghost before: seq<Entry>) returns (out: seq<Sent>, end: End)
    requires fut < hi <= |w.items|
    ensures Prefixed(before, Loop(CallsOf(w, false), fut, hi, k)) ==
      if end != Continue then (before + Tag(fut, out), end, fut)
      else Prefixed(before + Tag(fut, out), Loop(CallsOf(w, false), fut + 1, hi, k + 1))
  {
    out, end := ProcessOne(w.cfg, w.items[fut], w.envs(k), false);
    if end == Continue {
      ghost var rest := Loop(CallsOf(w, false), fut + 1, hi, k + 1).0;
      assert before + (Tag(fut, out) + rest) == (before + Tag(fut, out)) + rest;
    }
  }

  /** Receive and process, up to the interrupt. */
  method RunMain(w: Feed, interrupt: Interrupt) returns (sent: seq<Sent>, end: End, fut: nat)
    ensures sent == Wire(MainLoop(w, interrupt).0)
    ensures end == MainLoop(w, interrupt).1 && fut == MainLoop(w, interrupt).2
  {
    var hi := Limit(interrupt, |w.items|);
    sent, end, fut := [], Continue, 0;
    ghost var entries := [];
    ghost var whole := MainLoop(w, interrupt);
    assert [] + whole.0 == whole.0;
    while fut < hi
      invariant fut <= hi && end == Continue
      invariant sent == Wire(entries)
      invariant whole == Prefixed(entries, Loop(CallsOf(w, false), fut, hi, fut))
    {
      var out;
      out, end := MainTurn(w, fut, hi, fut, entries);
      WireTag(entries, fut, out);
      sent, entries := sent + out, entries + Tag(fut, out);
      if end != Continue { return; }
      fut := fut + 1;
    }
    assert entries + [] == entries;
  }

  /** The main loop and what follows it. */
  method Run(w: Feed, interrupt: Interrupt, quit: Quit) returns (sent: seq<Sent>, exit: Exit)
    ensures sent == Wire(Answers(w, interrupt, quit))
    ensures exit == ExitOf(w, interrupt, quit)
  {
    var end, fut;
    sent, end, fut := RunMain(w, interrupt);
    var from := None;
    if end == VersionError {
      from := Some(fut);
    } else if end == Continue && Strikes(interrupt, |w.items|) {
      from := Some(interrupt.m);
    }
    if from.Some? {
      var more;
      ghost var n;
      more, exit, n := RunShutdown(w, from, |w.items|, quit);
      NeverEndsExactly(w, Opening(from, |w.items|, quit));
      ShutdownIsTurns(w, from.value, quit, n);
      WireConcat(MainLoop(w, interrupt).0, Shutdown(w, from.value, quit));
      sent := sent + more;
    } else {
      exit := match end case Continue => Waiting case Failed => Stops case _ => Raises;
    }
  }

  /**
   The whole of `start`; `early` is an interrupt after the first registration and before the first receive.  Then, and
   after a version error in that registration, the shutdown loop has no future, and no number of turns leaves it; from
   everywhere else the loop ends.
   */
  method Start(w: Feed, first: Env, early: bool, interrupt: Interrupt, quit: Quit) returns (sent: seq<Sent>, exit: Exit)
    ensures var (registered, end) := RegisterAll(w.cfg, first);
      var noFuture := end == VersionError || (end == Continue && early);
      && (end == Continue && !early ==>
            sent == registered + Wire(Answers(w, interrupt, quit)) && exit == ExitOf(w, interrupt, quit))
      && (noFuture ==> sent == registered + if quit.sendOk then [Unregister] else [])
      && (end == Failed ==> sent == registered && exit == Stops)
      && (end == Crash || end == TimedOut ==> sent == registered && exit == Raises)
      && (exit == Spins <==> noFuture && NeverEnds(w, Opening(None, 0, quit)))
  {
    var end;
    sent, end := SendRegistrations(w.cfg, first);
    var more := [];
    if end == Continue && !early {
      more, exit := Run(w, interrupt, quit);
    } else if end == Continue || end == VersionError {
      ghost var n;
      more, exit, n := RunShutdown(w, None, 0, quit);
      TurnsStay(w, Opening(None, 0, quit), n);
    } else {
      exit := if end == Failed then Stops else Raises;
    }
    sent := sent + more;
  }

  /** Without a future the shutdown loop spins exactly when unregistering is answered. */
  lemma {:induction false} SpinsExactly(w: Feed, quit: Quit)
    ensures NeverEnds(w, Opening(None, 0, quit)) <==> quit.sendOk && !quit.timesOut
  {
    NeverEndsExactly(w, Opening(None, 0, quit));
  }

  // ----- how a run is left

  /** How the call on item j ends, in a loop whose calls are numbered like its items, shifted. */
  ghost function EndAt(call: Calls, shift: nat, j: nat): End
  {
    call(j, shift + j).1
  }

  ghost predicate AllContinue(call: Calls, shift: nat, i: nat, hi: nat)
  {
    forall j :: i <= j < hi ==> EndAt(call, shift, j) == Continue
  }

  /** The first call that does not continue ends like this. */
  ghost predicate BreaksWith(call: Calls, shift: nat, i: nat, hi: nat, end: End)
  {
    exists j :: i <= j < hi && EndAt(call, shift, j) == end && AllContinue(call, shift, i, j)
  }

  lemma {:induction false} BreaksLater(call: Calls, shift: nat, i: nat, hi: nat, end: End)
    requires i < hi && EndAt(call, shift, i) == Continue && end != Continue
    ensures BreaksWith(call, shift, i, hi, end) <==> BreaksWith(call, shift, i + 1, hi, end)
  {
    if j :| i <= j < hi && EndAt(call, shift, j) == end && AllContinue(call, shift, i, j) {
      assert AllContinue(call, shift, i + 1, j);
    }
    if j :| i + 1 <= j < hi && EndAt(call, shift, j) == end && AllContinue(call, shift, i + 1, j) {
      assert AllContinue(call, shift, i, j);
    }
  }

  /** A loop continues to its last item, or ends as its first call that does not continue. */
  lemma {:induction false} LoopEnds(call: Calls, shift: nat, i: nat, hi: nat, end: End)
    requires i <= hi && end != Continue
    ensures Loop(call, i, hi, shift + i).1 == Continue <==> AllContinue(call, shift, i, hi)
    ensures Loop(call, i, hi, shift + i).1 == end <==> BreaksWith(call, shift, i, hi, end)
    decreases hi - i
  {
    if i < hi {
      var first := EndAt(call, shift, i);
      var rest := Loop(call, i + 1, hi, shift + i + 1).1;
      assert Loop(call, i, hi, shift + i).1 == if first != Continue then first else rest;
      if first == Continue {
        LoopEnds(call, shift, i + 1, hi, end);
        BreaksLater(call, shift, i, hi, end);
      } else {
        assert AllContinue(call, shift, i, i);
      }
    }
  }

  /** Unregistering is answered, and the calls of the shutdown loop continue until one times out or nothing is left. */
  ghost predicate WindsDown(w: Feed, j: nat, quit: Quit)
    requires j <= |w.items|
  {
    && quit.sendOk
    && (quit.timesOut
        || AllContinue(CallsOf(w, true), |w.items| - j, j, |w.items|)
        || BreaksWith(CallsOf(w, true), |w.items| - j, j, |w.items|, TimedOut))
  }

  lemma {:induction false} ShutdownEnds(w: Feed, j: nat, quit: Quit)
    requires j <= |w.items|
    ensures ExitFrom(w, j, quit) == if WindsDown(w, j, quit) then Quits else Raises
  {
    LoopEnds(CallsOf(w, true), |w.items| - j, j, |w.items|, TimedOut);
  }

  lemma {:induction false} MainEnds(w: Feed, interrupt: Interrupt)
    ensures var end, call, hi := MainLoop(w, interrupt).1, CallsOf(w, false), Limit(interrupt, |w.items|);
      && (end == Continue <==> AllContinue(call, 0, 0, hi))
      && (end == Failed <==> BreaksWith(call, 0, 0, hi, Failed))
      && (end == VersionError <==> BreaksWith(call, 0, 0, hi, VersionError))
  {
    LoopEnds(CallsOf(w, false), 0, 0, Limit(interrupt, |w.items|), Failed);
    LoopEnds(CallsOf(w, false), 0, 0, Limit(interrupt, |w.items|), VersionError);
  }

  /**
   Exactly how a run is left, by the ends of its calls alone.  It goes on waiting if nothing breaks and no interrupt
   strikes, which one can up to the wait for the item that never comes; it returns normally if, after an interrupt or a
   version error, it can wind down; it stops at a RuntimeError in the main loop; and in all other cases an exception
   escapes.
   */
  lemma {:induction false} ExitExactly(w: Feed, interrupt: Interrupt, quit: Quit)
    ensures var exit, n, call := ExitOf(w, interrupt, quit), |w.items|, CallsOf(w, false);
      var hi := Limit(interrupt, n);
      var never := interrupt == Never || interrupt.m > n || interrupt == After(n);
      && (exit == Waiting <==> AllContinue(call, 0, 0, hi) && never)
      && (exit == Stops <==> BreaksWith(call, 0, 0, hi, Failed))
      && (exit == Quits <==>
            || (AllContinue(call, 0, 0, hi) && !never && WindsDown(w, interrupt.m, quit))
            || (BreaksWith(call, 0, 0, hi, VersionError) && WindsDown(w, MainLoop(w, interrupt).2, quit)))
      && exit != Spins
  {
    var from := ShutdownFrom(w, interrupt);
    MainEnds(w, interrupt);
    if from.Some? { ShutdownEnds(w, from.value, quit); }
  }

  // ----- what a run sends for one item

  /** The entries of one item. */
  ghost function Of(es: seq<Entry>, index: nat): seq<Entry>
  {
    if es == [] then []
    else Of(es[..|es| - 1], index) + if es[|es| - 1].index == index then [es[|es| - 1]] else []
  }

  lemma {:induction false} OfConcat(a: seq<Entry>, b: seq<Entry>, index: nat)
    ensures Of(a + b, index) == Of(a, index) + Of(b, index)
    decreases |b|
  {
    if b == [] {
      assert a + b == a;
    } else {
      assert (a + b)[..|a| + |b| - 1] == a + b[..|b| - 1];
      OfConcat(a, b[..|b| - 1], index);
    }
  }

  lemma {:induction false} OfTagged(es: seq<Entry>, i: nat, index: nat)
    requires forall a :: 0 <= a < |es| ==> es[a].index == i
    ensures Of(es, index) == if index == i then es else []
    decreases |es|
  {
    if es != [] { OfTagged(es[..|es| - 1], i, index); }
  }

  /** The loop gets to this item. */
  ghost predicate GetsTo(call: Calls, i: nat, hi: nat, k: nat, index: nat)
    requires i <= hi
  {
    i <= index < hi && index <= Loop(call, i, hi, k).2
  }

  /** What a loop sends for an item: what the item's call sends, if it gets to it. */
  ghost function LoopPart(call: Calls, i: nat, hi: nat, k: nat, index: nat): seq<Entry>
    requires i <= hi
  {
    if GetsTo(call, i, hi, k, index) then Tag(index, call(index, k + (index - i)).0) else []
  }

  lemma {:induction false} LoopPartStep(call: Calls, i: nat, hi: nat, k: nat, index: nat)
    requires i < hi
    ensures LoopPart(call, i, hi, k, index) ==
      if index == i then Tag(i, call(i, k).0)
      else if call(i, k).1 == Continue then LoopPart(call, i + 1, hi, k + 1, index)
      else []
  {
  }

  lemma {:induction false} LoopPartBefore(call: Calls, i: nat, hi: nat, k: nat, index: nat)
    requires i <= hi && index < i
    ensures LoopPart(call, i, hi, k, index) == []
  {
  }

  lemma {:induction false} LoopOf(call: Calls, i: nat, hi: nat, k: nat, index: nat)
    requires i <= hi
    ensures Of(Loop(call, i, hi, k).0, index) == LoopPart(call, i, hi, k, index)
    decreases hi - i
  {
    if i < hi {
      var first := Tag(i, call(i, k).0);
      OfTagged(first, i, index);
      LoopPartStep(call, i, hi, k, index);
      if call(i, k).1 == Continue {
        var rest := Loop(call, i + 1, hi, k + 1).0;
        assert Loop(call, i, hi, k).0 == first + rest;
        LoopOf(call, i + 1, hi, k + 1, index);
        OfConcat(first, rest, index);
        if index == i {
          LoopPartBefore(call, i + 1, hi, k + 1, index);
          assert first + [] == first;
        }
      }
    }
  }

  /** The main loop of a run processes this item. */
  ghost predicate Reached(w: Feed, interrupt: Interrupt, index: nat)
  {
    GetsTo(CallsOf(w, false), 0, Limit(interrupt, |w.items|), 0, index)
  }

  /** What the main loop of a run sends for an item. */
  ghost function MainPart(w: Feed, interrupt: Interrupt, index: nat): seq<Entry>
  {
    LoopPart(CallsOf(w, false), 0, Limit(interrupt, |w.items|), 0, index)
  }

  /** What the calls of a shutdown from item j on send for an item, and what goes out before them. */
  ghost function ShutdownPart(w: Feed, j: nat, quit: Quit, index: nat): seq<Entry>
    requires j <= |w.items|
  {
    if quit.sendOk && !quit.timesOut then LoopPart(CallsOf(w, true), j, |w.items|, |w.items|, index) else []
  }

  ghost function UnregisterPart(j: nat, quit: Quit, index: nat): seq<Entry>
  {
    if quit.sendOk && index == j then [Entry(j, Unregister)] else []
  }

  lemma {:induction false} ShutdownOf(w: Feed, j: nat, quit: Quit, index: nat)
    requires j <= |w.items|
    ensures Of(Shutdown(w, j, quit), index) == UnregisterPart(j, quit, index) + ShutdownPart(w, j, quit, index)
  {
    if quit.sendOk {
      var head := [Entry(j, Unregister)];
      var tail := if quit.timesOut then [] else Loop(CallsOf(w, true), j, |w.items|, |w.items|).0;
      OfTagged(head, j, index);
      if !quit.timesOut { LoopOf(CallsOf(w, true), j, |w.items|, |w.items|, index); }
      assert Shutdown(w, j, quit) == head + tail;
      OfConcat(head, tail, index);
    }
  }

  /** What a shutdown, if there is one, sends for an item. */
  ghost function AfterPart(w: Feed, from: Option<nat>, quit: Quit, index: nat): seq<Entry>
    requires from.Some? ==> from.value <= |w.items|
  {
    if from.None? then [] else UnregisterPart(from.value, quit, index) + ShutdownPart(w, from.value, quit, index)
  }

  /** What a run sends for an item: what the main loop's call on it sends, and then what the shutdown's does. */
  lemma {:induction false} RunOf(w: Feed, interrupt: Interrupt, quit: Quit, index: nat)
    ensures Of(Answers(w, interrupt, quit), index)
         == MainPart(w, interrupt, index) + AfterPart(w, ShutdownFrom(w, interrupt), quit, index)
  {
    var from := ShutdownFrom(w, interrupt);
    LoopOf(CallsOf(w, false), 0, Limit(interrupt, |w.items|), 0, index);
    if from.Some? {
      ShutdownOf(w, from.value, quit, index);
      OfConcat(MainLoop(w, interrupt).0, Shutdown(w, from.value, quit), index);
    } else {
      assert MainPart(w, interrupt, index) + [] == MainPart(w, interrupt, index);
    }
  }

  // ----- order

  /** Entries come in the order of the items they belong to. */
  ghost predicate InOrder(es: seq<Entry>)
  {
    forall a, b :: 0 <= a < b < |es| ==> es[a].index <= es[b].index
  }

  ghost predicate Within(es: seq<Entry>, lo: nat, hi: nat)
  {
    forall a :: 0 <= a < |es| ==> lo <= es[a].index <= hi
  }

  lemma {:induction false} JoinInOrder(a: seq<Entry>, b: seq<Entry>, lo: nat, j: nat, hi: nat)
    requires InOrder(a) && InOrder(b) && Within(a, lo, j) && Within(b, j, hi) && lo <= j <= hi
    ensures InOrder(a + b) && Within(a + b, lo, hi)
  {
  }

  lemma {:induction false} LoopInOrder(call: Calls, i: nat, hi: nat, k: nat)
    requires i <= hi
    ensures InOrder(Loop(call, i, hi, k).0) && Within(Loop(call, i, hi, k).0, i, Loop(call, i, hi, k).2)
    ensures i < hi ==> Within(Loop(call, i, hi, k).0, i, hi - 1)
    decreases hi - i
  {
    if i < hi {
      var (sent, end) := call(i, k);
      var first := Tag(i, sent);
      if end == Continue {
        var (rest, _, stop) := Loop(call, i + 1, hi, k + 1);
        LoopInOrder(call, i + 1, hi, k + 1);
        assert Within(rest, i, stop);
        JoinInOrder(first, rest, i, i, stop);
      }
    }
  }

  lemma {:induction false} ShutdownInOrder(w: Feed, j: nat, quit: Quit)
    requires j <= |w.items|
    ensures InOrder(Shutdown(w, j, quit)) && Within(Shutdown(w, j, quit), j, |w.items|)
  {
    var n := |w.items|;
    LoopInOrder(CallsOf(w, true), j, n, n);
    JoinInOrder([Entry(j, Unregister)], Loop(CallsOf(w, true), j, n, n).0, j, j, n);
  }

  /** The shutdown loop starts no earlier than the main loop ended. */
  lemma {:induction false} MainBeforeShutdown(w: Feed, interrupt: Interrupt)
    ensures InOrder(MainLoop(w, interrupt).0)
    ensures var from := ShutdownFrom(w, interrupt); from.Some? ==> Within(MainLoop(w, interrupt).0, 0, from.value)
  {
    LoopInOrder(CallsOf(w, false), 0, Limit(interrupt, |w.items|), 0);
  }

  /** Over any run everything goes out in the order of the items it belongs to. */
  lemma {:induction false} AnswersInOrder(w: Feed, interrupt: Interrupt, quit: Quit)
    ensures InOrder(Answers(w, interrupt, quit))
  {
    MainBeforeShutdown(w, interrupt);
    var from := ShutdownFrom(w, interrupt);
    if from.Some? {
      ShutdownInOrder(w, from.value, quit);
      JoinInOrder(MainLoop(w, interrupt).0, Shutdown(w, from.value, quit), 0, from.value, |w.items|);
    }
  }

  // ----- answers

  predicate IsAnswer(e: Entry)
  {
    e.sent.ProcessResponse? || e.sent.PingResponse?
  }

  ghost function CountAnswers(es: seq<Entry>): nat
  {
    if es == [] then 0 else CountAnswers(es[..|es| - 1]) + if IsAnswer(es[|es| - 1]) then 1 else 0
  }

  /** How many answers an item gets. */
  ghost function AnswerCount(es: seq<Entry>, index: nat): nat
  {
    CountAnswers(Of(es, index))
  }

  lemma {:induction false} CountAnswersConcat(a: seq<Entry>, b: seq<Entry>)
    ensures CountAnswers(a + b) == CountAnswers(a) + CountAnswers(b)
    decreases |b|
  {
    if b == [] {
      assert a + b == a;
    } else {
      assert (a + b)[..|a| + |b| - 1] == a + b[..|b| - 1];
      CountAnswersConcat(a, b[..|b| - 1]);
    }
  }

  lemma {:induction false} CountAnswersFew(es: seq<Entry>)
    requires (forall a :: 0 <= a < |es| ==> !IsAnswer(es[a])) || |es| == 1
    ensures CountAnswers(es) == if |es| == 1 && IsAnswer(es[0]) then 1 else 0
    decreases |es|
  {
    if es != [] {
      CountAnswersFew(es[..|es| - 1]);
      assert |es| == 1 ==> es[..0] == [];
    }
  }

  /** Whether call k, made on item i, answers it. */
  ghost function AnswerAt(w: Feed, i: nat, k: nat): nat
    requires i < |w.items|
  {
    if exists s :: IsAnswer(Entry(i, s)) && Answered(w.cfg, w.items[i], w.envs(k), s) then 1 else 0
  }

  /** A call answers its own item, once or not at all. */
  lemma {:induction false} CallAnswers(w: Feed, i: nat, k: nat, sigint: bool)
    requires i < |w.items|
    ensures var es := Tag(i, CallsOf(w, sigint)(i, k).0);
      && CountAnswers(es) == AnswerAt(w, i, k)
      && forall a :: 0 <= a < |es| && IsAnswer(es[a]) ==>
           |es| == 1 && Answered(w.cfg, w.items[i], w.envs(k), es[a].sent)
  {
    var sent := ProcessFuture(w.cfg, w.items[i], w.envs(k), sigint).0;
    forall a | 0 <= a < |sent| && IsAnswer(Tag(i, sent)[a])
      ensures |sent| == 1 && Answered(w.cfg, w.items[i], w.envs(k), sent[a])
    {
      assert sent[a] in sent;
      AnswersExactly(w.cfg, w.items[i], w.envs(k), sigint, sent[a]);
    }
    CountAnswersFew(Tag(i, sent));
    if s :| IsAnswer(Entry(i, s)) && Answered(w.cfg, w.items[i], w.envs(k), s) {
      AnswersExactly(w.cfg, w.items[i], w.envs(k), sigint, s);
      assert Tag(i, sent)[0] == Entry(i, s);
    }
  }

  lemma {:induction false} FromOf(es: seq<Entry>, a: nat)
    requires a < |es|
    ensures es[a] in Of(es, es[a].index)
    decreases |es|
  {
    if a < |es| - 1 { FromOf(es[..|es| - 1], a); }
  }

  /** The entry is for an item of the loop, and what that item's call answers. */
  ghost predicate OwnAnswer(w: Feed, i: nat, hi: nat, k: nat, e: Entry)
  {
    i <= e.index < hi <= |w.items| && Answered(w.cfg, w.items[e.index], w.envs(k + (e.index - i)), e.sent)
  }

  /** An answer in a loop is that of its own item's call. */
  lemma {:induction false} LoopAnswer(w: Feed, i: nat, hi: nat, k: nat, sigint: bool, es: seq<Entry>, a: nat)
    requires i <= hi <= |w.items| && es == Loop(CallsOf(w, sigint), i, hi, k).0
    requires a < |es| && IsAnswer(es[a])
    ensures OwnAnswer(w, i, hi, k, es[a])
  {
    var call, index := CallsOf(w, sigint), es[a].index;
    FromOf(es, a);
    LoopOf(call, i, hi, k, index);
    var own := Tag(index, call(index, k + (index - i)).0);
    var b :| 0 <= b < |own| && own[b] == es[a];
    CallAnswers(w, index, k + (index - i), sigint);
  }

  lemma {:induction false} LoopAnswersOnce(w: Feed, i: nat, hi: nat, k: nat, sigint: bool, index: nat)
    requires i <= hi <= |w.items|
    ensures AnswerCount(Loop(CallsOf(w, sigint), i, hi, k).0, index) <= 1
  {
    LoopOf(CallsOf(w, sigint), i, hi, k, index);
    if i <= index < hi { CallAnswers(w, index, k + (index - i), sigint); }
  }

  /** In any loop answers come in order, and each is its own item's answer, the only one. */
  lemma {:induction false} LoopAnswers(w: Feed, i: nat, hi: nat, k: nat, sigint: bool, es: seq<Entry>)
    requires i <= hi <= |w.items| && es == Loop(CallsOf(w, sigint), i, hi, k).0
    ensures InOrder(es)
    ensures forall index :: AnswerCount(es, index) <= 1
    ensures forall a :: 0 <= a < |es| && IsAnswer(es[a]) ==> OwnAnswer(w, i, hi, k, es[a])
  {
    LoopInOrder(CallsOf(w, sigint), i, hi, k);
    forall index: nat
      ensures AnswerCount(es, index) <= 1
    {
      LoopAnswersOnce(w, i, hi, k, sigint, index);
    }
    forall a | 0 <= a < |es| && IsAnswer(es[a])
      ensures OwnAnswer(w, i, hi, k, es[a])
    {
      LoopAnswer(w, i, hi, k, sigint, es, a);
    }
  }

  /** A call that ends in a version error answers nothing. */
  lemma {:induction false} VersionErrorSilent(w: Feed, i: nat, k: nat)
    requires i < |w.items| && CallsOf(w, false)(i, k).1 == VersionError
    ensures AnswerAt(w, i, k) == 0
  {
    EndsExactly(w.cfg, w.items[i], w.envs(k), false);
  }

  /** The call a loop stopped at is the one whose end it reports. */
  lemma {:induction false} StoppedBy(call: Calls, i: nat, hi: nat, k: nat)
    requires i <= hi && Loop(call, i, hi, k).1 != Continue
    ensures var (_, end, stop) := Loop(call, i, hi, k); call(stop, k + (stop - i)).1 == end
    decreases hi - i
  {
    if call(i, k).1 == Continue { StoppedBy(call, i + 1, hi, k + 1); }
  }

  /** How often a loop answers an item: as its call does, if the loop gets to it. */
  ghost function LoopCount(w: Feed, sigint: bool, i: nat, hi: nat, k: nat, index: nat): nat
    requires i <= hi <= |w.items|
  {
    if GetsTo(CallsOf(w, sigint), i, hi, k, index) then AnswerAt(w, index, k + (index - i)) else 0
  }

  lemma {:induction false} LoopPartCount(w: Feed, sigint: bool, i: nat, hi: nat, k: nat, index: nat)
    requires i <= hi <= |w.items|
    ensures CountAnswers(LoopPart(CallsOf(w, sigint), i, hi, k, index)) == LoopCount(w, sigint, i, hi, k, index)
  {
    if GetsTo(CallsOf(w, sigint), i, hi, k, index) { CallAnswers(w, index, k + (index - i), sigint); }
  }

  ghost function MainAnswers(w: Feed, interrupt: Interrupt, index: nat): nat
  {
    LoopCount(w, false, 0, Limit(interrupt, |w.items|), 0, index)
  }

  ghost function ShutdownAnswers(w: Feed, from: Option<nat>, quit: Quit, index: nat): nat
    requires from.Some? ==> from.value <= |w.items|
  {
    if from.Some? && quit.sendOk && !quit.timesOut
    then LoopCount(w, true, from.value, |w.items|, |w.items|, index) else 0
  }

  lemma {:induction false} ShutdownCount(w: Feed, from: Option<nat>, quit: Quit, index: nat)
    requires from.Some? ==> from.value <= |w.items|
    ensures CountAnswers(AfterPart(w, from, quit, index)) == ShutdownAnswers(w, from, quit, index)
  {
    if from.Some? {
      var head := UnregisterPart(from.value, quit, index);
      CountAnswersConcat(head, ShutdownPart(w, from.value, quit, index));
      CountAnswersFew(head);
      LoopPartCount(w, true, from.value, |w.items|, |w.items|, index);
    }
  }

  /** How often each item is answered: by the main loop if that got to it, and by the shutdown loop if that did. */
  lemma {:induction false} AnswersCounted(w: Feed, interrupt: Interrupt, quit: Quit, index: nat)
    ensures AnswerCount(Answers(w, interrupt, quit), index)
         == MainAnswers(w, interrupt, index) + ShutdownAnswers(w, ShutdownFrom(w, interrupt), quit, index)
  {
    var after := AfterPart(w, ShutdownFrom(w, interrupt), quit, index);
    RunOf(w, interrupt, quit, index);
    LoopPartCount(w, false, 0, Limit(interrupt, |w.items|), 0, index);
    ShutdownCount(w, ShutdownFrom(w, interrupt), quit, index);
    CountAnswersConcat(MainPart(w, interrupt, index), after);
  }

  /** The main loop's last call, and the shutdown loop's first, which processes the same future again, both answer. */
  ghost predicate TwiceAnswered(w: Feed, interrupt: Interrupt, quit: Quit, index: nat)
    requires index < |w.items|
  {
    && interrupt == After(index) && MainLoop(w, interrupt).1 == Continue && quit.sendOk && !quit.timesOut
    && AnswerAt(w, index, index) == 1 && AnswerAt(w, index, |w.items|) == 1
  }

  /** After a version error no item is answered by both loops: the main loop ended with a call that answers nothing. */
  lemma {:induction false} NoOverlapAfterError(w: Feed, interrupt: Interrupt, quit: Quit, index: nat)
    requires index < |w.items| && MainLoop(w, interrupt).1 == VersionError
    ensures MainAnswers(w, interrupt, index) == 0
         || ShutdownAnswers(w, ShutdownFrom(w, interrupt), quit, index) == 0
  {
    var stop := MainLoop(w, interrupt).2;
    StoppedBy(CallsOf(w, false), 0, Limit(interrupt, |w.items|), 0);
    VersionErrorSilent(w, stop, stop);
    assert ShutdownFrom(w, interrupt) == Some(stop);
  }

  /** After an interrupt both loops get to an item only if it was processed last before the interrupt. */
  lemma {:induction false} OverlapAfterInterrupt(w: Feed, interrupt: Interrupt, index: nat)
    requires index < |w.items| && MainLoop(w, interrupt).1 == Continue && Strikes(interrupt, |w.items|)
    ensures var n := |w.items|;
      Reached(w, interrupt, index) && GetsTo(CallsOf(w, true), interrupt.m, n, n, index) <==> interrupt == After(index)
  {
  }

  /** Both loops answer an item only at the boundary. */
  lemma {:induction false} Overlap(w: Feed, interrupt: Interrupt, quit: Quit, index: nat)
    requires index < |w.items|
    ensures TwiceAnswered(w, interrupt, quit, index) <==>
      && MainAnswers(w, interrupt, index) == 1
      && ShutdownAnswers(w, ShutdownFrom(w, interrupt), quit, index) == 1
  {
    var end, from := MainLoop(w, interrupt).1, ShutdownFrom(w, interrupt);
    if end == VersionError {
      NoOverlapAfterError(w, interrupt, quit, index);
    } else if end == Continue && Strikes(interrupt, |w.items|) {
      assert from == Some(interrupt.m);
      OverlapAfterInterrupt(w, interrupt, index);
    } else {
      assert from == None;
    }
  }

  /**
   Over any run an item is answered at most twice; and twice exactly when an interrupt struck between its processing
   and the next receive, unregistering was answered, and both calls on its future answer it.
   */
  lemma {:induction false} TwoAnswersExactly(w: Feed, interrupt: Interrupt, quit: Quit, index: nat)
    requires index < |w.items|
    ensures AnswerCount(Answers(w, interrupt, quit), index) <= 2
    ensures AnswerCount(Answers(w, interrupt, quit), index) == 2 <==> TwiceAnswered(w, interrupt, quit, index)
  {
    AnswersCounted(w, interrupt, quit, index);
    Overlap(w, interrupt, quit, index);
  }

  // ----- registration on reconnecting

  /** The registration requests among some entries, in order. */
  ghost function Requests(es: seq<Entry>): seq<Request>
  {
    if es == [] then []
    else
      var e := es[|es| - 1];
      Requests(es[..|es| - 1]) + if e.sent.Register? then [e.sent.request] else []
  }

  lemma {:induction false} RequestsConcat(a: seq<Entry>, b: seq<Entry>)
    ensures Requests(a + b) == Requests(a) + Requests(b)
    decreases |b|
  {
    if b == [] {
      assert a + b == a;
    } else {
      assert (a + b)[..|a| + |b| - 1] == a + b[..|b| - 1];
      RequestsConcat(a, b[..|b| - 1]);
    }
  }

  lemma {:induction false} RequestsNone(es: seq<Entry>)
    requires forall a :: 0 <= a < |es| ==> !es[a].sent.Register?
    ensures Requests(es) == []
    decreases |es|
  {
    if es != [] { RequestsNone(es[..|es| - 1]); }
  }

  lemma {:induction false} RequestsAll(requests: seq<Request>, index: nat)
    ensures Requests(Tag(index, AsSent(requests))) == requests
    decreases |requests|
  {
    if requests != [] {
      var last := |requests| - 1;
      RequestsAll(requests[..last], index);
      assert Tag(index, AsSent(requests))[..last] == Tag(index, AsSent(requests[..last]));
    }
  }

  /** Only a reconnect outside shutdown registers. */
  lemma {:induction false} OthersRegisterNothing(w: Feed, i: nat, k: nat, sigint: bool)
    requires i < |w.items| && (sigint || !w.items[i].Reconnected?)
    ensures Requests(Tag(i, CallsOf(w, sigint)(i, k).0)) == []
  {
    var sent := ProcessFuture(w.cfg, w.items[i], w.envs(k), sigint).0;
    assert forall a :: 0 <= a < |sent| ==> !sent[a].Register?;
    RequestsNone(Tag(i, sent));
  }

  /** A reconnect sends the whole registration list exactly when none of its sends finds the connection gone. */
  lemma {:induction false} ReconnectCall(w: Feed, i: nat, k: nat)
    requires i < |w.items| && w.items[i].Reconnected?
    ensures var rs, sent := RegisterRequests(w.cfg), Requests(Tag(i, CallsOf(w, false)(i, k).0));
      && sent <= rs
      && (sent == rs <==> forall j :: 0 <= j < |rs| ==> w.envs(k).sends(j))
  {
    var rs, out := RegisterRequests(w.cfg), CallsOf(w, false)(i, k).0;
    RegistersWholeList(w.cfg, w.envs(k));
    RegisterEnds(w.cfg, w.envs(k));
    assert out == AsSent(rs[..|out|]);
    RequestsAll(rs[..|out|], i);
  }

  lemma {:induction false} ShutdownRegistersNothing(w: Feed, from: Option<nat>, quit: Quit, index: nat)
    requires from.Some? ==> from.value <= |w.items|
    ensures Requests(AfterPart(w, from, quit, index)) == []
  {
    if from.Some? {
      var j, n := from.value, |w.items|;
      RequestsConcat(UnregisterPart(j, quit, index), ShutdownPart(w, j, quit, index));
      RequestsNone(UnregisterPart(j, quit, index));
      if j <= index < n { OthersRegisterNothing(w, index, n + (index - j), true); }
    }
  }

  /** The registration requests a run sends for an item are those the main loop sends. */
  lemma {:induction false} RunRegisters(w: Feed, interrupt: Interrupt, quit: Quit, index: nat)
    ensures Requests(Of(Answers(w, interrupt, quit), index)) == Requests(MainPart(w, interrupt, index))
  {
    var from, part := ShutdownFrom(w, interrupt), MainPart(w, interrupt, index);
    RunOf(w, interrupt, quit, index);
    ShutdownRegistersNothing(w, from, quit, index);
    RequestsConcat(part, AfterPart(w, from, quit, index));
  }

  /**
   In any run, each reconnect the main loop processes sends the whole registration list exactly when none of its sends
   finds the connection gone, and otherwise a part from its beginning; nothing else registers; and all of it goes out
   before anything for a later item.
   */
  lemma {:induction false} ReconnectRegisters(w: Feed, interrupt: Interrupt, quit: Quit, index: nat)
    requires index < |w.items|
    ensures InOrder(Answers(w, interrupt, quit))
    ensures var rs, sent := RegisterRequests(w.cfg), Requests(Of(Answers(w, interrupt, quit), index));
      if Reached(w, interrupt, index) && w.items[index].Reconnected? then
        sent <= rs && (sent == rs <==> forall j :: 0 <= j < |rs| ==> w.envs(index).sends(j))
      else sent == []
  {
    AnswersInOrder(w, interrupt, quit);
    RunRegisters(w, interrupt, quit, index);
    if w.items[index].Reconnected? {
      ReconnectCall(w, index, index);
    } else {
      OthersRegisterNothing(w, index, index, false);
    }
  }
}
