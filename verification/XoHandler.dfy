/**
 The transaction handler over the byte store, and what whole runs of transactions do.

 The reference keeps, for each live game, the list of moves accepted since it was created.  Any sequence of
 transactions leaves the byte store holding exactly the games of those lists, and a transaction is accepted
 exactly when the reference allows it.
 */
module XoHandler {
  import opened Wrappers
  import opened Text
  import opened XoCodec
  import opened XoPayload
  import opened Moves
  import opened XoGame
  import opened XoState

  datatype Tx = Tx(signer: string, payload: string)

  type Outcome = Result<(), Failure>

  // ----- one transaction on the byte store, for any store contents

  /** A transaction starts with an empty cache; only the store survives it. */
  ghost function ApplyPayload(store: map<string, string>, address: string -> string, signer: string, p: Payload)
    : (map<string, string>, Outcome)
    requires p.action == "take" ==> p.space.Number? && 1 <= p.space.n <= 9
  {
    var a, start := address(p.name), View(store, map[]);
    var got, v := GetResult(start, a, p.name), Load(start, a).0;
    if got.Err? then (v.store, Err(got.error))
    else if p.action == "delete" then
      if got.value.None? then (v.store, Err(InvalidTransaction(NoSuchGame)))
      else (DeleteView(v, a, p.name).store, Ok(()))
    else if p.action == "create" then
      if got.value.Some? then (v.store, Err(InvalidTransaction(GameExists)))
      else (SetView(v, a, p.name, NewGame(p.name)).store, Ok(()))
    else if p.action == "take" then
      if got.value.None? then (v.store, Err(InvalidTransaction(NoSuchGame)))
      else
        match Take(got.value.value, signer, p.space.n)
        case Err(e) => (v.store, Err(e))
        case Ok(game) => (SetView(v, a, p.name, game).store, Ok(()))
    else (v.store, Err(InvalidTransaction(UnknownAction)))
  }

  ghost function ApplyTx(store: map<string, string>, address: string -> string, parseInt: string -> Option<int>, tx: Tx)
    : (map<string, string>, Outcome)
  {
    match ParsePayload(parseInt, tx.payload)
    case Err(e) => (store, Err(e))
    case Ok(p) => ApplyPayload(store, address, tx.signer, p)
  }

  /** Deleting or writing right after a successful read cannot fail. */
  lemma {:induction false} ReadThenWrite(v: View, a: string, name: string)
    requires Load(v, a).1.Ok?
    ensures Load(Load(v, a).0, a) == Load(v, a)
  {
  }

  method Apply(tx: Tx, context: Context, address: string -> string, parseInt: string -> Option<int>)
    returns (r: Outcome)
    modifies context
    ensures (context.store, r) == ApplyTx(old(context.store), address, parseInt, tx)
  {
    var parsed := ParsePayload(parseInt, tx.payload);
    if parsed.Err? { return Err(parsed.error); }
    var xoPayload := parsed.value;
    var xoState := new XoState(context, address);
    ghost var start := xoState.Now();
    var got := xoState.GetGame(xoPayload.name);
    if got.Err? { return Err(got.error); }
    ReadThenWrite(start, address(xoPayload.name), xoPayload.name);
    if xoPayload.action == "delete" {
      if got.value.None? { return Err(InvalidTransaction(NoSuchGame)); }
      r := xoState.DeleteGame(xoPayload.name);
    } else if xoPayload.action == "create" {
      if got.value.Some? { return Err(InvalidTransaction(GameExists)); }
      r := xoState.SetGame(xoPayload.name, NewGame(xoPayload.name));
    } else if xoPayload.action == "take" {
      if got.value.None? { return Err(InvalidTransaction(NoSuchGame)); }
      var updated := Take(got.value.value, tx.signer, xoPayload.space.n);
      if updated.Err? { return Err(updated.error); }
      r := xoState.SetGame(xoPayload.name, updated.value);
    } else {
      r := Err(InvalidTransaction(UnknownAction));
    }
  }

  /** Where the store's text cannot be read, every transaction on it ends in an internal error and changes nothing. */
  lemma {:induction false} UnreadableStays(store: map<string, string>, address: string -> string,
                                           parseInt: string -> Option<int>, tx: Tx)
    requires var r := ParsePayload(parseInt, tx.payload); r.Ok? && address(r.value.name) in store
    requires var text := store[address(ParsePayload(parseInt, tx.payload).value.name)];
      text != "" && exists record :: record in Split(text, '|') && !Readable(record)
    ensures ApplyTx(store, address, parseInt, tx) == (store, Err(InternalError(BadGameData)))
  {
    ParsesExactly(Split(store[address(ParsePayload(parseInt, tx.payload).value.name)], '|'));
  }

  // ----- the reference

  /** For every live game, the moves accepted since its creation. */
  type Logs = map<string, seq<Move>>

  ghost predicate LegalLog(logs: Logs, name: string)
    requires name in logs
  {
    Clean(name) && Legal(logs[name]) && forall j :: 0 <= j < |logs[name]| ==> Clean(logs[name][j].signer)
  }

  ghost predicate LegalLogs(logs: Logs)
  {
    forall name :: name in logs ==> LegalLog(logs, name)
  }

  ghost function GamesOf(logs: Logs): Games
    requires LegalLogs(logs)
  {
    map name | name in logs :: (assert LegalLog(logs, name); GameOf(name, logs[name]))
  }

  /** What the rules say to a transaction, and the logs after it; a transaction not allowed changes nothing. */
  ghost function RefStep(parseInt: string -> Option<int>, logs: Logs, tx: Tx): (Logs, Outcome)
  {
    match ParsePayload(parseInt, tx.payload)
    case Err(e) => (logs, Err(e))
    case Ok(p) =>
      if p.action == "create" then
        if p.name in logs then (logs, Err(InvalidTransaction(GameExists))) else (logs[p.name := []], Ok(()))
      else if p.name !in logs then (logs, Err(InvalidTransaction(NoSuchGame)))
      else if p.action == "delete" then (logs - {p.name}, Ok(()))
      else
        var move := Move(tx.signer, if p.space.Number? then p.space.n else 0);
        if Legal(logs[p.name] + [move]) then (logs[p.name := logs[p.name] + [move]], Ok(()))
        else (logs, Err(InvalidTransaction(Refusal(logs[p.name], move))))
  }

  /** Signers are public keys: not empty, and free of the separators. */
  ghost predicate ValidTx(tx: Tx)
  {
    tx.signer != "" && Clean(tx.signer)
  }

  ghost predicate Agrees(store: map<string, string>, address: string -> string, logs: Logs)
  {
    LegalLogs(logs) && Represents(View(store, map[]), address, GamesOf(logs))
  }

  lemma {:induction false} StatusIsClean(b: string, n: nat)
    requires |b| == 9
    ensures Clean(Status(b, n))
  {
    assert Clean("P1-WIN") && Clean("P2-WIN") && Clean("TIE") && Clean("P1-NEXT") && Clean("P2-NEXT");
  }

  lemma {:induction false} GameIsClean(name: string, log: seq<Move>)
    requires Clean(name) && Legal(log) && forall j :: 0 <= j < |log| ==> Clean(log[j].signer)
    ensures CleanGame(name, GameOf(name, log)) && GameOf(name, log).name == name
  {
    var g := GameOf(name, log);
    forall k | 0 <= k < 9
      ensures g.board[k] in {'-', 'X', 'O'}
    {
      ReplayCell(XO, log, k);
    }
    StatusIsClean(g.board, |log|);
  }

  lemma {:induction false} FirstGame(name: string)
    requires Clean(name)
    ensures Legal([]) && NewGame(name) == GameOf(name, [])
  {
    var b := Blank(9);
    assert !HasLine(b, 'X') && !HasLine(b, 'O');
    assert b[0] == '-';
  }

  /** Replacing one log replaces one game. */
  lemma {:induction false} GamesAfterSet(logs: Logs, name: string, log: seq<Move>)
    requires LegalLogs(logs) && Clean(name) && Legal(log) && forall j :: 0 <= j < |log| ==> Clean(log[j].signer)
    ensures LegalLogs(logs[name := log])
    ensures GamesOf(logs[name := log]) == GamesOf(logs)[name := GameOf(name, log)]
  {
    var next := logs[name := log];
    forall n | n in next
      ensures LegalLog(next, n)
    {
      if n != name { assert LegalLog(logs, n); }
    }
  }

  lemma {:induction false} GamesAfterDelete(logs: Logs, name: string)
    requires LegalLogs(logs)
    ensures LegalLogs(logs - {name})
    ensures GamesOf(logs - {name}) == GamesOf(logs) - {name}
  {
    var next := logs - {name};
    forall n | n in next
      ensures LegalLog(next, n)
    {
      assert LegalLog(logs, n);
    }
  }

  lemma {:induction false} DropCache(v: View, address: string -> string, ledger: Games)
    requires Represents(v, address, ledger)
    ensures Represents(View(v.store, map[]), address, ledger)
  {
  }

  lemma {:induction false} WriteAgrees(store: map<string, string>, address: string -> string, logs: Logs,
                                       name: string, log: seq<Move>)
    requires Agrees(store, address, logs)
    requires Clean(name) && Legal(log) && forall j :: 0 <= j < |log| ==> Clean(log[j].signer)
    ensures var v := Load(View(store, map[]), address(name)).0;
      Agrees(SetView(v, address(name), name, GameOf(name, log)).store, address, logs[name := log])
  {
    var v := Load(View(store, map[]), address(name)).0;
    LoadRefines(View(store, map[]), address, GamesOf(logs), address(name));
    GameIsClean(name, log);
    SetRefines(v, address, GamesOf(logs), name, GameOf(name, log));
    GamesAfterSet(logs, name, log);
    DropCache(SetView(v, address(name), name, GameOf(name, log)), address, GamesOf(logs[name := log]));
  }

  lemma {:induction false} DeleteAgrees(store: map<string, string>, address: string -> string, logs: Logs, name: string)
    requires Agrees(store, address, logs)
    ensures var v := Load(View(store, map[]), address(name)).0;
      Agrees(DeleteView(v, address(name), name).store, address, logs - {name})
  {
    var v := Load(View(store, map[]), address(name)).0;
    LoadRefines(View(store, map[]), address, GamesOf(logs), address(name));
    DeleteRefines(v, address, GamesOf(logs), name);
    GamesAfterDelete(logs, name);
    DropCache(DeleteView(v, address(name), name), address, GamesOf(logs - {name}));
  }

  /** What the handler reads for a name is the game of its log. */
  lemma {:induction false} ReadAgrees(store: map<string, string>, address: string -> string, logs: Logs, name: string)
    requires Agrees(store, address, logs)
    ensures GetResult(View(store, map[]), address(name), name) ==
      Ok(if name in logs then Some(GamesOf(logs)[name]) else None)
    ensures Load(View(store, map[]), address(name)).0.store == store
    ensures name in logs ==> LegalLog(logs, name) && GamesOf(logs)[name] == GameOf(name, logs[name])
  {
    GetRefines(View(store, map[]), address, GamesOf(logs), name);
    LoadRefines(View(store, map[]), address, GamesOf(logs), address(name));
  }

  /**
   One transaction: the store keeps holding the games of the logs, and the answer is the reference's; a refusal is
   always an invalid transaction, never an internal or Python error, and changes nothing.
   */
  lemma {:induction false} StepAgrees(store: map<string, string>, address: string -> string,
                                      parseInt: string -> Option<int>, logs: Logs, tx: Tx)
    requires Agrees(store, address, logs) && ValidTx(tx)
    ensures var (store', outcome) := ApplyTx(store, address, parseInt, tx);
            var (logs', answer) := RefStep(parseInt, logs, tx);
      && Agrees(store', address, logs')
      && outcome == answer
      && (outcome.Err? ==> outcome.error.InvalidTransaction? && store' == store)
  {
    var parsed := ParsePayload(parseInt, tx.payload);
    if parsed.Ok? {
      var p := parsed.value;
      AcceptedExactly(parseInt, tx.payload, p);
      ReadAgrees(store, address, logs, p.name);
      if p.action == "create" {
        FirstGame(p.name);
        WriteAgrees(store, address, logs, p.name, []);
      } else if p.action == "delete" {
        DeleteAgrees(store, address, logs, p.name);
      } else if p.name in logs {
        var move := Move(tx.signer, p.space.n);
        TakeIffLegal(p.name, logs[p.name], move);
        if Legal(logs[p.name] + [move]) {
          WriteAgrees(store, address, logs, p.name, logs[p.name] + [move]);
        }
      }
    }
  }

  // ----- whole runs

  ghost function ApplyAll(store: map<string, string>, address: string -> string, parseInt: string -> Option<int>,
                          txs: seq<Tx>)
    : (map<string, string>, seq<Outcome>)
    decreases |txs|
  {
    if txs == [] then (store, [])
    else
      var last := |txs| - 1;
      var (before, outcomes) := ApplyAll(store, address, parseInt, txs[..last]);
      var (after, outcome) := ApplyTx(before, address, parseInt, txs[last]);
      (after, outcomes + [outcome])
  }

  ghost function RefAll(parseInt: string -> Option<int>, txs: seq<Tx>): (Logs, seq<Outcome>)
    decreases |txs|
  {
    if txs == [] then (map[], [])
    else
      var last := |txs| - 1;
      var (before, answers) := RefAll(parseInt, txs[..last]);
      var (after, answer) := RefStep(parseInt, before, txs[last]);
      (after, answers + [answer])
  }

  lemma {:induction false} EmptyAgrees(address: string -> string)
    ensures Agrees(map[], address, map[])
  {
    var none: Logs := map[];
    assert GamesOf(none) == map[];
    forall a
      ensures StoresAt(map[], address, map[], a)
    {
      assert Bucket(map[], address, a) == map[];
    }
  }

  /**
   Every run from an empty store: the store holds exactly the games of the accepted moves, each answer is the
   reference's, and no internal or Python error is ever raised, however names collide on addresses.
   */
  lemma {:induction false} RunAgrees(address: string -> string, parseInt: string -> Option<int>, txs: seq<Tx>)
    requires forall i :: 0 <= i < |txs| ==> ValidTx(txs[i])
    ensures var (store, outcomes) := ApplyAll(map[], address, parseInt, txs);
            var (logs, answers) := RefAll(parseInt, txs);
      && Agrees(store, address, logs)
      && outcomes == answers && |answers| == |txs|
      && forall i :: 0 <= i < |txs| && outcomes[i].Err? ==> outcomes[i].error.InvalidTransaction?
    decreases |txs|
  {
    if txs == [] {
      EmptyAgrees(address);
    } else {
      var last := |txs| - 1;
      RunAgrees(address, parseInt, txs[..last]);
      var store, logs := ApplyAll(map[], address, parseInt, txs[..last]).0, RefAll(parseInt, txs[..last]).0;
      StepAgrees(store, address, parseInt, logs, txs[last]);
    }
  }

  /** In every reachable store, each game read back is that of its moves, at most nine, with their counts of marks. */
  lemma {:induction false} ReachableGames(address: string -> string, parseInt: string -> Option<int>,
                                          txs: seq<Tx>, name: string)
    requires forall i :: 0 <= i < |txs| ==> ValidTx(txs[i])
    ensures var store, logs := ApplyAll(map[], address, parseInt, txs).0, RefAll(parseInt, txs).0;
      var got := GetResult(View(store, map[]), address(name), name);
      && got.Ok? && (got.value.Some? <==> name in logs)
      && (name in logs ==>
            && Legal(logs[name]) && |logs[name]| <= 9
            && got.value.value == GameOf(name, logs[name])
            && Count(got.value.value.board, 'X') == (|logs[name]| + 1) / 2
            && Count(got.value.value.board, 'O') == |logs[name]| / 2)
  {
    RunAgrees(address, parseInt, txs);
    var store, logs := ApplyAll(map[], address, parseInt, txs).0, RefAll(parseInt, txs).0;
    ReadAgrees(store, address, logs, name);
    if name in logs {
      GameInvariant(name, logs[name]);
      CountMarks(XO, logs[name]);
    }
  }
}
