/**
 The Java handler over the byte store, and what whole runs of transactions do, for any address function.

 An address never holds more than one game, so `Lives`, at most one game per address, says exactly what the handler
 does.  The reference keeps games by name instead; the two differ exactly at misplaced transactions, those that meet
 another game at their address.
 */
module JavaHandler {
  import opened Wrappers
  import opened Text
  import opened Moves
  import opened JavaGame
  import opened JavaCodec

  datatype Tx = Tx(signer: string, payload: string)

  datatype Payload = CreateGame(name: string, dim: nat) | TakeSpace(name: string, space: int)

  type Store = map<string, string>

  type Outcome = Result<(), Fault>

  // ----- one transaction, for any store contents

  /** `parseInt` stands for Integer.parseInt: None where it throws. */
  function ParsePayload(parseInt: string -> Option<int>, payload: string): (r: Result<Payload, Fault>)
    ensures r.Ok? ==> r.value.name != "" && Clean(r.value.name)
    ensures r.Ok? && r.value.CreateGame? ==> 1 <= r.value.dim <= 12
    ensures r.Err? ==> r.error == InvalidTransaction
  {
    var parts := JavaSplit(payload, ',');
    JavaSplitFree(payload, ',');
    if |parts| > 3 then Err(InvalidTransaction)
    else
      var f := Pad(parts);
      var name, action, number := f[0], f[1], parseInt(f[2]);
      assert ',' !in name by { if |parts| > 0 { assert f[..|parts|][0] == parts[0]; } }
      if action in ["take", "create"] && number == None then Err(InvalidTransaction)
      else if name == "" || '|' in name || action == "" then Err(InvalidTransaction)
      else if action == "create" && !(1 <= number.value <= 12) then Err(InvalidTransaction)
      else if action == "create" then Ok(CreateGame(name, number.value))
      else if action == "take" then Ok(TakeSpace(name, number.value))
      else Err(InvalidTransaction)
  }

  function EntryAt(store: Store, a: string): string
  {
    if a in store then store[a] else ""
  }

  function ApplyPayload(store: Store, address: string -> string, signer: string, p: Payload): (Store, Outcome)
  {
    var a := address(p.name);
    var r := match p
      case CreateGame(name, dim) => StoredCreate(EntryAt(store, a), name, dim)
      case TakeSpace(name, space) => StoredTake(EntryAt(store, a), name, Move(signer, space));
    if r.Ok? then (store[a := r.value], Ok(())) else (store, Err(r.error))
  }

  function ApplyTx(store: Store, address: string -> string, parseInt: string -> Option<int>, tx: Tx): (Store, Outcome)
  {
    match ParsePayload(parseInt, tx.payload)
    case Err(e) => (store, Err(e))
    case Ok(p) => ApplyPayload(store, address, tx.signer, p)
  }

  /** `apply`: parse, load the game, play, store. */
  method Apply(tx: Tx, store: Store, address: string -> string, parseInt: string -> Option<int>)
    returns (store': Store, r: Outcome)
    ensures (store', r) == ApplyTx(store, address, parseInt, tx)
  {
    store' := store;
    var parsed := ParsePayload(parseInt, tx.payload);
    if parsed.Err? { return store, Err(parsed.error); }
    var p := parsed.value;
    var stateEntry := EntryAt(store, address(p.name));
    var stateData := LoadGame(stateEntry, p.name);
    var updated;
    match p {
      case CreateGame(name, dim) =>
        updated := Create(name, dim, stateData);
      case TakeSpace(_, space) =>
        updated := ApplyTake(stateData, tx.signer, space);
    }
    if updated.Err? { return store, Err(updated.error); }
    var data := StoreGame(updated.value, stateEntry);
    if data.Err? { return store, Err(data.error); }
    store', r := store[address(p.name) := data.value], Ok(());
  }

  // ----- which payloads are accepted

  /** k separators in a row. */
  function Commas(k: nat): (s: string)
    ensures |s| == k
  {
    seq(k, _ => ',')
  }

  function Empties(k: nat): (parts: seq<string>)
    ensures |parts| == k
  {
    seq(k, _ => "")
  }

  lemma {:induction false} JoinTrailing(parts: seq<string>, k: nat)
    requires parts != []
    ensures Join(parts + Empties(k), ',') == Join(parts, ',') + Commas(k)
    decreases |parts|, k
  {
    var whole := parts + Empties(k);
    if |parts| > 1 {
      assert whole[1..] == parts[1..] + Empties(k);
      JoinTrailing(parts[1..], k);
    } else if k > 0 {
      assert whole[1..] == [""] + Empties(k - 1);
      JoinTrailing([""], k - 1);
      assert Commas(k) == [','] + Commas(k - 1);
    }
  }

  lemma {:induction false} DropEmpties(parts: seq<string>, k: nat)
    requires parts != [] && parts[|parts| - 1] != ""
    ensures DropTrailingEmpty(parts + Empties(k)) == parts
    decreases k
  {
    if k == 0 {
      assert parts + Empties(0) == parts;
    } else {
      var whole := parts + Empties(k);
      assert whole[..|whole| - 1] == parts + Empties(k - 1);
      DropEmpties(parts, k - 1);
    }
  }

  /** Java's split finds these parts, the last not empty, in exactly the texts that join them and add separators. */
  lemma {:induction false} SplitsInto(s: string, parts: seq<string>)
    requires |parts| > 1 && AllFree(parts, ',') && parts[|parts| - 1] != ""
    ensures JavaSplit(s, ',') == parts <==> exists k :: s == Join(parts, ',') + Commas(k)
  {
    if JavaSplit(s, ',') == parts {
      var all := Split(s, ',');
      JoinSplit(s, ',');
      var k := |all| - |parts|;
      assert all == parts + Empties(k);
      JoinTrailing(parts, k);
      assert s == Join(parts, ',') + Commas(k);
    }
    if k :| s == Join(parts, ',') + Commas(k) {
      JoinTrailing(parts, k);
      SplitJoin(parts + Empties(k), ',');
      DropEmpties(parts, k);
    }
  }

  function ActionOf(x: Payload): string
  {
    if x.CreateGame? then "create" else "take"
  }

  /** The number's text denotes what the payload says. */
  ghost predicate Denotes(parseInt: string -> Option<int>, text: string, x: Payload)
  {
    match x
    case CreateGame(_, dim) => parseInt(text) == Some(dim) && 1 <= dim <= 12
    case TakeSpace(_, space) => parseInt(text) == Some(space)
  }

  /** The text spells the payload, with any number of separators behind it. */
  ghost predicate Spells(parseInt: string -> Option<int>, payload: string, x: Payload, text: string)
  {
    && text != "" && ',' !in text && Denotes(parseInt, text, x)
    && exists k :: payload == Join([x.name, ActionOf(x), text], ',') + Commas(k)
  }

  /** A payload is accepted, and read as x, exactly when it spells x. */
  lemma {:induction false} AcceptedExactly(parseInt: string -> Option<int>, payload: string, x: Payload)
    requires parseInt("") == None
    ensures ParsePayload(parseInt, payload) == Ok(x)
       <==> x.name != "" && Clean(x.name) && exists text :: Spells(parseInt, payload, x, text)
  {
    var parts := JavaSplit(payload, ',');
    JavaSplitFree(payload, ',');
    if ParsePayload(parseInt, payload) == Ok(x) {
      var f := Pad(parts);
      assert f[2] != "" && |parts| == 3;
      assert f[..3] == parts;
      assert parts == [x.name, ActionOf(x), f[2]];
      SplitsInto(payload, parts);
      assert Spells(parseInt, payload, x, f[2]);
    }
    if text :| x.name != "" && Clean(x.name) && Spells(parseInt, payload, x, text) {
      SplitsInto(payload, [x.name, ActionOf(x), text]);
      assert Pad(parts)[..3] == parts;
      assert Pad(parts)[0] == parts[0] && Pad(parts)[1] == parts[1] && Pad(parts)[2] == parts[2];
    }
  }

  // ----- games by address: what the handler does

  /** A game's number of cells and the moves accepted since its creation. */
  datatype Play = Play(cells: nat, moves: seq<Move>)

  datatype Live = Live(name: string, play: Play)

  /** The game at each address. */
  type Lives = map<string, Live>

  ghost predicate ValidName(name: string)
  {
    name != "" && Clean(name)
  }

  /** Signers are public keys: not empty, and free of the separators. */
  ghost predicate ValidTx(tx: Tx)
  {
    tx.signer != "" && Clean(tx.signer)
  }

  ghost predicate PlayOk(name: string, play: Play)
  {
    ValidName(name) && play.cells >= 1 && Legal(play.cells, play.moves) && CleanTakes(play.moves)
  }

  ghost predicate LivesOk(address: string -> string, lives: Lives)
  {
    forall a :: a in lives ==> address(lives[a].name) == a && PlayOk(lives[a].name, lives[a].play)
  }

  ghost function TextOf(name: string, play: Play): string
    requires PlayOk(name, play)
  {
    Csv(GameOf(name, play.cells, play.moves))
  }

  /** Every address with data holds the text of exactly one game. */
  ghost predicate Holds(store: Store, address: string -> string, lives: Lives)
  {
    && LivesOk(address, lives) && store.Keys == lives.Keys
    && forall a :: a in lives ==> store[a] == TextOf(lives[a].name, lives[a].play)
  }

  ghost predicate CanTake(play: Play, take: Move)
  {
    Legal(play.cells, play.moves + [take])
  }

  function Taken(play: Play, take: Move): Play
  {
    play.(moves := play.moves + [take])
  }

  /** What a transaction does where its name's address already has a game, or has none. */
  ghost function LiveStep(address: string -> string, parseInt: string -> Option<int>, lives: Lives, tx: Tx)
    : (Lives, Outcome)
  {
    match ParsePayload(parseInt, tx.payload)
    case Err(e) => (lives, Err(e))
    case Ok(CreateGame(name, dim)) =>
      var a := address(name);
      if a !in lives then (lives[a := Live(name, Play(dim * dim, []))], Ok(()))
      else if name <= lives[a].name then (lives, Err(InvalidTransaction))
      else (lives, Err(RuntimeException))
    case Ok(TakeSpace(name, space)) =>
      var a, take := address(name), Move(tx.signer, space);
      if a in lives && name <= lives[a].name && CanTake(lives[a].play, take) then
        (lives[a := lives[a].(play := Taken(lives[a].play, take))], Ok(()))
      else (lives, Err(InvalidTransaction))
  }

  // ----- one transaction

  lemma {:induction false} EmptyCreates(name: string, dim: nat)
    requires ValidName(name) && dim >= 1
    ensures PlayOk(name, Play(dim * dim, [])) && StoredCreate("", name, dim) == Ok(TextOf(name, Play(dim * dim, [])))
  {
    CreateStarts(name, dim, GetStateData("", name));
    assert dim * dim >= 1;
  }

  /** Loading a name from the text of one game: that game if the name starts its name, nothing otherwise. */
  lemma {:induction false} LoadFromOne(g: GameData, name: string)
    requires CleanRecord(g) && ValidName(name)
    ensures Csv(g) != "" && JavaSplit(Csv(g), '|') == [Csv(g)]
    ensures FirstMatch([Csv(g)], name) == if name <= g.gameName then 0 else 1
    ensures GetStateData(Csv(g), name) == if name <= g.gameName then g else GetStateData("", name)
  {
    CsvFacts(g);
    JavaSplitJoin([Csv(g)], '|');
    PrefixOfName(name, g);
    ReadCsvOf(g);
    if name <= g.gameName { FirstMatchIs([Csv(g)], name, 0); }
  }

  /** Storing into the text of one game: over that game, under a name that starts its name. */
  lemma {:induction false} StoreIntoOne(g: GameData, next: GameData)
    requires CleanRecord(g) && CleanRecord(next)
    ensures StoreGameData(next, Csv(g)) ==
      if next.gameName <= g.gameName then Ok(Csv(next)) else Err(RuntimeException)
  {
    assert Clean(Fields(next)[0]);
    LoadFromOne(g, next.gameName);
    assert [Csv(g)][0 := Csv(next)] == [Csv(next)];
  }

  /** Creating where a game is: taken for that game if the name starts its name; otherwise storing fails. */
  lemma {:induction false} OccupiedCreate(live: Live, name: string, dim: nat)
    requires PlayOk(live.name, live.play) && ValidName(name) && dim >= 1
    ensures StoredCreate(TextOf(live.name, live.play), name, dim) ==
      if name <= live.name then Err(InvalidTransaction) else Err(RuntimeException)
  {
    var g := GameOf(live.name, live.play.cells, live.play.moves);
    GameIsClean(live.name, live.play.cells, live.play.moves);
    LoadFromOne(g, name);
    if !(name <= live.name) {
      EmptyCreates(name, dim);
      CreateStarts(name, dim, GetStateData("", name));
      GameIsClean(name, dim * dim, []);
      StoreIntoOne(g, GameOf(name, dim * dim, []));
    }
  }

  /** A take where a game is: played in that game if the name starts its name, refused otherwise. */
  lemma {:induction false} OccupiedTake(live: Live, name: string, take: Move)
    requires PlayOk(live.name, live.play) && ValidName(name) && take.signer != "" && Clean(take.signer)
    ensures CanTake(live.play, take) ==> PlayOk(live.name, Taken(live.play, take))
    ensures StoredTake(TextOf(live.name, live.play), name, take) ==
      if name <= live.name && CanTake(live.play, take) then Ok(TextOf(live.name, Taken(live.play, take)))
      else Err(InvalidTransaction)
  {
    var play := live.play;
    var g := GameOf(live.name, play.cells, play.moves);
    GameIsClean(live.name, play.cells, play.moves);
    LoadFromOne(g, name);
    if name <= live.name {
      TakeIffLegal(live.name, play.cells, play.moves, take);
      if CanTake(play, take) {
        GameIsClean(live.name, play.cells, play.moves + [take]);
        StoreIntoOne(g, GameOf(live.name, play.cells, play.moves + [take]));
      }
    }
  }

  lemma {:induction false} HoldsAfter(store: Store, address: string -> string, lives: Lives, live: Live)
    requires Holds(store, address, lives) && PlayOk(live.name, live.play)
    ensures Holds(store[address(live.name) := TextOf(live.name, live.play)], address, lives[address(live.name) := live])
  {
  }

  /** For any address function, one transaction does to the texts exactly what `LiveStep` does to the games. */
  lemma {:induction false} StepHolds(store: Store, address: string -> string, parseInt: string -> Option<int>,
                                     lives: Lives, tx: Tx)
    requires Holds(store, address, lives) && ValidTx(tx)
    ensures var (store', outcome) := ApplyTx(store, address, parseInt, tx);
            var (lives', answer) := LiveStep(address, parseInt, lives, tx);
      && Holds(store', address, lives') && outcome == answer
      && (outcome.Err? ==> store' == store)
  {
    var parsed := ParsePayload(parseInt, tx.payload);
    if parsed.Ok? {
      var a := address(parsed.value.name);
      match parsed.value {
        case CreateGame(name, dim) =>
          if a in lives {
            OccupiedCreate(lives[a], name, dim);
          } else {
            EmptyCreates(name, dim);
            HoldsAfter(store, address, lives, Live(name, Play(dim * dim, [])));
          }
        case TakeSpace(name, space) =>
          var take := Move(tx.signer, space);
          if a in lives {
            OccupiedTake(lives[a], name, take);
            if name <= lives[a].name && CanTake(lives[a].play, take) {
              HoldsAfter(store, address, lives, Live(lives[a].name, Taken(lives[a].play, take)));
            }
          }
      }
    }
  }

  // ----- whole runs

  /** A run of transactions: the state after them all, and the answer to each. */
  ghost function Fold<S, A>(step: (S, Tx) -> (S, A), start: S, txs: seq<Tx>): (r: (S, seq<A>))
    ensures |r.1| == |txs|
    decreases |txs|
  {
    if txs == [] then (start, [])
    else
      var last := |txs| - 1;
      var (before, answers) := Fold(step, start, txs[..last]);
      var (after, answer) := step(before, txs[last]);
      (after, answers + [answer])
  }

  /** Answer i of a run is given by the run up to there. */
  lemma {:induction false} FoldAnswer<S, A>(step: (S, Tx) -> (S, A), start: S, txs: seq<Tx>, i: nat)
    requires i < |txs|
    ensures Fold(step, start, txs).1[i] == step(Fold(step, start, txs[..i]).0, txs[i]).1
    decreases |txs|
  {
    var last := |txs| - 1;
    if i < last {
      FoldAnswer(step, start, txs[..last], i);
      assert txs[..last][..i] == txs[..i];
    }
  }

  lemma {:induction false} FoldOne<S, A>(step: (S, Tx) -> (S, A), start: S, tx: Tx)
    ensures Fold(step, start, [tx]) == (step(start, tx).0, [step(start, tx).1])
  {
    var answer := step(start, tx).1;
    assert Fold(step, start, [tx][..0]) == (start, []);
    assert [] + [answer] == [answer];
  }

  lemma {:induction false} FoldTwo<S, A>(step: (S, Tx) -> (S, A), start: S, a: Tx, b: Tx)
    ensures var (mid, first), (end, second) := step(start, a), step(step(start, a).0, b);
      Fold(step, start, [a, b]) == (end, [first, second])
  {
    var first, second := step(start, a).1, step(step(start, a).0, b).1;
    FoldOne(step, start, a);
    assert [a, b][..1] == [a];
    assert [first] + [second] == [first, second];
  }

  ghost function ApplyAll(address: string -> string, parseInt: string -> Option<int>, txs: seq<Tx>)
    : (Store, seq<Outcome>)
  {
    Fold((store: Store, tx) => ApplyTx(store, address, parseInt, tx), map[], txs)
  }

  ghost function LiveAll(address: string -> string, parseInt: string -> Option<int>, txs: seq<Tx>)
    : (Lives, seq<Outcome>)
  {
    Fold((lives: Lives, tx) => LiveStep(address, parseInt, lives, tx), map[], txs)
  }

  /**
   Every run from an empty store, for any address function: every address with data holds the text of exactly one game
   of legal moves, and every answer is that of the games by address.
   */
  lemma {:induction false} RunHolds(address: string -> string, parseInt: string -> Option<int>, txs: seq<Tx>)
    requires forall i :: 0 <= i < |txs| ==> ValidTx(txs[i])
    ensures Holds(ApplyAll(address, parseInt, txs).0, address, LiveAll(address, parseInt, txs).0)
    ensures ApplyAll(address, parseInt, txs).1 == LiveAll(address, parseInt, txs).1
    decreases |txs|
  {
    if txs != [] {
      var last := |txs| - 1;
      RunHolds(address, parseInt, txs[..last]);
      var store, lives := ApplyAll(address, parseInt, txs[..last]).0, LiveAll(address, parseInt, txs[..last]).0;
      StepHolds(store, address, parseInt, lives, txs[last]);
    }
  }

  // ----- games by name: the reference

  type Plays = map<string, Play>

  ghost function RefStep(parseInt: string -> Option<int>, plays: Plays, tx: Tx): (Plays, bool)
  {
    match ParsePayload(parseInt, tx.payload)
    case Err(_) => (plays, false)
    case Ok(CreateGame(name, dim)) =>
      if name in plays then (plays, false) else (plays[name := Play(dim * dim, [])], true)
    case Ok(TakeSpace(name, space)) =>
      if name in plays && CanTake(plays[name], Move(tx.signer, space)) then
        (plays[name := Taken(plays[name], Move(tx.signer, space))], true)
      else (plays, false)
  }

  ghost function RefAll(parseInt: string -> Option<int>, txs: seq<Tx>): (Plays, seq<bool>)
  {
    Fold((plays: Plays, tx) => RefStep(parseInt, plays, tx), map[], txs)
  }

  /** Another live game has this name's address. */
  ghost predicate Meets(address: string -> string, plays: Plays, name: string, other: string)
  {
    other in plays && address(other) == address(name)
  }

  /**
   The transaction is misplaced: it creates a new game where another one lives, or takes a space under the name of no
   game in another game whose name starts with it.
   */
  ghost predicate Misplaced(address: string -> string, parseInt: string -> Option<int>, plays: Plays, tx: Tx)
  {
    match ParsePayload(parseInt, tx.payload)
    case Err(_) => false
    case Ok(CreateGame(name, _)) => name !in plays && exists other :: Meets(address, plays, name, other)
    case Ok(TakeSpace(name, space)) =>
      name !in plays && exists other ::
        Meets(address, plays, name, other) && name <= other && CanTake(plays[other], Move(tx.signer, space))
  }

  ghost predicate SameAt(address: string -> string, lives: Lives, plays: Plays, a: string)
    requires a in lives
  {
    address(lives[a].name) == a && lives[a].name in plays && plays[lives[a].name] == lives[a].play
  }

  /** The same games, by address and by name. */
  ghost predicate Same(address: string -> string, lives: Lives, plays: Plays)
  {
    && (forall a :: a in lives ==> SameAt(address, lives, plays, a))
    && (forall name :: name in plays ==> address(name) in lives && lives[address(name)].name == name)
  }

  /** The live game at a name's address, if any, is the only one by name that has this address. */
  lemma {:induction false} OnlyOneMeets(address: string -> string, lives: Lives, plays: Plays, name: string)
    requires Same(address, lives, plays)
    ensures var a := address(name);
      && (forall other :: Meets(address, plays, name, other) ==> a in lives && lives[a].name == other)
      && (a in lives ==> Meets(address, plays, name, lives[a].name) && plays[lives[a].name] == lives[a].play)
  {
    if address(name) in lives { assert SameAt(address, lives, plays, address(name)); }
  }

  lemma {:induction false} CreateMatches(address: string -> string, lives: Lives, plays: Plays,
                                         name: string, play: Play)
    requires Same(address, lives, plays)
    ensures address(name) !in lives ==>
      name !in plays && Same(address, lives[address(name) := Live(name, play)], plays[name := play])
  {
    if address(name) !in lives {
      var lives', plays' := lives[address(name) := Live(name, play)], plays[name := play];
      forall a | a in lives'
        ensures SameAt(address, lives', plays', a)
      {
        if a != address(name) { assert SameAt(address, lives, plays, a); }
      }
    }
  }

  lemma {:induction false} TakeMatches(address: string -> string, lives: Lives, plays: Plays, name: string, take: Move)
    requires Same(address, lives, plays)
    ensures name in plays ==> address(name) in lives && lives[address(name)] == Live(name, plays[name])
    ensures name in plays ==>
      var play := Taken(plays[name], take);
      Same(address, lives[address(name) := Live(name, play)], plays[name := play])
  {
    if name in plays {
      assert SameAt(address, lives, plays, address(name));
      var play := Taken(plays[name], take);
      var lives', plays' := lives[address(name) := Live(name, play)], plays[name := play];
      forall a | a in lives'
        ensures SameAt(address, lives', plays', a)
      {
        if a != address(name) { assert SameAt(address, lives, plays, a); }
      }
    }
  }

  /** From the same games, a transaction is answered as by the reference exactly when it is not misplaced. */
  lemma {:induction false} StepMatches(address: string -> string, parseInt: string -> Option<int>,
                                       lives: Lives, plays: Plays, tx: Tx)
    requires Same(address, lives, plays)
    ensures var (lives', outcome) := LiveStep(address, parseInt, lives, tx);
            var (plays', allowed) := RefStep(parseInt, plays, tx);
      && ((outcome.Ok? <==> allowed) <==> !Misplaced(address, parseInt, plays, tx))
      && (!Misplaced(address, parseInt, plays, tx) ==>
            Same(address, lives', plays') && (outcome.Err? ==> outcome.error == InvalidTransaction))
  {
    var parsed := ParsePayload(parseInt, tx.payload);
    if parsed.Ok? {
      var name := parsed.value.name;
      OnlyOneMeets(address, lives, plays, name);
      if parsed.value.CreateGame? {
        CreateMatches(address, lives, plays, name, Play(parsed.value.dim * parsed.value.dim, []));
      } else {
        TakeMatches(address, lives, plays, name, Move(tx.signer, parsed.value.space));
      }
    }
  }

  // ----- whole runs against the reference

  ghost predicate ValidTxs(txs: seq<Tx>)
  {
    forall i :: 0 <= i < |txs| ==> ValidTx(txs[i])
  }

  /** Transaction i of the run is answered as by the reference. */
  ghost predicate Answered(address: string -> string, parseInt: string -> Option<int>, txs: seq<Tx>, i: nat)
    requires i < |txs|
  {
    ApplyAll(address, parseInt, txs).1[i].Ok? <==> RefAll(parseInt, txs).1[i]
  }

  /** Transaction i of the run is misplaced among the games the reference has by then. */
  ghost predicate MisplacedAt(address: string -> string, parseInt: string -> Option<int>, txs: seq<Tx>, i: nat)
    requires i < |txs|
  {
    Misplaced(address, parseInt, RefAll(parseInt, txs[..i]).0, txs[i])
  }

  ghost predicate NoneMisplaced(address: string -> string, parseInt: string -> Option<int>, txs: seq<Tx>)
  {
    forall i :: 0 <= i < |txs| ==> !MisplacedAt(address, parseInt, txs, i)
  }

  lemma {:induction false} NoneMisplacedBefore(address: string -> string, parseInt: string -> Option<int>,
                                               txs: seq<Tx>, n: nat)
    requires n <= |txs| && forall i :: 0 <= i < n ==> !MisplacedAt(address, parseInt, txs, i)
    ensures NoneMisplaced(address, parseInt, txs[..n])
  {
    forall i | 0 <= i < n
      ensures !MisplacedAt(address, parseInt, txs[..n], i)
    {
      assert txs[..n][..i] == txs[..i];
      assert !MisplacedAt(address, parseInt, txs, i);
    }
  }

  /** As long as nothing is misplaced the games by address and by name are the same, and so are the answers. */
  lemma {:induction false} RunMatches(address: string -> string, parseInt: string -> Option<int>, txs: seq<Tx>)
    requires NoneMisplaced(address, parseInt, txs)
    ensures Same(address, LiveAll(address, parseInt, txs).0, RefAll(parseInt, txs).0)
    ensures forall i :: 0 <= i < |txs| ==>
      var outcome := LiveAll(address, parseInt, txs).1[i];
      (outcome.Ok? <==> RefAll(parseInt, txs).1[i]) && (outcome.Err? ==> outcome.error == InvalidTransaction)
    decreases |txs|
  {
    if txs != [] {
      var last := |txs| - 1;
      NoneMisplacedBefore(address, parseInt, txs, last);
      RunMatches(address, parseInt, txs[..last]);
      assert !MisplacedAt(address, parseInt, txs, last);
      var lives, plays := LiveAll(address, parseInt, txs[..last]).0, RefAll(parseInt, txs[..last]).0;
      StepMatches(address, parseInt, lives, plays, txs[last]);
    }
  }

  lemma {:induction false} FirstMisplaced(address: string -> string, parseInt: string -> Option<int>,
                                          txs: seq<Tx>, j: nat) returns (i: nat)
    requires j < |txs| && MisplacedAt(address, parseInt, txs, j)
    ensures i <= j && MisplacedAt(address, parseInt, txs, i)
    ensures forall k :: 0 <= k < i ==> !MisplacedAt(address, parseInt, txs, k)
    decreases j
  {
    if k :| 0 <= k < j && MisplacedAt(address, parseInt, txs, k) {
      i := FirstMisplaced(address, parseInt, txs, k);
    } else {
      i := j;
    }
  }

  /** The first misplaced transaction of a run is answered otherwise than by the reference. */
  lemma {:induction false} MisplacedDiffers(address: string -> string, parseInt: string -> Option<int>,
                                            txs: seq<Tx>, i: nat)
    requires ValidTxs(txs) && i < |txs| && MisplacedAt(address, parseInt, txs, i)
    requires forall k :: 0 <= k < i ==> !MisplacedAt(address, parseInt, txs, k)
    ensures !Answered(address, parseInt, txs, i)
  {
    RunHolds(address, parseInt, txs);
    NoneMisplacedBefore(address, parseInt, txs, i);
    RunMatches(address, parseInt, txs[..i]);
    var lives, plays: Plays := LiveAll(address, parseInt, txs[..i]).0, RefAll(parseInt, txs[..i]).0;
    FoldAnswer((l: Lives, tx) => LiveStep(address, parseInt, l, tx), map[], txs, i);
    FoldAnswer((p: Plays, tx) => RefStep(parseInt, p, tx), map[], txs, i);
    StepMatches(address, parseInt, lives, plays, txs[i]);
  }

  /**
   For any address function and every run from an empty store: all answers are the reference's exactly when no
   transaction of the run is misplaced.
   */
  lemma {:induction false} AgreesExactly(address: string -> string, parseInt: string -> Option<int>, txs: seq<Tx>)
    requires ValidTxs(txs)
    ensures NoneMisplaced(address, parseInt, txs) <==>
      forall i :: 0 <= i < |txs| ==> Answered(address, parseInt, txs, i)
  {
    if NoneMisplaced(address, parseInt, txs) {
      RunHolds(address, parseInt, txs);
      RunMatches(address, parseInt, txs);
    } else {
      var j :| 0 <= j < |txs| && MisplacedAt(address, parseInt, txs, j);
      var i := FirstMisplaced(address, parseInt, txs, j);
      MisplacedDiffers(address, parseInt, txs, i);
    }
  }

  // ----- runs whose names do not collide

  /** The transaction names this game. */
  ghost predicate Names(parseInt: string -> Option<int>, tx: Tx, name: string)
  {
    var parsed := ParsePayload(parseInt, tx.payload);
    parsed.Ok? && parsed.value.name == name
  }

  ghost predicate NamedIn(parseInt: string -> Option<int>, txs: seq<Tx>, name: string)
  {
    exists i :: 0 <= i < |txs| && Names(parseInt, txs[i], name)
  }

  /** No two names of the run share an address. */
  ghost predicate Apart(address: string -> string, parseInt: string -> Option<int>, txs: seq<Tx>)
  {
    forall m, n :: NamedIn(parseInt, txs, m) && NamedIn(parseInt, txs, n) && address(m) == address(n) ==> m == n
  }

  lemma {:induction false} PlaysAreNamed(parseInt: string -> Option<int>, txs: seq<Tx>, name: string)
    requires name in RefAll(parseInt, txs).0
    ensures NamedIn(parseInt, txs, name)
    decreases |txs|
  {
    var last := |txs| - 1;
    if name in RefAll(parseInt, txs[..last]).0 {
      PlaysAreNamed(parseInt, txs[..last], name);
      var i :| 0 <= i < last && Names(parseInt, txs[..last][i], name);
      assert Names(parseInt, txs[i], name);
    } else {
      assert Names(parseInt, txs[last], name);
    }
  }

  lemma {:induction false} ApartIsPlaced(address: string -> string, parseInt: string -> Option<int>, txs: seq<Tx>)
    requires Apart(address, parseInt, txs)
    ensures NoneMisplaced(address, parseInt, txs)
  {
    forall i | 0 <= i < |txs|
      ensures !MisplacedAt(address, parseInt, txs, i)
    {
      var plays, parsed := RefAll(parseInt, txs[..i]).0, ParsePayload(parseInt, txs[i].payload);
      if parsed.Ok? {
        assert Names(parseInt, txs[i], parsed.value.name);
        forall other | Meets(address, plays, parsed.value.name, other)
          ensures other == parsed.value.name
        {
          PlaysAreNamed(parseInt, txs[..i], other);
          var k :| 0 <= k < i && Names(parseInt, txs[..i][k], other);
          assert Names(parseInt, txs[k], other);
        }
      }
    }
  }

  /** The store holds the texts of exactly these games, each at its own address. */
  ghost predicate Agrees(store: Store, address: string -> string, plays: Plays)
  {
    && (forall name :: name in plays ==>
          PlayOk(name, plays[name]) && address(name) in store && store[address(name)] == TextOf(name, plays[name]))
    && (forall a :: a in store ==> exists name :: name in plays && address(name) == a)
  }

  lemma {:induction false} SameHeld(store: Store, address: string -> string, lives: Lives, plays: Plays)
    requires Holds(store, address, lives) && Same(address, lives, plays)
    ensures Agrees(store, address, plays)
  {
    forall name | name in plays
      ensures PlayOk(name, plays[name]) && address(name) in store && store[address(name)] == TextOf(name, plays[name])
    {
      assert SameAt(address, lives, plays, address(name));
    }
    forall a | a in store
      ensures exists name :: name in plays && address(name) == a
    {
      assert SameAt(address, lives, plays, a);
    }
  }

  /**
   A run whose own names do not collide: the store holds exactly the texts of the reference's games, every answer is
   the reference's, and every refusal is an invalid transaction.
   */
  lemma {:induction false} RunAgrees(address: string -> string, parseInt: string -> Option<int>, txs: seq<Tx>)
    requires ValidTxs(txs) && Apart(address, parseInt, txs)
    ensures Agrees(ApplyAll(address, parseInt, txs).0, address, RefAll(parseInt, txs).0)
    ensures forall i :: 0 <= i < |txs| ==>
      var outcome := ApplyAll(address, parseInt, txs).1[i];
      (outcome.Ok? <==> RefAll(parseInt, txs).1[i]) && (outcome.Err? ==> outcome.error == InvalidTransaction)
  {
    ApartIsPlaced(address, parseInt, txs);
    RunHolds(address, parseInt, txs);
    RunMatches(address, parseInt, txs);
    var store, lives := ApplyAll(address, parseInt, txs).0, LiveAll(address, parseInt, txs).0;
    SameHeld(store, address, lives, RefAll(parseInt, txs).0);
  }

  /** All runs over these names are answered as by the reference. */
  ghost predicate AlwaysAgrees(address: string -> string, parseInt: string -> Option<int>, names: iset<string>)
  {
    forall txs, i :: ValidTxs(txs) && (forall n :: NamedIn(parseInt, txs, n) ==> n in names) && 0 <= i < |txs| ==>
      Answered(address, parseInt, txs, i)
  }

  ghost predicate InjectiveOn(address: string -> string, names: iset<string>)
  {
    forall m, n :: m in names && n in names && address(m) == address(n) ==> m == n
  }

  function Request(signer: string, name: string, action: string): Tx
  {
    Tx(signer, Join([name, action, "3"], ','))
  }

  function Creation(name: string): Tx
  {
    Request("s", name, "create")
  }

  lemma {:induction false} RequestParses(parseInt: string -> Option<int>, signer: string, name: string, action: string)
    requires ValidName(name) && parseInt("3") == Some(3) && (action == "create" || action == "take")
    ensures ParsePayload(parseInt, Request(signer, name, action).payload)
         == Ok(if action == "create" then CreateGame(name, 3) else TakeSpace(name, 3))
  {
    var f := [name, action, "3"];
    JavaSplitJoin(f, ',');
    assert Pad(f)[..3] == f;
    assert Pad(f)[0] == f[0] && Pad(f)[1] == f[1] && Pad(f)[2] == f[2];
    assert "create"[0] != "take"[0];
  }

  lemma {:induction false} CreationParses(parseInt: string -> Option<int>, name: string)
    requires ValidName(name) && parseInt("3") == Some(3)
    ensures ParsePayload(parseInt, Creation(name).payload) == Ok(CreateGame(name, 3)) && ValidTx(Creation(name))
  {
    RequestParses(parseInt, "s", name, "create");
  }

  lemma {:induction false} FirstMove(signer: string)
    requires signer != ""
    ensures CanTake(Play(9, []), Move(signer, 3))
    ensures Taken(Play(9, []), Move(signer, 3)) == Play(9, [Move(signer, 3)])
  {
    assert [] + [Move(signer, 3)] == [Move(signer, 3)];
    assert SignedBy([Move(signer, 3)], 0);
  }

  lemma {:induction false} LiveElsewhere(address: string -> string, parseInt: string -> Option<int>,
                                         m: string, n: string, signer: string)
    requires ValidName(m) && ValidName(n) && n < m && address(m) == address(n) && parseInt("3") == Some(3)
    requires signer != ""
    ensures var (lives, outcomes) := LiveAll(address, parseInt, [Creation(m), Request(signer, n, "take")]);
      lives == map[address(m) := Live(m, Play(9, [Move(signer, 3)]))] && outcomes == [Ok(()), Ok(())]
  {
    CreationParses(parseInt, m);
    RequestParses(parseInt, signer, n, "take");
    FirstMove(signer);
    FoldTwo((l: Lives, tx) => LiveStep(address, parseInt, l, tx), map[], Creation(m), Request(signer, n, "take"));
  }

  /** A take under the name of no game is played in another game, whose name starts with it, at the same address. */
  lemma {:induction false} TakenElsewhere(address: string -> string, parseInt: string -> Option<int>,
                                          m: string, n: string, signer: string)
    requires ValidName(m) && ValidName(n) && n < m && address(m) == address(n) && parseInt("3") == Some(3)
    requires signer != "" && Clean(signer)
    ensures var (store, outcomes) := ApplyAll(address, parseInt, [Creation(m), Request(signer, n, "take")]);
      && outcomes == [Ok(()), Ok(())]
      && PlayOk(m, Play(9, [Move(signer, 3)]))
      && store == map[address(m) := TextOf(m, Play(9, [Move(signer, 3)]))]
  {
    CreationParses(parseInt, m);
    RunHolds(address, parseInt, [Creation(m), Request(signer, n, "take")]);
    LiveElsewhere(address, parseInt, m, n, signer);
  }

  /** Two names on one address: creating both is a run with a misplaced transaction. */
  lemma {:induction false} CollisionMisplaces(address: string -> string, parseInt: string -> Option<int>,
                                              m: string, n: string)
    requires ValidName(m) && ValidName(n) && m != n && address(m) == address(n) && parseInt("3") == Some(3)
    ensures ValidTxs([Creation(m), Creation(n)])
    ensures forall x :: NamedIn(parseInt, [Creation(m), Creation(n)], x) ==> x == m || x == n
    ensures !NoneMisplaced(address, parseInt, [Creation(m), Creation(n)])
  {
    var txs := [Creation(m), Creation(n)];
    CreationParses(parseInt, m);
    CreationParses(parseInt, n);
    assert txs[..1] == [Creation(m)];
    FoldOne((p: Plays, tx) => RefStep(parseInt, p, tx), map[], Creation(m));
    assert RefAll(parseInt, txs[..1]).0 == map[m := Play(9, [])];
    assert Meets(address, RefAll(parseInt, txs[..1]).0, n, m);
    assert MisplacedAt(address, parseInt, txs, 1);
  }

  /** For any set of names: all runs over them are answered as by the reference exactly when no two share an address. */
  lemma {:induction false} AlwaysAgreesExactly(address: string -> string, parseInt: string -> Option<int>,
                                               names: iset<string>)
    requires parseInt("3") == Some(3) && forall n :: n in names ==> ValidName(n)
    ensures AlwaysAgrees(address, parseInt, names) <==> InjectiveOn(address, names)
  {
    if InjectiveOn(address, names) {
      forall txs, i | ValidTxs(txs) && (forall n :: NamedIn(parseInt, txs, n) ==> n in names) && 0 <= i < |txs|
        ensures Answered(address, parseInt, txs, i)
      {
        RunAgrees(address, parseInt, txs);
      }
    } else {
      var m, n :| m in names && n in names && address(m) == address(n) && m != n;
      CollisionMisplaces(address, parseInt, m, n);
      AgreesExactly(address, parseInt, [Creation(m), Creation(n)]);
    }
  }
}
