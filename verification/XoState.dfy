/**
 The per-transaction game cache over the validator's byte store.

 `View` is the state of the two together and the functions on it say what each operation does, for any
 store contents and any address function.  The lemmas then show that the pair behaves as a plain map from
 name to game, however names collide on addresses.
 */
module XoState {
  import opened Wrappers
  import opened Text
  import opened XoCodec

  /** `cache` is `_address_cache`: None under an address stands for Python's None. */
  datatype View = View(store: map<string, string>, cache: map<string, Option<string>>)

  // ----- what the operations do

  function Load(v: View, a: string): (View, Result<Games, Failure>)
  {
    if a in v.cache then
      if v.cache[a].Some? && v.cache[a].value != "" then (v, Deserialize(v.cache[a].value)) else (v, Ok(map[]))
    else if a in v.store && v.store[a] != "" then
      (v.(cache := v.cache[a := Some(v.store[a])]), Deserialize(v.store[a]))
    else
      (v.(cache := v.cache[a := None]), Ok(map[]))
  }

  ghost function Store(v: View, a: string, games: Games): View
  {
    View(v.store[a := Serialize(games)], v.cache[a := Some(Serialize(games))])
  }

  function Erase(v: View, a: string): View
  {
    View(v.store - {a}, v.cache[a := None])
  }

  function GetResult(v: View, a: string, name: string): Result<Option<Game>, Failure>
  {
    match Load(v, a).1
    case Err(e) => Err(e)
    case Ok(games) => Ok(if name in games then Some(games[name]) else None)
  }

  ghost function SetView(v: View, a: string, name: string, game: Game): View
  {
    var (w, loaded) := Load(v, a);
    if loaded.Err? then w else Store(w, a, loaded.value[name := game])
  }

  ghost function DeleteView(v: View, a: string, name: string): View
  {
    var (w, loaded) := Load(v, a);
    if loaded.Err? || name !in loaded.value then w
    else if loaded.value - {name} != map[] then Store(w, a, loaded.value - {name})
    else Erase(w, a)
  }

  // ----- refinement of a plain map

  /** The games of a ledger that live at address a. */
  ghost function Bucket(ledger: Games, address: string -> string, a: string): Games
  {
    map name | name in ledger && address(name) == a :: ledger[name]
  }

  /** Separator-free games filed under their own names. */
  ghost predicate CleanLedger(ledger: Games)
  {
    CleanGames(ledger) && forall name :: name in ledger ==> ledger[name].name == name
  }

  ghost predicate StoresAt(store: map<string, string>, address: string -> string, ledger: Games, a: string)
  {
    if Bucket(ledger, address, a) == map[] then a !in store
    else a in store && store[a] == Serialize(Bucket(ledger, address, a))
  }

  /** The store holds exactly the non-empty buckets of the ledger, each as its canonical text. */
  ghost predicate Stores(store: map<string, string>, address: string -> string, ledger: Games)
  {
    forall a :: StoresAt(store, address, ledger, a)
  }

  /** Every cached address agrees with the store. */
  ghost predicate Coherent(v: View)
  {
    forall a :: a in v.cache ==>
      if v.cache[a].None? then a !in v.store else a in v.store && v.store[a] == v.cache[a].value
  }

  ghost predicate Represents(v: View, address: string -> string, ledger: Games)
  {
    CleanLedger(ledger) && Stores(v.store, address, ledger) && Coherent(v)
  }

  /** Whatever is stored is never the empty text. */
  lemma {:induction false} NeverEmpty(v: View, address: string -> string, ledger: Games, a: string)
    requires Represents(v, address, ledger)
    ensures a in v.store ==> v.store[a] != ""
  {
    assert StoresAt(v.store, address, ledger, a);
    var b := Bucket(ledger, address, a);
    if b != map[] { RoundTrip(b); }
  }

  /** Loading an address yields its games, and caches them: the store is not asked for that address again. */
  lemma {:induction false} LoadRefines(v: View, address: string -> string, ledger: Games, a: string)
    requires Represents(v, address, ledger)
    ensures Load(v, a).1 == Ok(Bucket(ledger, address, a))
    ensures Represents(Load(v, a).0, address, ledger) && Load(v, a).0.store == v.store
    ensures forall store :: Load(View(store, Load(v, a).0.cache), a).1 == Load(v, a).1
  {
    var b := Bucket(ledger, address, a);
    assert StoresAt(v.store, address, ledger, a);
    NeverEmpty(v, address, ledger, a);
    if b != map[] {
      assert CleanGames(b);
      RoundTripExactly(b);
    }
  }

  /** `get_game` answers as the map does. */
  lemma {:induction false} GetRefines(v: View, address: string -> string, ledger: Games, name: string)
    requires Represents(v, address, ledger)
    ensures GetResult(v, address(name), name) == Ok(if name in ledger then Some(ledger[name]) else None)
  {
    LoadRefines(v, address, ledger, address(name));
  }

  lemma {:induction false} SameBucket(address: string -> string, ledger: Games, ledger': Games, b: string)
    requires forall n :: address(n) == b ==>
      (n in ledger' <==> n in ledger) && (n in ledger ==> ledger'[n] == ledger[n])
    ensures Bucket(ledger', address, b) == Bucket(ledger, address, b)
  {
    var x, y := Bucket(ledger, address, b), Bucket(ledger', address, b);
    assert forall n :: n in x <==> n in y;
    assert forall n :: n in x ==> x[n] == y[n];
  }

  /** Rewriting one bucket: the other addresses, and so the games there, are untouched. */
  lemma {:induction false} OneBucket(v: View, w: View, address: string -> string,
                                     ledger: Games, ledger': Games, a: string)
    requires Represents(v, address, ledger) && CleanLedger(ledger')
    requires w ==
      if Bucket(ledger', address, a) == map[] then Erase(v, a) else Store(v, a, Bucket(ledger', address, a))
    requires forall n :: address(n) != a ==>
      (n in ledger' <==> n in ledger) && (n in ledger ==> ledger'[n] == ledger[n])
    ensures Represents(w, address, ledger')
  {
    forall b
      ensures StoresAt(w.store, address, ledger', b)
    {
      if b != a {
        assert StoresAt(v.store, address, ledger, b);
        SameBucket(address, ledger, ledger', b);
      }
    }
  }

  lemma {:induction false} BucketAfterSet(address: string -> string, ledger: Games, name: string, game: Game)
    ensures Bucket(ledger[name := game], address, address(name)) == Bucket(ledger, address, address(name))[name := game]
    ensures Bucket(ledger[name := game], address, address(name)) != map[]
  {
    assert name in Bucket(ledger[name := game], address, address(name));
  }

  /** `set_game` updates the map at that name only, also when other games share the address. */
  lemma {:induction false} SetRefines(v: View, address: string -> string, ledger: Games, name: string, game: Game)
    requires Represents(v, address, ledger)
    requires CleanGame(name, game) && game.name == name
    ensures Load(v, address(name)).1.Ok?
    ensures Represents(SetView(v, address(name), name, game), address, ledger[name := game])
  {
    var a, ledger' := address(name), ledger[name := game];
    LoadRefines(v, address, ledger, a);
    BucketAfterSet(address, ledger, name, game);
    OneBucket(Load(v, a).0, SetView(v, a, name, game), address, ledger, ledger', a);
  }

  /** `delete_game` removes that name only, and the last game of an address takes the address with it. */
  lemma {:induction false} DeleteRefines(v: View, address: string -> string, ledger: Games, name: string)
    requires Represents(v, address, ledger)
    ensures Load(v, address(name)).1.Ok? && (name in Load(v, address(name)).1.value <==> name in ledger)
    ensures Represents(DeleteView(v, address(name), name), address, ledger - {name})
  {
    var a, ledger' := address(name), ledger - {name};
    LoadRefines(v, address, ledger, a);
    assert Bucket(ledger', address, a) == Bucket(ledger, address, a) - {name};
    if name in ledger {
      OneBucket(Load(v, a).0, DeleteView(v, a, name), address, ledger, ledger', a);
    } else {
      assert ledger' == ledger;
    }
  }

  // ----- whole runs of cache operations

  datatype Op = Get(name: string) | Set(name: string, game: Game) | Delete(name: string)

  ghost predicate CleanOp(op: Op)
  {
    op.Set? ==> CleanGame(op.name, op.game) && op.game.name == op.name
  }

  /** What the caller sees of one operation: the game read, if any, or the KeyError of deleting a missing game. */
  datatype Answer = Read(game: Option<Game>) | Done | Failed(failure: Failure)

  ghost function Perform(v: View, address: string -> string, op: Op): (View, Answer)
  {
    var a := address(op.name);
    var loaded := Load(v, a).1;
    match op
    case Get(name) =>
      (Load(v, a).0, match GetResult(v, a, name) case Ok(g) => Read(g) case Err(e) => Failed(e))
    case Set(name, game) =>
      (SetView(v, a, name, game), if loaded.Err? then Failed(loaded.error) else Done)
    case Delete(name) =>
      (DeleteView(v, a, name),
       if loaded.Err? then Failed(loaded.error) else if name in loaded.value then Done else Failed(PythonError))
  }

  /** The same operation on a plain map. */
  ghost function PerformOnMap(ledger: Games, op: Op): (Games, Answer)
  {
    match op
    case Get(name) => (ledger, Read(if name in ledger then Some(ledger[name]) else None))
    case Set(name, game) => (ledger[name := game], Done)
    case Delete(name) => (ledger - {name}, if name in ledger then Done else Failed(PythonError))
  }

  ghost function PerformAll(v: View, address: string -> string, ops: seq<Op>): (View, seq<Answer>)
    decreases |ops|
  {
    if ops == [] then (v, [])
    else
      var (w, first) := Perform(v, address, ops[0]);
      var (u, rest) := PerformAll(w, address, ops[1..]);
      (u, [first] + rest)
  }

  ghost function PerformAllOnMap(ledger: Games, ops: seq<Op>): (Games, seq<Answer>)
    decreases |ops|
  {
    if ops == [] then (ledger, [])
    else
      var (w, first) := PerformOnMap(ledger, ops[0]);
      var (u, rest) := PerformAllOnMap(w, ops[1..]);
      (u, [first] + rest)
  }

  /** After any operations the cache and store together still are the map, and every answer was the map's. */
  lemma {:induction false} CacheRefinesMap(v: View, address: string -> string, ledger: Games, ops: seq<Op>)
    requires Represents(v, address, ledger)
    requires forall i :: 0 <= i < |ops| ==> CleanOp(ops[i])
    ensures PerformAll(v, address, ops).1 == PerformAllOnMap(ledger, ops).1
    ensures Represents(PerformAll(v, address, ops).0, address, PerformAllOnMap(ledger, ops).0)
    decreases |ops|
  {
    if ops != [] {
      var op := ops[0];
      LoadRefines(v, address, ledger, address(op.name));
      match op {
        case Get(name) => GetRefines(v, address, ledger, name);
        case Set(name, game) => SetRefines(v, address, ledger, name, game);
        case Delete(name) => DeleteRefines(v, address, ledger, name);
      }
      CacheRefinesMap(Perform(v, address, op).0, address, PerformOnMap(ledger, op).0, ops[1..]);
    }
  }

  // ----- the classes

  /** The validator's state as one transaction sees it. */
  class Context {
    var store: map<string, string>

    constructor (store: map<string, string>)
      ensures this.store == store
    {
      this.store := store;
    }

    /** Entries without data are dropped from the answer. */
    method GetState(address: string) returns (entries: seq<string>)
      ensures entries == if address in store && store[address] != "" then [store[address]] else []
    {
      entries := [];
      if address in store && |store[address]| != 0 {
        entries := entries + [store[address]];
      }
    }

    method SetState(address: string, data: string)
      modifies this
      ensures store == old(store)[address := data]
    {
      store := store[address := data];
    }

    method DeleteState(address: string)
      modifies this
      ensures store == old(store) - {address}
    {
      store := store - {address};
    }
  }

  /** One bad record makes the whole text unreadable. */
  lemma {:induction false} ParseRecordsFails(records: seq<string>, i: nat)
    requires i < |records| && ParseRecord(records[i]) == None
    requires ParseRecords(records[..i]).Ok?
    ensures ParseRecords(records) == Err(InternalError(BadGameData))
    decreases |records|
  {
    var last := |records| - 1;
    if i < last {
      assert records[..last][..i] == records[..i];
      ParseRecordsFails(records[..last], i);
    }
  }

  method DeserializeGames(data: string) returns (r: Result<Games, Failure>)
    ensures r == Deserialize(data)
  {
    var parts := Split(data, '|');
    var games: Games := map[];
    var i := 0;
    assert parts[..0] == [];
    while i < |parts|
      invariant 0 <= i <= |parts|
      invariant ParseRecords(parts[..i]) == Ok(games)
    {
      assert parts[..i + 1][..i] == parts[..i];
      var parsed := ParseRecord(parts[i]);
      if parsed.None? {
        ParseRecordsFails(parts, i);
        return Err(InternalError(BadGameData));
      }
      games := games[parsed.value.0 := parsed.value.1];
      i := i + 1;
    }
    assert parts[..i] == parts;
    r := Ok(games);
  }

  /** Writes the games in whatever order the dictionary yields them. */
  method SerializeGames(games: Games) returns (data: string)
    ensures data == Serialize(games)
  {
    var gameStrs: seq<string> := [];
    var left := games.Keys;
    ghost var keys: seq<string> := [];
    while left != {}
      invariant left <= games.Keys
      invariant multiset(keys) + multiset(left) == multiset(games.Keys)
      invariant forall k :: k in keys ==> k in games
      invariant gameStrs == Records(games, keys)
      decreases |left|
    {
      var name :| name in left;
      var gameStr := Join([name, games[name].board, games[name].state, games[name].player1, games[name].player2], ',');
      RecordsConcat(games, keys, [name]);
      assert left == (left - {name}) + {name};
      gameStrs, keys, left := gameStrs + [gameStr], keys + [name], left - {name};
    }
    SerializeCanonical(games, keys);
    data := Join(Sort(gameStrs), '|');
  }

  class XoState {
    const context: Context
    const address: string -> string
    var addressCache: map<string, Option<string>>

    ghost function Now(): View
      reads this, context
    {
      View(context.store, addressCache)
    }

    constructor (context: Context, address: string -> string)
      ensures this.context == context && this.address == address && addressCache == map[]
    {
      this.context, this.address, this.addressCache := context, address, map[];
    }

    method DeleteGame(gameName: string) returns (r: Result<(), Failure>)
      modifies this, context
      ensures Now() == DeleteView(old(Now()), address(gameName), gameName)
      ensures var loaded := Load(old(Now()), address(gameName)).1;
        r == if loaded.Err? then Err(loaded.error) else if gameName in loaded.value then Ok(()) else Err(PythonError)
    {
      var loaded := LoadGames(gameName);
      if loaded.Err? { return Err(loaded.error); }
      var games := loaded.value;
      if gameName !in games { return Err(PythonError); }
      games := games - {gameName};
      if |games| != 0 {
        StoreGame(gameName, games);
      } else {
        EraseGame(gameName);
      }
      r := Ok(());
    }

    method SetGame(gameName: string, game: Game) returns (r: Result<(), Failure>)
      modifies this, context
      ensures Now() == SetView(old(Now()), address(gameName), gameName, game)
      ensures var loaded := Load(old(Now()), address(gameName)).1;
        r == if loaded.Err? then Err(loaded.error) else Ok(())
    {
      var loaded := LoadGames(gameName);
      if loaded.Err? { return Err(loaded.error); }
      StoreGame(gameName, loaded.value[gameName := game]);
      r := Ok(());
    }

    method GetGame(gameName: string) returns (r: Result<Option<Game>, Failure>)
      modifies this
      ensures Now() == Load(old(Now()), address(gameName)).0
      ensures r == GetResult(old(Now()), address(gameName), gameName)
    {
      var loaded := LoadGames(gameName);
      if loaded.Err? { return Err(loaded.error); }
      r := Ok(if gameName in loaded.value then Some(loaded.value[gameName]) else None);
    }

    method StoreGame(gameName: string, games: Games)
      modifies this, context
      ensures Now() == Store(old(Now()), address(gameName), games)
      ensures context.store == old(context.store)[address(gameName) := Serialize(games)]
      ensures addressCache == old(addressCache)[address(gameName) := Some(Serialize(games))]
    {
      var stateData := SerializeGames(games);
      addressCache := addressCache[address(gameName) := Some(stateData)];
      context.SetState(address(gameName), stateData);
    }

    method EraseGame(gameName: string)
      modifies this, context
      ensures Now() == Erase(old(Now()), address(gameName))
      ensures context.store == old(context.store) - {address(gameName)}
      ensures addressCache == old(addressCache)[address(gameName) := None]
    {
      context.DeleteState(address(gameName));
      addressCache := addressCache[address(gameName) := None];
    }

    method LoadGames(gameName: string) returns (r: Result<Games, Failure>)
      modifies this
      ensures (Now(), r) == Load(old(Now()), address(gameName))
    {
      var a := address(gameName);
      if a in addressCache {
        if addressCache[a].Some? && addressCache[a].value != "" {
          r := DeserializeGames(addressCache[a].value);
        } else {
          r := Ok(map[]);
        }
      } else {
        var stateEntries := context.GetState(a);
        if |stateEntries| != 0 {
          addressCache := addressCache[a := Some(stateEntries[0])];
          r := DeserializeGames(stateEntries[0]);
        } else {
          addressCache := addressCache[a := None];
          r := Ok(map[]);
        }
      }
    }
  }
}
