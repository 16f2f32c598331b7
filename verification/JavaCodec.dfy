/**
 How the Java variant stores games.  Java's split drops trailing empty parts, so a new game's two empty player
 fields vanish on reading and are padded back; and the record of a game is found by a prefix comparison.
 */
module JavaCodec {
  import opened Wrappers
  import opened Text
  import opened Moves
  import opened JavaGame

  // ----- java.lang.String.split

  function DropTrailingEmpty(parts: seq<string>): (r: seq<string>)
    ensures |r| <= |parts| && r == parts[..|r|]
    ensures r != [] ==> r[|r| - 1] != ""
    ensures forall i :: |r| <= i < |parts| ==> parts[i] == ""
  {
    if parts != [] && parts[|parts| - 1] == "" then DropTrailingEmpty(parts[..|parts| - 1]) else parts
  }

  /** A text without the separator is its own only part, even when empty. */
  function JavaSplit(s: string, sep: char): seq<string>
  {
    var parts := Split(s, sep);
    if |parts| == 1 then parts else DropTrailingEmpty(parts)
  }

  lemma {:induction false} JavaSplitJoin(parts: seq<string>, sep: char)
    requires parts != [] && AllFree(parts, sep) && parts[|parts| - 1] != ""
    ensures JavaSplit(Join(parts, sep), sep) == parts && Join(parts, sep) != ""
  {
    SplitJoin(parts, sep);
    assert Split("", sep) == [""];
  }

  // ----- one record

  function Fields(g: GameData): seq<string>
  {
    [g.gameName, g.board, g.state, g.playerOne, g.playerTwo]
  }

  function Csv(g: GameData): string
  {
    Join(Fields(g), ',')
  }

  /** The stored form of one game. */
  lemma {:induction false} CsvText(g: GameData)
    ensures Csv(g) == g.gameName + [','] + g.board + [','] + g.state + [','] + g.playerOne + [','] + g.playerTwo
  {
    JoinFive(g.gameName, g.board, g.state, g.playerOne, g.playerTwo, ',');
  }

  predicate CleanRecord(g: GameData)
  {
    g.gameName != "" && forall i :: 0 <= i < 5 ==> Clean(Fields(g)[i])
  }

  /** The loop that pads the parts with empty fields up to five. */
  function Pad(parts: seq<string>): (r: seq<string>)
    ensures |r| >= 5 && |r| >= |parts| && r[..|parts|] == parts
    ensures forall i :: |parts| <= i < |r| ==> r[i] == ""
    decreases 5 - |parts|
  {
    if |parts| >= 5 then parts else Pad(parts + [""])
  }

  function ReadCsv(csv: string): GameData
  {
    var f := Pad(JavaSplit(csv, ','));
    GameData(f[0], f[1], f[2], f[3], f[4])
  }

  /** Padding restores exactly the fields that splitting drops. */
  lemma {:induction false} ReadCsvOf(g: GameData)
    requires CleanRecord(g)
    ensures ReadCsv(Csv(g)) == g
  {
    var f := Fields(g);
    SplitJoin(f, ',');
    var kept := DropTrailingEmpty(f);
    assert JavaSplit(Csv(g), ',') == kept;
    var padded := Pad(kept);
    forall i | 0 <= i < 5
      ensures padded[i] == f[i]
    {
      if i < |kept| { assert padded[i] == padded[..|kept|][i] == f[..|kept|][i]; }
    }
  }

  // ----- all records of an address

  /** Index of the first record that starts with the name, or the number of records. */
  function FirstMatch(records: seq<string>, name: string): (i: nat)
    ensures i <= |records|
    ensures i < |records| ==> name <= records[i]
    ensures forall j :: 0 <= j < i ==> !(name <= records[j])
  {
    if records == [] then 0
    else if name <= records[0] then 0
    else 1 + FirstMatch(records[1..], name)
  }

  function GetStateData(stateEntry: string, name: string): GameData
  {
    if stateEntry == "" then GameData("", "", "", "", "")
    else
      var records := JavaSplit(stateEntry, '|');
      var i := FirstMatch(records, name);
      ReadCsv(if i < |records| then records[i] else "")
  }

  /** When no record starts with the name, `ArrayList.set` is called one past the end. */
  function StoreGameData(g: GameData, stateEntry: string): Result<string, Fault>
  {
    if stateEntry == "" then Ok(Csv(g))
    else
      var records := JavaSplit(stateEntry, '|');
      var i := FirstMatch(records, g.gameName);
      if i == |records| then Err(RuntimeException) else Ok(Join(records[i := Csv(g)], '|'))
  }

  lemma {:induction false} FirstMatchIs(records: seq<string>, name: string, k: nat)
    requires k < |records| && name <= records[k]
    requires forall j :: 0 <= j < k ==> !(name <= records[j])
    ensures FirstMatch(records, name) == k
  {
    var i := FirstMatch(records, name);
    if k < i { assert false; }
  }

  method GetGameCsv(stateEntry: string, gameName: string) returns (csv: string)
    ensures var records := JavaSplit(stateEntry, '|'); var i := FirstMatch(records, gameName);
      csv == if i < |records| then records[i] else ""
  {
    var gameCsvList := JavaSplit(stateEntry, '|');
    var k := 0;
    while k < |gameCsvList|
      invariant 0 <= k <= |gameCsvList|
      invariant forall j :: 0 <= j < k ==> !(gameName <= gameCsvList[j])
    {
      if gameName <= gameCsvList[k] {
        FirstMatchIs(gameCsvList, gameName, k);
        return gameCsvList[k];
      }
      k := k + 1;
    }
    csv := "";
  }

  method LoadGame(stateEntry: string, gameName: string) returns (g: GameData)
    ensures g == GetStateData(stateEntry, gameName)
  {
    if stateEntry == "" { return GameData("", "", "", "", ""); }
    var gameCsv := GetGameCsv(stateEntry, gameName);
    var gameList := JavaSplit(gameCsv, ',');
    while |gameList| < 5
      invariant Pad(gameList) == Pad(JavaSplit(gameCsv, ','))
      decreases 5 - |gameList|
    {
      gameList := gameList + [""];
    }
    g := GameData(gameList[0], gameList[1], gameList[2], gameList[3], gameList[4]);
  }

  /** The loop that overwrites a record. */
  method SetGameCsv(dataList: seq<string>, gameName: string, gameDataCsv: string)
    returns (r: Result<seq<string>, Fault>)
    ensures var i := FirstMatch(dataList, gameName);
      r == if i == |dataList| then Err(RuntimeException) else Ok(dataList[i := gameDataCsv])
  {
    var i := 0;
    while i <= |dataList|
      invariant 0 <= i <= |dataList|
      invariant forall j :: 0 <= j < i ==> !(gameName <= dataList[j])
    {
      if i == |dataList| {
        // dataList.set(dataList.size(), ...) throws
        return Err(RuntimeException);
      }
      if gameName <= dataList[i] {
        FirstMatchIs(dataList, gameName, i);
        return Ok(dataList[i := gameDataCsv]);
      }
      i := i + 1;
    }
  }

  method StoreGame(g: GameData, stateEntry: string) returns (r: Result<string, Fault>)
    ensures r == StoreGameData(g, stateEntry)
  {
    var gameDataCsv := Join([g.gameName, g.board, g.state, g.playerOne, g.playerTwo], ',');
    if stateEntry == "" { return Ok(gameDataCsv); }
    var dataList := SetGameCsv(JavaSplit(stateEntry, '|'), g.gameName, gameDataCsv);
    if dataList.Err? { return Err(dataList.error); }
    r := Ok(Join(dataList.value, '|'));
  }

  // ----- storing and loading

  lemma {:induction false} CsvFacts(g: GameData)
    requires CleanRecord(g)
    ensures Csv(g) != "" && '|' !in Csv(g) && g.gameName <= Csv(g)
  {
    JoinFree(Fields(g), ',', '|');
    assert Csv(g) == g.gameName + [','] + Join(Fields(g)[1..], ',');
    assert Csv(g)[..|g.gameName|] == g.gameName;
  }

  lemma {:induction false} JavaSplitFree(s: string, sep: char)
    ensures AllFree(JavaSplit(s, sep), sep)
    ensures JavaSplit(s, sep) != [] && s != "" ==> JavaSplit(s, sep)[|JavaSplit(s, sep)| - 1] != ""
  {
    JoinSplit(s, sep);
  }

  lemma {:induction false} LoadOf(g: GameData, records: seq<string>, i: nat)
    requires CleanRecord(g) && i < |records| && records[i] == Csv(g)
    requires AllFree(records, '|') && records[|records| - 1] != ""
    requires forall j :: 0 <= j < i ==> !(g.gameName <= records[j])
    ensures GetStateData(Join(records, '|'), g.gameName) == g
  {
    CsvFacts(g);
    ReadCsvOf(g);
    JavaSplitJoin(records, '|');
    FirstMatchIs(records, g.gameName, i);
  }

  /**
   Storing works exactly when the address is empty or some record already starts with the name; and whenever it
   works, loading that name gives back the same five fields, whatever else the address holds.
   */
  lemma {:induction false} StoreThenLoad(g: GameData, stateEntry: string)
    requires CleanRecord(g)
    ensures var r := StoreGameData(g, stateEntry);
      && (r.Ok? <==> stateEntry == "" || exists record :: record in JavaSplit(stateEntry, '|') && g.gameName <= record)
      && (r.Ok? ==> GetStateData(r.value, g.gameName) == g)
  {
    CsvFacts(g);
    if stateEntry == "" {
      JavaSplitJoin([Csv(g)], '|');
      LoadOf(g, [Csv(g)], 0);
    } else {
      var records := JavaSplit(stateEntry, '|');
      var i := FirstMatch(records, g.gameName);
      if i < |records| {
        assert records[i] in records;
        JavaSplitFree(stateEntry, '|');
        LoadOf(g, records[i := Csv(g)], i);
      }
    }
  }

  // ----- several games at one address

  ghost predicate CleanGames(games: seq<GameData>)
  {
    forall k :: 0 <= k < |games| ==> CleanRecord(games[k])
  }

  ghost function Csvs(games: seq<GameData>): (rs: seq<string>)
    ensures |rs| == |games|
  {
    seq(|games|, k requires 0 <= k < |games| => Csv(games[k]))
  }

  ghost function Entry(games: seq<GameData>): string
  {
    Join(Csvs(games), '|')
  }

  lemma {:induction false} EntrySplits(games: seq<GameData>)
    requires CleanGames(games) && games != []
    ensures Entry(games) != "" && JavaSplit(Entry(games), '|') == Csvs(games)
  {
    forall k | 0 <= k < |games|
      ensures '|' !in Csvs(games)[k] && Csvs(games)[k] != ""
    {
      CsvFacts(games[k]);
    }
    JavaSplitJoin(Csvs(games), '|');
  }

  /** A comma-free name starts a record exactly when it starts the record's name. */
  lemma {:induction false} PrefixOfName(name: string, g: GameData)
    requires CleanRecord(g) && ',' !in name
    ensures name <= Csv(g) <==> name <= g.gameName
  {
    var rest := Join(Fields(g)[1..], ',');
    assert Csv(g) == g.gameName + [','] + rest;
    assert Csv(g)[|g.gameName|] == ',';
    assert Csv(g)[..|g.gameName|] == g.gameName;
  }

  /** The game whose record a store of `name` overwrites: the first whose name starts with it. */
  ghost function Hit(games: seq<GameData>, name: string): (i: nat)
    ensures i <= |games|
    ensures i < |games| ==> name <= games[i].gameName
    ensures forall j :: 0 <= j < i ==> !(name <= games[j].gameName)
  {
    if games == [] then 0 else if name <= games[0].gameName then 0 else 1 + Hit(games[1..], name)
  }

  lemma {:induction false} HitIsFirstMatch(games: seq<GameData>, name: string)
    requires CleanGames(games) && ',' !in name
    ensures FirstMatch(Csvs(games), name) == Hit(games, name)
  {
    var i := Hit(games, name);
    forall k | 0 <= k < |games|
      ensures name <= Csvs(games)[k] <==> name <= games[k].gameName
    {
      PrefixOfName(name, games[k]);
    }
    if i < |games| { FirstMatchIs(Csvs(games), name, i); }
  }

  /** On an address with games a store overwrites the first whose name starts with the given one, or fails. */
  lemma {:induction false} StoreHits(games: seq<GameData>, g: GameData)
    requires CleanGames(games) && CleanRecord(g)
    ensures var i := Hit(games, g.gameName);
      StoreGameData(g, Entry(games)) ==
        if games == [] then Ok(Entry([g])) else if i < |games| then Ok(Entry(games[i := g])) else Err(RuntimeException)
  {
    if games == [] {
      assert Csvs([g]) == [Csv(g)];
    } else {
      var i := Hit(games, g.gameName);
      assert Clean(Fields(g)[0]);
      EntrySplits(games);
      HitIsFirstMatch(games, g.gameName);
      if i < |games| {
        assert Csvs(games)[i := Csv(g)] == Csvs(games[i := g]);
      }
    }
  }

  ghost predicate DistinctNames(games: seq<GameData>)
  {
    forall i, j :: 0 <= i < j < |games| ==> games[i].gameName != games[j].gameName
  }

  /** The intended effect: g's game takes its own place, or a new one, and every other game stays. */
  ghost predicate Updates(games: seq<GameData>, g: GameData, after: seq<GameData>)
  {
    && g in after
    && forall h :: h in games && h.gameName != g.gameName ==> h in after
  }

  /** The store of g has the intended effect on the address. */
  ghost predicate StoreUpdates(games: seq<GameData>, g: GameData)
  {
    exists after :: CleanGames(after) && StoreGameData(g, Entry(games)) == Ok(Entry(after)) && Updates(games, g, after)
  }

  lemma {:induction false} OwnPlace(games: seq<GameData>, g: GameData, i: nat)
    requires CleanGames(games) && CleanRecord(g) && i < |games| && games[i].gameName == g.gameName
    ensures CleanGames(games[i := g]) && Updates(games, g, games[i := g])
  {
    var stored := games[i := g];
    assert stored[i] == g;
    forall h | h in games && h.gameName != g.gameName
      ensures h in stored
    {
      var k :| 0 <= k < |games| && games[k] == h;
      assert stored[k] == h;
    }
  }

  lemma {:induction false} OtherLost(games: seq<GameData>, g: GameData, i: nat)
    requires DistinctNames(games) && i < |games| && games[i].gameName != g.gameName
    ensures !Updates(games, g, games[i := g])
  {
    var stored, lost := games[i := g], games[i];
    assert lost in games;
    forall k | 0 <= k < |stored|
      ensures stored[k] != lost
    {
      if k < i { assert games[k].gameName != games[i].gameName; }
    }
  }

  lemma {:induction false} EntryInjective(a: seq<GameData>, b: seq<GameData>)
    requires CleanGames(a) && CleanGames(b) && a != [] && b != [] && Entry(a) == Entry(b)
    ensures a == b
  {
    EntrySplits(a);
    EntrySplits(b);
    assert |a| == |Csvs(a)| == |Csvs(b)| == |b|;
    forall k | 0 <= k < |a|
      ensures a[k] == b[k]
    {
      assert Csv(a[k]) == Csvs(a)[k] == Csvs(b)[k] == Csv(b[k]);
      ReadCsvOf(a[k]);
      ReadCsvOf(b[k]);
    }
  }

  lemma {:induction false} StoreLoses(games: seq<GameData>, g: GameData)
    requires CleanGames(games) && games != [] && CleanRecord(g) && DistinctNames(games) && StoreUpdates(games, g)
    ensures var i := Hit(games, g.gameName); i < |games| && games[i].gameName == g.gameName
  {
    var i := Hit(games, g.gameName);
    StoreHits(games, g);
    var after :| CleanGames(after) && StoreGameData(g, Entry(games)) == Ok(Entry(after)) && Updates(games, g, after);
    assert CleanGames(games[i := g]);
    EntryInjective(games[i := g], after);
    if games[i].gameName != g.gameName { OtherLost(games, g, i); }
  }

  /**
   An address behaves as a table of games exactly when it is empty or the first game whose name starts with the
   stored name is the one of that very name: another one would be lost, and with none the store fails.
   */
  lemma {:induction false} StoreUpdatesExactly(games: seq<GameData>, g: GameData)
    requires CleanGames(games) && CleanRecord(g) && DistinctNames(games)
    ensures var i := Hit(games, g.gameName);
      StoreUpdates(games, g) <==> games == [] || (i < |games| && games[i].gameName == g.gameName)
  {
    var i := Hit(games, g.gameName);
    StoreHits(games, g);
    if games == [] {
      assert CleanGames([g]) && Updates(games, g, [g]);
    } else if i < |games| && games[i].gameName == g.gameName {
      OwnPlace(games, g, i);
    } else if StoreUpdates(games, g) {
      StoreLoses(games, g);
    }
  }

  // ----- stored games under play

  /** A take as the handler performs it on the text of an address: load, take, store. */
  function StoredTake(stateEntry: string, name: string, take: Move): Result<string, Fault>
  {
    match Take(GetStateData(stateEntry, name), take.signer, take.space)
    case Err(e) => Err(e)
    case Ok(g) => StoreGameData(g, stateEntry)
  }

  lemma {:induction false} GameIsClean(name: string, cells: nat, log: seq<Move>)
    requires Legal(cells, log) && name != "" && Clean(name)
    requires forall j :: 0 <= j < |log| ==> Clean(log[j].signer)
    ensures CleanRecord(GameOf(name, cells, log))
  {
    NoForeignMark(HQ(cells), log, ',');
    NoForeignMark(HQ(cells), log, '|');
    assert Clean("TIE") && Clean("P1-NEXT") && Clean("P2-NEXT");
  }

  /** With one game at the address, the text before and after any take is that of the game of its legal moves. */
  lemma {:induction false} StoredTakeIffLegal(name: string, cells: nat, log: seq<Move>, take: Move)
    requires cells >= 1 && Legal(cells, log) && name != "" && Clean(name)
    requires forall j :: 0 <= j < |log| ==> Clean(log[j].signer)
    requires take.signer != "" && Clean(take.signer)
    ensures StoredTake(Csv(GameOf(name, cells, log)), name, take)
         == if Legal(cells, log + [take]) then Ok(Csv(GameOf(name, cells, log + [take]))) else Err(InvalidTransaction)
  {
    var g := GameOf(name, cells, log);
    GameIsClean(name, cells, log);
    CsvFacts(g);
    LoadOf(g, [Csv(g)], 0);
    TakeIffLegal(name, cells, log, take);
    if Legal(cells, log + [take]) {
      JavaSplitJoin([Csv(g)], '|');
      FirstMatchIs([Csv(g)], name, 0);
    }
  }

  function StoredCreate(stateEntry: string, name: string, dim: nat): Result<string, Fault>
  {
    match Create(name, dim, GetStateData(stateEntry, name))
    case Err(e) => Err(e)
    case Ok(g) => StoreGameData(g, stateEntry)
  }

  /** The text of an address after a list of takes, refused ones leaving it alone. */
  ghost function StoredPlay(stateEntry: string, name: string, takes: seq<Move>): string
    decreases |takes|
  {
    if takes == [] then stateEntry
    else
      var r := StoredTake(stateEntry, name, takes[0]);
      StoredPlay(if r.Ok? then r.value else stateEntry, name, takes[1..])
  }

  ghost predicate CleanTakes(takes: seq<Move>)
  {
    forall j :: 0 <= j < |takes| ==> takes[j].signer != "" && Clean(takes[j].signer)
  }

  lemma {:induction false} StoredPlayIsLegal(name: string, cells: nat, log: seq<Move>, takes: seq<Move>)
    returns (final: seq<Move>)
    requires cells >= 1 && name != "" && Clean(name) && CleanTakes(log) && CleanTakes(takes) && Legal(cells, log)
    ensures Legal(cells, final)
    ensures StoredPlay(Csv(GameOf(name, cells, log)), name, takes) == Csv(GameOf(name, cells, final))
    decreases |takes|
  {
    if takes == [] {
      final := log;
    } else {
      StoredTakeIffLegal(name, cells, log, takes[0]);
      var next := if Legal(cells, log + [takes[0]]) then log + [takes[0]] else log;
      final := StoredPlayIsLegal(name, cells, next, takes[1..]);
    }
  }

  /** Creating on an empty address and taking in any way: the text is always that of the game of some legal moves. */
  lemma {:induction false} StoredGame(name: string, n: nat, takes: seq<Move>) returns (log: seq<Move>)
    requires n >= 1 && name != "" && Clean(name) && CleanTakes(takes)
    ensures StoredCreate("", name, n).Ok?
    ensures Legal(n * n, log)
    ensures StoredPlay(StoredCreate("", name, n).value, name, takes) == Csv(GameOf(name, n * n, log))
  {
    CreateStarts(name, n, GetStateData("", name));
    log := StoredPlayIsLegal(name, n * n, [], takes);
  }
}
