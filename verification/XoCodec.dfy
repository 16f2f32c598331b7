/**
 How games are stored: each game is one comma-separated record, and all games that share an address are
 kept as one text, sorted and separated by bars.
 */
module XoCodec {
  import opened Wrappers
  import opened Text

  datatype Game = Game(name: string, board: string, state: string, player1: string, player2: string)

  type Games = map<string, Game>

  datatype Reason = BadSerialization | NameRequired | NameHasBar | ActionRequired | UnknownAction | BadSpace
                  | NoSuchGame | GameExists | GameEnded | NotYourTurn | SpaceTaken

  datatype Cause = BadGameData | TwoWinners | UnhandledState

  /** PythonError stands for an exception the handler does not raise itself: KeyError, IndexError, UnboundLocalError. */
  datatype Failure = InvalidTransaction(reason: Reason) | InternalError(cause: Cause) | PythonError

  // ----- writing

  function Fields(name: string, g: Game): seq<string>
  {
    [name, g.board, g.state, g.player1, g.player2]
  }

  function Record(name: string, g: Game): string
  {
    Join(Fields(name, g), ',')
  }

  /** The stored form of one game. */
  lemma {:induction false} RecordText(name: string, g: Game)
    ensures Record(name, g) == name + [','] + g.board + [','] + g.state + [','] + g.player1 + [','] + g.player2
  {
    JoinFive(name, g.board, g.state, g.player1, g.player2, ',');
  }

  /** The records in the order in which the dictionary lists its keys. */
  function Records(games: Games, keys: seq<string>): (rs: seq<string>)
    requires forall k :: k in keys ==> k in games
    ensures |rs| == |keys|
  {
    if keys == [] then [] else [Record(keys[0], games[keys[0]])] + Records(games, keys[1..])
  }

  /** `keys` lists every key of the dictionary exactly once. */
  ghost predicate OrderOf(keys: seq<string>, games: Games)
  {
    multiset(keys) == multiset(games.Keys)
  }

  lemma {:induction false} OrderMembers(keys: seq<string>, games: Games)
    requires OrderOf(keys, games)
    ensures forall k :: k in keys <==> k in games
  {
    assert forall k :: k in keys <==> k in multiset(keys);
  }

  ghost function SomeOrder(s: set<string>): (keys: seq<string>)
    ensures multiset(keys) == multiset(s)
  {
    if s == {} then [] else
      var k :| k in s;
      assert s == (s - {k}) + {k};
      [k] + SomeOrder(s - {k})
  }

  function SerializeInOrder(games: Games, keys: seq<string>): string
    requires forall k :: k in keys ==> k in games
  {
    Join(Sort(Records(games, keys)), '|')
  }

  ghost function Serialize(games: Games): string
  {
    OrderMembers(SomeOrder(games.Keys), games);
    SerializeInOrder(games, SomeOrder(games.Keys))
  }

  // ----- the text does not depend on the dictionary's order

  lemma {:induction false} RecordsConcat(games: Games, a: seq<string>, b: seq<string>)
    requires forall k :: k in a + b ==> k in games
    requires forall k :: k in a ==> k in games
    requires forall k :: k in b ==> k in games
    ensures Records(games, a + b) == Records(games, a) + Records(games, b)
    decreases |a|
  {
    if a == [] {
      assert a + b == b;
    } else {
      assert (a + b)[1..] == a[1..] + b;
      RecordsConcat(games, a[1..], b);
    }
  }

  lemma {:induction false} RecordsWithout(games: Games, keys: seq<string>, i: nat)
    requires forall k :: k in keys ==> k in games
    requires i < |keys|
    ensures forall k :: k in keys[..i] + keys[i + 1..] ==> k in games
    ensures multiset(Records(games, keys))
         == multiset(Records(games, keys[..i] + keys[i + 1..])) + multiset{Record(keys[i], games[keys[i]])}
  {
    var l, r := keys[..i], keys[i + 1..];
    RemoveAt(keys, i);
    RecordsConcat(games, l, r);
    RecordsConcat(games, l, [keys[i]] + r);
    assert ([keys[i]] + r)[1..] == r;
  }

  /** Dropping the first key of one order and its occurrence in another leaves two orders of the same keys. */
  lemma {:induction false} DropFirst(keys: seq<string>, other: seq<string>) returns (i: nat)
    requires multiset(keys) == multiset(other) && keys != []
    ensures i < |other| && other[i] == keys[0]
    ensures multiset(keys[1..]) == multiset(other[..i] + other[i + 1..])
  {
    SameMembers(keys, other);
    assert keys[0] in other;
    i :| 0 <= i < |other| && other[i] == keys[0];
    assert keys == [keys[0]] + keys[1..];
    RemoveAt(other, i);
  }

  lemma {:induction false} RecordsReordered(games: Games, keys: seq<string>, other: seq<string>)
    requires forall k :: k in keys ==> k in games
    requires forall k :: k in other ==> k in games
    requires multiset(keys) == multiset(other)
    ensures multiset(Records(games, keys)) == multiset(Records(games, other))
    decreases |keys|
  {
    if keys == [] {
      SameMembers(keys, other);
    } else {
      var i := DropFirst(keys, other);
      RecordsWithout(games, other, i);
      RecordsReordered(games, keys[1..], other[..i] + other[i + 1..]);
    }
  }

  /** Any two dictionaries with equal entries give identical text, whatever their insertion order. */
  lemma {:induction false} SerializeCanonical(games: Games, keys: seq<string>)
    requires OrderOf(keys, games)
    ensures forall k :: k in keys ==> k in games
    ensures SerializeInOrder(games, keys) == Serialize(games)
  {
    var some := SomeOrder(games.Keys);
    OrderMembers(keys, games);
    OrderMembers(some, games);
    RecordsReordered(games, keys, some);
    SortSorted(Records(games, keys));
    SortSorted(Records(games, some));
    SortedUnique(Sort(Records(games, keys)), Sort(Records(games, some)));
  }

  // ----- reading

  function ParseRecord(record: string): Option<(string, Game)>
  {
    var f := Split(record, ',');
    if |f| == 5 then Some((f[0], Game(f[0], f[1], f[2], f[3], f[4]))) else None
  }

  /** A later record with the same name replaces an earlier one; a record without exactly five fields is fatal. */
  function ParseRecords(records: seq<string>): Result<Games, Failure>
  {
    if records == [] then Ok(map[])
    else
      match ParseRecords(records[..|records| - 1])
      case Err(e) => Err(e)
      case Ok(games) =>
        match ParseRecord(records[|records| - 1])
        case None => Err(InternalError(BadGameData))
        case Some((name, game)) => Ok(games[name := game])
  }

  function Deserialize(data: string): Result<Games, Failure>
  {
    ParseRecords(Split(data, '|'))
  }

  /** The record has exactly five fields. */
  predicate Readable(record: string)
  {
    |Split(record, ',')| == 5
  }

  function GameIn(record: string): Game
    requires Readable(record)
  {
    var f := Split(record, ',');
    Game(f[0], f[1], f[2], f[3], f[4])
  }

  /** Record i is the last one with this name. */
  ghost predicate LastNamed(records: seq<string>, i: int, name: string)
  {
    && 0 <= i < |records| && Readable(records[i]) && GameIn(records[i]).name == name
    && forall j :: i < j < |records| ==> !Readable(records[j]) || GameIn(records[j]).name != name
  }

  /** The games are those of the last record of each name. */
  ghost predicate GamesFrom(records: seq<string>, games: Games)
  {
    forall name :: if name in games then exists i :: LastNamed(records, i, name) && games[name] == GameIn(records[i])
                   else forall i :: 0 <= i < |records| ==> !Readable(records[i]) || GameIn(records[i]).name != name
  }

  lemma {:induction false} OneMoreRecord(records: seq<string>, games: Games, record: string)
    requires Readable(record) && GamesFrom(records, games)
    ensures GamesFrom(records + [record], games[GameIn(record).name := GameIn(record)])
  {
    var longer, after := records + [record], games[GameIn(record).name := GameIn(record)];
    forall name
      ensures if name in after then exists i :: LastNamed(longer, i, name) && after[name] == GameIn(longer[i])
              else forall i :: 0 <= i < |longer| ==> !Readable(longer[i]) || GameIn(longer[i]).name != name
    {
      if name == GameIn(record).name {
        assert LastNamed(longer, |records|, name);
      } else if name in games {
        var i :| LastNamed(records, i, name) && games[name] == GameIn(records[i]);
        assert LastNamed(longer, i, name);
      }
    }
  }

  /** Reading fails exactly if some record is not readable; otherwise it gives the last record's game of each name. */
  lemma {:induction false} ParsesExactly(records: seq<string>)
    ensures var r := ParseRecords(records);
      if forall i :: 0 <= i < |records| ==> Readable(records[i]) then r.Ok? && GamesFrom(records, r.value)
      else r == Err(InternalError(BadGameData))
    decreases |records|
  {
    if records != [] {
      var last := |records| - 1;
      var front, before := records[..last], ParseRecords(records[..last]);
      ParsesExactly(front);
      assert forall i :: 0 <= i < last ==> front[i] == records[i];
      if (forall i :: 0 <= i < |records| ==> Readable(records[i])) {
        OneMoreRecord(front, before.value, records[last]);
        assert front + [records[last]] == records;
      }
    }
  }

  // ----- round trip

  predicate CleanGame(name: string, g: Game)
  {
    Clean(name) && Clean(g.board) && Clean(g.state) && Clean(g.player1) && Clean(g.player2)
  }

  predicate CleanGames(games: Games)
  {
    forall name :: name in games ==> CleanGame(name, games[name])
  }

  /** What comes back: the name field is taken from the key. */
  function Named(games: Games): Games
  {
    map name | name in games :: games[name].(name := name)
  }

  lemma {:induction false} ParseRecordOf(name: string, g: Game)
    requires CleanGame(name, g)
    ensures ParseRecord(Record(name, g)) == Some((name, g.(name := name)))
    ensures '|' !in Record(name, g) && Record(name, g) != ""
  {
    SplitJoin(Fields(name, g), ',');
    JoinFree(Fields(name, g), ',', '|');
  }

  ghost function Pick(games: Games, names: seq<string>): Games
  {
    map n | n in names && n in games :: games[n].(name := n)
  }

  /** Reading back the records of some of the games, in any order. */
  lemma {:induction false} ParseRecordsOf(games: Games, records: seq<string>, names: seq<string>)
    requires CleanGames(games)
    requires |names| == |records|
    requires forall i :: 0 <= i < |names| ==> names[i] in games && records[i] == Record(names[i], games[names[i]])
    ensures ParseRecords(records) == Ok(Pick(games, names))
    decreases |records|
  {
    if records != [] {
      var last := |records| - 1;
      var front, n := names[..last], names[last];
      ParseRecordsOf(games, records[..last], front);
      ParseRecordOf(n, games[n]);
      assert names == front + [n];
      assert Pick(games, front)[n := games[n].(name := n)] == Pick(games, names);
    }
  }

  lemma {:induction false} RecordsAt(games: Games, keys: seq<string>, i: nat)
    requires forall k :: k in keys ==> k in games
    requires i < |keys|
    ensures Records(games, keys)[i] == Record(keys[i], games[keys[i]])
    decreases i
  {
    if i > 0 { RecordsAt(games, keys[1..], i - 1); }
  }

  ghost function NameOf(games: Games, keys: seq<string>, r: string): (k: string)
    requires forall x :: x in keys ==> x in games
    requires r in Records(games, keys)
    ensures k in games && r == Record(k, games[k])
  {
    var i :| 0 <= i < |keys| && Records(games, keys)[i] == r;
    RecordsAt(games, keys, i);
    keys[i]
  }

  /** The names behind a rearrangement of all the records: every game of the dictionary is among them. */
  lemma {:induction false} NamesBehind(games: Games, keys: seq<string>, records: seq<string>)
    returns (names: seq<string>)
    requires CleanGames(games) && forall k :: k in keys <==> k in games
    requires multiset(records) == multiset(Records(games, keys))
    ensures |names| == |records|
    ensures forall i :: 0 <= i < |names| ==> names[i] in games && records[i] == Record(names[i], games[names[i]])
    ensures forall n :: n in games ==> n in names
  {
    SameMembers(records, Records(games, keys));
    names := seq(|records|, i requires 0 <= i < |records| => NameOf(games, keys, records[i]));
    forall n | n in games
      ensures n in names
    {
      var j :| 0 <= j < |keys| && keys[j] == n;
      RecordsAt(games, keys, j);
      assert Record(n, games[n]) in records;
      var i :| 0 <= i < |records| && records[i] == Record(n, games[n]);
      ParseRecordOf(n, games[n]);
      ParseRecordOf(names[i], games[names[i]]);
      assert names[i] == n;
    }
  }

  /** Reading undoes writing for every non-empty dictionary of separator-free games. */
  lemma {:induction false} RoundTrip(games: Games)
    requires games != map[] && CleanGames(games)
    ensures Deserialize(Serialize(games)) == Ok(Named(games))
    ensures Serialize(games) != ""
  {
    var keys := SomeOrder(games.Keys);
    OrderMembers(keys, games);
    var sorted := Sort(Records(games, keys));
    var names := NamesBehind(games, keys, sorted);
    var n :| n in games;
    assert |names| > 0;
    forall i | 0 <= i < |sorted|
      ensures '|' !in sorted[i] && sorted[i] != ""
    {
      ParseRecordOf(names[i], games[names[i]]);
    }
    SplitJoin(sorted, '|');
    ParseRecordsOf(games, sorted, names);
    assert Pick(games, names) == Named(games);
  }

  /** Whatever is read is free of separators. */
  lemma {:induction false} ParsedIsClean(records: seq<string>)
    requires AllFree(records, '|')
    ensures var r := ParseRecords(records); r.Ok? ==> CleanGames(r.value)
    decreases |records|
  {
    if records != [] {
      var last := |records| - 1;
      ParsedIsClean(records[..last]);
      JoinSplit(records[last], ',');
    }
  }

  lemma {:induction false} SerializeEmpty()
    ensures Deserialize(Serialize(map[])) == Err(InternalError(BadGameData))
  {
    assert SomeOrder({}) == [] by { assert |multiset(SomeOrder({}))| == 0; }
    assert Sort([]) == [];
    assert Serialize(map[]) == "";
    assert Split("", '|') == [""] && Split("", ',') == [""];
    assert [""][..0] == [];
  }

  /**
   Exactly which dictionaries survive the round trip: those that are not empty, free of separators and with every
   game under its own name.  The empty one is what `delete_game` must not store.
   */
  lemma {:induction false} RoundTripExactly(games: Games)
    ensures Deserialize(Serialize(games)) == Ok(games)
       <==> games != map[] && CleanGames(games) && forall n :: n in games ==> games[n].name == n
  {
    if games == map[] {
      SerializeEmpty();
    } else if CleanGames(games) {
      RoundTrip(games);
      if Named(games) == games {
        forall n | n in games
          ensures games[n].name == n
        {
          assert Named(games)[n].name == n;
        }
      }
      if forall n :: n in games ==> games[n].name == n {
        assert Named(games) == games;
      }
    } else {
      JoinSplit(Serialize(games), '|');
      ParsedIsClean(Split(Serialize(games), '|'));
    }
  }
}
