/** Parsing of transaction payloads: which texts are accepted, and what names and spaces they can bring in. */
module XoPayload {
  import opened Wrappers
  import opened Text
  import opened XoCodec

  /** The space is a number for a take and stays the raw text otherwise. */
  datatype Space = Number(n: int) | Raw(text: string)

  datatype Payload = Payload(name: string, action: string, space: Space)

  const ACTIONS := {"create", "take", "delete"}

  /** `parseInt` stands for Python's int(): None where it raises ValueError. */
  function ParsePayload(parseInt: string -> Option<int>, payload: string): Result<Payload, Failure>
  {
    var f := Split(payload, ',');
    if |f| != 3 then Err(InvalidTransaction(BadSerialization))
    else
      var name, action, space := f[0], f[1], f[2];
      if name == "" then Err(InvalidTransaction(NameRequired))
      else if '|' in name then Err(InvalidTransaction(NameHasBar))
      else if action == "" then Err(InvalidTransaction(ActionRequired))
      else if action !in ACTIONS then Err(InvalidTransaction(UnknownAction))
      else if action == "take" then
        match parseInt(space)
        case None => Err(InvalidTransaction(BadSpace))
        case Some(n) =>
          if 1 <= n < 10 then Ok(Payload(name, action, Number(n))) else Err(InvalidTransaction(BadSpace))
      else Ok(Payload(name, action, Raw(space)))
  }

  /** The space text denotes this space for this action. */
  ghost predicate Denotes(parseInt: string -> Option<int>, action: string, text: string, space: Space)
  {
    if action == "take" then space.Number? && 1 <= space.n <= 9 && parseInt(text) == Some(space.n)
    else space == Raw(text)
  }

  ghost predicate Spells(parseInt: string -> Option<int>, payload: string, x: Payload, text: string)
  {
    && payload == x.name + [','] + x.action + [','] + text
    && ',' !in x.name && ',' !in x.action && ',' !in text
    && Denotes(parseInt, x.action, text, x.space)
  }

  /**
   A payload is accepted, and read as x, exactly when it spells x: a name without bar or comma, a known action
   and, for a take, a space from 1 to 9.  So every accepted name is separator-free.
   */
  lemma {:induction false} AcceptedExactly(parseInt: string -> Option<int>, payload: string, x: Payload)
    ensures ParsePayload(parseInt, payload) == Ok(x)
       <==> x.name != "" && Clean(x.name) && x.action in ACTIONS && exists text :: Spells(parseInt, payload, x, text)
  {
    var f := Split(payload, ',');
    JoinSplit(payload, ',');
    if ParsePayload(parseInt, payload) == Ok(x) {
      assert f == [f[0], f[1], f[2]];
      JoinThree(f[0], f[1], f[2], ',');
      assert Spells(parseInt, payload, x, f[2]);
    }
    if x.name != "" && Clean(x.name) && x.action in ACTIONS && exists text :: Spells(parseInt, payload, x, text) {
      var text :| Spells(parseInt, payload, x, text);
      JoinThree(x.name, x.action, text, ',');
      SplitJoin([x.name, x.action, text], ',');
    }
  }

  /** The payload has these three parts. */
  ghost predicate Parts(payload: string, name: string, action: string, text: string)
  {
    && ',' !in name && ',' !in action && ',' !in text
    && payload == name + [','] + action + [','] + text
  }

  ghost predicate SpaceOk(parseInt: string -> Option<int>, text: string)
  {
    exists n :: 1 <= n <= 9 && parseInt(text) == Some(n)
  }

  lemma {:induction false} PartsAreSplit(payload: string, name: string, action: string, text: string)
    ensures Parts(payload, name, action, text) <==> Split(payload, ',') == [name, action, text]
  {
    JoinThree(name, action, text, ',');
    JoinSplit(payload, ',');
    if Parts(payload, name, action, text) { SplitJoin([name, action, text], ','); }
    if Split(payload, ',') == [name, action, text] {
      var f := Split(payload, ',');
      assert ',' !in f[0] && ',' !in f[1] && ',' !in f[2];
    }
  }

  /** Every refusal is an invalid transaction: for the number of parts exactly if there are not three of them. */
  lemma {:induction false} ThreePartsExactly(parseInt: string -> Option<int>, payload: string)
    ensures var r := ParsePayload(parseInt, payload);
      && (r.Err? ==> r.error.InvalidTransaction?)
      && (r == Err(InvalidTransaction(BadSerialization)) <==>
            !exists name, action, text :: Parts(payload, name, action, text))
  {
    var f := Split(payload, ',');
    if |f| == 3 {
      assert f == [f[0], f[1], f[2]];
      PartsAreSplit(payload, f[0], f[1], f[2]);
    }
    forall name, action, text | Parts(payload, name, action, text)
      ensures |f| == 3
    {
      PartsAreSplit(payload, name, action, text);
    }
  }

  /** With three parts: which of them is at fault, the name before the action before the space. */
  lemma {:induction false} RefusedExactly(parseInt: string -> Option<int>, payload: string,
                                          name: string, action: string, text: string)
    requires Parts(payload, name, action, text)
    ensures var r := ParsePayload(parseInt, payload); var named := name != "" && '|' !in name;
      && (r == Err(InvalidTransaction(NameRequired)) <==> name == "")
      && (r == Err(InvalidTransaction(NameHasBar)) <==> '|' in name)
      && (r == Err(InvalidTransaction(ActionRequired)) <==> named && action == "")
      && (r == Err(InvalidTransaction(UnknownAction)) <==> named && action != "" && action !in ACTIONS)
      && (r == Err(InvalidTransaction(BadSpace)) <==> named && action == "take" && !SpaceOk(parseInt, text))
  {
    PartsAreSplit(payload, name, action, text);
  }
}
