/**
 The futures and the stream as objects, each atomic step a method.

 Callers hold the very Future objects the collection holds, so resolving one through the collection is seen by
 its holder.  `Now` reads the heap as a protocol state, and every step method is one step of the protocol.
 */
module Stream {
  import opened Wrappers
  import opened Protocol

  datatype FutureValue = FutureResult(mtype: nat, content: string) | FutureError

  class Future {
    const correlationId: Id
    var result: Option<FutureValue>

    constructor (correlationId: Id)
      ensures this.correlationId == correlationId && result == None
    {
      this.correlationId, this.result := correlationId, None;
    }

    predicate Done()
      reads this
    {
      result.Some?
    }

    method SetResult(r: FutureValue)
      modifies this
      ensures result == Some(r)
    {
      result := Some(r);
    }

    function Seen(): Outcome
      reads this
    {
      match result
      case None => Unset
      case Some(FutureError) => Errored
      case Some(FutureResult(mtype, content)) => Resolved(mtype, content)
    }
  }

  /** The collection's dictionary, keyed by correlation id. */
  class FutureCollection {
    var futures: map<Id, Future>

    constructor ()
      ensures futures == map[]
    {
      futures := map[];
    }

    ghost predicate Valid()
      reads this
    {
      forall id :: id in futures ==> futures[id].correlationId == id
    }

    method Put(future: Future)
      requires Valid()
      modifies this
      ensures Valid() && futures == old(futures)[future.correlationId := future]
    {
      futures := futures[future.correlationId := future];
    }

    /** False is FutureCollectionKeyError. */
    method SetResult(id: Id, r: FutureValue) returns (found: bool)
      requires Valid()
      modifies if id in futures then {futures[id]} else {}
      ensures found <==> id in futures
      ensures found ==> futures[id].result == Some(r)
    {
      found := id in futures;
      if found {
        futures[id].SetResult(r);
      }
    }

    method Remove(id: Id) returns (found: bool)
      requires Valid()
      modifies this
      ensures Valid() && (found <==> id in old(futures)) && futures == old(futures) - {id}
    {
      found := id in futures;
      futures := futures - {id};
    }

    /** The disconnect loop over `future_values()`. */
    method FailAll()
      requires Valid()
      modifies futures.Values
      ensures forall id :: id in futures ==> futures[id].result == Some(FutureError)
    {
      var left := futures.Keys;
      while left != {}
        invariant left <= futures.Keys
        invariant forall id :: id in futures && id !in left ==> futures[id].result == Some(FutureError)
        decreases |left|
      {
        var id :| id in left;
        futures[id].SetResult(FutureError);
        left := left - {id};
      }
    }
  }

  class Stream {
    var ready: bool
    const collection: FutureCollection
    var recvQueue: Option<seq<Item>>
    var sendQueue: Option<seq<Message>>
    var firstTime: bool

    ghost var issued: map<Id, Future>  // every future ever handed out
    ghost var model: State             // the protocol state, with its history

    /** The objects show exactly the protocol state. */
    ghost predicate Valid()
      reads this, collection, issued.Values
    {
      && model.ready == ready && model.recv == recvQueue && model.send == sendQueue
      && (recvQueue.Some? <==> sendQueue.Some?)
      && (recvQueue.Some? ==> model.connections >= 1)
      && (firstTime <==> if recvQueue.Some? then model.connections == 1 else model.connections == 0)
      && collection.Valid() && model.open == collection.futures.Keys
      && (forall id :: id in collection.futures ==> id in issued && issued[id] == collection.futures[id])
      && issued.Keys == model.futures.Keys
      && (forall id :: id in issued ==> issued[id].correlationId == id && issued[id].Seen() == model.futures[id])
    }

    constructor ()
      ensures Valid() && model == INITIAL && fresh(collection)
    {
      collection := new FutureCollection();
      ready, recvQueue, sendQueue, firstTime := true, None, None, true;
      issued, model := map[], INITIAL;
    }

    /** First half of `send`: raise ValidatorConnectionError unless the event is set. */
    method CheckReady() returns (ok: bool)
      requires Valid()
      modifies this`model
      ensures Valid() && model == Step(old(model), Check) && ok == ready
    {
      ok := ready;
      model := Step(model, Check);
    }

    /** Second half: a future for a fresh correlation id joins the collection. */
    method Register(msg: Message) returns (future: Future)
      requires Valid() && model.passed > 0 && msg.id !in issued
      modifies this`issued, this`model, collection
      ensures Valid() && model == Step(old(model), Put(msg))
      ensures fresh(future) && issued == old(issued)[msg.id := future]
      ensures future.result == None && collection.futures == old(collection.futures)[msg.id := future]
    {
      future := new Future(msg.id);
      collection.Put(future);
      issued := issued[msg.id := future];
      model := Step(model, Put(msg));
    }

    /** `put_message`: dropped unless ready; a caller that finds no queue yet waits for it. */
    method PutMessage(msg: Message)
      requires Valid() && msg in model.unposted && (ready ==> sendQueue.Some?)
      modifies this`model, this`sendQueue
      ensures Valid() && model == Step(old(model), Post(msg))
      ensures sendQueue == if ready then Some(old(sendQueue.value) + [msg]) else old(sendQueue)
    {
      model := Step(model, Post(msg));
      if !ready { return; }
      sendQueue := Some(sendQueue.value + [msg]);
    }

    /** `send_back`: an answer; raises ValidatorConnectionError unless the event is set. */
    method SendBackMessage(msg: Message) returns (ok: bool)
      requires Valid() && (ready ==> sendQueue.Some?)
      modifies this`model, this`sendQueue
      ensures Valid() && model == Step(old(model), SendBack(msg)) && ok == ready
      ensures sendQueue == if ready then Some(old(sendQueue.value) + [msg]) else old(sendQueue)
    {
      ok := ready;
      model := Step(model, SendBack(msg));
      if ok {
        sendQueue := Some(sendQueue.value + [msg]);
      }
    }

    /** One turn of `_send_message` once a message is there. */
    method SendMessage() returns (msg: Message)
      requires Valid() && ready && sendQueue.Some? && sendQueue.value != []
      modifies this`sendQueue, this`model
      ensures Valid() && model == Step(old(model), Transmit) && msg == old(sendQueue.value[0])
      ensures sendQueue == Some(old(sendQueue.value[1..]))
    {
      msg := sendQueue.value[0];
      sendQueue := Some(sendQueue.value[1..]);
      model := Step(model, Transmit);
    }

    /** Exactly the future the message answers, if it is in the collection, changes, and leaves the collection. */
    method Resolve(msg: Message) returns (found: bool)
      requires collection.Valid()
      requires forall id :: id in collection.futures ==> id in issued && issued[id] == collection.futures[id]
      requires forall id :: id in issued ==> issued[id].correlationId == id
      modifies collection, collection.futures.Values
      ensures collection.Valid() && collection.futures == old(collection.futures) - {msg.id}
      ensures found <==> msg.id in old(collection.futures)
      ensures forall id :: id in issued ==>
        issued[id].Seen() == if found && id == msg.id then Resolved(msg.mtype, msg.content) else old(issued[id].Seen())
    {
      found := collection.SetResult(msg.id, FutureResult(msg.mtype, msg.content));
      if found {
        var removed := collection.Remove(msg.id);
      }
    }

    /** One turn of `_receive_message`: resolve the future the message answers, or queue the message. */
    method ReceiveMessage(msg: Message)
      requires Valid() && recvQueue.Some?
      modifies this`recvQueue, this`model, collection, collection.futures.Values
      ensures Valid() && model == Step(old(model), Receive(msg)) && issued == old(issued)
      ensures recvQueue == if ready && msg.id !in old(collection.futures)
        then Some(old(recvQueue.value) + [Inbound(msg)]) else old(recvQueue)
      ensures collection.futures == if ready then old(collection.futures) - {msg.id} else old(collection.futures)
    {
      model := Step(model, Receive(msg));
      if !ready { return; }
      var found := Resolve(msg);
      if !found {
        if !ready { return; }
        recvQueue := Some(recvQueue.value + [Inbound(msg)]);
      }
    }

    /** `receive` once an item is there. */
    method TakeMessage() returns (item: Item)
      requires Valid() && recvQueue.Some? && recvQueue.value != []
      modifies this`recvQueue, this`model
      ensures Valid() && model == Step(old(model), Take) && item == old(recvQueue.value[0])
      ensures recvQueue == Some(old(recvQueue.value[1..]))
    {
      item := recvQueue.value[0];
      recvQueue := Some(recvQueue.value[1..]);
      model := Step(model, Take);
    }

    /** Exactly the futures in the collection, which their holders share, change to the error. */
    method ReleaseWaiters()
      requires collection.Valid()
      requires forall id :: id in collection.futures ==> id in issued && issued[id] == collection.futures[id]
      requires forall id :: id in issued ==> issued[id].correlationId == id
      modifies collection.futures.Values
      ensures forall id :: id in issued ==>
        issued[id].Seen() == if id in collection.futures then Errored else old(issued[id].Seen())
    {
      collection.FailAll();
    }

    /** `_monitor_disconnects`: clear the event, give every future in the collection an error, drop the queues. */
    method OnDisconnect()
      requires Valid() && recvQueue.Some?
      modifies this`ready, this`recvQueue, this`sendQueue, this`firstTime, this`model, collection.futures.Values
      ensures Valid() && model == Step(old(model), Disconnect) && issued == old(issued)
      ensures !ready && recvQueue == None && sendQueue == None
    {
      ready := false;
      ReleaseWaiters();
      recvQueue, sendQueue, firstTime := None, None, false;
      model := Step(model, Disconnect);
    }

    /** The next turn of the loop in `run`: new queues, the reconnect event unless it is the first, set the event. */
    method OnConnect()
      requires Valid() && recvQueue.None?
      modifies this`ready, this`recvQueue, this`sendQueue, this`model
      ensures Valid() && model == Step(old(model), Connect)
      ensures ready && sendQueue == Some([]) && recvQueue == Some(if firstTime then [] else [Reconnect])
    {
      sendQueue := Some([]);
      recvQueue := Some([]);
      if !firstTime {
        recvQueue := Some(recvQueue.value + [Reconnect]);
        assert [] + [Reconnect] == [Reconnect];
      }
      ready := true;
      model := Step(model, Connect);
    }
  }
}
