/**
 Server-sent event queues: one bounded queue per open stream, fanned into by the manager and drained
 by the stream's generator. A queue that overflows is traded for a single resync.
 */
module SseQueues {
  const QUEUE_MAX := 256

  datatype Item<T> = Frame(frame: T) | Overflow | Revoked

  /** A stream's queue and whether a resync is owed on it. */
  datatype Conn<T> = Conn(queue: seq<Item<T>>, pending: bool)

  /** Offering one frame: dropped while a resync is owed, queued while there is room, else it overflows. */
  function Offer<T>(c: Conn<T>, frame: T): Conn<T> {
    if c.pending then c
    else if |c.queue| < QUEUE_MAX then c.(queue := c.queue + [Frame(frame)])
    else Conn([Overflow], true)
  }

  /** Revoking: the backlog goes and only the sentinel remains. */
  function Revoke<T>(c: Conn<T>): Conn<T> {
    c.(queue := [Revoked])
  }

  // ---------- The generator's moves ----------

  /**
   Where the generator is: before its opening frames, awaiting the queue, between taking the overflow
   sentinel and sending the resync, or ended.
   */
  datatype Phase = Opening | Waiting | Resyncing | Closed

  /** What one move of the generator leaves behind, and the frames it sends. */
  datatype Turn<T> = Turn(conn: Conn<T>, phase: Phase, sent: seq<T>)

  /** Taking the head: a frame is sent, an overflow calls for a resync, a revocation ends the stream. */
  function Dequeue<T>(c: Conn<T>): Turn<T>
    requires c.queue != []
  {
    var rest := c.(queue := c.queue[1..]);
    match c.queue[0]
    case Frame(frame) => Turn(rest, Waiting, [frame])
    case Overflow => Turn(rest, Resyncing, [])
    case Revoked => Turn(rest, Closed, [])
  }

  /** Sending the resync: the debt is cleared first, so frames arriving meanwhile are queued. */
  function Resync<T>(c: Conn<T>): Turn<T> {
    Turn(c.(pending := false), Waiting, [])
  }

  // ---------- The manager ----------

  type Message = string

  class Client {
    const userId: int
    const sessionId: int
    var queue: seq<Item<Message>>
    var resyncPending: bool

    constructor (userId: int, sessionId: int)
      ensures this.userId == userId && this.sessionId == sessionId
      ensures ConnOf() == Conn([], false)
    {
      this.userId, this.sessionId := userId, sessionId;
      queue, resyncPending := [], false;
    }

    function ConnOf(): Conn<Message>
      reads this
    {
      Conn(queue, resyncPending)
    }

    /** `put_nowait`: false when the queue is full. */
    method PutNowait(item: Item<Message>) returns (ok: bool)
      modifies this`queue
      ensures ok <==> |old(queue)| < QUEUE_MAX
      ensures queue == if ok then old(queue) + [item] else old(queue)
    {
      ok := |queue| < QUEUE_MAX;
      if ok {
        queue := queue + [item];
      }
    }

    /** `_drain`. */
    method Drain()
      modifies this`queue
      ensures queue == []
    {
      while queue != []
        decreases |queue|
      {
        queue := queue[1..];
      }
    }
  }

  /** The streams but one, in order. */
  function Others(clients: seq<Client>, client: Client): seq<Client> {
    if clients == [] then []
    else (if clients[0] != client then [clients[0]] else []) + Others(clients[1..], client)
  }

  lemma {:induction false} AllOthers(clients: seq<Client>, client: Client)
    requires client !in clients
    ensures Others(clients, client) == clients
  {
    if clients != [] {
      AllOthers(clients[1..], client);
    }
  }

  lemma {:induction false} OthersAt(clients: seq<Client>, client: Client, i: nat)
    requires i < |clients| && clients[i] == client
    requires forall k :: 0 <= k < |clients| && k != i ==> clients[k] != client
    ensures Others(clients, client) == clients[..i] + clients[i + 1..]
  {
    if i == 0 {
      AllOthers(clients[1..], client);
    } else {
      OthersAt(clients[1..], client, i - 1);
      assert clients[..i] == [clients[0]] + clients[1..][..i - 1];
      assert clients[1..][i..] == clients[i + 1..];
    }
  }

  class SseManager {
    var clients: seq<Client>

    /** Streams are registered once each. */
    ghost predicate Valid()
      reads this
    {
      forall i, j :: 0 <= i < j < |clients| ==> clients[i] != clients[j]
    }

    constructor ()
      ensures Valid() && clients == []
    {
      clients := [];
    }

    method Connect(userId: int, sessionId: int) returns (client: Client)
      requires Valid()
      modifies this`clients
      ensures Valid() && fresh(client) && clients == old(clients) + [client]
      ensures client.userId == userId && client.sessionId == sessionId && client.ConnOf() == Conn([], false)
    {
      client := new Client(userId, sessionId);
      clients := clients + [client];
    }

    /** Removing a stream that is already gone does nothing. */
    method Disconnect(client: Client)
      requires Valid()
      modifies this`clients
      ensures Valid()
      ensures forall c :: c in clients <==> c in old(clients) && c != client
      ensures clients == Others(old(clients), client)
    {
      for i := 0 to |clients|
        invariant clients == old(clients)
        invariant client !in clients[..i]
      {
        if clients[i] == client {
          ghost var was := clients;
          assert was == was[..i] + [client] + was[i + 1..];
          OthersAt(was, client, i);
          clients := clients[..i] + clients[i + 1..];
          return;
        }
        assert clients[..i + 1] == clients[..i] + [clients[i]];
      }
      assert clients[..|clients|] == clients;
      AllOthers(clients, client);
    }

    /** `_overflow`: the sentinel always fits, because the backlog goes first. */
    method OverflowClient(client: Client)
      modifies client
      ensures client.ConnOf() == Conn([Overflow], true)
    {
      client.Drain();
      var ok := client.PutNowait(Overflow);
      client.resyncPending := true;
    }

    method OfferTo(client: Client, message: Message)
      modifies client
      ensures client.ConnOf() == Offer(old(client.ConnOf()), message)
    {
      if client.resyncPending {
        return;
      }
      var ok := client.PutNowait(Frame(message));
      if !ok {
        OverflowClient(client);
      }
    }

    /** `deliver_to_all`. */
    method DeliverToAll(message: Message)
      requires Valid()
      modifies set c | c in clients
      ensures Valid() && clients == old(clients)
      ensures forall c :: c in clients ==> c.ConnOf() == Offer(old(c.ConnOf()), message)
    {
      for i := 0 to |clients|
        invariant clients == old(clients) && Valid()
        invariant forall k :: 0 <= k < i ==> clients[k].ConnOf() == Offer(old(clients[k].ConnOf()), message)
        invariant forall k :: i <= k < |clients| ==> clients[k].ConnOf() == old(clients[k].ConnOf())
      {
        OfferTo(clients[i], message);
      }
    }

    /** `broadcast`: to the audience when one is named, else to the actor alone. */
    method Broadcast(message: Message, userIds: set<int>, actorId: int)
      requires Valid()
      modifies set c | c in clients
      ensures Valid() && clients == old(clients)
      ensures forall c :: c in clients ==>
                c.ConnOf() == if (if userIds != {} then c.userId in userIds else c.userId == actorId)
                              then Offer(old(c.ConnOf()), message) else old(c.ConnOf())
    {
      for i := 0 to |clients|
        invariant clients == old(clients) && Valid()
        invariant forall k :: 0 <= k < i ==>
                    clients[k].ConnOf() == if Eligible(clients[k], userIds, actorId)
                                           then Offer(old(clients[k].ConnOf()), message) else old(clients[k].ConnOf())
        invariant forall k :: i <= k < |clients| ==> clients[k].ConnOf() == old(clients[k].ConnOf())
      {
        if userIds != {} {
          if clients[i].userId !in userIds {
            continue;
          }
        } else if clients[i].userId != actorId {
          continue;
        }
        OfferTo(clients[i], message);
      }
    }

    predicate Eligible(c: Client, userIds: set<int>, actorId: int) {
      if userIds != {} then c.userId in userIds else c.userId == actorId
    }

    /** `disconnect_session`: every stream of the session is told to end, and is no longer fanned into. */
    method DisconnectSession(sessionId: int)
      requires Valid()
      modifies this`clients, set c | c in clients
      ensures Valid()
      ensures forall c :: c in clients <==> c in old(clients) && c.sessionId != sessionId
      ensures forall c :: c in old(clients) ==>
                c.ConnOf() == if c.sessionId == sessionId then Revoke(old(c.ConnOf())) else old(c.ConnOf())
      ensures forall c :: c in old(clients) && c.sessionId == sessionId ==>
                c.queue == [Revoked] && c.resyncPending == old(c.resyncPending)
    {
      hide Others;
      var snapshot := clients;
      for i := 0 to |snapshot|
        invariant Valid()
        invariant forall a, b :: 0 <= a < b < |snapshot| ==> snapshot[a] != snapshot[b]
        invariant forall c :: c in clients <==> c in snapshot && (c.sessionId != sessionId || c in snapshot[i..])
        invariant forall k :: 0 <= k < i ==>
                    snapshot[k].ConnOf() == if snapshot[k].sessionId == sessionId
                                            then Revoke(old(snapshot[k].ConnOf())) else old(snapshot[k].ConnOf())
        invariant forall k :: i <= k < |snapshot| ==> snapshot[k].ConnOf() == old(snapshot[k].ConnOf())
      {
        var client := snapshot[i];
        assert snapshot[i..] == [client] + snapshot[i + 1..];
        if client.sessionId == sessionId {
          client.Drain();
          var ok := client.PutNowait(Revoked);
          Disconnect(client);
        }
      }
    }
  }
}
