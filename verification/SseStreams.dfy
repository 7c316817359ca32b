/**
 One open stream from registration to close, as every interleaving of fan-out, revocation and its own
 generator can drive it. Frames addressed to it are numbered, and a log records what became of each.
 */
module SseStreams {
  import opened SseQueues

  /** `Opened` is the resync a stream may open with, `Resynced` the unscoped one that answers an overflow. */
  datatype Event = Addressed(n: nat) | Emitted(n: nat) | Dropped(n: nat) | Opened | Resynced

  datatype Stream = Stream(conn: Conn<nat>, phase: Phase, registered: bool, next: nat, log: seq<Event>)

  const CONNECTED := Stream(Conn([], false), Opening, true, 0, [])

  datatype Action =
    | Fanout            // a frame addressed to this stream
    | Open(resync: bool) // the generator's first frames
    | Take              // the generator dequeues
    | SendResync        // the generator clears the debt and yields the resync
    | RevokeSession
    | End               // expiry, failed revalidation or the client going away

  function Drops(queue: seq<Item<nat>>): seq<Event> {
    if queue == [] then []
    else (if queue[0].Frame? then [Dropped(queue[0].frame)] else []) + Drops(queue[1..])
  }

  /** What a fan-out loses: the new frame while a resync is owed; the backlog and it on overflow. */
  function Lost(c: Conn<nat>, n: nat): seq<Event> {
    if c.pending then [Dropped(n)]
    else if |c.queue| < QUEUE_MAX then []
    else Drops(c.queue) + [Dropped(n)]
  }

  predicate Enabled(s: Stream, a: Action) {
    match a
    case Fanout => s.registered
    case Open(_) => s.phase == Opening
    case Take => s.phase == Waiting && s.conn.queue != []
    case SendResync => s.phase == Resyncing
    case RevokeSession => s.registered
    case End => s.phase != Closed
  }

  function Next(s: Stream, a: Action): Stream
    requires Enabled(s, a)
  {
    match a
    case Fanout =>
      s.(conn := Offer(s.conn, s.next), next := s.next + 1, log := s.log + [Addressed(s.next)] + Lost(s.conn, s.next))
    case Open(resync) =>
      s.(phase := Waiting, log := s.log + if resync then [Opened] else [])
    case Take =>
      var t := Dequeue(s.conn);
      s.(conn := t.conn, phase := t.phase, registered := s.registered && t.phase != Closed,
         log := s.log + if t.sent == [] then [] else [Emitted(t.sent[0])])
    case SendResync =>
      var t := Resync(s.conn);
      s.(conn := t.conn, phase := t.phase, log := s.log + [Resynced])
    case RevokeSession =>
      s.(conn := Revoke(s.conn), registered := false)
    case End =>
      s.(phase := Closed, registered := false)
  }

  /**
   The generator's own handling of its client. A stream is registered while the manager fans into it,
   and leaves the manager whichever way the generator ends.
   */
  class Generator {
    const manager: SseManager
    const client: Client
    var phase: Phase

    constructor (manager: SseManager, client: Client)
      ensures this.manager == manager && this.client == client && phase == Opening
    {
      this.manager, this.client, phase := manager, client, Opening;
    }

    method TakeFromQueue() returns (sent: seq<Message>)
      requires manager.Valid() && phase == Waiting && client.queue != []
      modifies this`phase, client`queue, manager`clients
      ensures manager.Valid()
      ensures Turn(client.ConnOf(), phase, sent) == Dequeue(old(client.ConnOf()))
      ensures manager.clients ==
              if phase == Closed then Others(old(manager.clients), client) else old(manager.clients)
      ensures phase == Closed ==> client !in manager.clients
    {
      var item := client.queue[0];
      client.queue := client.queue[1..];
      sent := [];
      match item
      case Frame(m) => sent := [m];
      case Overflow => phase := Resyncing;
      case Revoked => End();
    }

    method SendResync()
      requires phase == Resyncing
      modifies this`phase, client`resyncPending
      ensures Turn(client.ConnOf(), phase, []) == Resync(old(client.ConnOf()))
    {
      client.resyncPending := false;
      phase := Waiting;
    }

    /** Expiry, a failed revalidation or the client going away: the `finally` that closes every stream. */
    method End()
      requires manager.Valid()
      modifies this`phase, manager`clients
      ensures manager.Valid() && phase == Closed
      ensures manager.clients == Others(old(manager.clients), client) && client !in manager.clients
    {
      phase := Closed;
      manager.Disconnect(client);
    }
  }

  // ---------- What every step keeps ----------

  predicate InQueue(s: Stream, n: nat) {
    exists k :: 0 <= k < |s.conn.queue| && s.conn.queue[k] == Frame(n)
  }

  predicate Logged(log: seq<Event>, e: Event) {
    exists p :: 0 <= p < |log| && log[p] == e
  }

  /** Queue frames and emitted frames are in the order they were addressed. */
  ghost predicate InOrder(s: Stream) {
    && (forall i, j :: 0 <= i < j < |s.conn.queue| && s.conn.queue[i].Frame? && s.conn.queue[j].Frame? ==>
          s.conn.queue[i].frame < s.conn.queue[j].frame)
    && (forall p, q :: 0 <= p < q < |s.log| && s.log[p].Emitted? && s.log[q].Emitted? ==> s.log[p].n < s.log[q].n)
    && (forall p, i :: 0 <= p < |s.log| && 0 <= i < |s.conn.queue| && s.log[p].Emitted? && s.conn.queue[i].Frame? ==>
          s.log[p].n < s.conn.queue[i].frame)
    && (forall i :: 0 <= i < |s.conn.queue| && s.conn.queue[i].Frame? ==> s.conn.queue[i].frame < s.next)
    && (forall p :: 0 <= p < |s.log| && (s.log[p].Addressed? || s.log[p].Emitted? || s.log[p].Dropped?) ==> s.log[p].n < s.next)
  }

  /** Each addressed frame has met one fate so far: emitted, still queued, or dropped. */
  ghost predicate OneFate(s: Stream) {
    forall n: nat :: n < s.next ==>
      && (Logged(s.log, Emitted(n)) || InQueue(s, n) || Logged(s.log, Dropped(n)))
      && !(Logged(s.log, Emitted(n)) && InQueue(s, n))
      && !(Logged(s.log, Emitted(n)) && Logged(s.log, Dropped(n)))
      && !(InQueue(s, n) && Logged(s.log, Dropped(n)))
  }

  /** Every drop is followed by a resync, or a resync is owed. */
  ghost predicate DropsAnnounced(s: Stream) {
    s.conn.pending ||
    forall p :: 0 <= p < |s.log| && s.log[p].Dropped? ==> exists q :: p < q < |s.log| && s.log[q].Resynced?
  }

  /** An owed resync is a sentinel alone in the queue, or in the generator's hand. */
  ghost predicate DebtIsHeld(s: Stream) {
    && s.phase != Closed
    && (if s.phase == Resyncing then s.conn.pending && s.conn.queue == []
        else if s.conn.pending then s.conn.queue == [Overflow]
        else forall i :: 0 <= i < |s.conn.queue| ==> s.conn.queue[i].Frame?)
  }

  ghost predicate Sound(s: Stream) {
    && |s.conn.queue| <= QUEUE_MAX
    && (s.registered ==> InOrder(s) && OneFate(s) && DropsAnnounced(s) && DebtIsHeld(s))
  }

  lemma {:induction false} DropsAre(queue: seq<Item<nat>>)
    ensures forall e :: e in Drops(queue) <==> e.Dropped? && Frame(e.n) in queue
  {
    if queue != [] {
      DropsAre(queue[1..]);
      assert queue == [queue[0]] + queue[1..];
    }
  }

  lemma LoggedAppend(log: seq<Event>, more: seq<Event>, e: Event)
    ensures Logged(log + more, e) <==> Logged(log, e) || e in more
  {
    if p :| 0 <= p < |log| && log[p] == e {
      assert (log + more)[p] == e;
    }
    if e in more {
      var q :| 0 <= q < |more| && more[q] == e;
      assert (log + more)[|log| + q] == e;
    }
  }

  lemma FanoutKeepsFates(s: Stream)
    requires s.registered && Sound(s)
    ensures OneFate(Next(s, Fanout))
  {
    var s' := Next(s, Fanout);
    var more := [Addressed(s.next)] + Lost(s.conn, s.next);
    assert s'.log == s.log + more;
    DropsAre(s.conn.queue);
    forall n: nat | n < s'.next
      ensures && (Logged(s'.log, Emitted(n)) || InQueue(s', n) || Logged(s'.log, Dropped(n)))
              && !(Logged(s'.log, Emitted(n)) && InQueue(s', n))
              && !(Logged(s'.log, Emitted(n)) && Logged(s'.log, Dropped(n)))
              && !(InQueue(s', n) && Logged(s'.log, Dropped(n)))
    {
      LoggedAppend(s.log, more, Emitted(n));
      LoggedAppend(s.log, more, Dropped(n));
      assert Logged(s.log, Emitted(n)) ==> n < s.next;
      assert Logged(s.log, Dropped(n)) ==> n < s.next;
      QueueAfterOffer(s, n);
    }
  }

  lemma QueueAfterOffer(s: Stream, n: nat)
    requires s.registered && Sound(s)
    ensures InQueue(Next(s, Fanout), n) <==>
            !s.conn.pending && |s.conn.queue| < QUEUE_MAX && (InQueue(s, n) || n == s.next)
    ensures InQueue(s, n) ==> n < s.next && Frame(n) in s.conn.queue && !s.conn.pending
    ensures Frame(n) in s.conn.queue ==> InQueue(s, n)
  {
    var s' := Next(s, Fanout);
    if !s.conn.pending && |s.conn.queue| < QUEUE_MAX {
      assert s'.conn.queue == s.conn.queue + [Frame(s.next)];
      if InQueue(s, n) {
        var k :| 0 <= k < |s.conn.queue| && s.conn.queue[k] == Frame(n);
        assert s'.conn.queue[k] == Frame(n);
      }
      if n == s.next {
        assert s'.conn.queue[|s.conn.queue|] == Frame(n);
      }
    }
  }

  lemma FanoutLogs(s: Stream)
    requires s.registered && Sound(s)
    ensures var s' := Next(s, Fanout);
            && |s'.log| > |s.log| && s'.log[..|s.log|] == s.log
            && forall p :: |s.log| <= p < |s'.log| ==>
                 && (s'.log[p].Addressed? || s'.log[p].Dropped?) && s'.log[p].n < s'.next
                 && (s'.log[p].Dropped? ==> s'.conn.pending)
  {
    var s' := Next(s, Fanout);
    var more := [Addressed(s.next)] + Lost(s.conn, s.next);
    assert s'.log == s.log + more;
    DropsAre(s.conn.queue);
    forall p | |s.log| <= p < |s'.log|
      ensures (s'.log[p].Addressed? || s'.log[p].Dropped?) && s'.log[p].n < s'.next
      ensures s'.log[p].Dropped? ==> s'.conn.pending
    {
      assert s'.log[p] == more[p - |s.log|];
      assert more[p - |s.log|] in more;
    }
  }

  lemma FanoutKeepsOrder(s: Stream)
    requires s.registered && Sound(s)
    ensures InOrder(Next(s, Fanout)) && DebtIsHeld(Next(s, Fanout))
  {
    hide Lost, OneFate, DropsAnnounced;
    FanoutLogs(s);
    var s' := Next(s, Fanout);
    assert forall p :: 0 <= p < |s.log| ==> s'.log[p] == s'.log[..|s.log|][p] == s.log[p];
    assert forall p :: 0 <= p < |s'.log| && s'.log[p].Emitted? ==> p < |s.log|;
  }

  lemma FanoutKeepsAnnounced(s: Stream)
    requires s.registered && Sound(s)
    ensures DropsAnnounced(Next(s, Fanout))
  {
    hide Lost, OneFate, InOrder;
    FanoutLogs(s);
    var s' := Next(s, Fanout);
    assert forall p :: 0 <= p < |s.log| ==> s'.log[p] == s'.log[..|s.log|][p] == s.log[p];
    if !s'.conn.pending {
      forall p | 0 <= p < |s'.log| && s'.log[p].Dropped? ensures exists q :: p < q < |s'.log| && s'.log[q].Resynced? {
        var q :| p < q < |s.log| && s.log[q].Resynced?;
        assert s'.log[q] == s.log[q];
      }
    }
  }

  lemma TakeKeepsSound(s: Stream)
    requires s.registered && Sound(s) && Enabled(s, Take)
    ensures Sound(Next(s, Take))
  {
    var s' := Next(s, Take);
    var head, rest := s.conn.queue[0], s.conn.queue[1..];
    assert s.conn.queue == [head] + rest;
    if head.Frame? {
      assert s'.log == s.log + [Emitted(head.frame)];
      assert !s.conn.pending;
      forall n: nat | n < s'.next
        ensures && (Logged(s'.log, Emitted(n)) || InQueue(s', n) || Logged(s'.log, Dropped(n)))
                && !(Logged(s'.log, Emitted(n)) && InQueue(s', n))
                && !(Logged(s'.log, Emitted(n)) && Logged(s'.log, Dropped(n)))
                && !(InQueue(s', n) && Logged(s'.log, Dropped(n)))
      {
        LoggedAppend(s.log, [Emitted(head.frame)], Emitted(n));
        LoggedAppend(s.log, [Emitted(head.frame)], Dropped(n));
        QueueAfterTake(s, n);
      }
      AppendKeepsAnnounced(s, s');
      HeadEmittedInOrder(s);
    } else {
      assert head == Overflow;
      assert forall n: nat :: !InQueue(s, n) && !InQueue(s', n);
    }
  }

  lemma QueueAfterTake(s: Stream, n: nat)
    requires s.registered && Sound(s) && Enabled(s, Take) && s.conn.queue[0].Frame?
    ensures InQueue(s, n) <==> InQueue(Next(s, Take), n) || s.conn.queue[0] == Frame(n)
    ensures InQueue(Next(s, Take), n) ==> s.conn.queue[0] != Frame(n)
  {
    var s' := Next(s, Take);
    if k :| 0 <= k < |s.conn.queue| && s.conn.queue[k] == Frame(n) && k > 0 {
      assert s'.conn.queue[k - 1] == Frame(n);
    }
    if k :| 0 <= k < |s'.conn.queue| && s'.conn.queue[k] == Frame(n) {
      assert s.conn.queue[k + 1] == Frame(n);
    }
  }

  lemma AppendKeepsAnnounced(s: Stream, s': Stream)
    requires DropsAnnounced(s) && !s.conn.pending
    requires |s'.log| == |s.log| + 1 && s'.log[..|s.log|] == s.log && !s'.log[|s.log|].Dropped?
    ensures DropsAnnounced(s')
  {
    forall p | 0 <= p < |s'.log| && s'.log[p].Dropped? ensures exists q :: p < q < |s'.log| && s'.log[q].Resynced? {
      assert s'.log[..|s.log|][p] == s.log[p];
      var q :| p < q < |s.log| && s.log[q].Resynced?;
      assert s'.log[..|s.log|][q] == s.log[q];
    }
  }

  lemma HeadEmittedInOrder(s: Stream)
    requires s.registered && Sound(s) && Enabled(s, Take) && s.conn.queue[0].Frame?
    ensures InOrder(Next(s, Take))
  {
    var s' := Next(s, Take);
    assert s'.conn.queue == s.conn.queue[1..] && s'.log == s.log + [Emitted(s.conn.queue[0].frame)];
  }

  /** The resync that clears a debt comes after everything the debt covers. */
  lemma ResyncKeepsSound(s: Stream)
    requires s.registered && Sound(s) && Enabled(s, SendResync)
    ensures Sound(Next(s, SendResync))
  {
    var s' := Next(s, SendResync);
    assert s'.log == s.log + [Resynced];
    ResyncKeepsFates(s, s');
    assert s'.log[|s.log|].Resynced?;
  }

  lemma ResyncKeepsFates(s: Stream, s': Stream)
    requires OneFate(s) && s'.next == s.next && s'.conn.queue == s.conn.queue
    requires s'.log == s.log || s'.log == s.log + [Resynced] || s'.log == s.log + [Opened]
    ensures OneFate(s')
  {
    forall n: nat
      ensures InQueue(s', n) <==> InQueue(s, n)
      ensures Logged(s'.log, Emitted(n)) <==> Logged(s.log, Emitted(n))
      ensures Logged(s'.log, Dropped(n)) <==> Logged(s.log, Dropped(n))
    {
      LoggedAppend(s.log, [Resynced], Emitted(n));
      LoggedAppend(s.log, [Resynced], Dropped(n));
      LoggedAppend(s.log, [Opened], Emitted(n));
      LoggedAppend(s.log, [Opened], Dropped(n));
    }
  }

  lemma OpenKeepsSound(s: Stream, resync: bool)
    requires s.registered && Sound(s) && s.phase == Opening
    ensures Sound(Next(s, Open(resync)))
  {
    var s' := Next(s, Open(resync));
    if resync {
      assert s'.log == s.log + [Opened];
      assert !s'.log[|s.log|].Dropped?;
      if !s.conn.pending {
        AppendKeepsAnnounced(s, s');
      }
    } else {
      assert s'.log == s.log;
    }
    ResyncKeepsFates(s, s');
  }

  /** Every step of an open stream keeps it sound. */
  lemma StepKeepsSound(s: Stream, a: Action)
    requires Sound(s) && Enabled(s, a)
    ensures Sound(Next(s, a))
  {
    hide InOrder, OneFate, DropsAnnounced;
    if s.registered {
      match a
      case Fanout =>
        FanoutKeepsFates(s);
        FanoutKeepsOrder(s);
        FanoutKeepsAnnounced(s);
      case Open(resync) => OpenKeepsSound(s, resync);
      case Take => TakeKeepsSound(s);
      case SendResync => ResyncKeepsSound(s);
      case RevokeSession =>
      case End =>
    }
  }

  // ---------- Runs ----------

  function After(actions: seq<Action>): Stream
    requires Possible(actions)
    decreases |actions|, 1
  {
    if actions == [] then CONNECTED
    else Next(After(actions[..|actions| - 1]), actions[|actions| - 1])
  }

  /** Each action was enabled when it happened. */
  predicate Possible(actions: seq<Action>)
    decreases |actions|, 0
  {
    actions == [] ||
    (Possible(actions[..|actions| - 1]) && Enabled(After(actions[..|actions| - 1]), actions[|actions| - 1]))
  }

  lemma {:induction false} RunIsSound(actions: seq<Action>)
    requires Possible(actions)
    ensures Sound(After(actions))
  {
    if actions == [] {
      assert forall n: nat :: !Logged([], Dropped(n));
    } else {
      RunIsSound(actions[..|actions| - 1]);
      StepKeepsSound(After(actions[..|actions| - 1]), actions[|actions| - 1]);
    }
  }

  /**
   In every run of a stream that is still registered, each frame addressed to it was emitted, is still
   queued, or was dropped; and after a dropped one the unscoped resync was emitted, or is still owed.
   */
  lemma NoFrameIsLostUnannounced(actions: seq<Action>, n: nat)
    requires Possible(actions) && After(actions).registered && n < After(actions).next
    ensures var s := After(actions);
            || Logged(s.log, Emitted(n))
            || InQueue(s, n)
            || (exists p :: 0 <= p < |s.log| && s.log[p] == Dropped(n)
                  && (s.conn.pending || exists q :: p < q < |s.log| && s.log[q].Resynced?))
  {
    RunIsSound(actions);
    var s := After(actions);
    if Logged(s.log, Dropped(n)) {
      var p :| 0 <= p < |s.log| && s.log[p] == Dropped(n);
    }
  }

  /** Frames leave in the order they were addressed, none twice, and queued ones are later than sent ones. */
  lemma FramesLeaveInOrder(actions: seq<Action>, p: nat, q: nat)
    requires Possible(actions) && After(actions).registered
    requires p < |After(actions).log| && After(actions).log[p].Emitted?
    ensures p < q < |After(actions).log| && After(actions).log[q].Emitted? ==>
              After(actions).log[p].n < After(actions).log[q].n
    ensures q < |After(actions).conn.queue| && After(actions).conn.queue[q].Frame? ==>
              After(actions).log[p].n < After(actions).conn.queue[q].frame
  {
    RunIsSound(actions);
  }

  /** Queues stay within the bound, and an owed resync is always on its way to the generator. */
  lemma DebtsAreDelivered(actions: seq<Action>)
    requires Possible(actions)
    ensures var s := After(actions);
            && |s.conn.queue| <= QUEUE_MAX
            && (s.registered && s.conn.pending ==> s.conn.queue == [Overflow] || s.phase == Resyncing)
  {
    RunIsSound(actions);
  }

  lemma {:induction false} RegisteredMeansNeverClosed(actions: seq<Action>)
    requires Possible(actions) && After(actions).registered
    ensures After(actions).phase != Closed
    ensures forall k :: 0 <= k < |actions| ==> actions[k] != RevokeSession && actions[k] != End
  {
    if actions != [] {
      var before := actions[..|actions| - 1];
      assert After(before).registered;
      RegisteredMeansNeverClosed(before);
      RunIsSound(actions);
      assert forall k :: 0 <= k < |before| ==> actions[k] == before[k];
    }
  }

  /** An open stream can end at any time, and then nothing more happens to it. */
  lemma EndIsFinal(actions: seq<Action>, a: Action)
    requires Possible(actions)
    ensures After(actions).phase != Closed ==>
              && Enabled(After(actions), End)
              && Next(After(actions), End).phase == Closed && !Next(After(actions), End).registered
    ensures After(actions).phase == Closed ==> !After(actions).registered && !Enabled(After(actions), a)
  {
    RunIsSound(actions);
    if After(actions).registered {
      RegisteredMeansNeverClosed(actions);
    }
  }

  // ---------- Revocation ----------

  lemma {:induction false} PrefixIsPossible(actions: seq<Action>, k: nat)
    requires Possible(actions) && k <= |actions|
    ensures Possible(actions[..k])
  {
    if k < |actions| {
      PrefixIsPossible(actions[..|actions| - 1], k);
      assert actions[..|actions| - 1][..k] == actions[..k];
    } else {
      assert actions[..k] == actions;
    }
  }

  /** Only the sentinel is left, until it is taken and the stream is over; no frame leaves it meanwhile. */
  ghost predicate OnlyEnds(since: Stream, s: Stream) {
    && !s.registered && s.next == since.next
    && |since.log| <= |s.log| && s.log[..|since.log|] == since.log
    && (forall p :: |since.log| <= p < |s.log| ==> s.log[p] == Opened || s.log[p] == Resynced)
    && (s.phase != Closed ==> |s.conn.queue| == 1 && s.conn.queue[0] == Revoked)
  }

  lemma StepOnlyEnds(since: Stream, s: Stream, a: Action)
    requires OnlyEnds(since, s) && Enabled(s, a)
    ensures OnlyEnds(since, Next(s, a))
  {
  }

  /**
   Once its session is revoked a stream is fanned nothing more and sends no frame: its generator is
   never left waiting on an empty queue, and the first thing it takes ends it.
   */
  lemma {:induction false} RevokedStreamOnlyEnds(actions: seq<Action>, i: nat)
    requires Possible(actions) && i < |actions| && actions[i] == RevokeSession
    ensures Possible(actions[..i + 1]) && OnlyEnds(After(actions[..i + 1]), After(actions))
    ensures After(actions).phase == Waiting ==>
              && Enabled(After(actions), Take)
              && Next(After(actions), Take).phase == Closed && Next(After(actions), Take).log == After(actions).log
  {
    PrefixIsPossible(actions, i + 1);
    var before, last := actions[..|actions| - 1], actions[|actions| - 1];
    if i + 1 == |actions| {
      assert actions[..i + 1] == actions;
      RunIsSound(before);
    } else {
      assert before[i] == actions[i] && before[..i + 1] == actions[..i + 1];
      RevokedStreamOnlyEnds(before, i);
      StepOnlyEnds(After(actions[..i + 1]), After(before), last);
    }
  }
}
