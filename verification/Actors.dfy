/** Actor queues: messages in transit, and a bounded mailbox. */
module Actors {
  import opened Types

  datatype SecurityLevel = Public | Internal | Confidential | Secret
  {
    function Rank(): nat {
      match this case Public => 0 case Internal => 1 case Confidential => 2 case Secret => 3
    }
  }

  datatype Message = Message(id: Id, src: PluginId, dst: PluginId, level: SecurityLevel, body: seq<U8>)

  datatype ActorError = NoMessage

  datatype Actor = Actor(
    pending: seq<Message>, mailbox: seq<Message>, capacity: nat,
    blockedOn: Option<ActorId>, pendingSend: Option<Message>)
  {
    static function Empty(capacity: nat): Actor {
      Actor([], [], capacity, None, None)
    }

    predicate CanReceive() {
      mailbox != []
    }

    predicate IsBlocked() {
      blockedOn.Some?
    }

    function EnqueuePending(msg: Message): Actor {
      this.(pending := pending + [msg])
    }

    function Deliver(): Actor {
      if pending == [] || |mailbox| >= capacity then this
      else this.(pending := pending[1..], mailbox := mailbox + [pending[0]])
    }

    function Consume(): (Actor, Option<Message>) {
      if mailbox == [] then (this, None)
      else (this.(mailbox := mailbox[1..]), Some(mailbox[0]))
    }

    function SetBlocked(on: ActorId): Actor {
      this.(blockedOn := Some(on))
    }

    function Unblock(): Actor {
      this.(blockedOn := None)
    }
  }

  datatype QueueOp = Enqueue(msg: Message) | DeliverOne | ConsumeOne | Block(on: ActorId) | UnblockOne

  /** The actor after a history of operations, with everything consumed along the way. */
  function Play(a: Actor, ops: seq<QueueOp>): (Actor, seq<Message>) {
    if ops == [] then (a, [])
    else
      var (a1, consumed) := Play(a, ops[..|ops| - 1]);
      match ops[|ops| - 1]
      case Enqueue(msg) => (a1.EnqueuePending(msg), consumed)
      case DeliverOne => (a1.Deliver(), consumed)
      case ConsumeOne =>
        var (a2, got) := a1.Consume();
        (a2, consumed + match got case Some(msg) => [msg] case None => [])
      case Block(on) => (a1.SetBlocked(on), consumed)
      case UnblockOne => (a1.Unblock(), consumed)
  }

  function Enqueued(ops: seq<QueueOp>): seq<Message> {
    if ops == [] then []
    else Enqueued(ops[..|ops| - 1]) + match ops[|ops| - 1] case Enqueue(msg) => [msg] case _ => []
  }

  /** No message is lost, duplicated or overtaken, and the mailbox never outgrows its capacity. */
  lemma {:induction false} FifoConservation(a: Actor, ops: seq<QueueOp>)
    ensures var (a', consumed) := Play(a, ops);
      consumed + a'.mailbox + a'.pending == a.mailbox + a.pending + Enqueued(ops)
      && a'.capacity == a.capacity
      && (|a.mailbox| <= a.capacity ==> |a'.mailbox| <= a'.capacity)
  {
    if ops == [] {
    } else {
      var init := ops[..|ops| - 1];
      FifoConservation(a, init);
      var (a1, consumed1) := Play(a, init);
      var (a', consumed) := Play(a, ops);
      assert consumed + a'.mailbox + a'.pending == (consumed1 + a1.mailbox + a1.pending)
        + match ops[|ops| - 1] case Enqueue(msg) => [msg] case _ => [];
    }
  }

  // ---- Progress ----

  /** The actor after k deliveries. */
  function Delivered(a: Actor, k: nat): Actor
    decreases k
  {
    if k == 0 then a else Delivered(a.Deliver(), k - 1)
  }

  function Min(a: nat, b: nat): nat {
    if a < b then a else b
  }

  /** How many messages the mailbox can still take. */
  function Room(a: Actor): nat {
    if |a.mailbox| < a.capacity then a.capacity - |a.mailbox| else 0
  }

  lemma SplitOneLater(pending: seq<Message>, mailbox: seq<Message>, n: nat)
    requires 0 < n <= |pending|
    ensures pending[1..][n - 1..] == pending[n..]
    ensures (mailbox + [pending[0]]) + pending[1..][..n - 1] == mailbox + pending[..n]
  {
  }

  /** k deliveries move the first min(k, |pending|, room) messages of pending to the back of the mailbox. */
  lemma {:induction false} DeliveriesMove(a: Actor, k: nat)
    ensures var n := Min(k, Min(|a.pending|, Room(a)));
      Delivered(a, k) == a.(pending := a.pending[n..], mailbox := a.mailbox + a.pending[..n])
    decreases k
  {
    var n := Min(k, Min(|a.pending|, Room(a)));
    if n > 0 {
      var a1 := a.Deliver();
      DeliveriesMove(a1, k - 1);
      assert Min(k - 1, Min(|a1.pending|, Room(a1))) == n - 1;
      SplitOneLater(a.pending, a.mailbox, n);
    } else {
      assert a.pending[0..] == a.pending && a.mailbox + a.pending[..0] == a.mailbox;
      if k > 0 {
        assert a.Deliver() == a;
        DeliveriesMove(a, k - 1);
      }
    }
  }

  /** n rounds of one delivery and one consumption. */
  function Rounds(n: nat): seq<QueueOp> {
    if n == 0 then [] else Rounds(n - 1) + [DeliverOne] + [ConsumeOne]
  }

  lemma {:induction false} RoundsEnqueueNothing(n: nat)
    ensures Enqueued(Rounds(n)) == []
  {
    if n > 0 {
      RoundsEnqueueNothing(n - 1);
      var ops := Rounds(n - 1) + [DeliverOne];
      assert ops[..|ops| - 1] == Rounds(n - 1);
      assert Rounds(n)[..|Rounds(n)| - 1] == ops;
    }
  }

  lemma PlayRound(a: Actor, n: nat)
    ensures var (a1, consumed) := Play(a, Rounds(n));
      var (a2, got) := a1.Deliver().Consume();
      Play(a, Rounds(n + 1)) == (a2, consumed + match got case Some(msg) => [msg] case None => [])
  {
    var ops := Rounds(n) + [DeliverOne];
    assert ops[..|ops| - 1] == Rounds(n);
    assert Rounds(n + 1)[..|Rounds(n + 1)| - 1] == ops;
  }

  function Front(msgs: seq<Message>): seq<Message> {
    if msgs == [] then [] else [msgs[0]]
  }

  lemma RoundTakesNext(a: Actor, consumed: seq<Message>)
    requires a.capacity > 0
    ensures var (a', got) := a.Deliver().Consume();
      consumed + (match got case Some(msg) => [msg] case None => []) == consumed + Front(a.mailbox + a.pending)
  {
  }

  lemma Reassociated(x: seq<Message>, y: seq<Message>, z: seq<Message>, all: seq<Message>, none: seq<Message>)
    requires x + y + z == all + none && none == []
    ensures x + (y + z) == all
  {
    assert all + none == all;
    assert x + y + z == x + (y + z);
  }

  /** What is consumed in rounds and what is left make up what there was. */
  lemma RoundsKeepAll(a: Actor, n: nat)
    ensures var (a', consumed) := Play(a, Rounds(n));
      consumed + (a'.mailbox + a'.pending) == a.mailbox + a.pending && a'.capacity == a.capacity
  {
    FifoConservation(a, Rounds(n));
    RoundsEnqueueNothing(n);
    var (a', consumed) := Play(a, Rounds(n));
    Reassociated(consumed, a'.mailbox, a'.pending, a.mailbox + a.pending, Enqueued(Rounds(n)));
  }

  lemma TakeNext(all: seq<Message>, taken: seq<Message>, rest: seq<Message>, n: nat)
    requires taken + rest == all && taken == all[..Min(n, |all|)]
    ensures taken + Front(rest) == all[..Min(n + 1, |all|)]
  {
    if n < |all| {
      assert rest[0] == all[n];
      assert all[..n + 1] == all[..n] + [all[n]];
    } else {
      assert rest == [];
    }
  }

  lemma RoundConsumesNext(a: Actor, n: nat)
    requires a.capacity > 0
    ensures var (a1, consumed) := Play(a, Rounds(n));
      Play(a, Rounds(n + 1)).1 == consumed + Front(a1.mailbox + a1.pending)
  {
    RoundsKeepAll(a, n);
    PlayRound(a, n);
    RoundTakesNext(Play(a, Rounds(n)).0, Play(a, Rounds(n)).1);
  }

  /** The messages consumed in n rounds. */
  function ConsumedIn(a: Actor, n: nat): seq<Message> {
    Play(a, Rounds(n)).1
  }

  lemma OneRoundMore(a: Actor, n: nat)
    requires a.capacity > 0
    requires ConsumedIn(a, n) == (a.mailbox + a.pending)[..Min(n, |a.mailbox + a.pending|)]
    ensures ConsumedIn(a, n + 1) == (a.mailbox + a.pending)[..Min(n + 1, |a.mailbox + a.pending|)]
  {
    var (a1, consumed) := Play(a, Rounds(n));
    RoundsKeepAll(a, n);
    RoundConsumesNext(a, n);
    TakeNext(a.mailbox + a.pending, consumed, a1.mailbox + a1.pending, n);
  }

  /** With a positive capacity every round consumes the next message, until none is left. */
  lemma {:induction false} RoundsConsume(a: Actor, n: nat)
    requires a.capacity > 0
    ensures ConsumedIn(a, n) == (a.mailbox + a.pending)[..Min(n, |a.mailbox + a.pending|)]
    decreases n
  {
    if n > 0 {
      RoundsConsume(a, n - 1);
      OneRoundMore(a, n - 1);
    }
  }

  /** So as many rounds as there are messages drain the actor, and everything was consumed in order. */
  lemma RoundsDrain(a: Actor, n: nat)
    requires a.capacity > 0 && n >= |a.mailbox| + |a.pending|
    ensures var (a', consumed) := Play(a, Rounds(n));
      consumed == a.mailbox + a.pending && a'.mailbox == [] && a'.pending == []
  {
    RoundsConsume(a, n);
    RoundsKeepAll(a, n);
  }

  /** What the queue operations leave alone, and who is blocked after them: the last to block or unblock decides. */
  lemma {:induction false} BlockedByLast(a: Actor, ops: seq<QueueOp>)
    ensures Play(a, ops).0.blockedOn == BlockedAfter(a.blockedOn, ops)
    ensures Play(a, ops).0.pendingSend == a.pendingSend
  {
    if ops != [] {
      BlockedByLast(a, ops[..|ops| - 1]);
    }
  }

  function BlockedAfter(blockedOn: Option<ActorId>, ops: seq<QueueOp>): Option<ActorId> {
    if ops == [] then blockedOn
    else
      match ops[|ops| - 1]
      case Block(on) => Some(on)
      case UnblockOne => None
      case _ => BlockedAfter(blockedOn, ops[..|ops| - 1])
  }

  class ActorRuntime {
    var pending: seq<Message>
    var mailbox: seq<Message>
    const capacity: nat
    var blockedOn: Option<ActorId>
    var pendingSend: Option<Message>

    ghost function View(): Actor
      reads this
    {
      Actor(pending, mailbox, capacity, blockedOn, pendingSend)
    }

    constructor (capacity: nat)
      ensures View() == Actor.Empty(capacity)
    {
      this.capacity := capacity;
      pending, mailbox, blockedOn, pendingSend := [], [], None, None;
    }

    method EnqueuePendingMut(msg: Message)
      modifies this
      ensures View() == old(View()).EnqueuePending(msg)
    {
      pending := pending + [msg];
    }

    /** Agrees with the copying form, and reports which of its three cases applied. */
    method DeliverMut() returns (r: Result<bool, ActorError>)
      modifies this
      ensures View() == old(View()).Deliver()
      ensures r == if old(pending) == [] then Err(NoMessage) else Ok(|old(mailbox)| < capacity)
    {
      if pending == [] {
        return Err(NoMessage);
      }
      if |mailbox| < capacity {
        var msg := pending[0];
        pending := pending[1..];
        mailbox := mailbox + [msg];
        r := Ok(true);
      } else {
        r := Ok(false);
      }
    }

    method ConsumeMut() returns (msg: Option<Message>)
      modifies this
      ensures (View(), msg) == old(View()).Consume()
    {
      if mailbox == [] {
        return None;
      }
      msg := Some(mailbox[0]);
      mailbox := mailbox[1..];
    }

    method SetBlockedMut(on: ActorId)
      modifies this
      ensures View() == old(View()).SetBlocked(on)
    {
      blockedOn := Some(on);
    }

    method UnblockMut()
      modifies this
      ensures View() == old(View()).Unblock()
    {
      blockedOn := None;
    }
  }
}
