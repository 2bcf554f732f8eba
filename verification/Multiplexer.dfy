/** One connection shared by concurrent calls: each call registers a one-slot channel under its own
    request id, and a single reader hands every reply to the channel registered under the reply's id.
    Callers, reader, timeouts and the network interleave in any order, one atomic section at a time. */
module Multiplexer {
  import opened Wrappers
  import Frame
  import opened Crc8

  const ID_MODULUS: nat := 0x1_0000_0000_0000_0000
  const NOTIFICATION_ID: nat := 0

  type Bytes = seq<Byte>

  /** A reply body, with its place among the frames the reader has received. */
  datatype Parcel = Parcel(body: Bytes, frame: nat)

  datatype Outcome = Replied(p: Parcel) | WriteFailed | TimedOut | ConnectionClosed

  datatype Phase = Numbered | Registered | Waiting | Leaving(o: Outcome) | Returned(o: Outcome)

  /** One call and its channel; sends counts what was ever sent on the channel. */
  datatype Call = Call(id: nat, phase: Phase, slot: seq<Parcel>, sends: nat)

  datatype Reader = Reading | Delivering(call: nat, p: Parcel) | Stopped

  datatype World = World(reqId: nat, pending: map<nat, nat>, calls: seq<Call>, reader: Reader,
                         received: seq<Frame.Frame>)

  datatype Event =
    | Begin | Register(k: nat) | WriteOk(k: nat) | WriteFails(k: nat)
    | TakeReply(k: nat) | TimeOut(k: nat) | SeeClosed(k: nat) | Deregister(k: nat)
    | Garbage | Receive(f: Frame.Frame) | Deliver | ReadFails

  const INIT := World(0, map[], [], Reading, [])

  predicate At(w: World, k: nat, p: Phase) {
    k < |w.calls| && w.calls[k].phase == p
  }

  predicate Enabled(w: World, e: Event) {
    match e
    case Begin => true
    case Register(k) => At(w, k, Numbered)
    case WriteOk(k) => At(w, k, Registered)
    case WriteFails(k) => At(w, k, Registered)
    case TakeReply(k) => At(w, k, Waiting) && |w.calls[k].slot| > 0
    case TimeOut(k) => At(w, k, Waiting)
    case SeeClosed(k) => At(w, k, Waiting) && w.reader.Stopped?
    case Deregister(k) => k < |w.calls| && w.calls[k].phase.Leaving?
    case Garbage => w.reader.Reading?
    case Receive(_) => w.reader.Reading?
    case Deliver => w.reader.Delivering? && w.reader.call < |w.calls| && |w.calls[w.reader.call].slot| < 1
    case ReadFails => w.reader.Reading?
  }

  function To(w: World, k: nat, p: Phase): World
    requires k < |w.calls|
  {
    w.(calls := w.calls[k := w.calls[k].(phase := p)])
  }

  function AfterBegin(w: World): World {
    var id := (w.reqId + 1) % ID_MODULUS;
    w.(reqId := id, calls := w.calls + [Call(id, Numbered, [], 0)])
  }

  function AfterTake(w: World, k: nat): World
    requires k < |w.calls| && |w.calls[k].slot| > 0
  {
    var c := w.calls[k];
    w.(calls := w.calls[k := c.(phase := Leaving(Replied(c.slot[0])), slot := c.slot[1..])])
  }

  function AfterDeregister(w: World, k: nat): World
    requires k < |w.calls| && w.calls[k].phase.Leaving?
  {
    To(w, k, Returned(w.calls[k].phase.o)).(pending := w.pending - {w.calls[k].id})
  }

  /** The reader looks the id up and takes it out under one lock. */
  function AfterReceive(w: World, f: Frame.Frame): World {
    var w1 := w.(received := w.received + [f]);
    if f.requestId == NOTIFICATION_ID || f.requestId !in w.pending then w1
    else w1.(pending := w.pending - {f.requestId},
             reader := Delivering(w.pending[f.requestId], Parcel(f.body, |w.received|)))
  }

  function AfterDeliver(w: World): World
    requires w.reader.Delivering? && w.reader.call < |w.calls|
  {
    var c := w.calls[w.reader.call];
    w.(calls := w.calls[w.reader.call := c.(slot := c.slot + [w.reader.p], sends := c.sends + 1)], reader := Reading)
  }

  function Step(w: World, e: Event): World
    requires Enabled(w, e)
  {
    match e
    case Begin => AfterBegin(w)
    case Register(k) => To(w, k, Registered).(pending := w.pending[w.calls[k].id := k])
    case WriteOk(k) => To(w, k, Waiting)
    case WriteFails(k) => To(w, k, Leaving(WriteFailed))
    case TakeReply(k) => AfterTake(w, k)
    case TimeOut(k) => To(w, k, Leaving(TimedOut))
    case SeeClosed(k) => To(w, k, Leaving(ConnectionClosed))
    case Deregister(k) => AfterDeregister(w, k)
    case Garbage => w
    case Receive(f) => AfterReceive(w, f)
    case Deliver => AfterDeliver(w)
    case ReadFails => w.(reader := Stopped)
  }

  function Run(es: seq<Event>): Option<World> {
    if es == [] then Some(INIT)
    else match Run(es[..|es| - 1])
      case None => None
      case Some(w) => if Enabled(w, es[|es| - 1]) then Some(Step(w, es[|es| - 1])) else None
  }

  // ---------------------------------------------------------------- what every interleaving keeps

  /** The parcel is the body of a frame that was received and carries this id. */
  predicate From(received: seq<Frame.Frame>, p: Parcel, id: nat) {
    && p.frame < |received| && received[p.frame].requestId == id && received[p.frame].body == p.body
    && id != NOTIFICATION_ID
  }

  predicate CallOk(received: seq<Frame.Frame>, c: Call) {
    && |c.slot| <= c.sends <= 1
    && (c.phase.Numbered? ==> c.sends == 0)
    && (|c.slot| > 0 ==> From(received, c.slot[0], c.id))
    && (c.phase.Leaving? && c.phase.o.Replied? ==> From(received, c.phase.o.p, c.id))
    && (c.phase.Returned? && c.phase.o.Replied? ==> From(received, c.phase.o.p, c.id))
  }

  predicate Active(p: Phase) {
    p.Registered? || p.Waiting? || p.Leaving?
  }

  /** Call k is registered under id and nothing has been or is being sent to it. */
  predicate Entry(w: World, id: nat, k: nat) {
    && k < |w.calls| && w.calls[k].id == id && Active(w.calls[k].phase) && w.calls[k].sends == 0
    && (w.reader.Delivering? ==> w.reader.call != k)
  }

  predicate ReaderOk(w: World) {
    w.reader.Delivering? ==>
      && w.reader.call < |w.calls| && w.calls[w.reader.call].sends == 0
      && !w.calls[w.reader.call].phase.Numbered?
      && From(w.received, w.reader.p, w.calls[w.reader.call].id)
  }

  predicate Inv(w: World) {
    && (forall k :: 0 <= k < |w.calls| ==> CallOk(w.received, w.calls[k]))
    && (forall id :: id in w.pending ==> Entry(w, id, w.pending[id]))
    && ReaderOk(w)
  }

  /** A step that changes one call, only in its phase, and does not touch reader or frames. */
  lemma MoveKeeps(w: World, k: nat, p: Phase)
    requires Inv(w) && k < |w.calls| && !w.calls[k].phase.Numbered? && Active(p)
    requires p.Leaving? && p.o.Replied? ==> From(w.received, p.o.p, w.calls[k].id)
    ensures Inv(To(w, k, p))
  {
    var w' := To(w, k, p);
    forall id | id in w'.pending ensures Entry(w', id, w'.pending[id]) { assert Entry(w, id, w.pending[id]); }
  }

  lemma BeginKeeps(w: World, w': World)
    requires Inv(w) && w' == AfterBegin(w)
    ensures Inv(w')
  {
    forall id | id in w'.pending ensures Entry(w', id, w'.pending[id]) { assert Entry(w, id, w.pending[id]); }
  }

  lemma RegisterKeeps(w: World, k: nat, w': World)
    requires Inv(w) && At(w, k, Numbered) && w' == Step(w, Register(k))
    ensures Inv(w')
  {
    assert CallOk(w.received, w.calls[k]);
    forall id | id in w'.pending ensures Entry(w', id, w'.pending[id]) {
      if id != w.calls[k].id { assert Entry(w, id, w.pending[id]); }
    }
  }

  lemma TakeKeeps(w: World, k: nat, w': World)
    requires Inv(w) && Enabled(w, TakeReply(k)) && w' == AfterTake(w, k)
    ensures Inv(w')
  {
    assert CallOk(w.received, w.calls[k]);
    forall id | id in w'.pending ensures Entry(w', id, w'.pending[id]) { assert Entry(w, id, w.pending[id]); }
  }

  lemma DeregisterKeeps(w: World, k: nat, w': World)
    requires Inv(w) && Enabled(w, Deregister(k)) && w' == AfterDeregister(w, k)
    ensures Inv(w')
  {
    assert CallOk(w.received, w.calls[k]);
    forall id | id in w'.pending ensures Entry(w', id, w'.pending[id]) { assert Entry(w, id, w.pending[id]); }
  }

  lemma FromMore(received: seq<Frame.Frame>, f: Frame.Frame, c: Call)
    requires CallOk(received, c)
    ensures CallOk(received + [f], c)
  {}

  lemma ReceiveKeeps(w: World, f: Frame.Frame, w': World)
    requires Inv(w) && w.reader.Reading? && w' == AfterReceive(w, f)
    ensures Inv(w')
  {
    forall k | 0 <= k < |w'.calls| ensures CallOk(w'.received, w'.calls[k]) {
      FromMore(w.received, f, w.calls[k]);
    }
    if f.requestId in w.pending { assert Entry(w, f.requestId, w.pending[f.requestId]); }
    forall id | id in w'.pending ensures Entry(w', id, w'.pending[id]) { assert Entry(w, id, w.pending[id]); }
  }

  lemma DeliverKeeps(w: World, w': World)
    requires Inv(w) && Enabled(w, Deliver) && w' == AfterDeliver(w)
    ensures Inv(w')
  {
    forall id | id in w'.pending ensures Entry(w', id, w'.pending[id]) { assert Entry(w, id, w.pending[id]); }
  }

  lemma StepKeeps(w: World, e: Event)
    requires Inv(w) && Enabled(w, e)
    ensures Inv(Step(w, e))
  {
    match e
    case Begin => BeginKeeps(w, Step(w, e));
    case Register(k) => RegisterKeeps(w, k, Step(w, e));
    case WriteOk(k) => MoveKeeps(w, k, Waiting);
    case WriteFails(k) => MoveKeeps(w, k, Leaving(WriteFailed));
    case TakeReply(k) => TakeKeeps(w, k, Step(w, e));
    case TimeOut(k) => MoveKeeps(w, k, Leaving(TimedOut));
    case SeeClosed(k) => MoveKeeps(w, k, Leaving(ConnectionClosed));
    case Deregister(k) => DeregisterKeeps(w, k, Step(w, e));
    case Receive(f) => ReceiveKeeps(w, f, Step(w, e));
    case Deliver => DeliverKeeps(w, Step(w, e));
    case Garbage =>
    case ReadFails =>
  }

  lemma {:induction false} RunKeeps(es: seq<Event>)
    requires Run(es).Some?
    ensures Inv(Run(es).value)
  {
    if |es| > 0 {
      RunKeeps(es[..|es| - 1]);
      StepKeeps(Run(es[..|es| - 1]).value, es[|es| - 1]);
    }
  }

  // ---------------------------------------------------------------- safety of every interleaving

  /** The reader never waits for a caller: the channel it is about to send on is empty, and no channel
      is sent on twice. */
  lemma ReaderNeverBlocks(es: seq<Event>, w: World)
    requires Run(es) == Some(w)
    ensures w.reader.Delivering? ==> Enabled(w, Deliver)
    ensures forall k :: 0 <= k < |w.calls| ==> w.calls[k].sends <= 1
  {
    RunKeeps(es);
    if w.reader.Delivering? { assert CallOk(w.received, w.calls[w.reader.call]); }
  }

  /** A call only ever returns the body of a received frame that carried the call's own id, which is
      never the id of notifications. */
  lemma OwnReplyOnly(es: seq<Event>, w: World, k: nat, p: Parcel)
    requires Run(es) == Some(w) && k < |w.calls| && w.calls[k].phase == Returned(Replied(p))
    ensures p.frame < |w.received| && w.received[p.frame].requestId == w.calls[k].id
    ensures w.received[p.frame].body == p.body && w.calls[k].id != NOTIFICATION_ID
  {
    RunKeeps(es);
    assert CallOk(w.received, w.calls[k]);
  }

  /** When every call has returned, nothing is left registered. */
  lemma NothingLeftPending(es: seq<Event>, w: World)
    requires Run(es) == Some(w) && forall k :: 0 <= k < |w.calls| ==> w.calls[k].phase.Returned?
    ensures w.pending == map[]
  {
    RunKeeps(es);
    if id :| id in w.pending {
      assert false;
    }
  }

  // ---------------------------------------------------------------- fewer than 2^64 calls

  /** The id of the call numbered n, counting from 0. */
  function IdOf(n: nat): nat {
    (n + 1) % ID_MODULUS
  }

  predicate NumberedInOrder(w: World) {
    && w.reqId == |w.calls| % ID_MODULUS
    && forall k :: 0 <= k < |w.calls| ==> w.calls[k].id == IdOf(k)
  }

  lemma NextNumber(n: nat)
    ensures (n % ID_MODULUS + 1) % ID_MODULUS == IdOf(n)
  {}

  lemma BeginNumbers(w: World, w': World)
    requires NumberedInOrder(w) && w' == AfterBegin(w)
    ensures NumberedInOrder(w')
  {
    NextNumber(|w.calls|);
  }

  lemma OthersNumber(w: World, e: Event, w': World)
    requires Enabled(w, e) && w' == Step(w, e) && !e.Begin?
    ensures |w'.calls| == |w.calls| && w'.reqId == w.reqId
    ensures forall k :: 0 <= k < |w.calls| ==> w'.calls[k].id == w.calls[k].id
  {}

  lemma {:induction false} RunNumbers(es: seq<Event>, w: World)
    requires Run(es) == Some(w)
    ensures NumberedInOrder(w)
  {
    if |es| > 0 {
      var v, e := Run(es[..|es| - 1]).value, es[|es| - 1];
      RunNumbers(es[..|es| - 1], v);
      if e.Begin? { BeginNumbers(v, w); } else { OthersNumber(v, e, w); }
    }
  }

  lemma SmallIds(n: nat)
    requires n + 1 < ID_MODULUS
    ensures IdOf(n) == n + 1
  {}

  /** Ids repeat only after 2^64 calls; the call whose number wraps gets the id of notifications and
      is never answered. */
  lemma IdsRepeat(es: seq<Event>, w: World, j: nat, k: nat)
    requires Run(es) == Some(w) && j < |w.calls| && k < |w.calls|
    ensures w.calls[j].id == w.calls[k].id <==> IdOf(j) == IdOf(k)
    ensures |w.calls| < ID_MODULUS ==> (w.calls[j].id == w.calls[k].id <==> j == k) && w.calls[k].id != NOTIFICATION_ID
    ensures IdOf(k) == NOTIFICATION_ID ==> forall p :: w.calls[k].phase != Returned(Replied(p))
  {
    RunNumbers(es, w);
    RunKeeps(es);
    assert CallOk(w.received, w.calls[k]);
    if |w.calls| < ID_MODULUS {
      SmallIds(j);
      SmallIds(k);
    }
  }

  predicate Unanswered(w: World, k: nat) {
    k < |w.calls| && w.calls[k].sends == 0 && !(w.reader.Delivering? && w.reader.call == k)
  }

  /** Every active call that was not answered yet is registered. */
  predicate AllRegistered(w: World) {
    forall k :: 0 <= k < |w.calls| && Active(w.calls[k].phase) && Unanswered(w, k) ==>
      w.calls[k].id in w.pending && w.pending[w.calls[k].id] == k
  }

  predicate DistinctIds(w: World) {
    && (forall j, k :: 0 <= j < k < |w.calls| ==> w.calls[j].id != w.calls[k].id)
    && (forall k :: 0 <= k < |w.calls| ==> w.calls[k].id != NOTIFICATION_ID)
  }

  lemma RunDistinct(es: seq<Event>, w: World)
    requires Run(es) == Some(w) && |w.calls| < ID_MODULUS
    ensures DistinctIds(w)
  {
    forall j, k | 0 <= j < |w.calls| && 0 <= k < |w.calls|
      ensures (j < k ==> w.calls[j].id != w.calls[k].id) && w.calls[k].id != NOTIFICATION_ID
    {
      IdsRepeat(es, w, j, k);
    }
  }

  lemma StepRegisters(w: World, e: Event, w': World)
    requires Inv(w) && AllRegistered(w) && DistinctIds(w) && Enabled(w, e) && w' == Step(w, e)
    ensures AllRegistered(w')
  {
    forall k | 0 <= k < |w'.calls| && Active(w'.calls[k].phase) && Unanswered(w', k)
      ensures w'.calls[k].id in w'.pending && w'.pending[w'.calls[k].id] == k
    {
      assert k < |w.calls|;
      assert CallOk(w.received, w.calls[k]);
      if !(e.Register? && e.k == k) {
        assert Active(w.calls[k].phase);
        if e.Receive? && e.f.requestId in w.pending { assert Entry(w, e.f.requestId, w.pending[e.f.requestId]); }
        assert Unanswered(w, k);
      }
    }
  }

  lemma {:induction false} RunRegisters(es: seq<Event>, w: World)
    requires Run(es) == Some(w) && |w.calls| < ID_MODULUS
    ensures AllRegistered(w)
  {
    if |es| > 0 {
      var pre := es[..|es| - 1];
      var v := Run(pre).value;
      CallsGrow(v, es[|es| - 1]);
      RunRegisters(pre, v);
      RunDistinct(pre, v);
      RunKeeps(pre);
      StepRegisters(v, es[|es| - 1], w);
    }
  }

  lemma CallsGrow(w: World, e: Event)
    requires Enabled(w, e)
    ensures |w.calls| <= |Step(w, e).calls|
  {}

  /** A reply that arrives while its call is waiting gets there, whatever else is going on. */
  lemma ReplyArrives(es: seq<Event>, w: World, k: nat, f: Frame.Frame, w1: World)
    requires Run(es) == Some(w) && |w.calls| < ID_MODULUS && w.reader.Reading?
    requires At(w, k, Waiting) && Unanswered(w, k) && f.requestId == w.calls[k].id && w1 == Step(w, Receive(f))
    ensures Enabled(w1, Deliver) && Step(w1, Deliver).calls[k].slot == [Parcel(f.body, |w.received|)]
    ensures Enabled(Step(w1, Deliver), TakeReply(k))
  {
    RunRegisters(es, w);
    RunDistinct(es, w);
    RunKeeps(es);
    assert CallOk(w.received, w.calls[k]);
  }

  lemma NotPending(w: World, k: nat, id: nat)
    requires Inv(w) && DistinctIds(w) && k < |w.calls| && w.calls[k].id == id
    requires w.calls[k].sends == 1 || w.calls[k].phase.Returned?
    ensures id !in w.pending
  {
    assert id in w.pending ==> Entry(w, id, w.pending[id]);
  }

  /** A second reply to a call, a reply to one that has left, and a notification change nothing. */
  lemma LateReplyDropped(es: seq<Event>, w: World, f: Frame.Frame)
    requires Run(es) == Some(w) && |w.calls| < ID_MODULUS && w.reader.Reading?
    requires f.requestId == NOTIFICATION_ID ||
             exists k :: 0 <= k < |w.calls| && w.calls[k].id == f.requestId &&
                         (w.calls[k].sends == 1 || w.calls[k].phase.Returned?)
    ensures Step(w, Receive(f)) == w.(received := w.received + [f])
  {
    if f.requestId != NOTIFICATION_ID {
      var k :| 0 <= k < |w.calls| && w.calls[k].id == f.requestId &&
               (w.calls[k].sends == 1 || w.calls[k].phase.Returned?);
      RunKeeps(es);
      RunDistinct(es, w);
      NotPending(w, k, f.requestId);
    }
  }

  // ---------------------------------------------------------------- how a call comes out

  predicate HasOutcome(w: World, k: nat) {
    k < |w.calls| && (w.calls[k].phase.Leaving? || w.calls[k].phase.Returned?)
  }

  function OutcomeOf(w: World, k: nat): Outcome
    requires HasOutcome(w, k)
  {
    w.calls[k].phase.o
  }

  /** What happened to call k says how it comes out, and how it comes out says what happened to it. */
  predicate Accounts(es: seq<Event>, w: World, k: nat) {
    && (TakeReply(k) in es <==> HasOutcome(w, k) && OutcomeOf(w, k).Replied?)
    && (WriteFails(k) in es <==> HasOutcome(w, k) && OutcomeOf(w, k) == WriteFailed)
    && (TimeOut(k) in es <==> HasOutcome(w, k) && OutcomeOf(w, k) == TimedOut)
    && (SeeClosed(k) in es <==> HasOutcome(w, k) && OutcomeOf(w, k) == ConnectionClosed)
    && (Deregister(k) in es <==> k < |w.calls| && w.calls[k].phase.Returned?)
    && (ReadFails in es <==> w.reader.Stopped?)
    && (SeeClosed(k) in es ==> ReadFails in es)
  }

  lemma InSnoc(es: seq<Event>, n: nat, e: Event)
    requires |es| == n + 1
    ensures e in es <==> e in es[..n] || e == es[n]
  {
    assert es == es[..n] + [es[n]];
  }

  lemma AccountsStep(es: seq<Event>, n: nat, v: World, w: World, k: nat)
    requires |es| == n + 1 && Enabled(v, es[n]) && w == Step(v, es[n]) && Accounts(es[..n], v, k)
    ensures Accounts(es, w, k)
  {
    OutcomeStep(es, n, v, w, k);
    InSnoc(es, n, SeeClosed(k));
    InSnoc(es, n, Deregister(k));
    InSnoc(es, n, ReadFails);
  }

  lemma OutcomeStep(es: seq<Event>, n: nat, v: World, w: World, k: nat)
    requires |es| == n + 1 && Enabled(v, es[n]) && w == Step(v, es[n]) && Accounts(es[..n], v, k)
    ensures TakeReply(k) in es <==> HasOutcome(w, k) && OutcomeOf(w, k).Replied?
    ensures WriteFails(k) in es <==> HasOutcome(w, k) && OutcomeOf(w, k) == WriteFailed
    ensures TimeOut(k) in es <==> HasOutcome(w, k) && OutcomeOf(w, k) == TimedOut
  {
    InSnoc(es, n, TakeReply(k));
    InSnoc(es, n, WriteFails(k));
    InSnoc(es, n, TimeOut(k));
  }

  /** Over every interleaving: a call has a reply exactly if it took one, has failed in writing, timed out
      or found the connection closed exactly if that is what happened to it, and has returned exactly if
      it was deregistered; and no call finds the connection closed unless reading has failed. */
  lemma {:induction false} OutcomesAccount(es: seq<Event>, w: World, k: nat)
    requires Run(es) == Some(w)
    ensures Accounts(es, w, k)
  {
    if |es| > 0 {
      var n := |es| - 1;
      var v := Run(es[..n]).value;
      OutcomesAccount(es[..n], v, k);
      AccountsStep(es, n, v, w, k);
    }
  }

  // ---------------------------------------------------------------- the client

  /** The shared state and its critical sections. A channel is a handle into slots; w is the protocol
      state they belong to. */
  class Client {
    var reqId: nat
    var pending: map<nat, nat>
    var slots: seq<Option<Bytes>>
    var closed: bool
    ghost var w: World

    ghost predicate Valid()
      reads this
    {
      && Inv(w) && reqId == w.reqId && pending == w.pending && closed == w.reader.Stopped?
      && |slots| == |w.calls|
      && forall k :: 0 <= k < |slots| ==> SlotIs(slots[k], w.calls[k])
    }

    constructor ()
      ensures Valid() && w == INIT
    {
      reqId, pending, slots, closed, w := 0, map[], [], false, INIT;
    }

    /** The atomic counter, and the caller's new channel. */
    method NextId() returns (id: nat, ch: nat)
      requires Valid()
      modifies this
      ensures Valid() && w == Step(old(w), Begin) && ch == |old(w.calls)| && id == w.calls[ch].id
    {
      reqId := (reqId + 1) % ID_MODULUS;
      id, ch := reqId, |slots|;
      slots := slots + [None];
      StepKeeps(w, Begin);
      w := Step(w, Begin);
    }

    method RegisterChannel(id: nat, ch: nat)
      requires Valid() && At(w, ch, Numbered) && id == w.calls[ch].id
      modifies this
      ensures Valid() && w == Step(old(w), Register(ch))
    {
      pending := pending[id := ch];
      StepKeeps(w, Register(ch));
      w := Step(w, Register(ch));
    }

    /** The deferred deletion; it runs whatever the outcome. */
    method DeregisterChannel(id: nat, ch: nat)
      requires Valid() && Enabled(w, Deregister(ch)) && id == w.calls[ch].id
      modifies this
      ensures Valid() && w == Step(old(w), Deregister(ch)) && id !in pending
    {
      pending := pending - {id};
      StepKeeps(w, Deregister(ch));
      w := Step(w, Deregister(ch));
    }

    /** One turn of the read loop up to the end of the lock: a message that is not a binary frame, a
        notification, or an id nobody waits for is dropped. */
    method Lookup(binary: bool, raw: Bytes) returns (hit: Option<(nat, Bytes)>, ghost e: Event)
      requires Valid() && w.reader.Reading?
      modifies this
      ensures e == (if binary && Frame.DecodeFrame(raw).Ok? then Receive(Frame.DecodeFrame(raw).value) else Garbage)
      ensures Valid() && w == Step(old(w), e)
      ensures hit.None? <==> w.reader.Reading?
      ensures hit.Some? ==> w.reader.Delivering? && hit.value == (w.reader.call, w.reader.p.body)
    {
      if !binary {
        return None, Garbage;
      }
      var frame := Frame.DecodeFrame(raw);
      if frame.Err? {
        return None, Garbage;
      }
      var f := frame.value;
      e := Receive(f);
      StepKeeps(w, e);
      w := Step(w, e);
      if f.requestId == NOTIFICATION_ID || f.requestId !in pending {
        return None, e;
      }
      hit := Some((pending[f.requestId], f.body));
      pending := pending - {f.requestId};
    }

    /** The send after the lock. That it never blocks is not assumed: the slot is shown to be empty. */
    method Send(ch: nat, body: Bytes)
      requires Valid() && w.reader.Delivering? && ch == w.reader.call && body == w.reader.p.body
      modifies this
      ensures old(w.reader.call < |slots| && slots[w.reader.call] == None)
      ensures Enabled(old(w), Deliver) && Valid() && w == Step(old(w), Deliver)
    {
      assert CallOk(w.received, w.calls[ch]);
      assert SlotIs(slots[ch], w.calls[ch]);
      slots := slots[ch := Some(body)];
      StepKeeps(w, Deliver);
      w := Step(w, Deliver);
    }

    /** The first arm of the caller's select. */
    method TryReceive(ch: nat) returns (raw: Option<Bytes>)
      requires Valid() && At(w, ch, Waiting)
      modifies this
      ensures Valid() && (raw.Some? <==> Enabled(old(w), TakeReply(ch)))
      ensures raw.Some? ==>
                && w == Step(old(w), TakeReply(ch)) && w.calls[ch].phase.o.Replied?
                && w.calls[ch].phase.o.p.body == raw.value
      ensures raw.None? ==> w == old(w)
    {
      assert SlotIs(slots[ch], w.calls[ch]) && CallOk(w.received, w.calls[ch]);
      raw := slots[ch];
      if raw.Some? {
        slots := slots[ch := None];
        StepKeeps(w, TakeReply(ch));
        w := Step(w, TakeReply(ch));
      }
    }
  }

  ghost predicate SlotIs(slot: Option<Bytes>, c: Call) {
    slot == if |c.slot| == 0 then None else Some(c.slot[0].body)
  }
}
