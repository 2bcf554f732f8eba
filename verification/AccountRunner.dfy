/** The account runner: the loops that poll the server, group what is pending and commit, proved to
    take only steps of the polling protocol. */
module AccountRunner {
  import opened Wrappers
  import opened Ordered
  import opened LocalStore
  import opened Grouping
  import opened SyncProtocol
  import AgentState
  import Paging

  const SYNC_BATCH_LIMIT := 200

  /** How one request of the sync loop goes, after the server has taken the given steps. */
  datatype SyncEvent =
    | CallFails
    | Answered(steps: seq<Event>, beginOk: bool, commitOk: bool)

  /** How the engine, its progress notifications, the reply and the commit of one group go. A failed
      reflection keeps the old summary. */
  datatype GroupEvent =
    | EngineFails
    | NotifyFails
    | ReplyFails
    | Replied(reflected: Option<string>, now: int, fate: AgentState.PersistFate)

  /** What the surroundings do during one poll; a list that runs out stands for a failure. */
  datatype Script = Script(connectOk: bool, lastSeqOk: bool, syncs: seq<SyncEvent>, queryOk: bool,
                           groups: seq<GroupEvent>)

  /** What the server holds once it has taken those of the steps that it can take. */
  function Advanced(log: map<int, Message>, top: int, steps: seq<Event>): (map<int, Message>, int)
    decreases steps
  {
    if steps == [] then (log, top)
    else
      var e := steps[0];
      if ServerEvent(e) && ServerEnabled(log, top, e) then Advanced(LogAfter(log, e), TopAfter(top, e), steps[1..])
      else Advanced(log, top, steps[1..])
  }

  class Server {
    const maxLimit: int  // configured
    var log: map<int, Message>
    var top: int

    ghost predicate Valid()
      reads this
    {
      LogOk(log) && Below(log, top) && top >= 0
    }

    constructor (maxLimit: int)
      ensures Valid() && log == map[] && top == 0 && this.maxLimit == maxLimit
    {
      this.maxLimit, log, top := maxLimit, map[], 0;
    }

    /** The server takes those of the given steps that it can take. */
    method Advance(steps: seq<Event>, ghost c: Config, ghost w: World) returns (ghost es: seq<Event>)
      requires Valid() && w.log == log && w.top == top
      modifies this
      ensures Valid() && Run(c, w, es) == Some(w.(log := log, top := top))
      ensures (log, top) == Advanced(old(log), old(top), steps)
    {
      es := [];
      assert steps[0..] == steps;
      for i := 0 to |steps|
        invariant Valid() && Run(c, w, es) == Some(w.(log := log, top := top))
        invariant Advanced(log, top, steps[i..]) == Advanced(old(log), old(top), steps)
      {
        var e := steps[i];
        if ServerEvent(e) && ServerEnabled(log, top, e) {
          ghost var before := w.(log := log, top := top);
          StaysValid(log, top, e);
          log, top := LogAfter(log, e), TopAfter(top, e);
          RunStep(c, w, es, before, e, w.(log := log, top := top));
          es := es + [e];
        }
      }
    }

    /** The ascending smallest messages above lastSeq, none jumped over, at most as many as the effective
        limit. One more is looked up: there are others exactly when it is found. */
    method SyncMessages(lastSeq: int, limit: int) returns (batch: seq<Message>, cursorSeq: int, hasMore: bool)
      requires Valid()
      ensures batch == Reply(log, lastSeq, EffectiveLimit(limit, maxLimit))
      ensures |batch| <= EffectiveLimit(limit, maxLimit)
      ensures forall i, j :: 0 <= i < j < |batch| ==> batch[i].seqNo < batch[j].seqNo
      ensures forall i :: 0 <= i < |batch| ==> batch[i].seqNo in log && log[batch[i].seqNo] == batch[i]
      ensures forall i :: 0 <= i < |batch| ==> batch[i].seqNo > lastSeq
      ensures forall s :: s in log && s > lastSeq && (!hasMore || s <= cursorSeq) ==> log[s] in batch
      ensures hasMore ==> |batch| == EffectiveLimit(limit, maxLimit) && exists s :: s in log && s > cursorSeq
      ensures hasMore <==> HasMore(WhenFound, log, lastSeq, EffectiveLimit(limit, maxLimit))
      ensures batch != [] ==> cursorSeq == batch[|batch| - 1].seqNo > 0
      ensures batch == [] ==> cursorSeq == 0
    {
      var effective := EffectiveLimit(limit, maxLimit);
      var items := Reply(log, lastSeq, effective + 1);
      hasMore := |items| > effective;
      batch := if hasMore then items[..effective] else items;
      cursorSeq := CursorSeq(batch);
      OneMore(log, lastSeq, effective, items);
      BatchOrdered(log, lastSeq, effective, batch);
      BatchComplete(log, lastSeq, effective, batch, hasMore);
    }
  }

  lemma BatchComplete(log: map<int, Message>, lastSeq: int, limit: nat, batch: seq<Message>, hasMore: bool)
    requires LogOk(log) && limit > 0 && batch == Reply(log, lastSeq, limit)
    requires hasMore == HasMore(WhenFound, log, lastSeq, limit)
    ensures forall s :: s in log && s > lastSeq && (!hasMore || s <= CursorSeq(batch)) ==> log[s] in batch
    ensures hasMore ==> |batch| == limit && exists s :: s in log && s > CursorSeq(batch)
  {
    forall s | s in log && s > lastSeq && (!hasMore || s <= CursorSeq(batch)) ensures log[s] in batch {
      Listed(log, lastSeq, limit, batch, s);
    }
    if hasMore { var s := Another(log, lastSeq, limit); }
  }

  /** A message that an answer has no room for. */
  lemma Another(log: map<int, Message>, lastSeq: int, limit: nat) returns (s: int)
    requires LogOk(log) && limit > 0 && HasMore(WhenFound, log, lastSeq, limit)
    ensures s in log && s > CursorSeq(Reply(log, lastSeq, limit)) && |Reply(log, lastSeq, limit)| == limit
  {
    var items := Reply(log, lastSeq, limit + 1);
    OneMore(log, lastSeq, limit, items);
    BatchOrdered(log, lastSeq, limit + 1, items);
    FrontCursor(items, limit);
    s := items[limit].seqNo;
  }

  lemma FrontCursor(items: seq<Message>, limit: nat)
    requires 0 < limit < |items|
    ensures CursorSeq(items[..limit]) == items[limit - 1].seqNo
  {}

  /** Looking up one message more than fits. */
  lemma OneMore(log: map<int, Message>, lastSeq: int, limit: nat, items: seq<Message>)
    requires items == Reply(log, lastSeq, limit + 1)
    ensures |items| > limit <==> HasMore(WhenFound, log, lastSeq, limit)
    ensures Reply(log, lastSeq, limit) == if |items| > limit then items[..limit] else items
  {
    LowestSize(log.Keys, lastSeq, limit);
    LowestSize(log.Keys, lastSeq, limit + 1);
  }

  lemma StaysValid(log: map<int, Message>, top: int, e: Event)
    requires LogOk(log) && Below(log, top) && top >= 0 && ServerEvent(e) && ServerEnabled(log, top, e)
    ensures LogOk(LogAfter(log, e)) && Below(LogAfter(log, e), TopAfter(top, e)) && TopAfter(top, e) >= 0
  {}

  lemma BatchOrdered(log: map<int, Message>, lastSeq: int, limit: nat, batch: seq<Message>)
    requires LogOk(log) && batch == Reply(log, lastSeq, limit)
    ensures |batch| <= limit && forall i, j :: 0 <= i < j < |batch| ==> batch[i].seqNo < batch[j].seqNo
    ensures forall i :: 0 <= i < |batch| ==> batch[i].seqNo in log && log[batch[i].seqNo] == batch[i]
    ensures forall i :: 0 <= i < |batch| ==> batch[i].seqNo > lastSeq && batch[i].seqNo > 0
  {
    var keys := Lowest(log.Keys, lastSeq, limit);
    ReplyFacts(log, lastSeq, limit);
    forall i | 0 <= i < |batch| ensures batch[i].seqNo == keys[i] {}
  }

  lemma Listed(log: map<int, Message>, lastSeq: int, limit: nat, batch: seq<Message>, s: int)
    requires LogOk(log) && batch == Reply(log, lastSeq, limit)
    requires s in log && s > lastSeq && (!HasMore(WhenFound, log, lastSeq, limit) || s <= CursorSeq(batch))
    ensures log[s] in batch
  {
    var keys := Lowest(log.Keys, lastSeq, limit);
    ReplyFacts(log, lastSeq, limit);
    if HasMore(WhenFound, log, lastSeq, limit) {
      LowestClosed(log.Keys, lastSeq, limit, s, keys[|keys| - 1]);
    } else {
      LowestAll(log.Keys, lastSeq, limit);
      assert s in Above(log.Keys, lastSeq);
    }
    var i :| 0 <= i < |keys| && keys[i] == s;
    assert batch[i] == log[s];
  }

  /** A state some run of the protocol leads to; what is proved of all runs holds of it. */
  ghost predicate Reachable(c: Config, w: World) {
    exists es :: Run(c, INIT, es) == Some(w)
  }

  lemma ReachesOn(c: Config, w: World, es: seq<Event>, w': World)
    requires Reachable(c, w) && Run(c, w, es) == Some(w')
    ensures Reachable(c, w') && Inv(c, w')
  {
    var before :| Run(c, INIT, before) == Some(w);
    RunSplit(c, INIT, before, es);
    InitOk(c);
    RunKeeps(c, INIT, before + es);
  }

  // ---------------------------------------------------------------- an undisturbed sync

  /** Every call answered and stored, while the server takes no step. */
  predicate Undisturbed(syncs: seq<SyncEvent>) {
    forall i :: 0 <= i < |syncs| ==> syncs[i] == Answered([], true, true)
  }

  /** Where the sync loop stands, from the mirror t0 on: the requests made and those still to come are what
      k0 messages take, and the mirror is on its way to what the server holds. */
  predicate Turning(me: int, log: map<int, Message>, t0: Table, t: Table, limit: nat, lastSeq: int, requests: nat,
                    more: bool, k0: nat)
    requires limit > 0
  {
    && LogOk(log) && Mirror(log, t) && Paging.Storable(log, t) && lastSeq == LastSeq(t)
    && Paging.Toward(me, log, t0, t)
    && requests + (if more then Paging.Rounds(WhenFound, |Paging.Unseen(log, t)|, limit) else 0) ==
       Paging.Rounds(WhenFound, k0, limit)
    && (!more ==> log.Keys <= t.Keys)
  }

  lemma QuietTurn(me: int, log: map<int, Message>, t0: Table, t: Table, limit: nat, lastSeq: int, requests: nat,
                  k0: nat, batch: seq<Message>)
    requires limit > 0 && Turning(me, log, t0, t, limit, lastSeq, requests, true, k0)
    requires batch == Reply(log, lastSeq, limit)
    ensures UpsertAll(t, me, batch).Ok?
    ensures Turning(me, log, t0, UpsertAll(t, me, batch).value, limit,
                    if CursorSeq(batch) > 0 then CursorSeq(batch) else lastSeq,
                    requests + 1, HasMore(WhenFound, log, lastSeq, limit), k0)
  {
    var t' := Paging.OneTurn(me, log, t, limit, WhenFound, batch);
    Paging.TowardOn(me, log, t0, t, t');
    if !HasMore(WhenFound, log, lastSeq, limit) {
      Paging.LastBatchCatchesUp(me, log, t, WhenFound, limit, t');
    }
  }

  // ---------------------------------------------------------------- how a batch goes

  /** The only way a group succeeds. */
  predicate Succeeds(ev: GroupEvent) {
    ev.Replied? && ev.fate.Written?
  }

  function EventAt(evs: seq<GroupEvent>, i: nat): GroupEvent {
    if i < |evs| then evs[i] else EngineFails
  }

  /** Exactly the groups before the first that does not succeed are done, n of them: they are saved, their
      messages counted, and the cursor has passed them - and one more, if that one failed in being written. */
  predicate Went(groups: seq<Group>, evs: seq<GroupEvent>, n: nat, ok: bool, processed: nat, saved0: seq<Group>,
                 saved: seq<Group>, mem0: int, mem: int)
  {
    && n <= |groups| && (forall i :: 0 <= i < n ==> Succeeds(EventAt(evs, i)))
    && (n < |groups| ==> !Succeeds(EventAt(evs, n)))
    && (ok <==> n == |groups|) && saved == saved0 + groups[..n] && processed == |Concat(groups[..n])|
    && mem == CursorAfter(mem0, groups[..if n < |groups| && EventAt(evs, n).Replied? then n + 1 else n])
  }

  /** There is a group event for each of so many groups, and none of them fails. */
  predicate AllSucceed(evs: seq<GroupEvent>, groups: nat) {
    forall i :: 0 <= i < groups ==> i < |evs| && evs[i].Replied? && evs[i].fate.Written?
  }

  /** As many of the messages due were processed as there are, or as are allowed, and the cursor is the
      number of the last of them in ascending order. */
  predicate AllDone(due: set<int>, maxPull: nat, processed: nat, mem0: int, mem: int) {
    && processed == (if |due| < maxPull then |due| else maxPull)
    && |Lowest(due, mem0, maxPull)| == processed
    && mem == if processed == 0 then mem0 else Lowest(due, mem0, maxPull)[processed - 1]
  }

  /** It was the first failing group that lost the connection. */
  predicate LostAt(groups: seq<Group>, evs: seq<GroupEvent>, n: nat) {
    n < |groups| && (EventAt(evs, n).NotifyFails? || EventAt(evs, n).ReplyFails?)
  }

  function DiskSeq(f: AgentState.File): int {
    if f.Saved? then f.state.processedSeq else 0
  }

  class Runner {
    const me: int
    const maxPull: nat
    const server: Server
    const store: Store
    var state: AgentState.Store
    var connected: bool
    ghost var w: World

    /** The protocol's state is the runner's: mirror, the two cursors and the server's log. */
    ghost predicate Valid()
      reads this, server, store, state
    {
      && (state.disk.Missing? || state.disk.Saved?)
      && server.Valid() && w.log == server.log && w.top == server.top && w.table == store.rows
      && w.mem == state.processedSeq && w.disk == DiskSeq(state.disk)
    }

    ghost function Conf(): (c: Config)
      ensures c.me == me && c.rule.WhenFound? && c.maxPull == maxPull
      ensures c.limit == if 0 < server.maxLimit < 200 then server.maxLimit else 200
    {
      Config(me, EffectiveLimit(SYNC_BATCH_LIMIT, server.maxLimit), WhenFound, maxPull)
    }

    constructor (me: int, maxPull: nat, maxLimit: int, maxCharsPer: int, maxPeers: int)
      ensures Valid() && w == INIT && Reachable(Conf(), w) && fresh(server) && fresh(store) && fresh(state)
      ensures this.me == me && this.maxPull == maxPull && server.maxLimit == maxLimit
    {
      assert Run(Config(me, EffectiveLimit(SYNC_BATCH_LIMIT, maxLimit), WhenFound, maxPull), INIT, []) == Some(INIT);
      this.me, this.maxPull, connected, w := me, maxPull, false, INIT;
      server := new Server(maxLimit);
      store := new Store();
      state := new AgentState.Store(AgentState.Missing, maxCharsPer, maxPeers);
    }

    method EnsureConnected(connectOk: bool) returns (ok: bool)
      modifies this`connected
      ensures connected == (old(connected) || connectOk) && ok == connected
    {
      if !connected && connectOk {
        connected := true;
      }
      ok := connected;
    }

    method Disconnect()
      modifies this`connected
      ensures !connected
    {
      connected := false;
    }

    /** Page the server's log into the mirror until it says there is no more. Undisturbed, with k storable
        messages unseen and L the effective limit, that takes exactly one request if k is 0 and k / L of
        them, rounded up, otherwise, and leaves no message unmirrored. */
    method SyncToLocal(lastSeqOk: bool, syncs: seq<SyncEvent>)
      returns (ok: bool, ghost es: seq<Event>, ghost requests: nat)
      requires Valid() && w.phase.Idle?
      modifies this`w, server, store
      ensures Valid() && Run(Conf(), old(w), es) == Some(w)
      ensures w.phase == if ok then Synced else Idle
      ensures w == old(w).(log := w.log, top := w.top, table := w.table, phase := w.phase)
      ensures !lastSeqOk ==> !ok && w == old(w)
      ensures lastSeqOk && Undisturbed(syncs) && Inv(Conf(), old(w)) && Paging.Storable(old(w.log), old(w.table)) ==>
                var enough := Paging.Requests(WhenFound, |Paging.Unseen(old(w.log), old(w.table))|, Conf().limit);
                if |syncs| < enough then !ok
                else && ok && requests == enough && w.log == old(w.log)
                     && Paging.CaughtUp(me, w.log, old(w.table), w.table)
    {
      es, requests := [], 0;
      if !lastSeqOk {
        return false, es, 0;
      }
      ghost var c, w0 := Conf(), w;
      ghost var calm := Undisturbed(syncs) && Inv(c, w0) && Paging.Storable(w0.log, w0.table);
      ghost var k0 := |Paging.Unseen(w0.log, w0.table)|;
      Paging.RoundsAre(WhenFound, k0, c.limit);
      var lastSeq := store.LastSyncedSeq();
      w := w.(phase := Syncing(lastSeq));
      RunStep(c, w0, es, w0, BeginPoll, w);
      es := es + [BeginPoll];
      var more, i := true, 0;
      while more
        invariant 0 <= i <= |syncs| && Valid() && i == requests
        invariant Run(c, w0, es) == Some(w) && w == w0.(log := w.log, top := w.top, table := w.table, phase := w.phase)
        invariant w.phase == if more then Syncing(lastSeq) else Synced
        invariant calm ==> && w.log == w0.log
                           && Turning(me, w.log, w0.table, w.table, c.limit, lastSeq, requests, more, k0)
        decreases |syncs| - i, more
      {
        if calm { Paging.RoundsPositive(WhenFound, |Paging.Unseen(w.log, w.table)|, c.limit); }
        ok, more, lastSeq, es :=
          SyncTurn(if i < |syncs| then syncs[i] else CallFails, lastSeq, w0, es, requests, k0);
        requests := requests + 1;
        if !ok {
          return;
        }
        i := i + 1;
      }
      ok := true;
    }

    /** One request of the loop, and the saving of its answer. */
    method SyncTurn(ev: SyncEvent, lastSeq0: int, ghost w0: World, ghost es0: seq<Event>, ghost requests: nat,
                    ghost k0: nat)
      returns (ok: bool, more: bool, lastSeq: int, ghost es: seq<Event>)
      requires Valid() && w.phase == Syncing(lastSeq0) && Run(Conf(), w0, es0) == Some(w)
      modifies this`w, server, store
      ensures Valid() && Run(Conf(), w0, es) == Some(w)
      ensures w == old(w).(log := w.log, top := w.top, table := w.table, phase := w.phase)
      ensures w.phase == if !ok then Idle else if more then Syncing(lastSeq) else Synced
      ensures ev.CallFails? ==> !ok
      ensures (w.log, w.top) == Advanced(old(w.log), old(w.top), if ev.Answered? then ev.steps else [])
      ensures ev == Answered([], true, true) &&
              Turning(me, old(w.log), w0.table, old(w.table), Conf().limit, lastSeq0, requests, true, k0) ==>
                ok && w.log == old(w.log) &&
                Turning(me, w.log, w0.table, w.table, Conf().limit, lastSeq, requests + 1, more, k0)
    {
      if ev.CallFails? {
        es := GiveUp(w0, es0);
        return false, true, lastSeq0, es;
      }
      es := ServerMoves(ev.steps, w0, es0);
      ok, more, lastSeq, es := TakeAnswer(ev.beginOk, ev.commitOk, lastSeq0, w0, es, requests, k0);
    }

    /** What the server does before it answers. */
    method ServerMoves(steps: seq<Event>, ghost w0: World, ghost es0: seq<Event>) returns (ghost es: seq<Event>)
      requires Valid() && w.phase.Syncing? && Run(Conf(), w0, es0) == Some(w)
      modifies this`w, server
      ensures Valid() && Run(Conf(), w0, es) == Some(w) && w == old(w).(log := w.log, top := w.top)
      ensures (w.log, w.top) == Advanced(old(w.log), old(w.top), steps)
    {
      ghost var arrived := server.Advance(steps, Conf(), w);
      RunSplit(Conf(), w0, es0, arrived);
      w := w.(log := server.log, top := server.top);
      es := es0 + arrived;
    }

    /** The server's answer, and the transaction that saves it. */
    method TakeAnswer(beginOk: bool, commitOk: bool, lastSeq0: int, ghost w0: World, ghost es0: seq<Event>,
                      ghost requests: nat, ghost k0: nat)
      returns (ok: bool, more: bool, lastSeq: int, ghost es: seq<Event>)
      requires Valid() && w.phase == Syncing(lastSeq0) && Run(Conf(), w0, es0) == Some(w)
      modifies this`w, store
      ensures Valid() && Run(Conf(), w0, es) == Some(w)
      ensures w == old(w).(table := w.table, phase := w.phase)
      ensures w.phase == if !ok then Idle else if more then Syncing(lastSeq) else Synced
      ensures beginOk && commitOk &&
              Turning(me, w.log, w0.table, old(w.table), Conf().limit, lastSeq0, requests, true, k0) ==>
                ok && Turning(me, w.log, w0.table, w.table, Conf().limit, lastSeq, requests + 1, more, k0)
    {
      var batch, cursorSeq, hasMore := server.SyncMessages(lastSeq0, SYNC_BATCH_LIMIT);
      if beginOk && commitOk && Turning(me, w.log, w0.table, w.table, Conf().limit, lastSeq0, requests, true, k0) {
        QuietTurn(me, w.log, w0.table, w.table, Conf().limit, lastSeq0, requests, k0, batch);
      }
      var saved := store.SaveMessages(me, batch, beginOk, commitOk);
      if saved.Err? {
        es := GiveUp(w0, es0);
        return false, true, lastSeq0, es;
      }
      RunStep(Conf(), w0, es0, w, SyncBatch, AfterBatch(Conf(), w));
      w := AfterBatch(Conf(), w);
      es := es0 + [SyncBatch];
      lastSeq := lastSeq0;
      if cursorSeq > 0 {
        lastSeq := cursorSeq;
      }
      return true, hasMore, lastSeq, es;
    }

    ghost method GiveUp(w0: World, es: seq<Event>) returns (es': seq<Event>)
      requires Valid() && w.phase.Syncing? && Run(Conf(), w0, es) == Some(w)
      modifies this`w
      ensures Valid() && w == old(w).(phase := Idle) && Run(Conf(), w0, es') == Some(w)
    {
      RunStep(Conf(), w0, es, w, SyncFails, w.(phase := Idle));
      w := w.(phase := Idle);
      es' := es + [SyncFails];
    }

    /** One group: engine, reply, reflection, commit. Only a commit that was written out is success; a
        message that cannot be sent, notification or reply, drops the connection. */
    method ProcessGroup(g: Group, ev: GroupEvent) returns (ok: bool, ghost e: Event)
      requires Valid() && Busy(w.phase) && g == w.phase.gs[w.phase.next]
      modifies this`w, this`connected, state
      ensures Valid() && (e.GroupDone? || e.GroupNotSaved? || e.GroupFails?) && w == Step(Conf(), old(w), e)
      ensures ok <==> e.GroupDone?
      ensures ok ==> w.saved == old(w.saved) + [g] && w.mem == Larger(old(w.mem), g.maxSeq)
      ensures ok ==> w.phase == Working(old(w.phase.start), old(w.phase.gs), old(w.phase.next) + 1)
      ensures !ok ==> w.saved == old(w.saved) && w.phase.Idle?
      ensures w.table == old(w.table)
      ensures !ev.Replied? ==> w.mem == old(w.mem)
      ensures !ev.Replied? ==> e.GroupFails? && state.peers == old(state.peers)
      ensures connected <==> old(connected) && !ev.NotifyFails? && !ev.ReplyFails?
      ensures ev.Replied? ==>
                w.mem == Larger(old(w.mem), g.maxSeq) &&
                Recalls(old(state.peers), g.peerKey, ev.reflected, ev.now, state.maxCharsPer, state.peers)
      ensures ev.Replied? ==> (ok <==> ev.fate.Written?) && AgentState.Evicted(
                AgentState.Updated(old(state.peers),
                                   AgentState.PeerUpdate(g.peerKey, Summary(ev, old(state.PeerSummary(g.peerKey)))),
                                   ev.now, state.maxCharsPer), state.peers, state.maxPeers)
    {
      var oldSummary := state.PeerSummary(g.peerKey);
      match ev
      case EngineFails =>
        ok, e := GroupStops();
      case NotifyFails | ReplyFails =>
        Disconnect();
        ok, e := GroupStops();
      case Replied(_, _, _) =>
        ok, e := CommitGroup(g, ev, oldSummary);
    }

    method GroupStops() returns (ok: bool, ghost e: Event)
      requires Valid() && Busy(w.phase)
      modifies this`w
      ensures !ok && e == GroupFails && Valid() && w == Step(Conf(), old(w), e)
      ensures w == old(w).(skipped := w.skipped, phase := Idle)
    {
      w := AfterFails(w);
      return false, GroupFails;
    }

    /** Only a commit that was written out is success; the cursor moves all the same. */
    method CommitGroup(g: Group, ev: GroupEvent, oldSummary: string) returns (ok: bool, ghost e: Event)
      requires Valid() && Busy(w.phase) && g == w.phase.gs[w.phase.next]
      requires ev.Replied? && oldSummary == state.PeerSummary(g.peerKey)
      modifies this`w, state
      ensures (ok <==> ev.fate.Written?) && e == (if ok then GroupDone else GroupNotSaved)
      ensures Valid() && w == Step(Conf(), old(w), e) && w.table == old(w.table)
      ensures w.mem == Larger(old(w.mem), g.maxSeq) && w.saved == old(w.saved) + if ok then [g] else []
      ensures w.phase == if ok then Working(old(w.phase.start), old(w.phase.gs), old(w.phase.next) + 1) else Idle
      ensures AgentState.Evicted(
                AgentState.Updated(old(state.peers), AgentState.PeerUpdate(g.peerKey, Summary(ev, oldSummary)), ev.now,
                                   state.maxCharsPer), state.peers, state.maxPeers)
      ensures Recalls(old(state.peers), g.peerKey, ev.reflected, ev.now, state.maxCharsPer, state.peers)
    {
      var newSummary := match ev.reflected case None => oldSummary case Some(s) => s;
      ok := Record(g, newSummary, ev.now, ev.fate, ev.reflected);
      e, w := CommitStep(Conf(), w, g, ok);
    }

    /** The store's commit of one partner. */
    method Record(g: Group, summary: string, now: int, fate: AgentState.PersistFate, ghost reflected: Option<string>)
      returns (ok: bool)
      requires summary == match reflected case Some(s) => s case None => state.PeerSummary(g.peerKey)
      modifies state
      ensures ok <==> fate.Written?
      ensures state.processedSeq == Larger(old(state.processedSeq), g.maxSeq)
      ensures state.disk == if ok then AgentState.Saved(AgentState.AccountState(state.processedSeq, state.peers))
                            else old(state.disk)
      ensures AgentState.Evicted(AgentState.Updated(old(state.peers), AgentState.PeerUpdate(g.peerKey, summary), now,
                                                    state.maxCharsPer), state.peers, state.maxPeers)
      ensures Recalls(old(state.peers), g.peerKey, reflected, now, state.maxCharsPer, state.peers)
    {
      ghost var before := state.peers;
      var update := AgentState.PeerUpdate(g.peerKey, summary);
      ok := state.Commit(g.maxSeq, [update], now, fate);
      OneUpdate(before, update, now, state.maxCharsPer);
      GroupRecalls(before, g.peerKey, reflected, summary, now, state.maxCharsPer, state.peers);
    }

    /** Nothing hinders the poll up to its groups: it is connected or connects, every call is answered and
        stored while the server takes no step, there are enough of them, and the query works. */
    ghost predicate Unhindered(script: Script)
      reads this
    {
      && (connected || script.connectOk) && script.lastSeqOk && script.queryOk && Undisturbed(script.syncs)
      && Inv(Conf(), w) && Paging.Storable(w.log, w.table)
      && |script.syncs| >= Paging.Requests(WhenFound, |Paging.Unseen(w.log, w.table)|, Conf().limit)
    }

    /** One poll. It takes only steps of the protocol, ends with no batch open, reports the messages of
        the groups it committed, and drops the connection when it fails before the batch is taken. Once the
        batch is taken, exactly the groups before the first that does not succeed are committed. Unhindered,
        it brings the mirror up to date and takes the batch; if then every group succeeds, it succeeds, has
        processed as many messages as allowed or due, and its cursor is the number of the last. */
    method PollOnce(script: Script)
      returns (processed: nat, ok: bool, ghost es: seq<Event>, ghost taken: bool, ghost gs: seq<Group>, ghost n: nat)
      requires Valid() && w.phase.Idle?
      modifies this`w, this`connected, server, store, state
      ensures Valid() && w.phase.Idle? && Run(Conf(), old(w), es) == Some(w)
      ensures old(w.saved) <= w.saved && processed == |Concat(w.saved[|old(w.saved)|..])|
      ensures ok ==> w.saved == old(w.saved) + Groups(Pending(w.table, me, old(w.mem), maxPull, false))
      ensures ok ==> w.mem == NextCursor(Conf(), w.table, old(w.mem))
      ensures !ok && TakePending !in es && QueryFails !in es ==> !connected
      ensures Reachable(Conf(), old(w)) ==> Reachable(Conf(), w)
      ensures gs == Groups(Pending(w.table, me, old(w.mem), maxPull, false))
      ensures taken ==> Went(gs, script.groups, n, ok, processed, old(w.saved), w.saved, old(w.mem), w.mem)
      ensures taken ==> (connected <==> !LostAt(gs, script.groups, n))
      ensures !taken ==> !ok && processed == 0 && w.saved == old(w.saved)
      ensures !taken ==> w.mem == old(w.mem) && w.disk == old(w.disk)
      ensures !(old(connected) || script.connectOk) || !script.lastSeqOk ==> !taken && w == old(w)
      ensures !script.queryOk ==> !taken
      ensures old(Unhindered(script)) ==>
                taken && w.log == old(w.log) && Paging.CaughtUp(me, w.log, old(w.table), w.table)
      ensures old(Unhindered(script)) && ok ==>
                AllDone(Paging.Due(me, w.log, old(w.table), old(w.mem)), maxPull, processed, old(w.mem), w.mem)
      ensures old(Unhindered(script)) && AllSucceed(script.groups, |gs|) ==> ok
    {
      ghost var w0 := w;
      processed, ok, es, taken, gs, n := Poll(script);
      if Reachable(Conf(), old(w)) {
        ReachesOn(Conf(), old(w), es, w);
      }
      if taken {
        TakenFacts(Conf(), w0, w, gs, script.groups, n, ok, processed);
      } else {
        assert w.saved[|w.saved|..] == [];
      }
    }

    method Poll(script: Script)
      returns (processed: nat, ok: bool, ghost es: seq<Event>, ghost taken: bool, ghost gs: seq<Group>, ghost n: nat)
      requires Valid() && w.phase.Idle?
      modifies this`w, this`connected, server, store, state
      ensures Valid() && w.phase.Idle? && Run(Conf(), old(w), es) == Some(w)
      ensures gs == Groups(Pending(w.table, me, old(w.mem), maxPull, false))
      ensures taken ==> Went(gs, script.groups, n, ok, processed, old(w.saved), w.saved, old(w.mem), w.mem)
      ensures taken ==> TakePending in es && (connected <==> !LostAt(gs, script.groups, n))
      ensures !taken ==> !ok && processed == 0 && w.saved == old(w.saved)
      ensures !taken ==> w.mem == old(w.mem) && w.disk == old(w.disk) && (QueryFails !in es ==> !connected)
      ensures !(old(connected) || script.connectOk) || !script.lastSeqOk ==> !taken && w == old(w)
      ensures !script.queryOk ==> !taken
      ensures old(Unhindered(script)) ==>
                taken && w.log == old(w.log) && Paging.CaughtUp(me, w.log, old(w.table), w.table)
    {
      processed, es, taken, n := 0, [], false, 0;
      gs := Groups(Pending(w.table, me, w.mem, maxPull, false));
      ghost var c, w0 := Conf(), w;
      ok := EnsureConnected(script.connectOk);
      if !ok {
        return;
      }
      ghost var requests;
      ok, es, requests := SyncToLocal(script.lastSeqOk, script.syncs);
      gs := Groups(Pending(w.table, me, w.mem, maxPull, false));
      if !ok {
        Disconnect();
        return;
      }
      if !script.queryOk {
        RunStep(c, w0, es, w, QueryFails, w.(phase := Idle));
        w := w.(phase := Idle);
        return 0, false, es + [QueryFails], false, gs, 0;
      }
      taken := true;
      processed, ok, es, n := TakeBatch(script.groups, w0, es, gs);
    }

    /** From a mirror in sync: the pending batch, split and processed. */
    method TakeBatch(evs: seq<GroupEvent>, ghost w0: World, ghost es0: seq<Event>, ghost gs: seq<Group>)
      returns (processed: nat, ok: bool, ghost es: seq<Event>, ghost n: nat)
      requires Valid() && w.phase.Synced? && Run(Conf(), w0, es0) == Some(w)
      requires gs == Groups(Pending(w.table, me, w.mem, maxPull, false))
      modifies this`w, this`connected, state
      ensures Valid() && w.phase.Idle? && Run(Conf(), w0, es) == Some(w) && TakePending in es
      ensures w.table == old(w.table) && w.log == old(w.log)
      ensures Went(gs, evs, n, ok, processed, old(w.saved), w.saved, old(w.mem), w.mem)
      ensures connected <==> old(connected) && !LostAt(gs, evs, n)
    {
      var pending := Pending(store.rows, me, state.processedSeq, maxPull, false);
      RunStep(Conf(), w0, es0, w, TakePending, AfterTake(Conf(), w));
      es := es0 + [TakePending];
      w := AfterTake(Conf(), w);
      if |pending| == 0 {
        NoneYet(gs, evs, w.saved, w.mem);
        AllOfThem(gs, evs, 0, w.saved, w.saved, w.mem, w.mem);
        return 0, true, es, 0;
      }
      var groups := GroupByPeer(pending);
      assert es[|es0|] == TakePending;
      processed, ok, es, n := ProcessAll(groups, evs, w0, es);
    }

    method ProcessAll(groups: seq<Group>, evs: seq<GroupEvent>, ghost w0: World, ghost es0: seq<Event>)
      returns (processed: nat, ok: bool, ghost es: seq<Event>, ghost n: nat)
      requires Valid() && w.phase.Working? && w.phase.gs == groups && w.phase.next == 0
      requires Run(Conf(), w0, es0) == Some(w)
      modifies this`w, this`connected, state
      ensures Valid() && w.phase.Idle? && Run(Conf(), w0, es) == Some(w)
      ensures w.table == old(w.table) && w.log == old(w.log)
      ensures Went(groups, evs, n, ok, processed, old(w.saved), w.saved, old(w.mem), w.mem)
      ensures connected <==> old(connected) && !LostAt(groups, evs, n)
      ensures es0 <= es
    {
      processed, es := 0, es0;
      ghost var c, start, saved0, mem0 := Conf(), w.phase.start, w.saved, w.mem;
      NoneYet(groups, evs, saved0, mem0);
      for i := 0 to |groups|
        invariant Valid() && Run(c, w0, es) == Some(w) && w.table == old(w.table) && w.log == old(w.log)
        invariant es0 <= es && connected == old(connected) && w.phase == Working(start, groups, i)
        invariant SoFar(groups, evs, i, processed, saved0, w.saved, mem0, w.mem)
      {
        ghost var before := w;
        var done, e := ProcessGroup(groups[i], if i < |evs| then evs[i] else EngineFails);
        RunStep(c, w0, es, before, e, w);
        es := es + [e];
        if !done {
          FailedHere(groups, evs, i, processed, saved0, before.saved, mem0, before.mem, w.mem);
          return processed, false, es, i;
        }
        OneMoreDone(groups, evs, i, processed, saved0, before.saved, mem0, before.mem);
        processed := processed + |groups[i].messages|;
      }
      AllOfThem(groups, evs, processed, saved0, w.saved, mem0, w.mem);
      es := Finish(w0, es);
      return processed, true, es, |groups|;
    }

    ghost method Finish(w0: World, es: seq<Event>) returns (es': seq<Event>)
      requires Valid() && Enabled(w, FinishPoll) && Run(Conf(), w0, es) == Some(w)
      modifies this`w
      ensures Valid() && w == old(w).(phase := Idle) && Run(Conf(), w0, es') == Some(w) && es <= es'
    {
      RunStep(Conf(), w0, es, w, FinishPoll, w.(phase := Idle));
      w := w.(phase := Idle);
      es' := es + [FinishPoll];
    }

    /** The process starts again from the state file; the mirror is on disk. */
    method Restart() returns (ghost e: Event)
      requires Valid()
      modifies this
      ensures e == Event.Restart && Valid() && w == Step(Conf(), old(w), e) && !connected
      ensures Reachable(Conf(), old(w)) ==> Reachable(Conf(), w)
    {
      var r := AgentState.Store.Open(state.disk, state.maxCharsPer, state.maxPeers);
      match r
      case Err(_) => assert false;
      case Ok(s) =>
        state := s;
        connected := false;
        RunStep(Conf(), w, [], w, Event.Restart, AfterRestart(w));
        if Reachable(Conf(), w) {
          ReachesOn(Conf(), w, [] + [Event.Restart], AfterRestart(w));
        }
        w := AfterRestart(w);
        e := Event.Restart;
    }
  }

  /** A commit as a step. */
  lemma CommitStep(c: Config, w: World, g: Group, ok: bool) returns (e: Event, w': World)
    requires Busy(w.phase) && g == w.phase.gs[w.phase.next]
    ensures e == (if ok then GroupDone else GroupNotSaved) && w' == Step(c, w, e)
    ensures w'.log == w.log && w'.top == w.top && w'.table == w.table
    ensures w'.mem == Larger(w.mem, g.maxSeq) && w'.disk == if ok then w'.mem else w.disk
    ensures w'.saved == w.saved + if ok then [g] else []
    ensures w'.phase == if ok then Working(w.phase.start, w.phase.gs, w.phase.next + 1) else Idle
  {
    e := if ok then GroupDone else GroupNotSaved;
    w' := if ok then AfterDone(w) else AfterNotSaved(w);
  }

  /** The first i groups are done. */
  predicate SoFar(groups: seq<Group>, evs: seq<GroupEvent>, i: nat, processed: nat, saved0: seq<Group>,
                  saved: seq<Group>, mem0: int, mem: int)
  {
    && i <= |groups| && (forall k :: 0 <= k < i ==> Succeeds(EventAt(evs, k)))
    && saved == saved0 + groups[..i] && processed == |Concat(groups[..i])| && mem == CursorAfter(mem0, groups[..i])
  }

  lemma NoneYet(groups: seq<Group>, evs: seq<GroupEvent>, saved0: seq<Group>, mem0: int)
    ensures SoFar(groups, evs, 0, 0, saved0, saved0, mem0, mem0)
  {
    assert groups[..0] == [] && saved0 + [] == saved0;
  }

  lemma OneMoreDone(groups: seq<Group>, evs: seq<GroupEvent>, i: nat, processed: nat, saved0: seq<Group>,
                    saved: seq<Group>, mem0: int, mem: int)
    requires i < |groups| && Succeeds(EventAt(evs, i)) && SoFar(groups, evs, i, processed, saved0, saved, mem0, mem)
    ensures SoFar(groups, evs, i + 1, processed + |groups[i].messages|, saved0, saved + [groups[i]], mem0,
                  Larger(mem, groups[i].maxSeq))
  {
    OneMoreGroup(mem0, saved0, groups, i);
  }

  lemma AllOfThem(groups: seq<Group>, evs: seq<GroupEvent>, processed: nat, saved0: seq<Group>, saved: seq<Group>,
                  mem0: int, mem: int)
    requires SoFar(groups, evs, |groups|, processed, saved0, saved, mem0, mem)
    ensures Went(groups, evs, |groups|, true, processed, saved0, saved, mem0, mem)
  {}

  lemma FailedHere(groups: seq<Group>, evs: seq<GroupEvent>, i: nat, processed: nat, saved0: seq<Group>,
                   saved: seq<Group>, mem0: int, before: int, mem: int)
    requires i < |groups| && !Succeeds(EventAt(evs, i)) && SoFar(groups, evs, i, processed, saved0, saved, mem0, before)
    requires mem == if EventAt(evs, i).Replied? then Larger(before, groups[i].maxSeq) else before
    ensures Went(groups, evs, i, false, processed, saved0, saved, mem0, mem)
  {
    CursorAfterTake(mem0, groups, i);
  }

  lemma WentFacts(groups: seq<Group>, evs: seq<GroupEvent>, n: nat, ok: bool, processed: nat, saved0: seq<Group>,
                  saved: seq<Group>, mem0: int, mem: int)
    requires Went(groups, evs, n, ok, processed, saved0, saved, mem0, mem)
    ensures saved0 <= saved && processed == |Concat(saved[|saved0|..])|
    ensures ok ==> saved == saved0 + groups && mem == CursorAfter(mem0, groups) && processed == |Concat(groups)|
    ensures AllSucceed(evs, |groups|) ==> ok
  {
    assert saved[|saved0|..] == groups[..n];
    if n == |groups| {
      assert groups[..n] == groups;
    }
  }

  lemma PollDue(c: Config, log: map<int, Message>, t: Table, mem: int, t': Table, batch: seq<Row>, due: set<int>)
    requires LogOk(log) && Keyed(t) && Paging.CaughtUp(c.me, log, t, t') && due == Paging.Due(c.me, log, t, mem)
    requires batch == Pending(t', c.me, mem, c.maxPull, false)
    ensures AllDone(due, c.maxPull, |Concat(Groups(batch))|, mem, NextCursor(c, t', mem))
  {
    Paging.CaughtUpKeyed(c.me, log, t, t');
    Paging.DueIsWaiting(c, log, t, mem, t');
    Paging.BatchDue(c, t', mem, due, batch);
    Paging.BatchCount(batch);
  }

  /** A poll whose batch was taken, told from its worlds. */
  lemma TakenFacts(c: Config, w0: World, w: World, gs: seq<Group>, evs: seq<GroupEvent>, n: nat, ok: bool,
                   processed: nat)
    requires gs == Groups(Pending(w.table, c.me, w0.mem, c.maxPull, false))
    requires Went(gs, evs, n, ok, processed, w0.saved, w.saved, w0.mem, w.mem)
    ensures w0.saved <= w.saved && processed == |Concat(w.saved[|w0.saved|..])|
    ensures ok ==> w.saved == w0.saved + gs && w.mem == NextCursor(c, w.table, w0.mem)
    ensures AllSucceed(evs, |gs|) ==> ok
    ensures ok && LogOk(w0.log) && Keyed(w0.table) && Paging.CaughtUp(c.me, w0.log, w0.table, w.table) ==>
              AllDone(Paging.Due(c.me, w0.log, w0.table, w0.mem), c.maxPull, processed, w0.mem, w.mem)
  {
    WentFacts(gs, evs, n, ok, processed, w0.saved, w.saved, w0.mem, w.mem);
    if ok && LogOk(w0.log) && Keyed(w0.table) && Paging.CaughtUp(c.me, w0.log, w0.table, w.table) {
      PollDue(c, w0.log, w0.table, w0.mem, w.table, Pending(w.table, c.me, w0.mem, c.maxPull, false),
              Paging.Due(c.me, w0.log, w0.table, w0.mem));
    }
  }

  lemma OneMoreGroup(start: int, saved: seq<Group>, groups: seq<Group>, i: nat)
    requires i < |groups|
    ensures saved + groups[..i] + [groups[i]] == saved + groups[..i + 1]
    ensures |Concat(groups[..i + 1])| == |Concat(groups[..i])| + |groups[i].messages|
    ensures CursorAfter(start, groups[..i + 1]) == Larger(CursorAfter(start, groups[..i]), groups[i].maxSeq)
  {
    assert groups[..i + 1] == groups[..i] + [groups[i]] && groups[..i + 1][..i] == groups[..i];
  }

  /** What is remembered once a group was replied to: of its partner, if kept, the reflection, or the old
      summary if there was none; of the others kept, what there was. */
  predicate Recalls(before: AgentState.Peers, key: string, reflected: Option<string>, now: int, maxChars: int,
                    after: AgentState.Peers)
  {
    && (key in after ==>
          var given :=
            match reflected
            case Some(s) => s
            case None => if key in before then before[key].summary else "";
          after[key].updatedAt == now && AgentState.CutAt(after[key].summary, given, maxChars))
    && (forall k :: k in after && k != key ==> k in before && after[k] == before[k])
  }

  lemma GroupRecalls(before: AgentState.Peers, key: string, reflected: Option<string>, summary: string, now: int,
                     maxChars: int, after: AgentState.Peers)
    requires AgentState.Remembers(before, [AgentState.PeerUpdate(key, summary)], now, maxChars, after)
    requires summary == match reflected
                        case Some(s) => s
                        case None => if key in before then before[key].summary else ""
    ensures Recalls(before, key, reflected, now, maxChars, after)
  {
    var us := [AgentState.PeerUpdate(key, summary)];
    assert AgentState.LastFor(us, 0) && us[0].key == key;
    forall k | k in after && k != key ensures k in before && after[k] == before[k] {
      assert AgentState.NotUpdated(us, k);
    }
  }

  function Summary(ev: GroupEvent, oldSummary: string): string
    requires ev.Replied?
  {
    match ev.reflected case None => oldSummary case Some(s) => s
  }

  lemma OneUpdate(peers: AgentState.Peers, u: AgentState.PeerUpdate, now: int, maxChars: int)
    ensures AgentState.UpdatedAll(peers, [u], now, maxChars) == AgentState.Updated(peers, u, now, maxChars)
  {
    assert [u][..0] == [];
  }
}
