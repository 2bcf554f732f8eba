/** What runs of the polling protocol guarantee, and what they do not. */
module SyncSafety {
  import opened Wrappers
  import opened Ordered
  import opened LocalStore
  import opened Grouping
  import opened SyncProtocol

  // ---------------------------------------------------------------- the mirror

  /** After every run, wherever it stopped, the mirror lacks none of the messages the server holds up to
      the number it will resume from, and the cursors have not run past them. */
  lemma MirrorHasNoGap(c: Config, es: seq<Event>)
    requires Run(c, INIT, es).Some?
    ensures var w := Run(c, INIT, es).value;
            && (forall s :: s in w.log && s <= LastSeq(w.table) ==> s in w.table)
            && w.disk <= w.mem <= LastSeq(w.table) <= w.top
  {
    InitOk(c);
    RunKeeps(c, INIT, es);
  }

  // ---------------------------------------------------------------- once saved, never again

  /** The cursor in the state file never moves back. */
  lemma DiskGrows(c: Config, w: World, e: Event, w': World)
    requires w.disk <= w.mem && Enabled(w, e) && w' == Step(c, w, e)
    ensures w.disk <= w'.disk
  {
    match e
    case SyncBatch => BatchMoves(c, w, w');
    case _ =>
  }

  lemma BatchMoves(c: Config, w: World, w': World)
    requires w.phase.Syncing? && w' == AfterBatch(c, w)
    ensures w' == w.(table := w'.table, phase := w'.phase)
  {}

  lemma {:induction false} DiskKeeps(c: Config, w: World, es: seq<Event>)
    requires Inv(c, w) && Run(c, w, es).Some?
    ensures w.disk <= Run(c, w, es).value.disk
  {
    if |es| > 0 {
      var pre := es[..|es| - 1];
      DiskKeeps(c, w, pre);
      RunKeeps(c, w, pre);
      DiskGrows(c, Run(c, w, pre).value, es[|es| - 1], Run(c, w, es).value);
    }
  }

  lemma PendingAbove(t: Table, me: int, after: int, limit: int, includeSelf: bool, r: Row)
    requires Keyed(t) && r in Pending(t, me, after, limit, includeSelf)
    ensures r.seqNo > after
  {
    var chosen := Chosen(PendingKeys(t, me, includeSelf), after, limit);
    var i :| 0 <= i < |chosen| && Pending(t, me, after, limit, includeSelf)[i] == r;
    assert chosen[i] in chosen;
  }

  /** A message at or below the cursor that was written out is not handed out again, whatever happens
      next: failures, reconnects, restarts, server steps, and whatever the batch size. */
  lemma NeverAgain(c: Config, es: seq<Event>, more: seq<Event>, limit: int, r: Row)
    requires Run(c, INIT, es + more).Some?
    requires Run(c, INIT, es).Some? && r.seqNo <= Run(c, INIT, es).value.disk
    ensures var w := Run(c, INIT, es + more).value;
            r !in Pending(w.table, c.me, w.mem, limit, false)
  {
    var w := Run(c, INIT, es + more).value;
    InitOk(c);
    RunKeeps(c, INIT, es);
    RunSplit(c, INIT, es, more);
    DiskKeeps(c, Run(c, INIT, es).value, more);
    RunKeeps(c, INIT, es + more);
    if r in Pending(w.table, c.me, w.mem, limit, false) {
      PendingAbove(w.table, c.me, w.mem, limit, false, r);
    }
  }

  /** That takes in every message of a group whose commit was written out. */
  lemma SavedNeverAgain(c: Config, es: seq<Event>, more: seq<Event>, limit: int, r: Row)
    requires Run(c, INIT, es + more).Some?
    requires Run(c, INIT, es).Some? && r.seqNo in Covered(Run(c, INIT, es).value.saved)
    ensures var w := Run(c, INIT, es + more).value;
            r !in Pending(w.table, c.me, w.mem, limit, false)
  {
    InitOk(c);
    RunKeeps(c, INIT, es);
    NeverAgain(c, es, more, limit, r);
  }

  // ---------------------------------------------------------------- stopping early

  /** Every number still to do is larger than every number committed. */
  predicate AllLater(committed: set<int>, left: set<int>) {
    forall s, t :: s in left && t in committed ==> t < s
  }

  lemma LeftAbove(foreign: set<int>, start: int, gs: seq<Group>, k: nat)
    requires k <= |gs| && Stretch(foreign, start, gs)
    ensures forall s :: s in Covered(gs[k..]) ==> s > start
  {
    CoveredSplit(gs, k);
    forall s | s in Covered(gs[k..]) ensures s > start { assert s in Covered(gs); }
  }

  /** The cursor after k groups is where the batch began or the largest number of one of them. */
  lemma CursorIsMax(foreign: set<int>, start: int, gs: seq<Group>, k: nat)
    requires k <= |gs| && Stretch(foreign, start, gs)
    ensures var cursor := CursorAfter(start, gs[..k]);
            && (cursor == start || cursor in Covered(gs[..k]))
            && start <= cursor && AtMost(Covered(gs[..k]), cursor)
  {
    CursorGrows(start, gs, 0, k);
    CommittedBelow(start, gs, k);
    CursorReached(start, gs[..k]);
    if CursorAfter(start, gs[..k]) != start {
      var i :| 0 <= i < |gs[..k]| && gs[..k][i].maxSeq == CursorAfter(start, gs[..k]);
      CoveredHas(gs[..k], i);
      assert gs[i].maxSeq in Seqs(gs[i]);
    }
  }

  /** Nothing is passed over exactly when all that is left lies above all that was committed. */
  lemma PassedOver(foreign: set<int>, start: int, gs: seq<Group>, k: nat)
    requires k <= |gs| && Stretch(foreign, start, gs)
    ensures UpTo(Covered(gs[k..]), CursorAfter(start, gs[..k])) == {} <==>
            AllLater(Covered(gs[..k]), Covered(gs[k..]))
  {
    var left, committed, cursor := Covered(gs[k..]), Covered(gs[..k]), CursorAfter(start, gs[..k]);
    CursorIsMax(foreign, start, gs, k);
    LeftAbove(foreign, start, gs, k);
    forall s | s in UpTo(left, cursor) ensures !AllLater(committed, left) {
      assert cursor in committed && s in left;
    }
    if UpTo(left, cursor) != {} { var s := SomeMember(UpTo(left, cursor)); }
    if UpTo(left, cursor) == {} {
      forall s, t | s in left && t in committed ensures t < s {
        assert s !in UpTo(left, cursor);
      }
    }
  }

  /** What a poll that stopped before group n of its batch has done: the cursor is the maximum over
      the groups committed, what is newly skipped is what was left at or below it, and that is nothing
      exactly when everything left lies above everything committed. */
  predicate StoppedAt(w: World, w': World, n: nat)
    requires w.phase.Working? && n <= |w.phase.gs|
  {
    var start, gs := w.phase.start, w.phase.gs;
    && w'.phase == Idle && w'.disk <= w'.mem && w'.mem == CursorAfter(start, gs[..n])
    && w'.skipped == w.skipped + UpTo(Covered(gs[n..]), w'.mem)
    && w.skipped !! Covered(gs[n..])
    && (w'.skipped == w.skipped <==> AllLater(Covered(gs[..n]), Covered(gs[n..])))
  }

  lemma NoneNew(old_: set<int>, new_: set<int>)
    requires old_ !! new_
    ensures old_ + new_ == old_ <==> new_ == {}
  {
    if new_ != {} { var x := SomeMember(new_); }
    forall x | x in new_ ensures old_ + new_ != old_ { assert x in old_ + new_; }
  }

  lemma StopFacts(foreign: set<int>, w: World, w': World, n: nat)
    requires w.phase.Working? && n <= |w.phase.gs| && Stretch(foreign, w.phase.start, w.phase.gs)
    requires w'.phase == Idle && w'.disk <= w'.mem && w'.mem == CursorAfter(w.phase.start, w.phase.gs[..n])
    requires w'.skipped == w.skipped + UpTo(Covered(w.phase.gs[n..]), w'.mem)
    requires w.skipped !! Covered(w.phase.gs[n..])
    ensures StoppedAt(w, w', n)
  {
    PassedOver(foreign, w.phase.start, w.phase.gs, n);
    NoneNew(w.skipped, UpTo(Covered(w.phase.gs[n..]), w'.mem));
  }

  lemma FailStops(c: Config, w: World, w': World)
    requires PhaseOk(c, w) && Books(c, w) && w.disk <= w.mem && Busy(w.phase) && w' == AfterFails(w)
    ensures StoppedAt(w, w', w.phase.next)
  {
    StopFacts(Foreign(c, w.table), w, w', w.phase.next);
  }

  lemma UnsavedStops(c: Config, w: World, w': World)
    requires PhaseOk(c, w) && Books(c, w) && w.disk <= w.mem && Busy(w.phase) && w' == AfterNotSaved(w)
    ensures StoppedAt(w, w', w.phase.next + 1)
  {
    CommitMoves(Foreign(c, w.table), w.phase.start, w.phase.gs, w.phase.next, w.mem);
    StopFacts(Foreign(c, w.table), w, w', w.phase.next + 1);
  }

  lemma Reached(c: Config, es: seq<Event>, w: World)
    requires Run(c, INIT, es) == Some(w)
    ensures PhaseOk(c, w) && Books(c, w) && w.disk <= w.mem
  {
    InitOk(c);
    RunKeeps(c, INIT, es);
  }

  /** The next group of a batch fails before its commit. */
  lemma PartialFailure(c: Config, es: seq<Event>, w: World, w': World)
    requires Run(c, INIT, es) == Some(w) && Busy(w.phase) && w' == Step(c, w, GroupFails)
    ensures StoppedAt(w, w', w.phase.next)
  {
    Reached(c, es, w);
    FailStops(c, w, w');
  }

  /** The next group commits in memory, but the commit cannot be written out. */
  lemma UnsavedFailure(c: Config, es: seq<Event>, w: World, w': World)
    requires Run(c, INIT, es) == Some(w) && Busy(w.phase) && w' == Step(c, w, GroupNotSaved)
    ensures StoppedAt(w, w', w.phase.next + 1)
  {
    Reached(c, es, w);
    UnsavedStops(c, w, w');
  }

  function Committed(p: Phase): set<int> {
    if p.Working? && p.next <= |p.gs| then Covered(p.gs[..p.next]) else {}
  }

  lemma StretchBegins(foreign: set<int>, start: int, gs: seq<Group>, disk: int)
    requires Stretch(foreign, start, gs) && disk <= start
    ensures UpTo(Covered(gs[0..]), disk) == {} && AllLater(Covered(gs[..0]), Covered(gs[0..]))
  {
    LeftAbove(foreign, start, gs, 0);
    if UpTo(Covered(gs[0..]), disk) != {} { var s := SomeMember(UpTo(Covered(gs[0..]), disk)); }
  }

  lemma RestartStops(c: Config, w: World, w': World)
    requires PhaseOk(c, w) && w.disk <= w.mem && w.phase.Working? && w' == AfterRestart(w)
    ensures var committed, left := Committed(w.phase), Todo(w.phase);
            && w'.mem == w.disk && w'.skipped == UpTo(w.skipped, w.disk) + UpTo(left, w.disk)
            && (UpTo(left, w.disk) == {} <==> AllLater(committed, left))
  {
    if w.phase.next == 0 {
      assert w.phase.gs[..0] == [];
      StretchBegins(Foreign(c, w.table), w.phase.start, w.phase.gs, w.disk);
    } else {
      PassedOver(Foreign(c, w.table), w.phase.start, w.phase.gs, w.phase.next);
    }
  }

  /** The process dies between two groups; it comes back with the cursor of the state file. */
  lemma RestartFailure(c: Config, es: seq<Event>, w: World, w': World)
    requires Run(c, INIT, es) == Some(w) && w.phase.Working? && w' == Step(c, w, Restart)
    ensures var committed, left := Committed(w.phase), Todo(w.phase);
            && w'.mem == w.disk && w'.skipped == UpTo(w.skipped, w.disk) + UpTo(left, w.disk)
            && (UpTo(left, w.disk) == {} <==> AllLater(committed, left))
  {
    Reached(c, es, w);
    RestartStops(c, w, w');
  }

  // ---------------------------------------------------------------- exact accounting

  predicate Disjoint(gs: seq<Group>) {
    forall i, j :: 0 <= i < j < |gs| ==> Seqs(gs[i]) !! Seqs(gs[j])
  }

  predicate Saving(es: seq<Event>) {
    GroupNotSaved !in es
  }

  /** With every commit written out, nothing is processed twice and nothing processed is skipped. */
  predicate Exact(c: Config, w: World) {
    && w.mem == w.disk && w.done == w.saved && Disjoint(w.done)
    && Covered(w.done) <= Foreign(c, w.table)
    && Covered(w.done) !! w.skipped && Covered(w.done) !! Todo(w.phase)
  }

  lemma DisjointSnoc(gs: seq<Group>, g: Group)
    requires Disjoint(gs) && Covered(gs) !! Seqs(g)
    ensures Disjoint(gs + [g])
  {
    forall i | 0 <= i < |gs| ensures Seqs(gs[i]) !! Seqs(g) { CoveredHas(gs, i); }
  }

  lemma DoneExact(c: Config, w: World)
    requires Inv(c, w) && Exact(c, w) && Busy(w.phase)
    ensures Exact(c, AfterDone(w))
  {
    var gs, k := w.phase.gs, w.phase.next;
    CommitMoves(Foreign(c, w.table), w.phase.start, gs, k, w.mem);
    CoveredSnoc(w.done, gs[k]);
    DisjointSnoc(w.done, gs[k]);
  }

  lemma TakeExact(c: Config, w: World, w': World)
    requires Keyed(w.table) && Exact(c, w) && AtMost(Covered(w.done), w.mem) && w' == AfterTake(c, w)
    ensures Exact(c, w')
  {
    BatchIsStretch(w.table, c.me, w.mem, c.maxPull);
    var gs := Groups(Pending(w.table, c.me, w.mem, c.maxPull, false));
    assert gs[0..] == gs;
    assert forall s :: s in Covered(gs) ==> s > w.mem;
    assert w' == w.(phase := w'.phase);
    assert Todo(w'.phase) <= Covered(gs);
  }

  lemma ExactGrows(c: Config, w: World, t: Table, p: Phase)
    requires Exact(c, w) && Foreign(c, w.table) <= Foreign(c, t) && !p.Working?
    ensures Exact(c, w.(table := t, phase := p))
  {}

  lemma BatchExact(c: Config, w: World, w': World)
    requires LogOk(w.log) && Mirror(w.log, w.table) && w.mem <= LastSeq(w.table)
    requires w.phase == Syncing(LastSeq(w.table)) && Exact(c, w) && w' == AfterBatch(c, w)
    ensures Exact(c, w')
  {
    var batch := Reply(w.log, LastSeq(w.table), c.limit);
    var r := UpsertAll(w.table, c.me, batch);
    if r.Ok? {
      BatchKeepsMirror(c.me, w.log, w.table, c.limit, batch, r.value);
      ForeignExtends(c, w.table, r.value, w.mem);
      assert w' == w.(table := r.value, phase := w'.phase);
      ExactGrows(c, w, r.value, w'.phase);
    } else {
      assert w' == w.(phase := Idle);
      ExactGrows(c, w, w.table, Idle);
    }
  }

  lemma FailExact(c: Config, w: World, w': World)
    requires Exact(c, w) && w' == AfterFails(w)
    ensures Exact(c, w')
  {
    assert Todo(w'.phase) == {};
  }

  lemma RestartExact(c: Config, w: World, w': World)
    requires Exact(c, w) && w' == AfterRestart(w)
    ensures Exact(c, w')
  {
    assert Todo(w'.phase) == {};
  }

  lemma ServerExact(c: Config, w: World, w': World)
    requires Exact(c, w) && w' == w.(log := w'.log, top := w'.top)
    ensures Exact(c, w')
  {}

  lemma StopExact(c: Config, w: World, e: Event, w': World)
    requires Exact(c, w) && Enabled(w, e) && w' == Step(c, w, e)
    requires !e.SyncBatch? && !e.TakePending? && !e.GroupDone? && !e.GroupNotSaved?
    ensures Exact(c, w')
  {
    match e
    case Append(_) | Recall(_, _) | Delete(_, _) | Purge(_) => ServerExact(c, w, w');
    case GroupFails => FailExact(c, w, w');
    case Restart => RestartExact(c, w, w');
    case _ => ExactGrows(c, w, w.table, w'.phase);
  }

  lemma {:induction false} RunExact(c: Config, es: seq<Event>)
    requires Run(c, INIT, es).Some? && Saving(es)
    ensures Exact(c, Run(c, INIT, es).value)
  {
    if |es| > 0 {
      var pre, e := es[..|es| - 1], es[|es| - 1];
      var w, w' := Run(c, INIT, pre).value, Run(c, INIT, es).value;
      RunExact(c, pre);
      InitOk(c);
      RunKeeps(c, INIT, pre);
      match e
      case SyncBatch => BatchExact(c, w, AfterBatch(c, w));
      case TakePending => TakeExact(c, w, AfterTake(c, w));
      case GroupDone => DoneExact(c, w);
      case _ => StopExact(c, w, e, w');
    }
  }

  /** Between polls of a run whose commits are all written out, every mirrored foreign message at or
      below the cursor is either in a committed group, and in only one, or skipped, and not both. */
  lemma ProcessedOrSkipped(c: Config, es: seq<Event>)
    requires Run(c, INIT, es).Some? && Saving(es) && Run(c, INIT, es).value.phase.Idle?
    ensures var w := Run(c, INIT, es).value;
            && UpTo(Foreign(c, w.table), w.mem) == Covered(w.done) + w.skipped
            && Covered(w.done) !! w.skipped && Disjoint(w.done)
  {
    InitOk(c);
    RunKeeps(c, INIT, es);
    RunExact(c, es);
    var w := Run(c, INIT, es).value;
    assert Covered(w.done) <= UpTo(Foreign(c, w.table), w.mem);
  }

  // ---------------------------------------------------------------- runs in which no group fails

  /** No group fails and the process is not restarted in the middle of a batch. */
  predicate Smooth(c: Config, es: seq<Event>)
    requires Run(c, INIT, es).Some?
  {
    es == [] ||
      var pre, e := es[..|es| - 1], es[|es| - 1];
      && Smooth(c, pre) && !e.GroupFails? && !e.GroupNotSaved?
      && (e.Restart? ==> !Busy(Run(c, INIT, pre).value.phase))
  }

  lemma NothingLeft(w: World)
    requires !Busy(w.phase)
    ensures Todo(w.phase) == {}
  {}

  lemma {:induction false} SmoothSaving(c: Config, es: seq<Event>)
    requires Run(c, INIT, es).Some? && Smooth(c, es)
    ensures Saving(es) && Run(c, INIT, es).value.skipped == {}
  {
    if |es| > 0 {
      var pre, e := es[..|es| - 1], es[|es| - 1];
      SmoothSaving(c, pre);
      assert es == pre + [e];
      if e.Restart? { NothingLeft(Run(c, INIT, pre).value); }
    }
  }

  predicate InOnlyGroup(gs: seq<Group>, s: int, i: nat) {
    i < |gs| && s in Seqs(gs[i]) && forall j :: 0 <= j < |gs| && j != i ==> s !in Seqs(gs[j])
  }

  /** If no group fails, nothing is lost and nothing is done twice. */
  lemma ExactlyOnce(c: Config, es: seq<Event>, s: int)
    requires Run(c, INIT, es).Some? && Smooth(c, es) && Run(c, INIT, es).value.phase.Idle?
    requires s in Foreign(c, Run(c, INIT, es).value.table) && s <= Run(c, INIT, es).value.mem
    ensures exists i :: InOnlyGroup(Run(c, INIT, es).value.done, s, i)
  {
    SmoothSaving(c, es);
    ProcessedOrSkipped(c, es);
    var w := Run(c, INIT, es).value;
    assert s in UpTo(Foreign(c, w.table), w.mem);
    var i := CoveredBy(w.done, s);
    assert InOnlyGroup(w.done, s, i);
  }

  // ---------------------------------------------------------------- a message that is lost

  function Direct(seqNo: int, msgId: string, fromUid: int): Message {
    Message(seqNo, msgId, fromUid, ToUser(9), 1, 0, 0, Body([], true))
  }

  const ACCOUNT := Config(9, 200, WhenFound, 20)

  /** Two users write in turn: 1, then 2, then 1 again. */
  function Interleaved(): map<int, Message> {
    map[1 := Direct(1, "a", 1), 2 := Direct(2, "b", 2), 3 := Direct(3, "c", 1)]
  }

  function Mirrored(): Table {
    map[1 := RowOf(9, Direct(1, "a", 1)), 2 := RowOf(9, Direct(2, "b", 2)), 3 := RowOf(9, Direct(3, "c", 1))]
  }

  lemma ListedIs(s: set<int>, r: seq<int>, n: nat)
    requires Ascending(r) && |r| <= n && forall x :: x in r <==> x in Above(s, 0)
    ensures Lowest(s, 0, n) == r
  {
    AscendingUnique(Sorted(Above(s, 0)), r);
    assert r[..|r|] == r;
  }

  lemma LowestOfThree(n: nat)
    requires n >= 3
    ensures Lowest({1, 2, 3}, 0, n) == [1, 2, 3]
  {
    var s, r := {1, 2, 3}, [1, 2, 3];
    assert r[0] == 1 && r[1] == 2 && r[2] == 3;
    forall x ensures x in r <==> x in Above(s, 0) {
      assert x in r <==> x == 1 || x == 2 || x == 3;
    }
    ListedIs(s, r, n);
  }

  lemma ReplyOfThree(log: map<int, Message>, limit: nat, keys: seq<int>)
    requires keys == Lowest(log.Keys, 0, limit) && |keys| == 3
    requires keys[0] in log && keys[1] in log && keys[2] in log
    ensures Reply(log, 0, limit) == [log[keys[0]], log[keys[1]], log[keys[2]]]
  {}

  lemma InterleavedReply(m1: Message, m2: Message, m3: Message, log: map<int, Message>)
    requires log.Keys == {1, 2, 3} && log[1] == m1 && log[2] == m2 && log[3] == m3
    ensures Reply(log, 0, 200) == [m1, m2, m3]
  {
    LowestOfThree(200);
    ReplyOfThree(log, 200, Lowest(log.Keys, 0, 200));
  }

  lemma InterleavedSaved(m1: Message, m2: Message, m3: Message)
    requires m1 == Direct(1, "a", 1) && m2 == Direct(2, "b", 2) && m3 == Direct(3, "c", 1)
    ensures UpsertAll(map[], 9, [m1, m2, m3]) == Ok(Mirrored())
  {
    assert [m1, m2, m3][..2] == [m1, m2] && [m1, m2][..1] == [m1] && [m1][..0] == [];
    var t1: Table := map[1 := RowOf(9, m1)];
    var t2: Table := map[1 := RowOf(9, m1), 2 := RowOf(9, m2)];
    assert UpsertAll(map[], 9, [m1]) == Ok(t1);
    assert UpsertAll(map[], 9, [m1, m2]) == Ok(t2);
  }

  lemma InterleavedPending()
    ensures Pending(Mirrored(), 9, 0, 20, false) == [Mirrored()[1], Mirrored()[2], Mirrored()[3]]
  {
    assert PendingKeys(Mirrored(), 9, false) == {1, 2, 3};
    LowestOfThree(20);
  }

  lemma OneMore(ms: seq<Row>, m: Row, key: string, ms': seq<Row>)
    requires ms' == ms + [m]
    ensures Keys(ms') == if KeyOf(m) in Keys(ms) then Keys(ms) else Keys(ms) + [KeyOf(m)]
    ensures Filter(ms', key) == if KeyOf(m) == key then Filter(ms, key) + [m] else Filter(ms, key)
    ensures MaxSeq(ms') == Larger(MaxSeq(ms), m.seqNo)
  {
    assert ms'[..|ms|] == ms;
  }

  /** ms1, ms2 and ms3 are the batch after one, two and three messages. */
  lemma FirstAndThird(ms1: seq<Row>, ms2: seq<Row>, ms3: seq<Row>, r1: Row, r2: Row, r3: Row, key: string)
    requires ms1 == [] + [r1] && ms2 == ms1 + [r2] && ms3 == ms2 + [r3]
    requires KeyOf(r1) == key == KeyOf(r3) && KeyOf(r2) != key
    ensures Filter(ms3, key) == [r1, r3]
  {
    OneMore([], r1, key, ms1);
    OneMore(ms1, r2, key, ms2);
    OneMore(ms2, r3, key, ms3);
  }

  lemma OnlySecond(ms1: seq<Row>, ms2: seq<Row>, ms3: seq<Row>, r1: Row, r2: Row, r3: Row, key: string)
    requires ms1 == [] + [r1] && ms2 == ms1 + [r2] && ms3 == ms2 + [r3]
    requires KeyOf(r1) != key && KeyOf(r3) != key && KeyOf(r2) == key
    ensures Filter(ms3, key) == [r2]
  {
    OneMore([], r1, key, ms1);
    OneMore(ms1, r2, key, ms2);
    OneMore(ms2, r3, key, ms3);
  }

  lemma ThreeKeys(ms1: seq<Row>, ms2: seq<Row>, ms3: seq<Row>, r1: Row, r2: Row, r3: Row, a: string, b: string)
    requires ms1 == [] + [r1] && ms2 == ms1 + [r2] && ms3 == ms2 + [r3]
    requires KeyOf(r1) == a && KeyOf(r2) == b && KeyOf(r3) == a && a != b
    ensures Keys(ms3) == [a, b]
  {
    OneMore([], r1, a, ms1);
    OneMore(ms1, r2, a, ms2);
    OneMore(ms2, r3, a, ms3);
  }

  /** The first and the third message have one sender, the second another. */
  lemma InterleavedGroups(r1: Row, r2: Row, r3: Row, gs: seq<Group>)
    requires KeyOf(r1) == KeyOf(r3) != KeyOf(r2) && gs == Groups([r1, r2, r3])
    requires 0 < r1.seqNo < r2.seqNo < r3.seqNo
    ensures |gs| == 2 && gs[0].messages == [r1, r3] && gs[0].maxSeq == r3.seqNo
    ensures gs[1].messages == [r2] && gs[1].maxSeq == r2.seqNo
  {
    var ms1, ms2, ms3 := [r1], [r1, r2], [r1, r2, r3];
    ThreeKeys(ms1, ms2, ms3, r1, r2, r3, KeyOf(r1), KeyOf(r2));
    FirstAndThird(ms1, ms2, ms3, r1, r2, r3, KeyOf(r1));
    OnlySecond(ms1, ms2, ms3, r1, r2, r3, KeyOf(r2));
    OneMore([], r1, KeyOf(r1), [r1]);
    OneMore([], r2, KeyOf(r1), [r2]);
    OneMore([r1], r3, KeyOf(r1), [r1, r3]);
  }

  lemma Arrives(c: Config, es: seq<Event>, log: map<int, Message>, m: Message, log': map<int, Message>)
    requires Run(c, INIT, es) == Some(INIT.(log := log, top := m.seqNo - 1)) && log' == log[m.seqNo := m]
    requires forall s :: s in log ==> log[s].msgId != m.msgId
    ensures Run(c, INIT, es + [Append(m)]) == Some(INIT.(log := log', top := m.seqNo))
  {
    RunStep(c, INIT, es, INIT.(log := log, top := m.seqNo - 1), Append(m), INIT.(log := log', top := m.seqNo));
  }

  lemma InterleavedStart(c: Config) returns (es: seq<Event>, w: World)
    ensures Run(c, INIT, es) == Some(w) && w == INIT.(log := Interleaved(), top := 3, phase := Syncing(0))
  {
    var m1, m2, m3 := Direct(1, "a", 1), Direct(2, "b", 2), Direct(3, "c", 1);
    Arrives(c, [], map[], m1, map[1 := m1]);
    Arrives(c, [] + [Append(m1)], map[1 := m1], m2, map[1 := m1, 2 := m2]);
    es := [] + [Append(m1)] + [Append(m2)];
    Arrives(c, es, map[1 := m1, 2 := m2], m3, Interleaved());
    es := es + [Append(m3)];
    var before := INIT.(log := Interleaved(), top := 3);
    w := before.(phase := Syncing(0));
    RunStep(c, INIT, es, before, BeginPoll, w);
    es := es + [BeginPoll];
  }

  lemma InterleavedBatch(c: Config, w: World, w': World)
    requires c == ACCOUNT && w == INIT.(log := Interleaved(), top := 3, phase := Syncing(0))
    requires w' == INIT.(log := Interleaved(), top := 3, table := Mirrored(), phase := Synced)
    ensures AfterBatch(c, w) == w'
  {
    InterleavedReply(Direct(1, "a", 1), Direct(2, "b", 2), Direct(3, "c", 1), Interleaved());
    InterleavedSaved(Direct(1, "a", 1), Direct(2, "b", 2), Direct(3, "c", 1));
  }

  lemma InterleavedTake(c: Config, w: World, w': World, gs: seq<Group>)
    requires c == ACCOUNT && w.table == Mirrored() && w.mem == 0
    requires gs == Groups([Mirrored()[1], Mirrored()[2], Mirrored()[3]]) && w' == w.(phase := Working(0, gs, 0))
    ensures AfterTake(c, w) == w'
  {
    InterleavedPending();
  }

  lemma InterleavedDone(w: World, w': World, gs: seq<Group>)
    requires |gs| == 2 && Seqs(gs[0]) == {1, 3} && gs[0].maxSeq == 3 && Seqs(gs[1]) == {2}
    requires w.phase == Working(0, gs, 0) && w.mem == 0 && w.done == [] && w' == AfterDone(w)
    ensures Busy(w'.phase) && w'.mem == 3 && Covered(w'.done) == {1, 3} && Todo(w'.phase) == {2}
  {
    CoveredOne(gs[0]);
    CoveredOne(gs[1]);
    assert gs[1..] == [gs[1]] && [] + [gs[0]] == [gs[0]];
  }

  lemma InterleavedTaken(c: Config) returns (es: seq<Event>, w: World)
    requires c == ACCOUNT
    ensures var gs := Groups([Mirrored()[1], Mirrored()[2], Mirrored()[3]]);
            w == INIT.(log := Interleaved(), top := 3, table := Mirrored(), phase := Working(0, gs, 0))
    ensures Run(c, INIT, es) == Some(w)
  {
    var es4, w4 := InterleavedStart(c);
    var gs := Groups([Mirrored()[1], Mirrored()[2], Mirrored()[3]]);
    var w5 := INIT.(log := Interleaved(), top := 3, table := Mirrored(), phase := Synced);
    w := w5.(phase := Working(0, gs, 0));
    InterleavedBatch(c, w4, w5);
    InterleavedTake(c, w5, w, gs);
    RunStep(c, INIT, es4, w4, SyncBatch, w5);
    RunStep(c, INIT, es4 + [SyncBatch], w5, TakePending, w);
    es := es4 + [SyncBatch] + [TakePending];
  }

  lemma InterleavedShape(gs: seq<Group>)
    requires gs == Groups([Mirrored()[1], Mirrored()[2], Mirrored()[3]])
    ensures |gs| == 2 && Seqs(gs[0]) == {1, 3} && gs[0].maxSeq == 3 && Seqs(gs[1]) == {2}
  {
    KeysInjective(1, 2);
    InterleavedGroups(Mirrored()[1], Mirrored()[2], Mirrored()[3], gs);
  }

  lemma InterleavedRun(c: Config) returns (es: seq<Event>, w: World)
    requires c == ACCOUNT
    ensures Run(c, INIT, es) == Some(w) && Busy(w.phase) && w.mem == 3
    ensures w.log == Interleaved() && w.top == 3 && w.table == Mirrored()
    ensures Covered(w.done) == {1, 3} && Todo(w.phase) == {2}
  {
    var es6, w6 := InterleavedTaken(c);
    InterleavedShape(w6.phase.gs);
    InterleavedDone(w6, AfterDone(w6), w6.phase.gs);
    RunStep(c, INIT, es6, w6, GroupDone, AfterDone(w6));
    es, w := es6 + [GroupDone], AfterDone(w6);
  }

  lemma FailedLoses(c: Config, w: World, w': World, s: int)
    requires Keyed(w.table) && w' == AfterFails(w)
    requires s in Foreign(c, w.table) && s !in Covered(w.done) && s <= w.mem
    ensures w'.phase.Idle? && Lost(c, w', s)
  {
    NotHandedOut(w'.table, c.me, w'.mem, c.maxPull, s);
  }

  /** The design's promise that a failing group loses nothing does not hold when partners interleave:
      here the first user's group moves the cursor to 3, the second user's group fails, and message 2,
      mirrored and never processed, is not handed out again. */
  lemma MessageLost()
    ensures exists es, w :: Run(ACCOUNT, INIT, es) == Some(w) && w.phase.Idle? && Lost(ACCOUNT, w, 2)
  {
    var es, w := InterleavedRun(ACCOUNT);
    RunStep(ACCOUNT, INIT, es, w, GroupFails, AfterFails(w));
    FailedLoses(ACCOUNT, w, AfterFails(w), 2);
  }

  /** Mirrored, meant for processing, not processed, and no longer handed out. */
  predicate Lost(c: Config, w: World, s: int) {
    && s in Foreign(c, w.table) && s !in Covered(w.done)
    && forall r :: r in Pending(w.table, c.me, w.mem, c.maxPull, false) ==> r.seqNo != s
  }

  lemma NotHandedOut(t: Table, me: int, after: int, limit: int, s: int)
    requires Keyed(t) && s <= after
    ensures forall r :: r in Pending(t, me, after, limit, false) ==> r.seqNo != s
  {
    forall r | r in Pending(t, me, after, limit, false) ensures r.seqNo != s {
      PendingAbove(t, me, after, limit, false, r);
    }
  }
}
