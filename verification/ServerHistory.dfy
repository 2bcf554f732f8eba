/** The mirror beside a server that recalls, deletes and purges: what each row still says about the
    message it was saved from, and how a repeated msg_id stops the mirror for good. */
module ServerHistory {
  import opened Wrappers
  import opened Ordered
  import opened LocalStore
  import opened Grouping
  import opened SyncProtocol
  import SyncSafety
  import Paging

  // ---------------------------------------------------------------- what became of a message

  /** Some step of es took message s out of the server's log. */
  predicate Gone(es: seq<Event>, s: int) {
    exists i :: 0 <= i < |es| && Removes(es[i], s)
  }

  predicate Removes(e: Event, s: int) {
    (e.Delete? && e.s == s) || (e.Purge? && e.bound >= s)
  }

  /** What the last recall of message s in es wrote. */
  function LastRecall(es: seq<Event>, s: int): Option<Body> {
    if es == [] then None
    else
      var e := es[|es| - 1];
      if e.Recall? && e.s == s then Some(e.body) else LastRecall(es[..|es| - 1], s)
  }

  function Rewritten(m: Message, r: Option<Body>): Message {
    match r
    case None => m
    case Some(body) => m.(msgType := TYPE_RECALL, body := body)
  }

  /** A row saved from m reads as m does after the recall r: there was none, or it wrote what m said. */
  predicate Shows(m: Message, r: Option<Body>) {
    r.None? || (m.msgType == TYPE_RECALL && m.body.bytes == r.value.bytes)
  }

  lemma GoneSnoc(es: seq<Event>, n: nat, s: int)
    requires |es| == n + 1
    ensures Gone(es, s) <==> Gone(es[..n], s) || Removes(es[n], s)
  {
    if Gone(es[..n], s) {
      var i :| 0 <= i < n && Removes(es[..n][i], s);
      assert Removes(es[i], s);
    }
    if Gone(es, s) && !Removes(es[n], s) {
      var i :| 0 <= i < |es| && Removes(es[i], s);
      assert Removes(es[..n][i], s);
    }
  }

  lemma OtherSteps(c: Config, w: World, e: Event, w': World)
    requires !ServerEvent(e) && Enabled(w, e) && w' == Step(c, w, e)
    ensures w'.log == w.log && w'.top == w.top
  {}

  /** One step of the server, seen at one number that was given out before. */
  lemma OneMessage(log: map<int, Message>, top: int, e: Event, log': map<int, Message>, s: int)
    requires s <= top && ServerEvent(e) && ServerEnabled(log, top, e) && log' == LogAfter(log, e)
    ensures s in log' <==> s in log && !Removes(e, s)
    ensures s in log' ==>
              log'[s] == if e.Recall? && e.s == s then log[s].(msgType := TYPE_RECALL, body := e.body) else log[s]
  {}

  /** What the log says of a message, given what it said when the run fs began. */
  predicate Since(m: Message, fs: seq<Event>, log: map<int, Message>, s: int) {
    && (s in log <==> !Gone(fs, s))
    && (s in log ==> log[s] == Rewritten(m, LastRecall(fs, s)))
  }

  lemma SinceStep(m: Message, fs: seq<Event>, n: nat, w: World, w': World, c: Config, s: int)
    requires |fs| == n + 1 && Enabled(w, fs[n]) && w' == Step(c, w, fs[n]) && s <= w.top
    requires Since(m, fs[..n], w.log, s)
    ensures Since(m, fs, w'.log, s)
  {
    GoneSnoc(fs, n, s);
    if ServerEvent(fs[n]) {
      OneMessage(w.log, w.top, fs[n], w'.log, s);
    } else {
      OtherSteps(c, w, fs[n], w');
    }
  }

  lemma TopGrows(c: Config, w: World, e: Event, w': World)
    requires Enabled(w, e) && w' == Step(c, w, e)
    ensures w.top <= w'.top
  {
    if !ServerEvent(e) { OtherSteps(c, w, e, w'); }
  }

  /** A number is never given out twice, so the log of any later moment tells what became of it. */
  lemma {:induction false} WhatBecame(c: Config, w: World, fs: seq<Event>, w': World, s: int)
    requires Run(c, w, fs) == Some(w') && s in w.log && s <= w.top
    ensures Since(w.log[s], fs, w'.log, s) && w.top <= w'.top
  {
    if |fs| > 0 {
      var n := |fs| - 1;
      var mid := Run(c, w, fs[..n]).value;
      WhatBecame(c, w, fs[..n], mid, s);
      SinceStep(w.log[s], fs, n, mid, w', c, s);
      TopGrows(c, mid, fs[n], w');
    }
  }

  // ---------------------------------------------------------------- rows stay as they were saved

  lemma RowsStay(c: Config, w: World, e: Event, w': World)
    requires Inv(c, w) && Enabled(w, e) && w' == Step(c, w, e)
    ensures forall s :: s in w.table ==> s in w'.table && w'.table[s] == w.table[s]
    ensures forall s :: s in w'.table && s !in w.table ==>
              e.SyncBatch? && s in w.log && w'.table[s] == RowOf(c.me, w.log[s])
  {
    match e
    case SyncBatch => BatchRows(c, w, w');
    case Append(_) | Recall(_, _) | Delete(_, _) | Purge(_) => assert w'.table == w.table;
    case _ => assert w'.table == w.table;
  }

  lemma BatchRows(c: Config, w: World, w': World)
    requires LogOk(w.log) && Mirror(w.log, w.table) && w.phase == Syncing(LastSeq(w.table)) && w' == AfterBatch(c, w)
    ensures forall s :: s in w.table ==> s in w'.table && w'.table[s] == w.table[s]
    ensures forall s :: s in w'.table && s !in w.table ==> s in w.log && w'.table[s] == RowOf(c.me, w.log[s])
  {
    var batch := Reply(w.log, LastSeq(w.table), c.limit);
    var r := UpsertAll(w.table, c.me, batch);
    if r.Ok? {
      BatchKeepsMirror(c.me, w.log, w.table, c.limit, batch, r.value);
    }
  }

  lemma {:induction false} RowsStayOn(c: Config, w: World, fs: seq<Event>, w': World)
    requires Inv(c, w) && Run(c, w, fs) == Some(w')
    ensures forall s :: s in w.table ==> s in w'.table && w'.table[s] == w.table[s]
  {
    if |fs| > 0 {
      var n := |fs| - 1;
      var mid := Run(c, w, fs[..n]).value;
      RowsStayOn(c, w, fs[..n], mid);
      RunKeeps(c, w, fs[..n]);
      RowsStay(c, mid, fs[n], w');
    }
  }

  /** Step n of the run put row s into the mirror, as the server held the message at that step. */
  predicate SavedAt(c: Config, es: seq<Event>, n: nat, s: int, m: Message) {
    && n < |es| && es[n].SyncBatch? && Run(c, INIT, es[..n]).Some?
    && var before := Run(c, INIT, es[..n]).value;
       s !in before.table && s in before.log && before.log[s] == m
  }

  lemma {:induction false} WhenSaved(c: Config, es: seq<Event>, w: World, s: int) returns (n: nat, m: Message)
    requires Run(c, INIT, es) == Some(w) && s in w.table
    ensures SavedAt(c, es, n, s, m) && w.table[s] == RowOf(c.me, m)
  {
    var k := |es| - 1;
    var before := LastStep(c, es, w, s);
    if s in before.table {
      n, m := WhenSaved(c, es[..k], before, s);
      assert es[..n] == es[..k][..n];
    } else {
      n, m := k, before.log[s];
    }
  }

  lemma LastStep(c: Config, es: seq<Event>, w: World, s: int) returns (before: World)
    requires Run(c, INIT, es) == Some(w) && s in w.table
    ensures |es| > 0 && Run(c, INIT, es[..|es| - 1]) == Some(before)
    ensures s in before.table ==> w.table[s] == before.table[s]
    ensures s !in before.table ==>
              es[|es| - 1].SyncBatch? && s in before.log && w.table[s] == RowOf(c.me, before.log[s])
  {
    var k := |es| - 1;
    before := Run(c, INIT, es[..k]).value;
    InitOk(c);
    RunKeeps(c, INIT, es[..k]);
    RowsStay(c, before, es[k], w);
  }

  lemma AfterSave(c: Config, es: seq<Event>, w: World, n: nat, s: int, m: Message)
    requires Run(c, INIT, es) == Some(w) && SavedAt(c, es, n, s, m)
    ensures Since(m, es[n + 1..], w.log, s)
  {
    assert es == es[..n + 1] + es[n + 1..] && es[..n + 1][..n] == es[..n];
    RunSplit(c, INIT, es[..n + 1], es[n + 1..]);
    var before, saved := Run(c, INIT, es[..n]).value, Run(c, INIT, es[..n + 1]).value;
    OtherSteps(c, before, es[n], saved);
    InitOk(c);
    RunKeeps(c, INIT, es[..n + 1]);
    WhatBecame(c, saved, es[n + 1..], w, s);
  }

  /** Every row of every reachable mirror is the message as the server held it when some sync step saved
      it. The server still holds that number exactly when it has neither deleted nor purged it since, and
      then the row equals the server's current message exactly when it shows what the last recall since
      wrote, if there was one: never, unless the message saved was a recall itself. */
  lemma EveryRow(c: Config, es: seq<Event>, w: World, s: int) returns (n: nat, m: Message)
    requires Run(c, INIT, es) == Some(w) && s in w.table
    ensures SavedAt(c, es, n, s, m) && w.table[s] == RowOf(c.me, m)
    ensures s in w.log <==> !Gone(es[n + 1..], s)
    ensures s in w.log ==> (w.table[s] == RowOf(c.me, w.log[s]) <==> Shows(m, LastRecall(es[n + 1..], s)))
    ensures m.msgType != TYPE_RECALL ==> (Shows(m, LastRecall(es[n + 1..], s)) <==> LastRecall(es[n + 1..], s).None?)
  {
    n, m := WhenSaved(c, es, w, s);
    AfterSave(c, es, w, n, s, m);
  }

  /** The server only adds messages. */
  predicate AddsOnly(es: seq<Event>) {
    forall i :: 0 <= i < |es| ==> !es[i].Recall? && !es[i].Delete? && !es[i].Purge?
  }

  lemma {:induction false} NoRecall(es: seq<Event>, s: int)
    requires AddsOnly(es)
    ensures LastRecall(es, s).None?
  {
    if es != [] { NoRecall(es[..|es| - 1], s); }
  }

  lemma Untouched(es: seq<Event>, n: nat, s: int)
    requires AddsOnly(es) && n <= |es|
    ensures !Gone(es[n..], s) && LastRecall(es[n..], s).None?
  {
    assert forall i :: 0 <= i < |es[n..]| ==> es[n..][i] == es[n + i];
    NoRecall(es[n..], s);
  }

  lemma RowIsCurrent(c: Config, es: seq<Event>, w: World, s: int)
    requires Run(c, INIT, es) == Some(w) && AddsOnly(es) && s in w.table
    ensures s in w.log && w.table[s] == RowOf(c.me, w.log[s])
  {
    var n, m := EveryRow(c, es, w, s);
    Untouched(es, n + 1, s);
  }

  function KeysUpTo(log: map<int, Message>, last: int): set<int> {
    set s | s in log && s <= last
  }

  /** While the server only adds messages, the mirror holds exactly its messages up to the number it will
      resume from, with their own contents. */
  lemma MirrorIsPrefix(c: Config, es: seq<Event>, w: World)
    requires Run(c, INIT, es) == Some(w) && AddsOnly(es)
    ensures w.table.Keys == KeysUpTo(w.log, LastSeq(w.table))
    ensures forall s :: s in w.table ==> w.table[s] == RowOf(c.me, w.log[s])
  {
    SyncSafety.MirrorHasNoGap(c, es);
    forall s | s in w.table ensures s in w.log && s <= LastSeq(w.table) && w.table[s] == RowOf(c.me, w.log[s]) {
      RowIsCurrent(c, es, w, s);
      AtMostLast(w.table, s);
    }
  }

  // ---------------------------------------------------------------- message ids

  predicate OwnIds(t: Table) {
    forall s, u :: s in t && u in t && s != u ==> t[s].msgId != t[u].msgId
  }

  predicate SameIds(log: map<int, Message>, t: Table) {
    forall s :: s in log && s in t ==> t[s].msgId == log[s].msgId
  }

  predicate Ids(w: World) {
    OwnIds(w.table) && SameIds(w.log, w.table)
  }

  lemma {:induction false} UpsertOwnIds(t: Table, me: int, ms: seq<Message>)
    requires OwnIds(t) && UpsertAll(t, me, ms).Ok?
    ensures OwnIds(UpsertAll(t, me, ms).value)
  {
    if ms != [] {
      UpsertOwnIds(t, me, ms[..|ms| - 1]);
      var t1, m := UpsertAll(t, me, ms[..|ms| - 1]).value, ms[|ms| - 1];
      assert !Conflicts(t1, m.seqNo, m.msgId);
    }
  }

  lemma ServerIds(log: map<int, Message>, top: int, t: Table, e: Event, log': map<int, Message>)
    requires ServerEvent(e) && ServerEnabled(log, top, e) && log' == LogAfter(log, e)
    requires SameIds(log, t) && forall s :: s in t ==> s <= top
    ensures SameIds(log', t)
  {
    forall s | s in log' && s in t ensures t[s].msgId == log'[s].msgId {
      OneMessage(log, top, e, log', s);
    }
  }

  lemma IdsStep(c: Config, w: World, e: Event, w': World)
    requires Inv(c, w) && Ids(w) && Enabled(w, e) && w' == Step(c, w, e)
    ensures Ids(w')
  {
    RowsStay(c, w, e, w');
    if ServerEvent(e) {
      forall s | s in w.table ensures s <= w.top { AtMostLast(w.table, s); }
      ServerIds(w.log, w.top, w.table, e, w'.log);
      assert w'.table == w.table;
    } else {
      OtherSteps(c, w, e, w');
      if e.SyncBatch? { BatchOwnIds(c, w, w'); }
    }
  }

  lemma BatchOwnIds(c: Config, w: World, w': World)
    requires OwnIds(w.table) && w.phase.Syncing? && w' == AfterBatch(c, w)
    ensures OwnIds(w'.table)
  {
    var batch := Reply(w.log, w.phase.lastSeq, c.limit);
    if UpsertAll(w.table, c.me, batch).Ok? { UpsertOwnIds(w.table, c.me, batch); }
  }

  lemma {:induction false} IdsKept(c: Config, es: seq<Event>, w: World)
    requires Run(c, INIT, es) == Some(w)
    ensures Ids(w)
  {
    if |es| > 0 {
      var pre := es[..|es| - 1];
      var before := Run(c, INIT, pre).value;
      IdsKept(c, pre, before);
      InitOk(c);
      RunKeeps(c, INIT, pre);
      IdsStep(c, before, es[|es| - 1], w);
    }
  }

  /** A message whose msg_id a mirrored row of another number already carries is never mirrored: the
      mirror stays below it, and so does everything mirrored. */
  lemma RepeatedIdBlocks(c: Config, es: seq<Event>, w: World, p: int, q: int)
    requires Run(c, INIT, es) == Some(w) && p in w.log && q in w.table && p != q
    requires w.log[p].msgId == w.table[q].msgId
    ensures LastSeq(w.table) < p && forall s :: s in w.table ==> s < p
  {
    IdsKept(c, es, w);
    SyncSafety.MirrorHasNoGap(c, es);
    forall s | s in w.table ensures s <= LastSeq(w.table) { AtMostLast(w.table, s); }
  }

  /** No later step helps while the message stays in the server's log: polls, failures, restarts, other
      messages arriving or being recalled. */
  lemma BlockedForGood(c: Config, es: seq<Event>, w: World, fs: seq<Event>, w': World, p: int, q: int)
    requires Run(c, INIT, es) == Some(w) && p in w.log && q in w.table && p != q
    requires w.log[p].msgId == w.table[q].msgId
    requires Run(c, w, fs) == Some(w') && !Gone(fs, p)
    ensures p in w'.log && LastSeq(w'.table) < p && forall s :: s in w'.table ==> s < p
  {
    InitOk(c);
    RunKeeps(c, INIT, es);
    WhatBecame(c, w, fs, w', p);
    RowsStayOn(c, w, fs, w');
    RunSplit(c, INIT, es, fs);
    RepeatedIdBlocks(c, es + fs, w', p, q);
  }

  /** Deleting a mirrored message is all it takes: the tombstone has the same msg_id under a new number,
      the upsert resolves conflicts on the number alone, and so the mirror never again reaches that
      number, whatever follows, until the server removes the tombstone itself. */
  lemma DeletionStalls(c: Config, es: seq<Event>, w: World, s: int, newSeq: int, fs: seq<Event>, w': World)
    requires Run(c, INIT, es) == Some(w) && s in w.table && Enabled(w, Delete(s, newSeq))
    requires Run(c, w, [Delete(s, newSeq)] + fs) == Some(w') && !Gone(fs, newSeq)
    ensures newSeq in w'.log && LastSeq(w'.table) < newSeq && forall u :: u in w'.table ==> u < newSeq
  {
    var e, w1 := Delete(s, newSeq), Step(c, w, Delete(s, newSeq));
    IdsKept(c, es, w);
    InitOk(c);
    RunKeeps(c, INIT, es);
    RunStep(c, w, [], w, e, w1);
    assert [] + [e] == [e];
    RunSplit(c, w, [e], fs);
    RunStep(c, INIT, es, w, e, w1);
    AtMostLast(w.table, s);
    BlockedForGood(c, es + [e], w1, fs, w', newSeq, s);
  }

  /** An input that shows it: three mirrored messages, the first is deleted, a fifth arrives, and no later
      run that leaves the tombstone alone mirrors the fifth. */
  lemma FifthNeverMirrored(c: Config) returns (es: seq<Event>, w: World)
    requires c == SyncSafety.ACCOUNT
    ensures Run(c, INIT, es) == Some(w) && w.table.Keys == {1, 2, 3} && 5 in w.log
    ensures forall fs, w' :: Run(c, w, fs) == Some(w') && !Gone(fs, 4) ==> 5 !in w'.table
  {
    var pre, w0 := SyncSafety.InterleavedRun(c);
    var e, m := Delete(1, 4), SyncSafety.Direct(5, "e", 2);
    var w1 := Step(c, w0, e);
    w := Step(c, w1, Append(m));
    es := pre + [e] + [Append(m)];
    RunStep(c, INIT, pre, w0, e, w1);
    RunStep(c, INIT, pre + [e], w1, Append(m), w);
    assert w.log[4].msgId == "a" == w.table[1].msgId;
    forall fs, w' | Run(c, w, fs) == Some(w') && !Gone(fs, 4) ensures 5 !in w'.table {
      BlockedForGood(c, es, w, fs, w', 4, 1);
    }
  }

  /** A request of the sync loop is stored whole exactly when every body of the answer marshals and none
      of its msg_ids is taken; otherwise nothing is stored and the poll is over. */
  lemma SyncStores(c: Config, es: seq<Event>, w: World, batch: seq<Message>, w': World)
    requires Run(c, INIT, es) == Some(w) && w.phase.Syncing?
    requires batch == Reply(w.log, LastSeq(w.table), c.limit) && w' == Step(c, w, SyncBatch)
    ensures if Acceptable(w.table, batch) then !w'.phase.Idle? && LocalStore.Added(w.table, c.me, batch, w'.table)
            else w' == w.(phase := Idle)
  {
    InitOk(c);
    RunKeeps(c, INIT, es);
    ReplyIsUnseen(w.log, w.table, c.limit, batch);
    StoredIff(w.table, c.me, batch);
    if Acceptable(w.table, batch) { Stored(w.table, c.me, batch); }
  }

  // ---------------------------------------------------------------- when every request is stored

  predicate DistinctIds(log: map<int, Message>) {
    forall s, u :: s in log && u in log && s != u ==> log[s].msgId != log[u].msgId
  }

  lemma ServerDistinct(log: map<int, Message>, top: int, e: Event, log': map<int, Message>)
    requires DistinctIds(log) && Below(log, top) && LogOk(log)
    requires ServerEvent(e) && ServerEnabled(log, top, e) && log' == LogAfter(log, e)
    ensures DistinctIds(log')
  {}

  /** No two messages the server holds have one msg_id. */
  lemma {:induction false} LogDistinct(c: Config, es: seq<Event>, w: World)
    requires Run(c, INIT, es) == Some(w)
    ensures DistinctIds(w.log)
  {
    if |es| > 0 {
      var k := |es| - 1;
      var before := Run(c, INIT, es[..k]).value;
      LogDistinct(c, es[..k], before);
      InitOk(c);
      RunKeeps(c, INIT, es[..k]);
      if ServerEvent(es[k]) {
        ServerDistinct(before.log, before.top, es[k], w.log);
      } else {
        OtherSteps(c, before, es[k], w);
      }
    }
  }

  /** The server removes nothing: it adds messages and recalls them. */
  predicate KeepsAll(es: seq<Event>) {
    forall i :: 0 <= i < |es| ==> !es[i].Delete? && !es[i].Purge?
  }

  lemma StillThere(c: Config, es: seq<Event>, w: World, s: int)
    requires Run(c, INIT, es) == Some(w) && KeepsAll(es) && s in w.table
    ensures s in w.log
  {
    var n, m := EveryRow(c, es, w, s);
    NotGone(es, n + 1, s);
  }

  lemma NotGone(es: seq<Event>, n: nat, s: int)
    requires KeepsAll(es) && n <= |es|
    ensures !Gone(es[n..], s)
  {
    assert forall i :: 0 <= i < |es[n..]| ==> es[n..][i] == es[n + i];
  }

  /** While the server neither deletes nor purges, msg_ids never get in the way: whatever else happened,
      every unseen message can be stored as long as the bodies marshal. */
  lemma AlwaysStorable(c: Config, es: seq<Event>, w: World)
    requires Run(c, INIT, es) == Some(w) && KeepsAll(es)
    requires forall s :: s in Paging.Unseen(w.log, w.table) ==> w.log[s].body.marshals
    ensures Paging.Storable(w.log, w.table)
  {
    LogDistinct(c, es, w);
    IdsKept(c, es, w);
    forall s, u | s in Paging.Unseen(w.log, w.table) && u in w.table ensures w.log[s].msgId != w.table[u].msgId {
      StillThere(c, es, w, u);
      AtMostLast(w.table, u);
    }
  }

  // ---------------------------------------------------------------- a message deleted before it was mirrored

  const FIRST := SyncSafety.Direct(1, "a", 1)

  const TOMBSTONE := FIRST.(seqNo := 2, status := STATUS_DELETED)

  lemma OneKey(n: nat)
    requires n > 0
    ensures Lowest({2}, 0, n) == [2]
  {
    SyncSafety.ListedIs({2}, [2], n);
  }

  lemma TombstoneMirrored(c: Config, w: World, t: Table, w': World)
    requires c == SyncSafety.ACCOUNT && w == INIT.(log := map[2 := TOMBSTONE], top := 2, phase := Syncing(0))
    requires t == map[2 := RowOf(9, TOMBSTONE)] && w' == w.(table := t, phase := Synced)
    ensures AfterBatch(c, w) == w'
  {
    assert w.log.Keys == {2} && Above({2}, 0) == {2};
    OneKey(200);
    assert Reply(w.log, 0, 200) == [TOMBSTONE];
    assert [TOMBSTONE][..0] == [];
    assert UpsertAll(map[], 9, [TOMBSTONE]) == Ok(t);
  }

  lemma TombstoneTaken(c: Config, w: World, w': World)
    requires c == SyncSafety.ACCOUNT && w.table == map[2 := RowOf(9, TOMBSTONE)] && w.mem == 0
    requires w' == w.(phase := Working(0, Groups([RowOf(9, TOMBSTONE)]), 0))
    ensures AfterTake(c, w) == w'
  {
    assert PendingKeys(w.table, 9, false) == {2};
    OneKey(20);
    assert Pending(w.table, 9, 0, 20, false) == [RowOf(9, TOMBSTONE)];
  }

  lemma OneInGroup(r: Row, gs: seq<Group>)
    requires gs == Groups([r])
    ensures |gs| == 1 && gs[0].messages == [r]
  {
    SyncSafety.OneMore([], r, KeyOf(r), [r]);
  }

  lemma TombstoneStart(c: Config) returns (es: seq<Event>, w: World)
    ensures es == [Append(FIRST), Delete(1, 2), BeginPoll]
    ensures w == INIT.(log := map[2 := TOMBSTONE], top := 2, phase := Syncing(0)) && Run(c, INIT, es) == Some(w)
  {
    var w1, w2 := INIT.(log := map[1 := FIRST], top := 1), INIT.(log := map[2 := TOMBSTONE], top := 2);
    w := w2.(phase := Syncing(0));
    DeletedFirst(w1.log, w2.log);
    SyncSafety.Arrives(c, [], map[], FIRST, w1.log);
    RunStep(c, INIT, [] + [Append(FIRST)], w1, Delete(1, 2), w2);
    RunStep(c, INIT, [] + [Append(FIRST)] + [Delete(1, 2)], w2, BeginPoll, w);
    es := [] + [Append(FIRST)] + [Delete(1, 2)] + [BeginPoll];
  }

  lemma TombstoneRun(c: Config, es: seq<Event>, w3: World, t: Table, w: World)
    requires c == SyncSafety.ACCOUNT && Run(c, INIT, es) == Some(w3)
    requires w3 == INIT.(log := map[2 := TOMBSTONE], top := 2, phase := Syncing(0))
    requires t == map[2 := RowOf(9, TOMBSTONE)]
    requires w == w3.(table := t, phase := Working(0, Groups([RowOf(9, TOMBSTONE)]), 0))
    ensures Run(c, INIT, es + [SyncBatch] + [TakePending]) == Some(w)
  {
    var w4 := w3.(table := t, phase := Synced);
    TombstoneMirrored(c, w3, t, w4);
    TombstoneTaken(c, w4, w);
    RunStep(c, INIT, es, w3, SyncBatch, w4);
    RunStep(c, INIT, es + [SyncBatch], w4, TakePending, w);
  }

  /** An input: the server's only message is deleted before the first sync. The account mirrors the
      tombstone and takes it up as a new message. */
  lemma TombstoneHandedOut(c: Config) returns (es: seq<Event>, w: World)
    requires c == SyncSafety.ACCOUNT
    ensures es == [Append(FIRST), Delete(1, 2), BeginPoll, SyncBatch, TakePending] && Run(c, INIT, es) == Some(w)
    ensures Busy(w.phase) && w.phase.gs[0].messages == [RowOf(c.me, TOMBSTONE)]
    ensures RowOf(c.me, TOMBSTONE).status == STATUS_DELETED
  {
    var es3, w3 := TombstoneStart(c);
    var t: Table, gs := map[2 := RowOf(9, TOMBSTONE)], Groups([RowOf(9, TOMBSTONE)]);
    w := w3.(table := t, phase := Working(0, gs, 0));
    TombstoneRun(c, es3, w3, t, w);
    OneInGroup(RowOf(9, TOMBSTONE), gs);
    es := es3 + [SyncBatch] + [TakePending];
  }

  lemma DeletedFirst(log: map<int, Message>, log': map<int, Message>)
    requires log == map[1 := FIRST] && log' == map[2 := TOMBSTONE]
    ensures LogAfter(log, Delete(1, 2)) == log'
  {}
}
