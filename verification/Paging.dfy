/** How many requests and polls it takes, and what paging through the mirror shows. */
module Paging {
  import opened Wrappers
  import opened Ordered
  import opened LocalStore
  import opened Grouping
  import opened SyncProtocol

  // ---------------------------------------------------------------- the sync loop

  function Unseen(log: map<int, Message>, t: Table): set<int> {
    Above(log.Keys, LastSeq(t))
  }

  /** Every unseen message can be stored: its body marshals, and its message id is neither that of another
      unseen message nor that of a row. */
  predicate Storable(log: map<int, Message>, t: Table) {
    && (forall s :: s in Unseen(log, t) ==> log[s].body.marshals)
    && (forall s, u :: s in Unseen(log, t) && u in Unseen(log, t) && s != u ==> log[s].msgId != log[u].msgId)
    && (forall s, u :: s in Unseen(log, t) && u in t ==> log[s].msgId != t[u].msgId)
  }

  lemma UnseenAcceptable(log: map<int, Message>, t: Table, batch: seq<Message>)
    requires Storable(log, t) && Fresh(t, batch)
    requires forall i :: 0 <= i < |batch| ==> batch[i].seqNo in Unseen(log, t) && batch[i] == log[batch[i].seqNo]
    ensures Acceptable(t, batch)
  {}

  /** Then no answer of the server fails to be stored. */
  lemma ReplyIsStored(me: int, log: map<int, Message>, t: Table, limit: nat, batch: seq<Message>)
    requires LogOk(log) && Storable(log, t) && batch == Reply(log, LastSeq(t), limit)
    ensures UpsertAll(t, me, batch).Ok?
  {
    ReplyIsUnseen(log, t, limit, batch);
    UnseenAcceptable(log, t, batch);
    StoredIff(t, me, batch);
  }

  /** What one answer leaves unseen was unseen before, and new rows carry the ids of unseen messages. */
  lemma StillStorable(me: int, log: map<int, Message>, t: Table, t': Table)
    requires Storable(log, t) && LastSeq(t) <= LastSeq(t')
    requires forall s :: s in t ==> s in t' && t'[s] == t[s]
    requires forall s :: s in t' && s !in t ==> s > LastSeq(t) && s in log && t'[s] == RowOf(me, log[s])
    ensures Storable(log, t')
  {
    assert Unseen(log, t') <= Unseen(log, t);
    forall s, u | s in Unseen(log, t') && u in t' ensures log[s].msgId != t'[u].msgId {
      AtMostLast(t', u);
      if u !in t { assert u in Unseen(log, t); }
    }
  }

  lemma RestSize(s: set<int>, after: int, n: nat)
    requires n > 0
    ensures var r := Lowest(s, after, n);
            |r| > 0 ==> |Above(s, r[|r| - 1])| == |Above(s, after)| - |r|
  {
    if |Lowest(s, after, n)| > 0 {
      LowestRest(s, after, n);
    }
  }

  /** How many messages one answer has, and how many it leaves unseen. */
  lemma AnswerSize(log: map<int, Message>, t: Table, limit: nat, batch: seq<Message>, t': Table)
    requires LogOk(log) && limit > 0 && batch == Reply(log, LastSeq(t), limit)
    requires LastSeq(t') == if CursorSeq(batch) > 0 then CursorSeq(batch) else LastSeq(t)
    ensures |batch| == if |Unseen(log, t)| < limit then |Unseen(log, t)| else limit
    ensures |Unseen(log, t')| == |Unseen(log, t)| - |batch|
  {
    ReplyFacts(log, LastSeq(t), limit);
    LowestSize(log.Keys, LastSeq(t), limit);
    RestSize(log.Keys, LastSeq(t), limit);
  }

  /** One request of the loop: what it saves and what it leaves. */
  lemma OneRequest(me: int, log: map<int, Message>, t: Table, limit: nat, batch: seq<Message>) returns (t': Table)
    requires LogOk(log) && Storable(log, t) && Mirror(log, t) && limit > 0 && batch == Reply(log, LastSeq(t), limit)
    ensures UpsertAll(t, me, batch) == Ok(t') && Mirror(log, t') && Storable(log, t')
    ensures LastSeq(t') == if CursorSeq(batch) > 0 then CursorSeq(batch) else LastSeq(t)
    ensures |batch| == if |Unseen(log, t)| < limit then |Unseen(log, t)| else limit
    ensures |Unseen(log, t')| == |Unseen(log, t)| - |batch|
    ensures batch == [] ==> t' == t
  {
    ReplyIsStored(me, log, t, limit, batch);
    t' := UpsertAll(t, me, batch).value;
    BatchKeepsMirror(me, log, t, limit, batch, t');
    StillStorable(me, log, t, t');
    AnswerSize(log, t, limit, batch, t');
  }

  /** Every row stays, and what is new are messages as the server holds them. */
  predicate Toward(me: int, log: map<int, Message>, t: Table, t': Table) {
    && (forall s :: s in t ==> s in t' && t'[s] == t[s])
    && (forall s :: s in t' && s !in t ==> s in log && t'[s] == RowOf(me, log[s]))
  }

  /** t' is t with every message of the server that it lacked. */
  predicate CaughtUp(me: int, log: map<int, Message>, t: Table, t': Table) {
    Toward(me, log, t, t') && log.Keys <= t'.Keys
  }

  lemma SavedToward(me: int, log: map<int, Message>, t: Table, limit: nat, batch: seq<Message>, t': Table)
    requires LogOk(log) && Mirror(log, t) && batch == Reply(log, LastSeq(t), limit) && UpsertAll(t, me, batch) == Ok(t')
    ensures Toward(me, log, t, t')
  {
    BatchKeepsMirror(me, log, t, limit, batch, t');
  }

  lemma TowardOn(me: int, log: map<int, Message>, t: Table, t1: Table, t2: Table)
    requires Toward(me, log, t, t1) && Toward(me, log, t1, t2)
    ensures Toward(me, log, t, t2)
  {
    forall s | s in t2 && s !in t ensures s in log && t2[s] == RowOf(me, log[s]) {
      if s in t1 {} else {}
    }
  }

  lemma NothingUnseen(log: map<int, Message>, t: Table)
    requires Mirror(log, t) && |Unseen(log, t)| == 0
    ensures log.Keys <= t.Keys
  {
    forall s | s in log ensures s in t {
      assert s !in Unseen(log, t);
    }
  }

  /** With k messages unseen, whether an answer to the next request says that there is more. */
  predicate SaysMore(rule: Rule, k: nat, limit: nat) {
    match rule
    case WhenFull => k >= limit
    case WhenFound => k > limit
  }

  lemma MoreIsSaid(rule: Rule, log: map<int, Message>, lastSeq: int, limit: nat)
    ensures HasMore(rule, log, lastSeq, limit) <==> SaysMore(rule, |Above(log.Keys, lastSeq)|, limit)
  {
    LowestSize(log.Keys, lastSeq, limit);
  }

  /** One request of the loop under a rule: what it saves, what it leaves, and how many are still to come. */
  lemma OneTurn(me: int, log: map<int, Message>, t: Table, limit: nat, rule: Rule, batch: seq<Message>)
    returns (t': Table)
    requires LogOk(log) && Storable(log, t) && Mirror(log, t) && limit > 0 && batch == Reply(log, LastSeq(t), limit)
    ensures UpsertAll(t, me, batch) == Ok(t') && Mirror(log, t') && Storable(log, t') && Toward(me, log, t, t')
    ensures LastSeq(t') == if CursorSeq(batch) > 0 then CursorSeq(batch) else LastSeq(t)
    ensures |batch| == if |Unseen(log, t)| < limit then |Unseen(log, t)| else limit
    ensures |Unseen(log, t')| == |Unseen(log, t)| - |batch|
    ensures batch == [] ==> t' == t
    ensures HasMore(rule, log, LastSeq(t), limit) <==> SaysMore(rule, |Unseen(log, t)|, limit)
    ensures Rounds(rule, |Unseen(log, t)|, limit) ==
            1 + if HasMore(rule, log, LastSeq(t), limit) then Rounds(rule, |Unseen(log, t')|, limit) else 0
  {
    t' := OneRequest(me, log, t, limit, batch);
    SavedToward(me, log, t, limit, batch, t');
    MoreIsSaid(rule, log, LastSeq(t), limit);
    RoundsStep(rule, |Unseen(log, t)|, limit, |batch|);
  }

  /** One request and its transaction. */
  method SyncOnce(store: Store, me: int, log: map<int, Message>, lastSeq: int, limit: nat, rule: Rule)
    returns (n: nat, cursorSeq: int, more: bool)
    requires LogOk(log) && Storable(log, store.rows) && Mirror(log, store.rows)
    requires limit > 0 && lastSeq == LastSeq(store.rows)
    modifies store
    ensures Mirror(log, store.rows) && Storable(log, store.rows)
    ensures LastSeq(store.rows) == if cursorSeq > 0 then cursorSeq else lastSeq
    ensures Toward(me, log, old(store.rows), store.rows)
    ensures n == (if old(|Unseen(log, store.rows)|) < limit then old(|Unseen(log, store.rows)|) else limit)
    ensures |Unseen(log, store.rows)| == old(|Unseen(log, store.rows)|) - n
    ensures more <==> SaysMore(rule, old(|Unseen(log, store.rows)|), limit)
    ensures Rounds(rule, old(|Unseen(log, store.rows)|), limit) ==
            1 + if more then Rounds(rule, |Unseen(log, store.rows)|, limit) else 0
  {
    var batch := Reply(log, lastSeq, limit);
    ghost var t' := OneTurn(me, log, store.rows, limit, rule, batch);
    var saved := store.SaveMessages(me, batch, true, true);
    assert store.rows == t' && saved == Ok(|batch|);
    return saved.value, CursorSeq(batch), HasMore(rule, log, lastSeq, limit);
  }

  /** The sync command: one request after another until the server says there is no more. Whatever limit
      is asked for and configured, with k messages unseen and L the effective limit, it reports k, leaves
      no message unmirrored, and makes exactly as many requests as the server's rule takes for k and L. */
  method CmdSync(store: Store, me: int, log: map<int, Message>, limit: int, maxLimit: int, rule: Rule)
    returns (total: nat, lastSeq: int, ghost requests: nat)
    requires LogOk(log) && Storable(log, store.rows) && Mirror(log, store.rows)
    modifies store
    ensures Mirror(log, store.rows) && CaughtUp(me, log, old(store.rows), store.rows)
    ensures total == old(|Unseen(log, store.rows)|) && lastSeq == LastSeq(store.rows)
    ensures requests == Requests(rule, old(|Unseen(log, store.rows)|), EffectiveLimit(limit, maxLimit))
  {
    ghost var k0 := |Unseen(log, store.rows)|;
    var effective := EffectiveLimit(limit, maxLimit);
    lastSeq := store.LastSyncedSeq();
    total, requests := 0, 0;
    var more := true;
    while more
      invariant Mirror(log, store.rows) && Storable(log, store.rows) && lastSeq == LastSeq(store.rows)
      invariant |Unseen(log, store.rows)| == k0 - total && Toward(me, log, old(store.rows), store.rows)
      invariant requests + (if more then Rounds(rule, |Unseen(log, store.rows)|, effective) else 0) ==
                Rounds(rule, k0, effective)
      invariant !more ==> total == k0
      decreases if more then |Unseen(log, store.rows)| + 1 else 0
    {
      ghost var before := store.rows;
      var n, cursorSeq;
      n, cursorSeq, more := SyncOnce(store, me, log, lastSeq, effective, rule);
      TowardOn(me, log, old(store.rows), before, store.rows);
      total := total + n;
      if cursorSeq > 0 {
        lastSeq := cursorSeq;
      }
      requests := requests + 1;
    }
    NothingUnseen(log, store.rows);
    RoundsAre(rule, k0, effective);
  }

  /** The requests it takes to page through k messages, one after another. */
  function Rounds(rule: Rule, k: nat, limit: nat): nat
    requires limit > 0
    decreases k
  {
    if SaysMore(rule, k, limit) then 1 + Rounds(rule, k - limit, limit) else 1
  }

  /** Their number: one more than the full batches if a full batch asks for another; otherwise just as
      many as it takes to hold the messages, and one if there are none. */
  function Requests(rule: Rule, k: nat, limit: nat): nat
    requires limit > 0
  {
    match rule
    case WhenFull => k / limit + 1
    case WhenFound => if k == 0 then 1 else Ceil(k, limit)
  }

  lemma RoundsStep(rule: Rule, k: nat, limit: nat, n: nat)
    requires limit > 0 && n == if k < limit then k else limit
    ensures Rounds(rule, k, limit) == 1 + if SaysMore(rule, k, limit) then Rounds(rule, k - n, limit) else 0
  {}

  lemma RoundsPositive(rule: Rule, k: nat, limit: nat)
    requires limit > 0
    ensures Rounds(rule, k, limit) >= 1
  {}

  lemma {:induction false} RoundsAre(rule: Rule, k: nat, limit: nat)
    requires limit > 0
    ensures Rounds(rule, k, limit) == Requests(rule, k, limit)
    decreases k
  {
    if SaysMore(rule, k, limit) {
      RoundsAre(rule, k - limit, limit);
      OneBatchMore(k, limit);
    } else {
      match rule
      case WhenFull => Quotient(k, limit, 0, k);
      case WhenFound => if k > 0 { Quotient(k + limit - 1, limit, 1, k - 1); }
    }
  }

  lemma OneBatchMore(k: nat, limit: nat)
    requires 0 < limit <= k
    ensures k / limit == (k - limit) / limit + 1 && Ceil(k, limit) == Ceil(k - limit, limit) + 1
  {
    Quotient(k, limit, (k - limit) / limit + 1, (k - limit) % limit);
    Quotient(k + limit - 1, limit, (k - 1) / limit + 1, (k - 1) % limit);
  }

  /** The two rules take the same number of requests, except that the documented one takes one more exactly
      when the messages fill a positive number of batches. */
  lemma RulesDiffer(k: nat, limit: nat)
    requires limit > 0
    ensures Requests(WhenFull, k, limit) ==
            Requests(WhenFound, k, limit) + if k > 0 && k % limit == 0 then 1 else 0
  {
    var q, r := k / limit, k % limit;
    assert k == q * limit + r;
    if k == 0 {
      Quotient(0, limit, 0, 0);
    } else if r == 0 {
      Quotient(k + limit - 1, limit, q, limit - 1);
    } else {
      Quotient(k + limit - 1, limit, q + 1, r - 1);
    }
  }

  /** Inputs: two hundred messages at the usual limit, and seven hundred when a thousand are asked for and
      five hundred allowed. */
  lemma RulesAtWork()
    ensures Requests(WhenFull, 200, EffectiveLimit(200, 500)) == 2
    ensures Requests(WhenFound, 200, EffectiveLimit(200, 500)) == 1
    ensures Requests(WhenFull, 700, EffectiveLimit(1000, 500)) == 2
    ensures Requests(WhenFound, 700, EffectiveLimit(1000, 500)) == 2
  {}

  lemma Quotient(k: nat, n: nat, q: nat, r: nat)
    requires k == q * n + r && r < n
    ensures k / n == q
  {
    var p := k / n;
    assert k == p * n + k % n;
    if p < q { Monotone(p + 1, q, n); }
    if p > q { Monotone(q + 1, p, n); }
  }

  lemma Monotone(a: int, b: int, n: nat)
    requires a <= b
    ensures a * n <= b * n
  {
    assert (b - a) * n >= 0;
  }

  lemma WithinLastBatch(rule: Rule, log: map<int, Message>, last: int, limit: nat, s: int)
    requires LogOk(log) && s in log && s > last && !HasMore(rule, log, last, limit)
    ensures 0 < s <= CursorSeq(Reply(log, last, limit))
  {
    ReplyFacts(log, last, limit);
    LowestSize(log.Keys, last, limit);
    LowestAll(log.Keys, last, limit);
    assert s in Above(log.Keys, last);
    LowestLast(log.Keys, last, limit, s);
  }

  /** Whenever the server says there is no more, by either rule and on a full batch too, all its messages
      are mirrored, whatever was stored. */
  lemma LastBatchCatchesUp(me: int, log: map<int, Message>, t: Table, rule: Rule, limit: nat, t': Table)
    requires LogOk(log) && Mirror(log, t) && UpsertAll(t, me, Reply(log, LastSeq(t), limit)) == Ok(t')
    requires !HasMore(rule, log, LastSeq(t), limit)
    ensures log.Keys <= t'.Keys
  {
    BatchKeepsMirror(me, log, t, limit, Reply(log, LastSeq(t), limit), t');
    forall s | s in log ensures s in t' {
      if s > LastSeq(t) { WithinLastBatch(rule, log, LastSeq(t), limit, s); }
    }
  }

  lemma NothingNew(c: Config, w: World)
    requires w.phase.Syncing? && c.limit > 0 && c.rule.WhenFull? && |Above(w.log.Keys, w.phase.lastSeq)| == 0
    ensures AfterBatch(c, w) == w.(phase := Synced)
  {
    LowestSize(w.log.Keys, w.phase.lastSeq, c.limit);
    assert Reply(w.log, w.phase.lastSeq, c.limit) == [];
  }

  lemma FullBatch(c: Config, w: World, batch: seq<Message>, t: Table, last: int, w': World)
    requires w.phase.Syncing? && batch == Reply(w.log, w.phase.lastSeq, c.limit)
    requires UpsertAll(w.table, c.me, batch) == Ok(t) && |Above(w.log.Keys, w.phase.lastSeq)| == c.limit
    requires last == (if CursorSeq(batch) > 0 then CursorSeq(batch) else w.phase.lastSeq) && w' == AfterBatch(c, w)
    ensures w' == w.(table := t, phase := if c.rule.WhenFull? then Syncing(last) else Synced)
  {
    LowestSize(w.log.Keys, w.phase.lastSeq, c.limit);
  }

  /** The extra request of the documented rule changes nothing: after it the account is where the server's
      own rule has it already after the full batch. */
  lemma ExtraRequestIsEmpty(c: Config, w: World, t: Table, full: World, found: World)
    requires LogOk(w.log) && Mirror(w.log, w.table) && w.phase == Syncing(LastSeq(w.table))
    requires c.limit > 0 && |Unseen(w.log, w.table)| == c.limit
    requires UpsertAll(w.table, c.me, Reply(w.log, LastSeq(w.table), c.limit)) == Ok(t)
    requires full == AfterBatch(c.(rule := WhenFull), w) && found == AfterBatch(c.(rule := WhenFound), w)
    ensures found.phase.Synced? && full.phase.Syncing? && AfterBatch(c.(rule := WhenFull), full) == found
  {
    var batch := Reply(w.log, LastSeq(w.table), c.limit);
    BatchKeepsMirror(c.me, w.log, w.table, c.limit, batch, t);
    AnswerSize(w.log, w.table, c.limit, batch, t);
    FullBatch(c.(rule := WhenFull), w, batch, t, LastSeq(t), full);
    FullBatch(c.(rule := WhenFound), w, batch, t, LastSeq(t), found);
    NothingNew(c.(rule := WhenFull), full);
  }

  // ---------------------------------------------------------------- the polling loop

  /** Foreign messages above the cursor. */
  function Waiting(c: Config, t: Table, mem: int): set<int> {
    Above(Foreign(c, t), mem)
  }

  /** The groups of an ordered batch end on its last message. */
  lemma GroupsEnd(ms: seq<Row>, start: int)
    requires BySeq(ms) && |ms| > 0 && forall m :: m in ms ==> m.seqNo > start && m.seqNo > 0
    ensures CursorAfter(start, Groups(ms)) == ms[|ms| - 1].seqNo
  {
    var gs, last := Groups(ms), ms[|ms| - 1];
    var i := OneGroup(ms, last);
    GroupMembers(ms, i);
    CursorGrows(start, gs, |gs|, |gs|);
    TakeNext(gs, |gs|);
    CursorReached(start, gs);
    if CursorAfter(start, gs) != start {
      var j :| 0 <= j < |gs| && gs[j].maxSeq == CursorAfter(start, gs);
      var r := GroupMaxMember(ms, j);
      var n :| 0 <= n < |ms| && ms[n] == r;
    }
  }

  /** After a whole batch the cursor stands on the batch's last message. */
  lemma NextCursorIsLast(c: Config, t: Table, mem: int, batch: seq<Row>)
    requires Keyed(t) && batch == Pending(t, c.me, mem, c.maxPull, false)
    ensures NextCursor(c, t, mem) == if |batch| == 0 then mem else batch[|batch| - 1].seqNo
  {
    if |batch| > 0 {
      PendingFacts(t, c.me, mem, c.maxPull);
      GroupsEnd(batch, mem);
    } else {
      assert batch == [];
    }
  }

  /** A poll that commits its whole batch leaves maxPull messages fewer, or none. */
  lemma PollLeaves(c: Config, t: Table, mem: int)
    requires Keyed(t) && c.maxPull > 0
    ensures var n := |Waiting(c, t, mem)|;
            |Waiting(c, t, NextCursor(c, t, mem))| == if n <= c.maxPull then 0 else n - c.maxPull
  {
    NextCursorIsLast(c, t, mem, Pending(t, c.me, mem, c.maxPull, false));
    PageKeys(t, c.me, mem, c.maxPull, false);
    LowestSize(Foreign(c, t), mem, c.maxPull);
    RestSize(Foreign(c, t), mem, c.maxPull);
  }

  /** The cursor after a number of such polls of a mirror that does not change. */
  function CursorAfterPolls(c: Config, t: Table, mem: int, polls: nat): int {
    if polls == 0 then mem else NextCursor(c, t, CursorAfterPolls(c, t, mem, polls - 1))
  }

  /** What is left of n after taking m at a time. */
  function LeftAfter(n: nat, m: nat, times: nat): nat {
    if times == 0 then n else
      var left := LeftAfter(n, m, times - 1);
      if left <= m then 0 else left - m
  }

  lemma {:induction false} LeftAfterIs(n: nat, m: nat, times: nat)
    ensures LeftAfter(n, m, times) == if n <= times * m then 0 else n - times * m
  {
    if times > 0 {
      LeftAfterIs(n, m, times - 1);
      assert times * m == (times - 1) * m + m;
    }
  }

  lemma {:induction false} PollsLeave(c: Config, t: Table, mem: int, polls: nat)
    requires Keyed(t) && c.maxPull > 0
    ensures |Waiting(c, t, CursorAfterPolls(c, t, mem, polls))| == LeftAfter(|Waiting(c, t, mem)|, c.maxPull, polls)
  {
    if polls > 0 {
      PollsLeave(c, t, mem, polls - 1);
      PollLeaves(c, t, CursorAfterPolls(c, t, mem, polls - 1));
    }
  }

  /** Each poll of n waiting messages leaves maxPull fewer; ceil(n / maxPull) polls drain them, and no
      fewer do. */
  lemma Drained(c: Config, t: Table, mem: int, polls: nat, n: nat, m: nat, left: nat)
    requires Keyed(t) && c.maxPull > 0 && n == |Waiting(c, t, mem)| && m == c.maxPull
    requires left == |Waiting(c, t, CursorAfterPolls(c, t, mem, polls))|
    ensures left == if n <= polls * m then 0 else n - polls * m
    ensures left == 0 <==> polls >= Ceil(n, m)
  {
    PollsLeave(c, t, mem, polls);
    LeftAfterIs(n, m, polls);
    CeilBound(n, m, polls);
  }

  /** The batch of poll p hands out row s. */
  predicate HandsOut(c: Config, t: Table, mem: int, p: nat, s: int) {
    s in t && t[s] in Pending(t, c.me, CursorAfterPolls(c, t, mem, p), c.maxPull, false)
  }

  /** The batch at a cursor hands out exactly the foreign rows above it and up to where it moves it. */
  lemma BatchSpan(c: Config, t: Table, mem: int, s: int)
    requires Keyed(t) && s in t
    ensures t[s] in Pending(t, c.me, mem, c.maxPull, false) <==>
            s in Foreign(c, t) && mem < s <= NextCursor(c, t, mem)
  {
    var batch := Pending(t, c.me, mem, c.maxPull, false);
    PendingFacts(t, c.me, mem, c.maxPull);
    NextCursorIsLast(c, t, mem, batch);
    if |batch| > 0 {
      var last := batch[|batch| - 1];
      assert last in batch;
      if t[s] in batch {
        var i :| 0 <= i < |batch| && batch[i] == t[s];
      }
    }
  }

  lemma OneMorePoll(c: Config, t: Table, mem: int, p: nat, cursor: int, cursor': int)
    requires Keyed(t) && cursor == CursorAfterPolls(c, t, mem, p) && cursor' == CursorAfterPolls(c, t, mem, p + 1)
    ensures cursor <= cursor' == NextCursor(c, t, cursor)
  {
    NeverBack(cursor, Groups(Pending(t, c.me, cursor, c.maxPull, false)));
  }

  lemma NeverBack(start: int, gs: seq<Group>)
    ensures start <= CursorAfter(start, gs)
  {
    CursorGrows(start, gs, |gs|, |gs|);
    assert gs[..|gs|] == gs;
  }

  lemma {:induction false} Rising(cs: seq<int>, p: nat, q: nat)
    requires p <= q < |cs| && forall i :: 0 <= i < |cs| - 1 ==> cs[i] <= cs[i + 1]
    ensures cs[p] <= cs[q]
    decreases q
  {
    if p < q { Rising(cs, p, q - 1); }
  }

  /** The cursors after none, one, two and so on up to n polls. */
  function Cursors(c: Config, t: Table, mem: int, n: nat): (cs: seq<int>)
    ensures |cs| == n + 1 && forall i :: 0 <= i <= n ==> cs[i] == CursorAfterPolls(c, t, mem, i)
  {
    seq(n + 1, i requires 0 <= i => CursorAfterPolls(c, t, mem, i))
  }

  lemma CursorsRise(c: Config, t: Table, mem: int, n: nat, i: nat, cs: seq<int>)
    requires Keyed(t) && i < n && cs == Cursors(c, t, mem, n)
    ensures cs[i] <= cs[i + 1]
  {
    OneMorePoll(c, t, mem, i, cs[i], cs[i + 1]);
  }

  lemma PollsAdvance(c: Config, t: Table, mem: int, p: nat, q: nat, cs: seq<int>)
    requires Keyed(t) && p <= q && cs == Cursors(c, t, mem, q)
    ensures cs[p] <= cs[q]
  {
    forall i | 0 <= i < |cs| - 1 ensures cs[i] <= cs[i + 1] {
      CursorsRise(c, t, mem, q, i, cs);
    }
    Rising(cs, p, q);
  }

  lemma {:induction false} SomePoll(c: Config, t: Table, mem: int, s: int, p: nat) returns (q: nat)
    requires Keyed(t) && c.maxPull > 0 && s in Foreign(c, t) && s > CursorAfterPolls(c, t, mem, p)
    ensures HandsOut(c, t, mem, q, s)
    decreases |Waiting(c, t, CursorAfterPolls(c, t, mem, p))|
  {
    var cursor := CursorAfterPolls(c, t, mem, p);
    BatchSpan(c, t, cursor, s);
    if s <= NextCursor(c, t, cursor) {
      q := p;
    } else {
      PollLeaves(c, t, cursor);
      StillWaiting(c, t, cursor, s);
      q := SomePoll(c, t, mem, s, p + 1);
    }
  }

  lemma StillWaiting(c: Config, t: Table, cursor: int, s: int)
    requires s in Foreign(c, t) && s > cursor
    ensures |Waiting(c, t, cursor)| > 0
  {
    assert s in Waiting(c, t, cursor);
  }

  /** Whatever the type or status of a row - a recall event, a tombstone of a message deleted before it was
      ever mirrored - if it is foreign and above the cursor, exactly one of the polls that drain the mirror
      hands it out as a new message. */
  lemma EveryRowHandedOut(c: Config, t: Table, mem: int, s: int) returns (p: nat)
    requires Keyed(t) && c.maxPull > 0 && s in t && t[s].fromUid != c.me && s > mem
    ensures HandsOut(c, t, mem, p, s) && forall q: nat :: HandsOut(c, t, mem, q, s) ==> q == p
  {
    p := SomePoll(c, t, mem, s, 0);
    forall q: nat | HandsOut(c, t, mem, q, s) ensures q == p {
      if p < q { NotAgain(c, t, mem, s, p, q); }
      if q < p { NotAgain(c, t, mem, s, q, p); }
    }
  }

  lemma NotAgain(c: Config, t: Table, mem: int, s: int, p: nat, q: nat)
    requires Keyed(t) && p < q && HandsOut(c, t, mem, p, s)
    ensures !HandsOut(c, t, mem, q, s)
  {
    var cp, next, cq :=
      CursorAfterPolls(c, t, mem, p), CursorAfterPolls(c, t, mem, p + 1), CursorAfterPolls(c, t, mem, q);
    OneMorePoll(c, t, mem, p, cp, next);
    PollsAdvance(c, t, mem, p + 1, q, Cursors(c, t, mem, q));
    BatchSpan(c, t, cp, s);
    BatchSpan(c, t, cq, s);
  }

  /** n / m rounded up. */
  function Ceil(n: nat, m: nat): nat
    requires m > 0
  {
    (n + m - 1) / m
  }

  lemma CeilBound(n: nat, m: nat, polls: nat)
    requires m > 0
    ensures n <= polls * m <==> polls >= Ceil(n, m)
  {
    CeilIs(n, m, Ceil(n, m));
    if polls >= Ceil(n, m) { Monotone(Ceil(n, m), polls, m); } else { Monotone(polls + 1, Ceil(n, m), m); }
  }

  lemma CeilIs(n: nat, m: nat, q: nat)
    requires m > 0 && q == Ceil(n, m)
    ensures q * m - m < n <= q * m
  {
    assert n + m - 1 == q * m + (n + m - 1) % m;
  }

  // ---------------------------------------------------------------- a mirror brought up to date

  /** The numbers above the cursor of the messages of others, in the mirror or still at the server alone. */
  function Due(me: int, log: map<int, Message>, t: Table, mem: int): set<int> {
    set s | s in t.Keys + log.Keys && s > mem && (if s in t then t[s].fromUid else log[s].fromUid) != me
  }

  lemma DueIsWaiting(c: Config, log: map<int, Message>, t: Table, mem: int, t': Table)
    requires CaughtUp(c.me, log, t, t')
    ensures Due(c.me, log, t, mem) == Waiting(c, t', mem)
  {
    forall s ensures s in Due(c.me, log, t, mem) <==> s in Waiting(c, t', mem) {
      if s in t' && s !in t { assert t'[s] == RowOf(c.me, log[s]); }
    }
  }

  lemma CaughtUpKeyed(me: int, log: map<int, Message>, t: Table, t': Table)
    requires LogOk(log) && Keyed(t) && CaughtUp(me, log, t, t')
    ensures Keyed(t')
  {
    forall s | s in t' ensures t'[s].seqNo == s && s > 0 { assert s in t || s in log; }
  }

  lemma SameLowest(a: set<int>, b: set<int>, after: int, n: nat)
    requires Above(a, after) == Above(b, after)
    ensures Lowest(a, after, n) == Lowest(b, after, n)
  {}

  /** The batch a poll takes from a mirror brought up to date: as many messages as allowed or due, and the
      cursor after them is the number of the last, counted among those due in ascending order. */
  lemma BatchDue(c: Config, t: Table, mem: int, due: set<int>, batch: seq<Row>)
    requires Keyed(t) && due == Waiting(c, t, mem) && batch == Pending(t, c.me, mem, c.maxPull, false)
    ensures |batch| == if |due| < c.maxPull then |due| else c.maxPull
    ensures |Lowest(due, mem, c.maxPull)| == |batch|
    ensures NextCursor(c, t, mem) == if |batch| == 0 then mem else Lowest(due, mem, c.maxPull)[|batch| - 1]
  {
    NextCursorIsLast(c, t, mem, batch);
    PageKeys(t, c.me, mem, c.maxPull, false);
    LowestSize(Foreign(c, t), mem, c.maxPull);
    assert Above(due, mem) == due;
    SameLowest(due, Foreign(c, t), mem, c.maxPull);
  }

  lemma BatchCount(batch: seq<Row>)
    ensures |Concat(Groups(batch))| == |batch|
  {
    GroupsArePermutation(batch);
    assert |multiset(Concat(Groups(batch)))| == |multiset(batch)|;
  }

  // ---------------------------------------------------------------- the caller-held cursor

  /** The pending command: the page, and the cursor to pass next time. */
  method CmdPending(store: Store, me: int, afterSeq: int, limit: int, includeSelf: bool)
    returns (r: Option<(seq<Row>, int)>)
    ensures r.None? <==> afterSeq < 0
    ensures r.Some? ==> r.value.0 == Pending(store.rows, me, afterSeq, limit, includeSelf)
    ensures r.Some? && Keyed(store.rows) ==> r.value.1 == PageEnd(store.rows, me, afterSeq, limit, includeSelf)
  {
    if afterSeq < 0 {
      return None;
    }
    var since := afterSeq;
    var msgs := Pending(store.rows, me, since, limit, includeSelf);
    var maxSeq := since;
    for i := 0 to |msgs|
      invariant Keyed(store.rows) ==> maxSeq == if i == 0 then since else msgs[i - 1].seqNo
    {
      if Keyed(store.rows) { PageOrder(store.rows, me, since, limit, includeSelf, i); }
      if msgs[i].seqNo > maxSeq {
        maxSeq := msgs[i].seqNo;
      }
    }
    return Some((msgs, maxSeq));
  }

  function PageEnd(t: Table, me: int, after: int, limit: int, includeSelf: bool): int {
    var page := Pending(t, me, after, limit, includeSelf);
    if page == [] then after else page[|page| - 1].seqNo
  }

  lemma PageOrder(t: Table, me: int, after: int, limit: int, includeSelf: bool, i: nat)
    requires Keyed(t) && i < |Pending(t, me, after, limit, includeSelf)|
    ensures var page := Pending(t, me, after, limit, includeSelf);
            page[i].seqNo > if i == 0 then after else page[i - 1].seqNo
  {
    var chosen := Chosen(PendingKeys(t, me, includeSelf), after, limit);
    assert chosen[i] in chosen;
    if i > 0 { assert chosen[i - 1] in chosen; }
  }

  lemma PageKeys(t: Table, me: int, after: int, limit: int, includeSelf: bool)
    requires Keyed(t)
    ensures var page := Pending(t, me, after, limit, includeSelf);
            var chosen := Chosen(PendingKeys(t, me, includeSelf), after, limit);
            |page| == |chosen| && forall i :: 0 <= i < |page| ==> chosen[i] in t && page[i] == t[chosen[i]]
    ensures PageEnd(t, me, after, limit, includeSelf) ==
              var chosen := Chosen(PendingKeys(t, me, includeSelf), after, limit);
              if |chosen| == 0 then after else chosen[|chosen| - 1]
  {
    var chosen := Chosen(PendingKeys(t, me, includeSelf), after, limit);
    forall i | 0 <= i < |chosen| ensures chosen[i] in t && t[chosen[i]].seqNo == chosen[i] {
      assert chosen[i] in chosen;
    }
  }

  lemma PageShrinks(t: Table, me: int, after: int, limit: nat, includeSelf: bool)
    requires Keyed(t) && limit > 0 && |Pending(t, me, after, limit, includeSelf)| > 0
    ensures |Above(PendingKeys(t, me, includeSelf), PageEnd(t, me, after, limit, includeSelf))| <
            |Above(PendingKeys(t, me, includeSelf), after)|
  {
    PageKeys(t, me, after, limit, includeSelf);
    RestSize(PendingKeys(t, me, includeSelf), after, limit);
  }

  /** All pages of a mirror that does not change, each begun where the one before ended, until one is
      empty. */
  function Pages(t: Table, me: int, after: int, limit: nat, includeSelf: bool): seq<Row>
    requires Keyed(t) && limit > 0
    decreases |Above(PendingKeys(t, me, includeSelf), after)|
  {
    var page := Pending(t, me, after, limit, includeSelf);
    if |page| == 0 then [] else
      PageShrinks(t, me, after, limit, includeSelf);
      page + Pages(t, me, PageEnd(t, me, after, limit, includeSelf), limit, includeSelf)
  }

  lemma EmptyPage(t: Table, me: int, after: int, limit: nat, includeSelf: bool)
    requires Keyed(t) && limit > 0
    ensures |Pending(t, me, after, limit, includeSelf)| == 0 <==> |Above(PendingKeys(t, me, includeSelf), after)| == 0
  {
    LowestSize(PendingKeys(t, me, includeSelf), after, limit);
  }

  /** The rows numbered in keys. */
  function RowsAt(t: Table, keys: seq<int>): seq<Row>
    requires forall i :: 0 <= i < |keys| ==> keys[i] in t
  {
    seq(|keys|, i requires 0 <= i < |keys| => t[keys[i]])
  }

  lemma RowsAtConcat(t: Table, a: seq<int>, b: seq<int>)
    requires forall i :: 0 <= i < |a| ==> a[i] in t
    requires forall i :: 0 <= i < |b| ==> b[i] in t
    ensures forall i :: 0 <= i < |a + b| ==> (a + b)[i] in t
    ensures RowsAt(t, a + b) == RowsAt(t, a) + RowsAt(t, b)
  {}

  lemma SortedInTable(t: Table, keys: set<int>)
    requires keys <= t.Keys
    ensures forall i :: 0 <= i < |Sorted(keys)| ==> Sorted(keys)[i] in t
  {
    forall i | 0 <= i < |Sorted(keys)| ensures Sorted(keys)[i] in t { assert Sorted(keys)[i] in Sorted(keys); }
  }

  /** Paging shows every pending row above the first cursor exactly once, in order, and ends. */
  lemma {:induction false} PagesShowAll(t: Table, me: int, after: int, limit: nat, includeSelf: bool, keys: set<int>)
    requires Keyed(t) && limit > 0 && keys == PendingKeys(t, me, includeSelf)
    ensures forall i :: 0 <= i < |Sorted(Above(keys, after))| ==> Sorted(Above(keys, after))[i] in t
    ensures Pages(t, me, after, limit, includeSelf) == RowsAt(t, Sorted(Above(keys, after)))
    decreases |Above(keys, after)|
  {
    SortedInTable(t, Above(keys, after));
    EmptyPage(t, me, after, limit, includeSelf);
    var page := Pending(t, me, after, limit, includeSelf);
    if |page| > 0 {
      var end, chosen := PageEnd(t, me, after, limit, includeSelf), Lowest(keys, after, limit);
      PageShrinks(t, me, after, limit, includeSelf);
      PagesShowAll(t, me, end, limit, includeSelf, keys);
      PageKeys(t, me, after, limit, includeSelf);
      LowestRest(keys, after, limit);
      assert page == RowsAt(t, chosen);
      RowsAtConcat(t, chosen, Sorted(Above(keys, end)));
    }
  }

  // ---------------------------------------------------------------- conversations

  datatype Conversation = WithUser(uid: int) | InGroup(groupId: int)

  /** Where a message belongs, read off the message itself. */
  function ConversationOf(me: int, m: Message): Conversation {
    match m.target
    case ToGroup(g) => if g != 0 then InGroup(g) else WithUser(if m.fromUid == me then 0 else m.fromUid)
    case ToUser(u) => WithUser(if m.fromUid == me then u else m.fromUid)
    case NoTarget => WithUser(if m.fromUid == me then 0 else m.fromUid)
  }

  /** What the history queries list for a conversation, with no limit. */
  function History(t: Table, conv: Conversation): seq<Row> {
    match conv
    case WithUser(u) => HistoryWithUser(t, u, 0, -1)
    case InGroup(g) => HistoryWithGroup(t, g, 0, -1)
  }

  /** rows lists, in ascending order, the first of the rows numbered in keys that lie above after: all of
      them if limit is negative, otherwise at most limit, and as many as there are. */
  predicate Listing(t: Table, keys: set<int>, after: int, limit: int, rows: seq<Row>) {
    && BySeq(rows)
    && (forall i :: 0 <= i < |rows| ==> rows[i].seqNo in keys && rows[i].seqNo > after)
    && (forall i :: 0 <= i < |rows| && rows[i].seqNo in t ==> t[rows[i].seqNo] == rows[i])
    && (limit >= 0 ==> |rows| <= limit)
    && (forall s :: s in keys && s in t && s > after && Reaches(rows, limit, s) ==> t[s] in rows)
  }

  /** The list was not cut off before number s. */
  predicate Reaches(rows: seq<Row>, limit: int, s: int) {
    limit < 0 || |rows| < limit || (|rows| > 0 && s <= rows[|rows| - 1].seqNo)
  }

  lemma SelectAt(t: Table, keys: set<int>, after: int, limit: int, i: nat)
    requires Keyed(t) && keys <= t.Keys && i < |Select(t, keys, after, limit)|
    ensures var rows, chosen := Select(t, keys, after, limit), Chosen(keys, after, limit);
            && i < |chosen| && rows[i].seqNo == chosen[i] && chosen[i] in keys && chosen[i] > after
            && rows[i] == t[chosen[i]]
  {
    assert Chosen(keys, after, limit)[i] in Chosen(keys, after, limit);
  }

  lemma SelectBySeq(t: Table, keys: set<int>, after: int, limit: int)
    requires Keyed(t) && keys <= t.Keys
    ensures BySeq(Select(t, keys, after, limit))
  {
    var rows := Select(t, keys, after, limit);
    forall i, j | 0 <= i < j < |rows| ensures rows[i].seqNo < rows[j].seqNo {
      SelectAt(t, keys, after, limit, i);
      SelectAt(t, keys, after, limit, j);
    }
  }

  lemma SelectReaches(t: Table, keys: set<int>, after: int, limit: int, s: int)
    requires Keyed(t) && keys <= t.Keys && s in keys && s > after && Reaches(Select(t, keys, after, limit), limit, s)
    ensures t[s] in Select(t, keys, after, limit)
  {
    var chosen, rows := Chosen(keys, after, limit), Select(t, keys, after, limit);
    forall i | 0 <= i < |rows| ensures chosen[i] in t && rows[i] == t[chosen[i]] {
      SelectAt(t, keys, after, limit, i);
    }
    RowListed(t, keys, after, limit, chosen, rows, s);
  }

  lemma SelectLists(t: Table, keys: set<int>, after: int, limit: int, rows: seq<Row>)
    requires Keyed(t) && keys <= t.Keys && rows == Select(t, keys, after, limit)
    ensures Listing(t, keys, after, limit, rows)
  {
    SelectBySeq(t, keys, after, limit);
    forall i | 0 <= i < |rows|
      ensures rows[i].seqNo in keys && rows[i].seqNo > after && t[rows[i].seqNo] == rows[i]
    {
      SelectAt(t, keys, after, limit, i);
    }
    forall s | s in keys && s > after && Reaches(rows, limit, s) ensures t[s] in rows {
      SelectReaches(t, keys, after, limit, s);
    }
  }

  lemma RowListed(t: Table, keys: set<int>, after: int, limit: int, chosen: seq<int>, rows: seq<Row>, s: int)
    requires Keyed(t) && keys <= t.Keys && chosen == Chosen(keys, after, limit) && |rows| == |chosen|
    requires forall i :: 0 <= i < |rows| ==> chosen[i] in t && rows[i] == t[chosen[i]]
    requires s in keys && s > after && Reaches(rows, limit, s)
    ensures t[s] in rows
  {
    var n := if limit < 0 then |Above(keys, after)| else limit;
    LowestSize(keys, after, n);
    if |Above(keys, after)| <= n {
      LowestAll(keys, after, n);
      assert s in Above(keys, after);
    } else {
      LowestClosed(keys, after, n, s, chosen[|chosen| - 1]);
    }
    var j :| 0 <= j < |chosen| && chosen[j] == s;
    assert rows[j] == t[s];
  }

  /** What the three queries list, for every start and limit. */
  lemma UserHistoryLists(t: Table, peerUid: int, after: int, limit: int, keys: set<int>)
    requires Keyed(t) && keys == set s | s in t && t[s].peerUid == peerUid && t[s].groupId == 0
    ensures Listing(t, keys, after, limit, HistoryWithUser(t, peerUid, after, limit))
  {
    assert UserKeys(t, peerUid) == keys;
    SelectLists(t, keys, after, limit, HistoryWithUser(t, peerUid, after, limit));
  }

  lemma GroupHistoryLists(t: Table, groupId: int, after: int, limit: int, keys: set<int>)
    requires Keyed(t) && keys == set s | s in t && t[s].groupId == groupId
    ensures Listing(t, keys, after, limit, HistoryWithGroup(t, groupId, after, limit))
  {
    assert GroupKeys(t, groupId) == keys;
    SelectLists(t, keys, after, limit, HistoryWithGroup(t, groupId, after, limit));
  }

  lemma PendingLists(t: Table, me: int, after: int, limit: int, includeSelf: bool, keys: set<int>)
    requires Keyed(t) && keys == if includeSelf then t.Keys else (set s | s in t && t[s].fromUid != me)
    ensures Listing(t, keys, after, limit, Pending(t, me, after, limit, includeSelf))
  {
    assert PendingKeys(t, me, includeSelf) == keys;
    SelectLists(t, keys, after, limit, Pending(t, me, after, limit, includeSelf));
  }

  lemma SelectAll(t: Table, keys: set<int>, r: Row)
    requires Keyed(t) && keys <= t.Keys
    ensures r in Select(t, keys, 0, -1) <==> r.seqNo in keys && t[r.seqNo] == r
  {
    var chosen := Chosen(keys, 0, -1);
    var rows := Select(t, keys, 0, -1);
    if r in rows {
      var i :| 0 <= i < |rows| && rows[i] == r;
      assert chosen[i] in chosen;
    }
    if r.seqNo in keys && t[r.seqNo] == r {
      assert r.seqNo in Above(keys, 0) && r.seqNo in chosen;
      var i :| 0 <= i < |chosen| && chosen[i] == r.seqNo;
      assert rows[i] == r;
    }
  }

  /** Every mirrored message is in the history of its own conversation and in no other; group number 0
      is no conversation. */
  lemma ConversationPartition(me: int, t: Table, s: int, m: Message, conv: Conversation)
    requires Keyed(t) && s in t && t[s] == RowOf(me, m) && conv != InGroup(0)
    ensures t[s] in History(t, conv) <==> conv == ConversationOf(me, m)
  {
    match conv
    case WithUser(u) => SelectAll(t, UserKeys(t, u), t[s]);
    case InGroup(g) => SelectAll(t, GroupKeys(t, g), t[s]);
  }

  function KeyOfConversation(conv: Conversation): string {
    match conv
    case WithUser(u) => PeerKeyForUser(u)
    case InGroup(g) => PeerKeyForGroup(g)
  }

  /** The group a pending message is put in replies to the conversation the mirror files it under: by key,
      by target, and so that the account's own reply to that target is filed there too. */
  lemma ReplyGoesToConversation(me: int, m: Message)
    requires m.fromUid != me
    ensures KeyOf(RowOf(me, m)) == KeyOfConversation(ConversationOf(me, m))
    ensures RowOf(me, m).groupId == 0 ==> PeerKeyForUser(RowOf(me, m).peerUid) == KeyOf(RowOf(me, m))
    ensures match ConversationOf(me, m)
            case WithUser(u) => ConversationTarget(TargetOf(RowOf(me, m))) == ToUser(u)
            case InGroup(g) => ConversationTarget(TargetOf(RowOf(me, m))) == ToGroup(g)
    ensures forall reply: Message ::
              reply.fromUid == me && reply.target == ConversationTarget(TargetOf(RowOf(me, m))) ==>
              ConversationOf(me, reply) == ConversationOf(me, m)
  {}
}
