/** The polling protocol of one account as steps over the server log, the local mirror, and the two
    copies of the processing cursor, with what every run of it keeps. */
module SyncProtocol {
  import opened Wrappers
  import opened Ordered
  import opened LocalStore
  import opened Grouping

  /** When an answer says that there is more: when it is full, as the protocol's comments have it, or when
      one more message than fits was found, as the server does it. */
  datatype Rule = WhenFull | WhenFound

  /** limit is the effective one, after the server has clipped the client's. */
  datatype Config = Config(me: int, limit: nat, rule: Rule, maxPull: nat)

  datatype Phase =
    | Idle
    | Syncing(lastSeq: int)
    | Synced
    | Working(start: int, gs: seq<Group>, next: nat)  // next counts the groups already committed

  /** log is what the server holds now, top the largest number it ever gave out. mem and disk are the
      cursor in memory and in the state file. done, saved and skipped record history: the groups
      committed, those whose commit was written out, and the sequence numbers the cursor passed over
      without a commit. */
  datatype World = World(log: map<int, Message>, top: int, table: Table, mem: int, disk: int, phase: Phase,
                         done: seq<Group>, saved: seq<Group>, skipped: set<int>)

  datatype Event =
    | Append(m: Message) | Recall(s: int, body: Body) | Delete(s: int, newSeq: int) | Purge(bound: int)
    | BeginPoll | SyncBatch | SyncFails | TakePending | QueryFails
    | GroupDone | GroupNotSaved | GroupFails | FinishPoll | Restart

  const INIT := World(map[], 0, map[], 0, 0, Idle, [], [], {})

  // ---------------------------------------------------------------- the server's own steps

  const TYPE_RECALL := 5
  const STATUS_DELETED := 0xff

  predicate ServerEvent(e: Event) {
    e.Append? || e.Recall? || e.Delete? || e.Purge?
  }

  /** New messages and tombstones get numbers above all earlier ones, and a new message a msg_id of its
      own. A deleted message stays as it is. */
  predicate ServerEnabled(log: map<int, Message>, top: int, e: Event)
    requires ServerEvent(e)
  {
    match e
    case Append(m) => m.seqNo > top && forall s :: s in log ==> log[s].msgId != m.msgId
    case Recall(s, _) => s in log && log[s].status != STATUS_DELETED
    case Delete(s, newSeq) => s in log && log[s].status != STATUS_DELETED && newSeq > top
    case Purge(_) => true
  }

  /** A recall overwrites a message in place, under its own number; a deletion moves it, msg_id and all,
      to a new number; old messages are purged. */
  function LogAfter(log: map<int, Message>, e: Event): map<int, Message>
    requires ServerEvent(e) && (e.Recall? || e.Delete? ==> e.s in log)
  {
    match e
    case Append(m) => log[m.seqNo := m]
    case Recall(s, body) => log[s := log[s].(msgType := TYPE_RECALL, body := body)]
    case Delete(s, newSeq) => (log - {s})[newSeq := log[s].(seqNo := newSeq, status := STATUS_DELETED)]
    case Purge(bound) => map s | s in log && s > bound :: log[s]
  }

  function TopAfter(top: int, e: Event): int
    requires ServerEvent(e)
  {
    match e
    case Append(m) => m.seqNo
    case Delete(_, newSeq) => newSeq
    case _ => top
  }

  // ---------------------------------------------------------------- the server's answer

  /** The ascending smallest messages above the client's cursor, at most limit of them. */
  function Reply(log: map<int, Message>, lastSeq: int, limit: nat): seq<Message> {
    var keys := Lowest(log.Keys, lastSeq, limit);
    seq(|keys|, i requires 0 <= i < |keys| => assert keys[i] in keys; log[keys[i]])
  }

  /** The largest number of the batch, 0 for an empty one. */
  function CursorSeq(batch: seq<Message>): int {
    if batch == [] then 0 else batch[|batch| - 1].seqNo
  }

  predicate HasMore(rule: Rule, log: map<int, Message>, lastSeq: int, limit: nat) {
    match rule
    case WhenFull => |Reply(log, lastSeq, limit)| == limit
    case WhenFound => |Above(log.Keys, lastSeq)| > limit
  }

  const DEFAULT_LIMIT := 200

  /** The limit the server goes by: the client's, if it asked for any, but not above the configured one. */
  function EffectiveLimit(limit: int, maxLimit: int): (n: nat)
    ensures n > 0
    ensures 0 < limit <= maxLimit || (0 < limit <= 200 && maxLimit <= 0) ==> n == limit
    ensures 0 < maxLimit <= limit || (0 < maxLimit <= 200 && limit <= 0) ==> n == maxLimit
    ensures limit <= 0 && maxLimit <= 0 ==> n == 200
    ensures (limit > 200 && maxLimit <= 0) || (limit <= 0 && maxLimit > 200) ==> n == 200
  {
    var most := if maxLimit <= 0 then DEFAULT_LIMIT else maxLimit;
    var asked := if limit <= 0 then DEFAULT_LIMIT else limit;
    if asked > most then most else asked
  }

  // ---------------------------------------------------------------- the steps

  function Seqs(g: Group): set<int> {
    set r | r in g.messages :: r.seqNo
  }

  function Covered(gs: seq<Group>): set<int> {
    if gs == [] then {} else Covered(gs[..|gs| - 1]) + Seqs(gs[|gs| - 1])
  }

  function Larger(a: int, b: int): int { if b > a then b else a }

  /** The cursor after committing the groups gs in order from start; it never moves back. */
  function CursorAfter(start: int, gs: seq<Group>): int {
    if gs == [] then start else Larger(CursorAfter(start, gs[..|gs| - 1]), gs[|gs| - 1].maxSeq)
  }

  /** Where the cursor stands once the whole pending batch of t above mem has been committed. */
  function NextCursor(c: Config, t: Table, mem: int): int {
    CursorAfter(mem, Groups(Pending(t, c.me, mem, c.maxPull, false)))
  }

  function Todo(p: Phase): set<int> {
    if p.Working? && p.next <= |p.gs| then Covered(p.gs[p.next..]) else {}
  }

  function UpTo(s: set<int>, cursor: int): set<int> {
    set x | x in s && x <= cursor
  }

  /** There is a group still to process. */
  predicate Busy(p: Phase) {
    p.Working? && p.next < |p.gs|
  }

  predicate Enabled(w: World, e: Event) {
    match e
    case Append(_) | Recall(_, _) | Delete(_, _) | Purge(_) => ServerEnabled(w.log, w.top, e)
    case BeginPoll => w.phase.Idle?
    case SyncBatch | SyncFails => w.phase.Syncing?
    case TakePending | QueryFails => w.phase.Synced?
    case GroupDone | GroupNotSaved | GroupFails => Busy(w.phase)
    case FinishPoll => w.phase.Working? && w.phase.next == |w.phase.gs|
    case Restart => true
  }

  function AfterBatch(c: Config, w: World): World
    requires w.phase.Syncing?
  {
    var batch := Reply(w.log, w.phase.lastSeq, c.limit);
    match UpsertAll(w.table, c.me, batch)
    case Err(_) => w.(phase := Idle)
    case Ok(t) =>
      var last := if CursorSeq(batch) > 0 then CursorSeq(batch) else w.phase.lastSeq;
      w.(table := t,
         phase := if HasMore(c.rule, w.log, w.phase.lastSeq, c.limit) then Syncing(last) else Synced)
  }

  function AfterTake(c: Config, w: World): World {
    var batch := Pending(w.table, c.me, w.mem, c.maxPull, false);
    w.(phase := if batch == [] then Idle else Working(w.mem, Groups(batch), 0))
  }

  function AfterDone(w: World): World
    requires Busy(w.phase)
  {
    var g := w.phase.gs[w.phase.next];
    var cursor := Larger(w.mem, g.maxSeq);
    w.(mem := cursor, disk := cursor, done := w.done + [g], saved := w.saved + [g],
       phase := w.phase.(next := w.phase.next + 1))
  }

  /** The commit moves the cursor in memory; writing it out fails, and the poll stops. */
  function AfterNotSaved(w: World): World
    requires Busy(w.phase)
  {
    var g, left := w.phase.gs[w.phase.next], w.phase.gs[w.phase.next + 1..];
    var cursor := Larger(w.mem, g.maxSeq);
    w.(mem := cursor, done := w.done + [g], skipped := w.skipped + UpTo(Covered(left), cursor), phase := Idle)
  }

  /** A poll that stops early leaves behind every uncommitted message the cursor has passed. */
  function AfterFails(w: World): World {
    w.(skipped := w.skipped + UpTo(Todo(w.phase), w.mem), phase := Idle)
  }

  /** Only the state file and the mirror survive. */
  function AfterRestart(w: World): World {
    w.(mem := w.disk, skipped := UpTo(w.skipped + Todo(w.phase), w.disk), phase := Idle)
  }

  function Step(c: Config, w: World, e: Event): World
    requires Enabled(w, e)
  {
    match e
    case Append(_) | Recall(_, _) | Delete(_, _) | Purge(_) => w.(log := LogAfter(w.log, e), top := TopAfter(w.top, e))
    case BeginPoll => w.(phase := Syncing(LastSeq(w.table)))
    case SyncBatch => AfterBatch(c, w)
    case TakePending => AfterTake(c, w)
    case GroupDone => AfterDone(w)
    case GroupNotSaved => AfterNotSaved(w)
    case GroupFails => AfterFails(w)
    case Restart => AfterRestart(w)
    case SyncFails | QueryFails | FinishPoll => w.(phase := Idle)
  }

  /** A whole run from w; None when some step of it is not enabled. */
  function Run(c: Config, w: World, es: seq<Event>): Option<World> {
    if es == [] then Some(w)
    else match Run(c, w, es[..|es| - 1])
      case None => None
      case Some(w') => if Enabled(w', es[|es| - 1]) then Some(Step(c, w', es[|es| - 1])) else None
  }

  // ---------------------------------------------------------------- what every run keeps

  predicate LogOk(log: map<int, Message>) {
    forall s :: s in log ==> s > 0 && log[s].seqNo == s
  }

  predicate Below(log: map<int, Message>, top: int) {
    forall s :: s in log ==> s <= top
  }

  predicate Keyed(t: Table) {
    forall s :: s in t ==> t[s].seqNo == s && s > 0
  }

  /** Whatever the server holds up to the mirror's own largest number is mirrored: there is no gap. */
  predicate Mirror(log: map<int, Message>, table: Table) {
    && Keyed(table)
    && (forall s :: s in log && s <= LastSeq(table) ==> s in table)
  }

  function Foreign(c: Config, t: Table): set<int> {
    PendingKeys(t, c.me, false)
  }

  /** gs partitions a stretch of the foreign messages beginning right after start. */
  predicate Stretch(foreign: set<int>, start: int, gs: seq<Group>) {
    && (forall s :: s in Covered(gs) ==> s in foreign && s > start)
    && (forall s :: s in foreign && start < s <= CursorAfter(start, gs) ==> s in Covered(gs))
    && (forall i :: 0 <= i < |gs| ==> gs[i].maxSeq in Seqs(gs[i]) && AtMost(Seqs(gs[i]), gs[i].maxSeq))
    && (forall i, j :: 0 <= i < j < |gs| ==> Seqs(gs[i]) !! Seqs(gs[j]))
  }

  predicate AtMost(s: set<int>, bound: int) {
    forall x :: x in s ==> x <= bound
  }

  predicate PhaseOk(c: Config, w: World) {
    match w.phase
    case Idle => true
    case Syncing(lastSeq) => lastSeq == LastSeq(w.table)
    case Synced => true
    case Working(start, gs, next) =>
      WorkOk(Foreign(c, w.table), start, gs, next, w.mem, w.disk, Covered(w.done))
  }

  predicate WorkOk(foreign: set<int>, start: int, gs: seq<Group>, next: nat, mem: int, disk: int, done: set<int>) {
    && next <= |gs| && Stretch(foreign, start, gs)
    && mem == CursorAfter(start, gs[..next]) && (next > 0 ==> disk == mem)
    && Covered(gs[..next]) <= done
  }

  /** No foreign message at or below the cursor is unaccounted for. */
  predicate Accounted(foreign: set<int>, mem: int, done: set<int>, skipped: set<int>, todo: set<int>) {
    && (forall s :: s in foreign && s <= mem ==> s in done || s in skipped || s in todo)
    && skipped <= foreign && AtMost(skipped, mem) && skipped !! todo
  }

  predicate Inv(c: Config, w: World) {
    && LogOk(w.log) && Below(w.log, w.top) && Mirror(w.log, w.table)
    && 0 <= w.disk <= w.mem <= LastSeq(w.table) <= w.top
    && PhaseOk(c, w) && AtMost(Covered(w.saved), w.disk)
    && Books(c, w)
  }

  predicate Books(c: Config, w: World) {
    Accounted(Foreign(c, w.table), w.mem, Covered(w.done), w.skipped, Todo(w.phase))
  }

  // ---------------------------------------------------------------- saving one batch

  /** t' is t with the rows of exactly the messages numbered in keys. */
  predicate Extends(me: int, log: map<int, Message>, t: Table, keys: set<int>, t': Table) {
    && keys <= log.Keys
    && t'.Keys == t.Keys + keys
    && (forall s :: s in keys ==> t'[s] == RowOf(me, log[s]))
    && (forall s :: s in t && s !in keys ==> t'[s] == t[s])
  }

  function KeySet(keys: seq<int>): set<int> {
    set k | k in keys
  }

  lemma KeySetTake(keys: seq<int>, i: nat)
    requires i < |keys|
    ensures KeySet(keys[..i + 1]) == KeySet(keys[..i]) + {keys[i]}
  {
    assert keys[..i + 1] == keys[..i] + [keys[i]];
  }

  lemma {:induction false} SaveReply(me: int, log: map<int, Message>, t: Table, keys: seq<int>, ms: seq<Message>,
                                     i: nat)
    requires LogOk(log) && |ms| == |keys| && i <= |ms|
    requires forall k :: 0 <= k < |keys| ==> keys[k] in log && ms[k] == log[keys[k]]
    requires UpsertAll(t, me, ms[..i]).Ok?
    ensures Extends(me, log, t, KeySet(keys[..i]), UpsertAll(t, me, ms[..i]).value)
  {
    if i == 0 {
      assert KeySet(keys[..0]) == {};
    } else {
      UpsertTake(t, me, ms, i - 1);
      SaveReply(me, log, t, keys, ms, i - 1);
      KeySetTake(keys, i - 1);
      var t1, k := UpsertAll(t, me, ms[..i - 1]).value, keys[i - 1];
      assert UpsertAll(t, me, ms[..i]).value == t1[k := RowOf(me, log[k])];
    }
  }

  lemma LastSeqIs(t: Table, m: int)
    requires m in t && forall s :: s in t ==> s <= m
    ensures LastSeq(t) == m
  {}

  lemma ReplyFacts(log: map<int, Message>, last: int, limit: nat)
    requires LogOk(log)
    ensures var keys, batch := Lowest(log.Keys, last, limit), Reply(log, last, limit);
            && |batch| == |keys|
            && (forall k :: 0 <= k < |keys| ==>
                  keys[k] in log && keys[k] > last && keys[k] > 0 && batch[k] == log[keys[k]])
            && CursorSeq(batch) == (if |keys| == 0 then 0 else keys[|keys| - 1])
  {
    var keys := Lowest(log.Keys, last, limit);
    forall k | 0 <= k < |keys| ensures keys[k] in log && keys[k] > last { assert keys[k] in keys; }
  }

  lemma AtMostLast(t: Table, s: int)
    requires s in t
    ensures s <= LastSeq(t)
  {}

  /** The answer to the mirror's own cursor: messages of the log under new numbers. */
  lemma ReplyIsUnseen(log: map<int, Message>, t: Table, limit: nat, batch: seq<Message>)
    requires LogOk(log) && batch == Reply(log, LastSeq(t), limit)
    ensures Fresh(t, batch)
    ensures forall i :: 0 <= i < |batch| ==>
              batch[i].seqNo in log && batch[i].seqNo > LastSeq(t) && batch[i] == log[batch[i].seqNo]
  {
    var keys := Lowest(log.Keys, LastSeq(t), limit);
    ReplyFacts(log, LastSeq(t), limit);
    forall i | 0 <= i < |batch| ensures batch[i].seqNo == keys[i] && keys[i] in log && keys[i] !in t {
      if keys[i] in t { AtMostLast(t, keys[i]); }
    }
  }

  lemma LowestLast(s: set<int>, after: int, n: nat, x: int)
    requires x in Lowest(s, after, n)
    ensures |Lowest(s, after, n)| > 0 && x <= Lowest(s, after, n)[|Lowest(s, after, n)| - 1]
  {
    var r := Lowest(s, after, n);
    var i :| 0 <= i < |r| && r[i] == x;
  }

  /** The largest number of the extended mirror. */
  lemma LastExtends(me: int, log: map<int, Message>, t: Table, keys: seq<int>, t': Table, limit: nat)
    requires keys == Lowest(log.Keys, LastSeq(t), limit) && Extends(me, log, t, KeySet(keys), t')
    ensures LastSeq(t') == (if |keys| == 0 then LastSeq(t) else keys[|keys| - 1])
    ensures LastSeq(t') >= LastSeq(t)
  {
    if |keys| == 0 {
      assert KeySet(keys) == {};
      assert t'.Keys == t.Keys;
    } else {
      var m := keys[|keys| - 1];
      assert m in keys;
      forall s | s in t' ensures s <= m {
        if s in keys { LowestLast(log.Keys, LastSeq(t), limit, s); } else { AtMostLast(t, s); }
      }
      LastSeqIs(t', m);
    }
  }

  lemma MirrorExtends(me: int, log: map<int, Message>, t: Table, keys: seq<int>, t': Table, limit: nat)
    requires LogOk(log) && Mirror(log, t)
    requires keys == Lowest(log.Keys, LastSeq(t), limit) && Extends(me, log, t, KeySet(keys), t')
    ensures Mirror(log, t')
  {
    LastExtends(me, log, t, keys, t', limit);
    forall s | s in t' ensures t'[s].seqNo == s && s > 0 {
      if s in KeySet(keys) {} else { assert s in t; }
    }
    forall s | s in log && s <= LastSeq(t') ensures s in t' {
      if s > LastSeq(t) {
        var m := keys[|keys| - 1];
        assert m in keys;
        LowestClosed(log.Keys, LastSeq(t), limit, s, m);
        assert s in KeySet(keys);
      }
    }
  }

  /** Rows already mirrored stay as they are; new ones lie above the old largest number. */
  lemma RowsExtend(me: int, log: map<int, Message>, t: Table, keys: seq<int>, t': Table, limit: nat)
    requires keys == Lowest(log.Keys, LastSeq(t), limit) && Extends(me, log, t, KeySet(keys), t')
    ensures forall s :: s in t ==> s in t' && t'[s] == t[s]
    ensures forall s :: s in t' && s !in t ==> s > LastSeq(t)
  {
    forall s | s in t ensures t'[s] == t[s] {
      AtMostLast(t, s);
      assert s !in keys;
    }
  }

  /** Saving the server's answer to the mirror's own cursor extends the mirror without a gap, by the
      messages as the server holds them at that moment. */
  lemma BatchKeepsMirror(me: int, log: map<int, Message>, t: Table, limit: nat, batch: seq<Message>, t': Table)
    requires LogOk(log) && Mirror(log, t)
    requires batch == Reply(log, LastSeq(t), limit) && UpsertAll(t, me, batch) == Ok(t')
    ensures Mirror(log, t')
    ensures LastSeq(t') == (if CursorSeq(batch) > 0 then CursorSeq(batch) else LastSeq(t))
    ensures LastSeq(t') >= LastSeq(t) && (LastSeq(t') == LastSeq(t) || LastSeq(t') in log)
    ensures forall s :: s in t ==> s in t' && t'[s] == t[s]
    ensures forall s :: s in t' && s !in t ==> s > LastSeq(t) && s in log && t'[s] == RowOf(me, log[s])
  {
    var keys := Lowest(log.Keys, LastSeq(t), limit);
    ReplyFacts(log, LastSeq(t), limit);
    TakeNext(batch, |batch|);
    TakeNext(keys, |keys|);
    SaveReply(me, log, t, keys, batch, |batch|);
    LastExtends(me, log, t, keys, t', limit);
    MirrorExtends(me, log, t, keys, t', limit);
    RowsExtend(me, log, t, keys, t', limit);
  }

  // ---------------------------------------------------------------- one pending batch

  /** A batch is made of foreign rows above the cursor, in order, and jumps over none. */
  lemma PendingFacts(t: Table, me: int, after: int, maxPull: nat)
    requires Keyed(t)
    ensures var batch := Pending(t, me, after, maxPull, false);
            var keys := PendingKeys(t, me, false);
            && BySeq(batch)
            && (forall r :: r in batch ==> r.seqNo in keys && r.seqNo > after && r == t[r.seqNo])
            && (forall s, r :: s in keys && r in batch && after < s <= r.seqNo ==> t[s] in batch)
  {
    var batch, keys := Pending(t, me, after, maxPull, false), PendingKeys(t, me, false);
    forall i | 0 <= i < |batch|
      ensures batch[i].seqNo in keys && batch[i].seqNo > after && batch[i] == t[batch[i].seqNo]
    {
      PendingAt(t, me, after, maxPull, i);
    }
    forall i, j | 0 <= i < j < |batch| ensures batch[i].seqNo < batch[j].seqNo {
      PendingAt(t, me, after, maxPull, i);
      PendingAt(t, me, after, maxPull, j);
    }
    forall s, r | s in keys && r in batch && after < s <= r.seqNo ensures t[s] in batch {
      PendingClosed(t, me, after, maxPull, s, r);
    }
  }

  lemma PendingAt(t: Table, me: int, after: int, maxPull: nat, i: nat)
    requires Keyed(t) && i < |Pending(t, me, after, maxPull, false)|
    ensures var batch, keys := Pending(t, me, after, maxPull, false), PendingKeys(t, me, false);
            var chosen := Chosen(keys, after, maxPull);
            && |chosen| == |batch| && chosen[i] in keys && chosen[i] > after
            && batch[i] == t[chosen[i]] && batch[i].seqNo == chosen[i]
  {
    var chosen := Chosen(PendingKeys(t, me, false), after, maxPull);
    assert chosen[i] in chosen;
  }

  /** A batch jumps over no foreign row. */
  lemma PendingClosed(t: Table, me: int, after: int, maxPull: nat, s: int, r: Row)
    requires Keyed(t) && s in PendingKeys(t, me, false) && r in Pending(t, me, after, maxPull, false)
             && after < s <= r.seqNo
    ensures t[s] in Pending(t, me, after, maxPull, false)
  {
    var batch, keys := Pending(t, me, after, maxPull, false), PendingKeys(t, me, false);
    var chosen := Chosen(keys, after, maxPull);
    var i :| 0 <= i < |batch| && batch[i] == r;
    PendingAt(t, me, after, maxPull, i);
    assert chosen[i] in chosen;
    LowestClosed(keys, after, maxPull, s, chosen[i]);
    var j :| 0 <= j < |chosen| && chosen[j] == s;
    PendingAt(t, me, after, maxPull, j);
  }

  // ---------------------------------------------------------------- its groups

  lemma GroupAt(ms: seq<Row>, i: nat)
    requires i < |Groups(ms)|
    ensures Groups(ms)[i] == GroupFor(ms, Keys(ms)[i]) && Keys(ms)[i] in Keys(ms)
  {}

  lemma GroupMembers(ms: seq<Row>, i: nat)
    requires i < |Groups(ms)|
    ensures var g := Groups(ms)[i];
            forall r :: r in g.messages ==> r in ms && KeyOf(r) == Keys(ms)[i] && r.seqNo <= g.maxSeq
  {
    GroupAt(ms, i);
    AllHaveKey(ms, Keys(ms)[i]);
    MaxSeqIsMax(Filter(ms, Keys(ms)[i]));
  }

  /** Each message of the batch is in one group and no other. */
  lemma OneGroup(ms: seq<Row>, m: Row) returns (i: nat)
    requires m in ms
    ensures i < |Groups(ms)| && m in Groups(ms)[i].messages
    ensures forall j :: 0 <= j < |Groups(ms)| && j != i ==> m !in Groups(ms)[j].messages
  {
    InOwnGroup(ms, m);
    i :| 0 <= i < |Keys(ms)| && Keys(ms)[i] == KeyOf(m);
    GroupAt(ms, i);
    KeysDistinct(ms);
    forall j | 0 <= j < |Groups(ms)| && j != i ensures m !in Groups(ms)[j].messages {
      GroupMembers(ms, j);
    }
  }

  /** The largest number of a group belongs to one of its messages. */
  lemma GroupMaxMember(ms: seq<Row>, i: nat) returns (r: Row)
    requires i < |Groups(ms)| && forall m :: m in ms ==> m.seqNo > 0
    ensures r in ms && r in Groups(ms)[i].messages && r.seqNo == Groups(ms)[i].maxSeq
  {
    GroupAt(ms, i);
    var f := Filter(ms, Keys(ms)[i]);
    KeyHasMessage(ms, Keys(ms)[i]);
    AllHaveKey(ms, Keys(ms)[i]);
    MaxSeqIsMax(f);
    var k :| 0 <= k < |f| && f[k].seqNo == MaxSeq(f);
    r := f[k];
  }

  // ---------------------------------------------------------------- what groups cover

  lemma {:induction false} CoveredConcat(a: seq<Group>, b: seq<Group>)
    ensures Covered(a + b) == Covered(a) + Covered(b)
  {
    if b == [] {
      assert a + b == a;
    } else {
      var n := |b| - 1;
      assert (a + b)[..|a| + n] == a + b[..n];
      CoveredConcat(a, b[..n]);
    }
  }

  lemma CoveredOne(g: Group)
    ensures Covered([g]) == Seqs(g)
  {
    assert [g][..0] == [];
  }

  lemma CoveredTake(gs: seq<Group>, n: nat)
    requires n < |gs|
    ensures Covered(gs[..n + 1]) == Covered(gs[..n]) + Seqs(gs[n])
    ensures Covered(gs[n..]) == Seqs(gs[n]) + Covered(gs[n + 1..])
  {
    assert gs[..n + 1] == gs[..n] + [gs[n]] && gs[n..] == [gs[n]] + gs[n + 1..];
    CoveredOne(gs[n]);
    CoveredConcat(gs[..n], [gs[n]]);
    CoveredConcat([gs[n]], gs[n + 1..]);
  }

  lemma CoveredSplit(gs: seq<Group>, n: nat)
    requires n <= |gs|
    ensures Covered(gs) == Covered(gs[..n]) + Covered(gs[n..])
  {
    assert gs == gs[..n] + gs[n..];
    CoveredConcat(gs[..n], gs[n..]);
  }

  lemma {:induction false} CoveredBy(gs: seq<Group>, s: int) returns (i: nat)
    requires s in Covered(gs)
    ensures i < |gs| && s in Seqs(gs[i])
  {
    var n := |gs| - 1;
    if s in Seqs(gs[n]) { i := n; } else { i := CoveredBy(gs[..n], s); }
  }

  lemma {:induction false} CoveredHas(gs: seq<Group>, i: nat)
    requires i < |gs|
    ensures Seqs(gs[i]) <= Covered(gs)
  {
    var n := |gs| - 1;
    if i < n { CoveredHas(gs[..n], i); }
  }

  lemma CursorAfterTake(start: int, gs: seq<Group>, n: nat)
    requires n < |gs|
    ensures CursorAfter(start, gs[..n + 1]) == Larger(CursorAfter(start, gs[..n]), gs[n].maxSeq)
  {
    assert gs[..n + 1][..n] == gs[..n];
  }

  /** Committing more groups never lowers the cursor, which bounds every group committed. */
  lemma {:induction false} CursorGrows(start: int, gs: seq<Group>, k: nat, n: nat)
    requires k <= n <= |gs|
    ensures start <= CursorAfter(start, gs[..k]) <= CursorAfter(start, gs[..n])
    ensures forall i :: 0 <= i < n ==> gs[i].maxSeq <= CursorAfter(start, gs[..n])
  {
    if n > 0 {
      CursorGrows(start, gs, if k == n then n - 1 else k, n - 1);
      CursorAfterTake(start, gs, n - 1);
    }
  }

  lemma {:induction false} CommittedBelow(start: int, gs: seq<Group>, k: nat)
    requires k <= |gs| && forall i :: 0 <= i < |gs| ==> AtMost(Seqs(gs[i]), gs[i].maxSeq)
    ensures AtMost(Covered(gs[..k]), CursorAfter(start, gs[..k]))
  {
    if k > 0 {
      CommittedBelow(start, gs, k - 1);
      CoveredTake(gs, k - 1);
      CursorAfterTake(start, gs, k - 1);
      assert AtMost(Seqs(gs[k - 1]), gs[k - 1].maxSeq);
    }
  }

  /** What is committed and what is left have nothing in common. */
  lemma CommittedApart(foreign: set<int>, start: int, gs: seq<Group>, k: nat)
    requires k <= |gs| && Stretch(foreign, start, gs)
    ensures Covered(gs[..k]) !! Covered(gs[k..])
  {
    forall s | s in Covered(gs[..k]) ensures s !in Covered(gs[k..]) {
      var i := CoveredBy(gs[..k], s);
      if s in Covered(gs[k..]) {
        var j := CoveredBy(gs[k..], s);
        assert false;
      }
    }
  }

  // ---------------------------------------------------------------- a batch is a stretch

  lemma SeqsOf(g: Group, r: Row)
    requires r in g.messages
    ensures r.seqNo in Seqs(g)
  {}

  lemma GroupShape(ms: seq<Row>, i: nat)
    requires i < |Groups(ms)| && forall m :: m in ms ==> m.seqNo > 0
    ensures Groups(ms)[i].maxSeq in Seqs(Groups(ms)[i]) && AtMost(Seqs(Groups(ms)[i]), Groups(ms)[i].maxSeq)
    ensures forall s :: s in Seqs(Groups(ms)[i]) ==> exists r :: r in ms && r.seqNo == s
  {
    var r := GroupMaxMember(ms, i);
    SeqsOf(Groups(ms)[i], r);
    GroupMembers(ms, i);
  }

  lemma GroupsDisjoint(ms: seq<Row>, i: nat, j: nat)
    requires i < j < |Groups(ms)| && BySeq(ms)
    ensures Seqs(Groups(ms)[i]) !! Seqs(Groups(ms)[j])
  {
    GroupMembers(ms, i);
    GroupMembers(ms, j);
    KeysDistinct(ms);
    forall a, b | a in Groups(ms)[i].messages && b in Groups(ms)[j].messages ensures a.seqNo != b.seqNo {
      assert KeyOf(a) != KeyOf(b);
      var x :| 0 <= x < |ms| && ms[x] == a;
      var y :| 0 <= y < |ms| && ms[y] == b;
    }
  }

  lemma {:induction false} CursorReached(start: int, gs: seq<Group>)
    ensures CursorAfter(start, gs) == start || exists i :: 0 <= i < |gs| && gs[i].maxSeq == CursorAfter(start, gs)
  {
    if |gs| > 0 {
      var n := |gs| - 1;
      CursorReached(start, gs[..n]);
      if CursorAfter(start, gs) != gs[n].maxSeq && CursorAfter(start, gs) != start {
        var i :| 0 <= i < |gs[..n]| && gs[..n][i].maxSeq == CursorAfter(start, gs[..n]);
        assert gs[i].maxSeq == CursorAfter(start, gs);
      }
    }
  }

  lemma BatchCovered(ms: seq<Row>, m: Row)
    requires m in ms
    ensures m.seqNo in Covered(Groups(ms))
  {
    var i := OneGroup(ms, m);
    SeqsOf(Groups(ms)[i], m);
    CoveredHas(Groups(ms), i);
  }

  lemma CoveredIsBatch(ms: seq<Row>, s: int) returns (r: Row)
    requires s in Covered(Groups(ms))
    ensures r in ms && r.seqNo == s
  {
    var i := CoveredBy(Groups(ms), s);
    GroupMembers(ms, i);
    r :| r in Groups(ms)[i].messages && r.seqNo == s;
  }

  lemma BatchIsStretch(t: Table, me: int, start: int, maxPull: nat)
    requires Keyed(t)
    ensures Stretch(PendingKeys(t, me, false), start, Groups(Pending(t, me, start, maxPull, false)))
  {
    var foreign, ms := PendingKeys(t, me, false), Pending(t, me, start, maxPull, false);
    var gs := Groups(ms);
    PendingFacts(t, me, start, maxPull);
    forall s | s in Covered(gs) ensures s in foreign && s > start {
      var r := CoveredIsBatch(ms, s);
    }
    forall i | 0 <= i < |gs| ensures gs[i].maxSeq in Seqs(gs[i]) && AtMost(Seqs(gs[i]), gs[i].maxSeq) {
      GroupShape(ms, i);
    }
    forall i, j | 0 <= i < j < |gs| ensures Seqs(gs[i]) !! Seqs(gs[j]) {
      GroupsDisjoint(ms, i, j);
    }
    forall s | s in foreign && start < s <= CursorAfter(start, gs) ensures s in Covered(gs) {
      CursorReached(start, gs);
      var i :| 0 <= i < |gs| && gs[i].maxSeq == CursorAfter(start, gs);
      var r := GroupMaxMember(ms, i);
      assert t[s] in ms;
      BatchCovered(ms, t[s]);
    }
  }

  // ---------------------------------------------------------------- committing one more group

  lemma LeftForeign(foreign: set<int>, start: int, gs: seq<Group>, k: nat)
    requires k <= |gs| && Stretch(foreign, start, gs)
    ensures Covered(gs[k..]) <= foreign
  {
    CoveredSplit(gs, k);
    forall s | s in Covered(gs[k..]) ensures s in foreign { assert s in Covered(gs); }
  }

  lemma CommitMoves(foreign: set<int>, start: int, gs: seq<Group>, k: nat, mem: int)
    requires k < |gs| && Stretch(foreign, start, gs) && mem == CursorAfter(start, gs[..k])
    ensures Larger(mem, gs[k].maxSeq) == CursorAfter(start, gs[..k + 1])
    ensures gs[k].maxSeq in foreign
    ensures Covered(gs[k..]) == Seqs(gs[k]) + Covered(gs[k + 1..])
    ensures Seqs(gs[k]) !! Covered(gs[k + 1..])
    ensures Covered(gs[k..]) <= foreign && AtMost(Seqs(gs[k]), Larger(mem, gs[k].maxSeq))
  {
    CursorAfterTake(start, gs, k);
    CoveredTake(gs, k);
    LeftForeign(foreign, start, gs, k);
    CommittedApart(foreign, start, gs, k + 1);
  }

  /** Whatever the cursor newly passes is in the committed group or still to do. */
  lemma CommitPasses(foreign: set<int>, start: int, gs: seq<Group>, k: nat, mem: int, s: int)
    requires k < |gs| && Stretch(foreign, start, gs) && mem == CursorAfter(start, gs[..k])
    requires s in foreign && mem < s <= Larger(mem, gs[k].maxSeq)
    ensures s in Covered(gs[k..])
  {
    CursorAfterTake(start, gs, k);
    CursorGrows(start, gs, 0, k);
    CursorGrows(start, gs, k + 1, |gs|);
    assert gs[..|gs|] == gs;
    CoveredSplit(gs, k);
    CommittedBelow(start, gs, k);
  }

  lemma CommitAccounts(foreign: set<int>, start: int, gs: seq<Group>, k: nat, mem: int, done: set<int>,
                       skipped: set<int>)
    requires k < |gs| && Stretch(foreign, start, gs) && mem == CursorAfter(start, gs[..k])
    requires Accounted(foreign, mem, done, skipped, Covered(gs[k..]))
    ensures Accounted(foreign, Larger(mem, gs[k].maxSeq), done + Seqs(gs[k]), skipped, Covered(gs[k + 1..]))
  {
    var cursor := Larger(mem, gs[k].maxSeq);
    CommitMoves(foreign, start, gs, k, mem);
    forall s | s in foreign && s <= cursor
      ensures s in done + Seqs(gs[k]) || s in skipped || s in Covered(gs[k + 1..])
    {
      if s > mem { CommitPasses(foreign, start, gs, k, mem, s); }
    }
  }

  /** Stopping turns what is left below the cursor into skipped messages. */
  lemma AbandonAccounts(foreign: set<int>, mem: int, done: set<int>, skipped: set<int>, todo: set<int>)
    requires Accounted(foreign, mem, done, skipped, todo) && todo <= foreign
    ensures Accounted(foreign, mem, done, skipped + UpTo(todo, mem), {})
  {}

  lemma RestartAccounts(foreign: set<int>, mem: int, disk: int, done: set<int>, skipped: set<int>, todo: set<int>)
    requires Accounted(foreign, mem, done, skipped, todo) && todo <= foreign && disk <= mem
    ensures Accounted(foreign, disk, done, UpTo(skipped + todo, disk), {})
  {}

  lemma WorkCommits(foreign: set<int>, start: int, gs: seq<Group>, k: nat, mem: int, disk: int, done: set<int>)
    requires k < |gs| && WorkOk(foreign, start, gs, k, mem, disk, done)
    ensures var cursor := Larger(mem, gs[k].maxSeq);
            WorkOk(foreign, start, gs, k + 1, cursor, cursor, done + Seqs(gs[k]))
  {
    CursorAfterTake(start, gs, k);
    CoveredTake(gs, k);
  }

  lemma CoveredSnoc(gs: seq<Group>, g: Group)
    ensures Covered(gs + [g]) == Covered(gs) + Seqs(g)
  {
    assert (gs + [g])[..|gs|] == gs;
  }

  // ---------------------------------------------------------------- one step at a time

  lemma TodoForeign(c: Config, w: World)
    requires PhaseOk(c, w)
    ensures Todo(w.phase) <= Foreign(c, w.table)
  {
    if w.phase.Working? {
      LeftForeign(Foreign(c, w.table), w.phase.start, w.phase.gs, w.phase.next);
    }
  }

  /** Whatever the server does, its log stays well-formed and the mirror stays without a gap: new numbers
      lie above everything mirrored. */
  lemma ServerKeeps(log: map<int, Message>, top: int, t: Table, e: Event, log': map<int, Message>, top': int)
    requires LogOk(log) && Below(log, top) && Mirror(log, t) && 0 <= LastSeq(t) <= top
    requires ServerEvent(e) && ServerEnabled(log, top, e) && log' == LogAfter(log, e) && top' == TopAfter(top, e)
    ensures LogOk(log') && Below(log', top') && Mirror(log', t) && top <= top'
  {
    forall s | s in log' ensures s > 0 && log'[s].seqNo == s && s <= top' && (s <= LastSeq(t) ==> s in t) {
      assert s in log || s == top' > top;
    }
  }

  lemma ServerStepKeeps(c: Config, w: World, e: Event, w': World)
    requires Inv(c, w) && ServerEvent(e) && Enabled(w, e) && w' == Step(c, w, e)
    ensures Inv(c, w')
  {
    ServerKeeps(w.log, w.top, w.table, e, w'.log, w'.top);
    assert w' == w.(log := w'.log, top := w'.top);
    SameBooks(c, w, w');
  }

  lemma SameBooks(c: Config, w: World, w': World)
    requires w' == w.(log := w'.log, top := w'.top) && PhaseOk(c, w) && Books(c, w)
    ensures PhaseOk(c, w') && Books(c, w')
  {}

  /** New rows lie above the cursor; nothing changes at or below it. */
  lemma ForeignExtends(c: Config, t: Table, t': Table, mem: int)
    requires mem <= LastSeq(t)
    requires forall s :: s in t ==> s in t' && t'[s] == t[s]
    requires forall s :: s in t' && s !in t ==> s > LastSeq(t)
    ensures Foreign(c, t) <= Foreign(c, t')
    ensures forall s :: s in Foreign(c, t') && s <= mem ==> s in Foreign(c, t)
  {}

  lemma BatchBooks(foreign: set<int>, foreign': set<int>, mem: int, done: set<int>, skipped: set<int>)
    requires Accounted(foreign, mem, done, skipped, {})
    requires foreign <= foreign' && forall s :: s in foreign' && s <= mem ==> s in foreign
    ensures Accounted(foreign', mem, done, skipped, {})
  {}

  lemma BatchSaved(c: Config, w: World, batch: seq<Message>, t: Table)
    requires Inv(c, w) && w.phase.Syncing? && batch == Reply(w.log, LastSeq(w.table), c.limit)
    requires UpsertAll(w.table, c.me, batch) == Ok(t)
    ensures Mirror(w.log, t) && w.mem <= LastSeq(t) <= w.top
    ensures LastSeq(t) == if CursorSeq(batch) > 0 then CursorSeq(batch) else LastSeq(w.table)
    ensures Accounted(Foreign(c, t), w.mem, Covered(w.done), w.skipped, {})
  {
    BatchKeepsMirror(c.me, w.log, w.table, c.limit, batch, t);
    ForeignExtends(c, w.table, t, w.mem);
    BatchBooks(Foreign(c, w.table), Foreign(c, t), w.mem, Covered(w.done), w.skipped);
  }

  lemma Resumed(c: Config, w: World, t: Table, p: Phase, w': World)
    requires w' == w.(table := t, phase := p) && LogOk(w.log) && Below(w.log, w.top) && Mirror(w.log, t)
    requires 0 <= w.disk <= w.mem <= LastSeq(t) <= w.top
    requires AtMost(Covered(w.saved), w.disk)
    requires Accounted(Foreign(c, t), w.mem, Covered(w.done), w.skipped, {})
    requires p.Idle? || p.Synced? || p == Syncing(LastSeq(t))
    ensures Inv(c, w')
  {
    assert Todo(p) == {} && PhaseOk(c, w');
    assert Books(c, w');
  }

  lemma QuietKeeps(c: Config, w: World, e: Event)
    requires Inv(c, w) && Enabled(w, e) && (e.BeginPoll? || e.SyncFails? || e.QueryFails?)
    ensures Inv(c, Step(c, w, e))
  {
    Resumed(c, w, w.table, Step(c, w, e).phase, Step(c, w, e));
  }

  lemma BatchKeeps(c: Config, w: World, w': World)
    requires Inv(c, w) && w.phase.Syncing? && w' == AfterBatch(c, w)
    ensures Inv(c, w')
  {
    var batch := Reply(w.log, LastSeq(w.table), c.limit);
    var r := UpsertAll(w.table, c.me, batch);
    if r.Ok? {
      BatchSaved(c, w, batch, r.value);
      assert w' == w.(table := r.value, phase := w'.phase);
      Resumed(c, w, r.value, w'.phase, w');
    } else {
      assert w' == w.(phase := Idle);
      QuietKeeps(c, w, SyncFails);
    }
  }

  lemma NoneCommitted(gs: seq<Group>)
    ensures Covered(gs[..0]) == {} && gs[0..] == gs
    ensures forall start :: CursorAfter(start, gs[..0]) == start
  {
    assert gs[..0] == [];
  }

  lemma BeginAccounts(foreign: set<int>, mem: int, done: set<int>, skipped: set<int>, gs: seq<Group>)
    requires Accounted(foreign, mem, done, skipped, {}) && Stretch(foreign, mem, gs)
    ensures Accounted(foreign, mem, done, skipped, Covered(gs))
  {
    forall s | s in Covered(gs) ensures s !in skipped {}
  }

  lemma BatchBegins(c: Config, w: World, gs: seq<Group>)
    requires LogOk(w.log) && Below(w.log, w.top) && Mirror(w.log, w.table)
    requires 0 <= w.disk <= w.mem <= LastSeq(w.table) <= w.top
    requires AtMost(Covered(w.saved), w.disk) && Stretch(Foreign(c, w.table), w.mem, gs)
    requires Accounted(Foreign(c, w.table), w.mem, Covered(w.done), w.skipped, {})
    ensures Inv(c, w.(phase := Working(w.mem, gs, 0)))
  {
    NoneCommitted(gs);
    BeginAccounts(Foreign(c, w.table), w.mem, Covered(w.done), w.skipped, gs);
  }

  lemma TakeKeeps(c: Config, w: World, w': World)
    requires Inv(c, w) && w.phase.Synced? && w' == AfterTake(c, w)
    ensures Inv(c, w')
  {
    var batch := Pending(w.table, c.me, w.mem, c.maxPull, false);
    if batch == [] {
      assert w' == w.(phase := Idle);
      QuietKeeps(c, w, QueryFails);
    } else {
      BatchIsStretch(w.table, c.me, w.mem, c.maxPull);
      BatchBegins(c, w, Groups(batch));
    }
  }

  lemma CommitInRange(c: Config, w: World)
    requires PhaseOk(c, w) && Busy(w.phase) && w.mem <= LastSeq(w.table)
    ensures w.mem <= Larger(w.mem, w.phase.gs[w.phase.next].maxSeq) <= LastSeq(w.table)
  {
    var gs, k := w.phase.gs, w.phase.next;
    CommitMoves(Foreign(c, w.table), w.phase.start, gs, k, w.mem);
    AtMostLast(w.table, gs[k].maxSeq);
  }

  lemma DoneBooks(c: Config, w: World)
    requires PhaseOk(c, w) && Busy(w.phase) && Books(c, w)
    ensures Books(c, AfterDone(w))
  {
    var gs, k := w.phase.gs, w.phase.next;
    CoveredSnoc(w.done, gs[k]);
    CommitAccounts(Foreign(c, w.table), w.phase.start, gs, k, w.mem, Covered(w.done), w.skipped);
  }

  lemma DonePhase(c: Config, w: World)
    requires PhaseOk(c, w) && Busy(w.phase)
    ensures PhaseOk(c, AfterDone(w))
  {
    CoveredSnoc(w.done, w.phase.gs[w.phase.next]);
    WorkCommits(Foreign(c, w.table), w.phase.start, w.phase.gs, w.phase.next, w.mem, w.disk, Covered(w.done));
  }

  lemma DoneSaved(c: Config, w: World)
    requires PhaseOk(c, w) && Busy(w.phase) && w.disk <= w.mem && AtMost(Covered(w.saved), w.disk)
    ensures AtMost(Covered(AfterDone(w).saved), AfterDone(w).disk)
  {
    var gs, k := w.phase.gs, w.phase.next;
    CoveredSnoc(w.saved, gs[k]);
    CommitMoves(Foreign(c, w.table), w.phase.start, gs, k, w.mem);
  }

  lemma DoneKeeps(c: Config, w: World)
    requires Inv(c, w) && Busy(w.phase)
    ensures Inv(c, AfterDone(w))
  {
    CommitInRange(c, w);
    DonePhase(c, w);
    DoneSaved(c, w);
    DoneBooks(c, w);
  }

  lemma NotSavedBooks(c: Config, w: World)
    requires PhaseOk(c, w) && Busy(w.phase) && Books(c, w)
    ensures Books(c, AfterNotSaved(w))
  {
    var foreign, gs, k := Foreign(c, w.table), w.phase.gs, w.phase.next;
    CoveredSnoc(w.done, gs[k]);
    CommitAccounts(foreign, w.phase.start, gs, k, w.mem, Covered(w.done), w.skipped);
    LeftForeign(foreign, w.phase.start, gs, k + 1);
    AbandonAccounts(foreign, Larger(w.mem, gs[k].maxSeq), Covered(w.done) + Seqs(gs[k]), w.skipped,
                    Covered(gs[k + 1..]));
  }

  lemma NotSavedKeeps(c: Config, w: World)
    requires Inv(c, w) && Busy(w.phase)
    ensures Inv(c, AfterNotSaved(w))
  {
    CommitInRange(c, w);
    NotSavedBooks(c, w);
  }

  lemma FailsKeeps(c: Config, w: World)
    requires Inv(c, w) && Busy(w.phase)
    ensures Inv(c, AfterFails(w))
  {
    TodoForeign(c, w);
    AbandonAccounts(Foreign(c, w.table), w.mem, Covered(w.done), w.skipped, Todo(w.phase));
  }

  lemma RestartKeeps(c: Config, w: World)
    requires Inv(c, w)
    ensures Inv(c, AfterRestart(w))
  {
    TodoForeign(c, w);
    RestartAccounts(Foreign(c, w.table), w.mem, w.disk, Covered(w.done), w.skipped, Todo(w.phase));
  }

  lemma FinishKeeps(c: Config, w: World, w': World)
    requires Inv(c, w) && Enabled(w, FinishPoll) && w' == w.(phase := Idle)
    ensures Inv(c, w')
  {
    NothingTodo(w.phase);
    assert w' == w.(table := w.table, phase := Idle);
    Resumed(c, w, w.table, Idle, w');
  }

  lemma NothingTodo(p: Phase)
    requires p.Working? && p.next == |p.gs|
    ensures Todo(p) == {}
  {
    assert p.gs[p.next..] == [];
  }

  lemma StepKeeps(c: Config, w: World, e: Event)
    requires Inv(c, w) && Enabled(w, e)
    ensures Inv(c, Step(c, w, e))
  {
    match e
    case Append(_) | Recall(_, _) | Delete(_, _) | Purge(_) => ServerStepKeeps(c, w, e, Step(c, w, e));
    case SyncBatch => BatchKeeps(c, w, AfterBatch(c, w));
    case TakePending => TakeKeeps(c, w, AfterTake(c, w));
    case GroupDone => DoneKeeps(c, w);
    case GroupNotSaved => NotSavedKeeps(c, w);
    case GroupFails => FailsKeeps(c, w);
    case FinishPoll => FinishKeeps(c, w, w.(phase := Idle));
    case Restart => RestartKeeps(c, w);
    case _ => QuietKeeps(c, w, e);
  }

  lemma InitOk(c: Config)
    ensures Inv(c, INIT)
  {}

  /** The invariant holds after every run. */
  lemma {:induction false} RunKeeps(c: Config, w: World, es: seq<Event>)
    requires Inv(c, w) && Run(c, w, es).Some?
    ensures Inv(c, Run(c, w, es).value)
  {
    if |es| > 0 {
      RunKeeps(c, w, es[..|es| - 1]);
      StepKeeps(c, Run(c, w, es[..|es| - 1]).value, es[|es| - 1]);
    }
  }

  // ---------------------------------------------------------------- runs put together

  lemma RunStep(c: Config, w: World, es: seq<Event>, w1: World, e: Event, w2: World)
    requires Run(c, w, es) == Some(w1) && Enabled(w1, e) && w2 == Step(c, w1, e)
    ensures Run(c, w, es + [e]) == Some(w2)
  {
    assert (es + [e])[..|es|] == es;
  }

  lemma SnocSplit(es: seq<Event>, fs: seq<Event>)
    requires |fs| > 0
    ensures |es + fs| > 0 && (es + fs)[|es + fs| - 1] == fs[|fs| - 1]
    ensures (es + fs)[..|es + fs| - 1] == es + fs[..|fs| - 1]
  {}

  lemma {:induction false} RunSplit(c: Config, w: World, es: seq<Event>, fs: seq<Event>)
    ensures Run(c, w, es + fs) ==
            match Run(c, w, es) case None => None case Some(w') => Run(c, w', fs)
  {
    if |fs| == 0 {
      assert es + fs == es;
    } else {
      var n := |fs| - 1;
      RunSplit(c, w, es, fs[..n]);
      SnocSplit(es, fs);
    }
  }
}
