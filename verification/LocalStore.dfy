/** The local mirror: one table of messages keyed by server sequence number. */
module LocalStore {
  import opened Wrappers
  import opened Ordered

  /** The recipient a server message names; a missing one reads as user 0, group 0. */
  datatype Target = NoTarget | ToUser(uid: int) | ToGroup(groupId: int) {
    function Uid(): int { if ToUser? then uid else 0 }
    function GroupId(): int { if ToGroup? then groupId else 0 }
  }

  /** A structured body; one whose strings are not valid UTF-8 cannot be marshalled. */
  datatype Body = Body(bytes: seq<int>, marshals: bool)

  datatype Message = Message(seqNo: int, msgId: string, fromUid: int, target: Target,
                             msgType: int, sendTime: int, status: int, body: Body)

  datatype Row = Row(seqNo: int, msgId: string, fromUid: int, toUid: int, groupId: int, peerUid: int,
                     msgType: int, sendTime: int, status: int, body: seq<int>)

  type Table = map<int, Row>

  datatype StoreError = BeginFailed | MarshalFailed | InsertFailed | CommitFailed

  /** The conversation partner of a direct message, seen from account me; 0 for a group message. */
  function PeerUid(me: int, m: Message): int {
    if m.target.GroupId() != 0 then 0
    else if m.fromUid == me then m.target.Uid()
    else m.fromUid
  }

  function RowOf(me: int, m: Message): Row {
    Row(m.seqNo, m.msgId, m.fromUid, m.target.Uid(), m.target.GroupId(), PeerUid(me, m),
        m.msgType, m.sendTime, m.status, m.body.bytes)
  }

  /** What can be told of a message from its row. */
  function MessageOf(r: Row): Message {
    var target := if r.groupId != 0 then ToGroup(r.groupId) else ToUser(r.toUid);
    Message(r.seqNo, r.msgId, r.fromUid, target, r.msgType, r.sendTime, r.status, Body(r.body, true))
  }

  /** A row loses nothing of a message, except that no recipient and group 0 both read as user 0. */
  lemma RowReadsBack(me: int, m: Message)
    requires m.body.marshals
    ensures (m.target.ToUser? || m.target.GroupId() != 0) ==> MessageOf(RowOf(me, m)) == m
    ensures !m.target.ToUser? && m.target.GroupId() == 0 ==> MessageOf(RowOf(me, m)) == m.(target := ToUser(0))
    ensures RowOf(me, m).peerUid ==
            match m.target
            case ToGroup(g) => if g != 0 then 0 else if m.fromUid == me then 0 else m.fromUid
            case ToUser(u) => if m.fromUid == me then u else m.fromUid
            case NoTarget => if m.fromUid == me then 0 else m.fromUid
  {}

  /** msg_id is UNIQUE, while the upsert only resolves conflicts on seq. */
  predicate Conflicts(t: Table, seqNo: int, msgId: string) {
    exists s :: s in t && s != seqNo && t[s].msgId == msgId
  }

  function Upsert(t: Table, me: int, m: Message): Result<Table, StoreError> {
    if !m.body.marshals then Err(MarshalFailed)
    else if Conflicts(t, m.seqNo, m.msgId) then Err(InsertFailed)
    else Ok(t[m.seqNo := RowOf(me, m)])
  }

  function UpsertAll(t: Table, me: int, ms: seq<Message>): Result<Table, StoreError> {
    if ms == [] then Ok(t)
    else match UpsertAll(t, me, ms[..|ms| - 1])
      case Err(e) => Err(e)
      case Ok(t') => Upsert(t', me, ms[|ms| - 1])
  }

  function LastSeq(t: Table): int {
    if t.Keys == {} then 0 else Max(t.Keys)
  }

  function Max(s: set<int>): (m: int)
    requires s != {}
    ensures m in s && forall x :: x in s ==> x <= m
  {
    var r := Sorted(s);
    assert r[|r| - 1] in r;
    assert forall x :: x in s ==> x in r;
    r[|r| - 1]
  }

  /** SELECT ... WHERE seq IN keys AND seq > after ORDER BY seq LIMIT limit; a negative limit is
      no limit. */
  function Select(t: Table, keys: set<int>, after: int, limit: int): (r: seq<Row>)
    requires keys <= t.Keys
  {
    var chosen := Chosen(keys, after, limit);
    seq(|chosen|, i requires 0 <= i < |chosen| => assert chosen[i] in chosen; t[chosen[i]])
  }

  function Chosen(keys: set<int>, after: int, limit: int): seq<int> {
    Lowest(keys, after, if limit < 0 then |Above(keys, after)| else limit)
  }

  function UserKeys(t: Table, peerUid: int): set<int> {
    set k | k in t && t[k].peerUid == peerUid && t[k].groupId == 0
  }

  function GroupKeys(t: Table, groupId: int): set<int> {
    set k | k in t && t[k].groupId == groupId
  }

  function PendingKeys(t: Table, me: int, includeSelf: bool): set<int> {
    set k | k in t && (includeSelf || t[k].fromUid != me)
  }

  function HistoryWithUser(t: Table, peerUid: int, after: int, limit: int): seq<Row> {
    Select(t, UserKeys(t, peerUid), after, limit)
  }

  function HistoryWithGroup(t: Table, groupId: int, after: int, limit: int): seq<Row> {
    Select(t, GroupKeys(t, groupId), after, limit)
  }

  function Pending(t: Table, me: int, after: int, limit: int, includeSelf: bool): seq<Row> {
    Select(t, PendingKeys(t, me, includeSelf), after, limit)
  }

  class Store {
    var rows: Table

    constructor ()
      ensures rows == map[]
    {
      rows := map[];
    }

    /** One transaction: either every message of the batch is in the table or none is. */
    method SaveMessages(me: int, messages: seq<Message>, beginOk: bool, commitOk: bool)
      returns (r: Result<nat, StoreError>)
      modifies this
      ensures messages == [] ==> r == Ok(0) && rows == old(rows)
      ensures messages != [] && beginOk ==>
                match UpsertAll(old(rows), me, messages)
                case Err(e) => r == Err(e) && rows == old(rows)
                case Ok(t) =>
                  if commitOk then r == Ok(|messages|) && rows == t
                  else r == Err(CommitFailed) && rows == old(rows)
      ensures messages != [] && !beginOk ==> r == Err(BeginFailed) && rows == old(rows)
    {
      if |messages| == 0 {
        return Ok(0);
      }
      if !beginOk {
        return Err(BeginFailed);
      }
      var tx := rows;
      for i := 0 to |messages|
        invariant rows == old(rows)
        invariant UpsertAll(rows, me, messages[..i]) == Ok(tx)
      {
        var m := messages[i];
        UpsertTake(rows, me, messages, i);
        if !m.body.marshals {
          UpsertStuck(rows, me, messages, i + 1);
          return Err(MarshalFailed);
        }
        if Conflicts(tx, m.seqNo, m.msgId) {
          UpsertStuck(rows, me, messages, i + 1);
          return Err(InsertFailed);
        }
        tx := tx[m.seqNo := RowOf(me, m)];
      }
      assert messages[..|messages|] == messages;
      if !commitOk {
        return Err(CommitFailed);
      }
      rows := tx;
      return Ok(|messages|);
    }

    function LastSyncedSeq(): int
      reads this
    {
      LastSeq(rows)
    }
  }

  lemma UpsertTake(t: Table, me: int, ms: seq<Message>, i: nat)
    requires i < |ms|
    ensures UpsertAll(t, me, ms[..i + 1]) ==
            match UpsertAll(t, me, ms[..i]) case Err(e) => Err(e) case Ok(t') => Upsert(t', me, ms[i])
  {
    assert ms[..i + 1][..i] == ms[..i];
  }

  /** A failure in a prefix of the batch is the failure of the batch. */
  lemma {:induction false} UpsertStuck(t: Table, me: int, ms: seq<Message>, i: nat)
    requires i <= |ms| && UpsertAll(t, me, ms[..i]).Err?
    ensures UpsertAll(t, me, ms) == UpsertAll(t, me, ms[..i])
    decreases |ms| - i
  {
    if i == |ms| {
      assert ms[..i] == ms;
    } else {
      UpsertTake(t, me, ms, i);
      UpsertStuck(t, me, ms, i + 1);
    }
  }

  /** A batch that is not stored fails on the first message at fault: its body does not marshal, or by then
      another number has its msg_id. */
  lemma {:induction false} FirstFault(t: Table, me: int, ms: seq<Message>) returns (i: nat, t': Table)
    requires UpsertAll(t, me, ms).Err?
    ensures i < |ms| && UpsertAll(t, me, ms[..i]) == Ok(t')
    ensures UpsertAll(t, me, ms).error == if ms[i].body.marshals then InsertFailed else MarshalFailed
    ensures ms[i].body.marshals ==> exists s :: s in t' && s != ms[i].seqNo && t'[s].msgId == ms[i].msgId
  {
    var n := |ms| - 1;
    if UpsertAll(t, me, ms[..n]).Err? {
      i, t' := FirstFault(t, me, ms[..n]);
      assert ms[..n][..i] == ms[..i];
    } else {
      i, t' := n, UpsertAll(t, me, ms[..n]).value;
    }
  }

  predicate LastUnder(ms: seq<Message>, i: nat) {
    i < |ms| && forall j :: i < j < |ms| ==> ms[j].seqNo != ms[i].seqNo
  }

  predicate Unwritten(ms: seq<Message>, s: int) {
    forall i :: 0 <= i < |ms| ==> ms[i].seqNo != s
  }

  /** Each number has the row of the last message under it, or the row it had. */
  ghost predicate Wrote(t: Table, me: int, ms: seq<Message>, t': Table) {
    && (forall i: nat :: LastUnder(ms, i) ==> ms[i].seqNo in t' && t'[ms[i].seqNo] == RowOf(me, ms[i]))
    && (forall s :: Unwritten(ms, s) ==> (s in t' <==> s in t) && (s in t ==> t'[s] == t[s]))
  }

  lemma UnwrittenSnoc(ms: seq<Message>, n: nat, s: int)
    requires |ms| == n + 1
    ensures Unwritten(ms, s) <==> Unwritten(ms[..n], s) && ms[n].seqNo != s
  {
    assert forall i :: 0 <= i < n ==> ms[..n][i] == ms[i];
  }

  /** A message saved again replaces its row. */
  lemma {:induction false} LastIsWritten(t: Table, me: int, ms: seq<Message>, t': Table)
    requires UpsertAll(t, me, ms) == Ok(t')
    ensures Wrote(t, me, ms, t')
  {
    if ms != [] {
      var n := |ms| - 1;
      var mid := UpsertAll(t, me, ms[..n]).value;
      LastIsWritten(t, me, ms[..n], mid);
      WroteOneMore(t, me, ms, n, mid, t');
    }
  }

  lemma WroteOneMore(t: Table, me: int, ms: seq<Message>, n: nat, mid: Table, t': Table)
    requires |ms| == n + 1 && Wrote(t, me, ms[..n], mid) && t' == mid[ms[n].seqNo := RowOf(me, ms[n])]
    ensures Wrote(t, me, ms, t')
  {
    forall s | Unwritten(ms, s) ensures (s in t' <==> s in t) && (s in t ==> t'[s] == t[s]) {
      UnwrittenSnoc(ms, n, s);
    }
    forall i: nat | LastUnder(ms, i) ensures ms[i].seqNo in t' && t'[ms[i].seqNo] == RowOf(me, ms[i]) {
      if i < n {
        assert ms[i].seqNo != ms[n].seqNo;
        assert LastUnder(ms[..n], i);
      }
    }
  }

  // ---------------------------------------------------------------- when a batch is stored

  /** Messages under numbers of their own that the table does not have yet. */
  predicate Fresh(t: Table, ms: seq<Message>) {
    && (forall i :: 0 <= i < |ms| ==> ms[i].seqNo !in t)
    && (forall i, j :: 0 <= i < j < |ms| ==> ms[i].seqNo != ms[j].seqNo)
  }

  /** Every body marshals, and every msg_id is new to the table and to the batch. */
  predicate Acceptable(t: Table, ms: seq<Message>) {
    && (forall i :: 0 <= i < |ms| ==> ms[i].body.marshals)
    && (forall i, s :: 0 <= i < |ms| && s in t ==> t[s].msgId != ms[i].msgId)
    && (forall i, j :: 0 <= i < j < |ms| ==> ms[i].msgId != ms[j].msgId)
  }

  predicate Added(t: Table, me: int, ms: seq<Message>, t': Table) {
    && (forall s :: s in t ==> s in t' && t'[s] == t[s])
    && (forall i :: 0 <= i < |ms| ==> ms[i].seqNo in t' && t'[ms[i].seqNo] == RowOf(me, ms[i]))
    && (forall s :: s in t' ==> s in t || exists i :: 0 <= i < |ms| && ms[i].seqNo == s)
  }

  lemma AddOne(t: Table, me: int, ms: seq<Message>, n: nat, t1: Table, t2: Table)
    requires |ms| == n + 1 && Fresh(t, ms) && Added(t, me, ms[..n], t1) && t2 == t1[ms[n].seqNo := RowOf(me, ms[n])]
    ensures Added(t, me, ms, t2)
  {
    forall s | s in t2 ensures s in t || exists i :: 0 <= i < |ms| && ms[i].seqNo == s {
      if s == ms[n].seqNo {
      } else if s !in t {
        var i :| 0 <= i < |ms[..n]| && ms[..n][i].seqNo == s;
        assert ms[i].seqNo == s;
      }
    }
    forall i | 0 <= i < |ms| ensures ms[i].seqNo in t2 && t2[ms[i].seqNo] == RowOf(me, ms[i]) {
      if i < n { assert ms[..n][i] == ms[i]; }
    }
  }

  lemma {:induction false} Stored(t: Table, me: int, ms: seq<Message>)
    requires Fresh(t, ms) && UpsertAll(t, me, ms).Ok?
    ensures Added(t, me, ms, UpsertAll(t, me, ms).value)
  {
    if ms != [] {
      var n := |ms| - 1;
      assert Fresh(t, ms[..n]);
      Stored(t, me, ms[..n]);
      AddOne(t, me, ms, n, UpsertAll(t, me, ms[..n]).value, UpsertAll(t, me, ms).value);
    }
  }

  /** With the rest of the batch stored, the last message conflicts exactly with an id already there. */
  lemma ConflictIff(t: Table, me: int, ms: seq<Message>, n: nat, t1: Table)
    requires |ms| == n + 1 && Fresh(t, ms) && Added(t, me, ms[..n], t1)
    ensures Conflicts(t1, ms[n].seqNo, ms[n].msgId) <==>
              (exists s :: s in t && t[s].msgId == ms[n].msgId) || exists i :: 0 <= i < n && ms[i].msgId == ms[n].msgId
  {
    if Conflicts(t1, ms[n].seqNo, ms[n].msgId) {
      var s :| s in t1 && s != ms[n].seqNo && t1[s].msgId == ms[n].msgId;
      if s !in t {
        var i :| 0 <= i < |ms[..n]| && ms[..n][i].seqNo == s;
        assert ms[i].msgId == ms[n].msgId;
      }
    }
    if i :| 0 <= i < n && ms[i].msgId == ms[n].msgId {
      assert ms[..n][i] == ms[i];
      assert t1[ms[i].seqNo].msgId == ms[n].msgId;
    }
    if s :| s in t && t[s].msgId == ms[n].msgId {
      assert t1[s].msgId == ms[n].msgId;
    }
  }

  lemma AcceptableTake(t: Table, ms: seq<Message>, n: nat)
    requires |ms| == n + 1
    ensures Acceptable(t, ms) <==>
              && Acceptable(t, ms[..n]) && ms[n].body.marshals
              && !(exists s :: s in t && t[s].msgId == ms[n].msgId)
              && !(exists i :: 0 <= i < n && ms[i].msgId == ms[n].msgId)
  {
    assert forall i :: 0 <= i < n ==> ms[..n][i] == ms[i];
  }

  /** A batch of new numbers is stored if and only if every body marshals and no msg_id is taken. */
  lemma {:induction false} StoredIff(t: Table, me: int, ms: seq<Message>)
    requires Fresh(t, ms)
    ensures UpsertAll(t, me, ms).Ok? <==> Acceptable(t, ms)
  {
    if ms != [] {
      var n := |ms| - 1;
      assert Fresh(t, ms[..n]);
      StoredIff(t, me, ms[..n]);
      AcceptableTake(t, ms, n);
      if UpsertAll(t, me, ms[..n]).Ok? {
        Stored(t, me, ms[..n]);
        ConflictIff(t, me, ms, n, UpsertAll(t, me, ms[..n]).value);
      }
    }
  }
}
