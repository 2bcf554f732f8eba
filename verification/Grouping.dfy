/** One pending batch split by conversation partner. */
module Grouping {
  import opened Wrappers
  import opened LocalStore
  import Decimal

  datatype PeerTarget = PeerTarget(isGroup: bool, uid: int, groupId: int)

  datatype Group = Group(peerKey: string, target: PeerTarget, messages: seq<Row>, maxSeq: int)

  function PeerKeyForUser(uid: int): string { "u:" + Decimal.Format(uid) }

  function PeerKeyForGroup(groupId: int): string { "g:" + Decimal.Format(groupId) }

  function TargetOf(m: Row): PeerTarget {
    if m.groupId != 0 then PeerTarget(true, 0, m.groupId) else PeerTarget(false, m.fromUid, 0)
  }

  function KeyOf(m: Row): string {
    if m.groupId != 0 then PeerKeyForGroup(m.groupId) else PeerKeyForUser(m.fromUid)
  }

  // ---------------------------------------------------------------- the simple form

  /** The keys in order of first occurrence. */
  function Keys(ms: seq<Row>): seq<string> {
    if ms == [] then [] else
      var ks, k := Keys(ms[..|ms| - 1]), KeyOf(ms[|ms| - 1]);
      if k in ks then ks else ks + [k]
  }

  function Filter(ms: seq<Row>, key: string): seq<Row> {
    if ms == [] then [] else
      var m := ms[|ms| - 1];
      Filter(ms[..|ms| - 1], key) + if KeyOf(m) == key then [m] else []
  }

  function MaxSeq(ms: seq<Row>): int {
    if ms == [] then 0 else
      var rest := MaxSeq(ms[..|ms| - 1]);
      if ms[|ms| - 1].seqNo > rest then ms[|ms| - 1].seqNo else rest
  }

  function GroupFor(ms: seq<Row>, key: string): Group
    requires key in Keys(ms)
  {
    var f := Filter(ms, key);
    KeyHasMessage(ms, key);
    Group(key, TargetOf(f[0]), f, MaxSeq(f))
  }

  /** One group per distinct key, each the batch filtered by that key. */
  function Groups(ms: seq<Row>): seq<Group> {
    var ks := Keys(ms);
    seq(|ks|, i requires 0 <= i < |ks| => GroupFor(ms, ks[i]))
  }

  // ---------------------------------------------------------------- the source's loop

  /** A reply sent to the target gets to where the message came from. */
  predicate Answers(target: PeerTarget, m: Row) {
    && (target.isGroup <==> m.groupId != 0)
    && (m.groupId != 0 ==> target.groupId == m.groupId)
    && (m.groupId == 0 ==> target.uid == m.fromUid)
  }

  /** A group is answered where its messages came from: in the group, or to the sender. */
  method GroupByPeer(msgs: seq<Row>) returns (out: seq<Group>)
    ensures out == Groups(msgs)
    ensures forall i, m :: 0 <= i < |out| && m in out[i].messages ==> Answers(out[i].target, m)
  {
    var order: seq<string> := [];
    var byKey: map<string, Group> := map[];
    for i := 0 to |msgs|
      invariant order == Keys(msgs[..i]) && byKey == GroupMap(msgs[..i])
    {
      var m := msgs[i];
      var key, target;
      if m.groupId != 0 {
        key := PeerKeyForGroup(m.groupId);
        target := PeerTarget(true, 0, m.groupId);
      } else {
        key := PeerKeyForUser(m.fromUid);
        target := PeerTarget(false, m.fromUid, 0);
      }
      assert key == KeyOf(m) && target == TargetOf(m);
      var g;
      if key in byKey {
        g := byKey[key];
      } else {
        g := Group(key, target, [], 0);
        order := order + [key];
      }
      g := g.(messages := g.messages + [m]);
      if m.seqNo > g.maxSeq {
        g := g.(maxSeq := m.seqNo);
      }
      byKey := byKey[key := g];
      GroupMapTake(msgs, i, key, target, g);
    }
    TakeNext(msgs, |msgs|);
    out := InOrder(order, byKey, msgs);
    GroupsAnswer(msgs, out);
  }

  lemma GroupAnswers(ms: seq<Row>, i: nat, m: Row)
    requires i < |Groups(ms)| && m in Groups(ms)[i].messages
    ensures Answers(Groups(ms)[i].target, m)
  {
    var k := Keys(ms)[i];
    assert k in Keys(ms) && Groups(ms)[i] == GroupFor(ms, k);
    KeyHasMessage(ms, k);
    AllHaveKey(ms, k);
    SameKeySameTarget(Filter(ms, k)[0], m);
  }

  lemma GroupsAnswer(ms: seq<Row>, out: seq<Group>)
    requires out == Groups(ms)
    ensures forall i, m :: 0 <= i < |out| && m in out[i].messages ==> Answers(out[i].target, m)
  {
    forall i, m | 0 <= i < |out| && m in out[i].messages ensures Answers(out[i].target, m) {
      GroupAnswers(ms, i, m);
    }
  }

  /** The target as it is sent. */
  function ConversationTarget(t: PeerTarget): Target {
    if t.isGroup then ToGroup(t.groupId) else ToUser(t.uid)
  }

  method InOrder(order: seq<string>, byKey: map<string, Group>, ghost msgs: seq<Row>) returns (out: seq<Group>)
    requires order == Keys(msgs) && byKey == GroupMap(msgs)
    ensures out == Groups(msgs)
  {
    out := [];
    for i := 0 to |order|
      invariant out == Groups(msgs)[..i]
    {
      assert order[i] in order;
      TakeNext(Groups(msgs), i);
      out := out + [byKey[order[i]]];
    }
    TakeNext(Groups(msgs), |order|);
  }

  lemma TakeNext<T>(s: seq<T>, i: nat)
    requires i <= |s|
    ensures i < |s| ==> s[..i + 1] == s[..i] + [s[i]]
    ensures i == |s| ==> s[..i] == s
  {}

  function GroupMap(ms: seq<Row>): map<string, Group> {
    map k | k in Keys(ms) :: GroupFor(ms, k)
  }

  /** The group of the new message, as the loop body updates it, is the group of the longer batch. */
  lemma GroupMapTake(ms: seq<Row>, i: nat, key: string, target: PeerTarget, g: Group)
    requires i < |ms| && key == KeyOf(ms[i]) && target == TargetOf(ms[i])
    requires g == Added(if key in GroupMap(ms[..i]) then GroupMap(ms[..i])[key] else Group(key, target, [], 0), ms[i])
    ensures Keys(ms[..i + 1]) == Keys(ms[..i]) + (if key in GroupMap(ms[..i]) then [] else [key])
    ensures GroupMap(ms[..i + 1]) == GroupMap(ms[..i])[key := g]
  {
    var a, b := ms[..i], ms[..i + 1];
    KeysTake(ms, i);
    GroupTake(ms, i, key);
    forall k | k in Keys(b) && k != key ensures k in Keys(a) && GroupFor(b, k) == GroupFor(a, k) {
      OtherGroups(ms, i, k);
    }
    GroupMapExtend(a, b, key, g);
  }

  lemma GroupMapExtend(a: seq<Row>, b: seq<Row>, key: string, g: Group)
    requires key in Keys(b) && GroupFor(b, key) == g
    requires forall k :: k in Keys(a) ==> k in Keys(b)
    requires forall k :: k in Keys(b) && k != key ==> k in Keys(a) && GroupFor(b, k) == GroupFor(a, k)
    ensures GroupMap(b) == GroupMap(a)[key := g]
  {
    var p, q := GroupMap(b), GroupMap(a)[key := g];
    forall k | k in p ensures k in q && p[k] == q[k] {
      assert k in Keys(b);
    }
    forall k | k in q ensures k in p {
      if k != key { assert k in Keys(a); }
    }
  }

  lemma KeysTake(ms: seq<Row>, i: nat)
    requires i < |ms|
    ensures Keys(ms[..i + 1]) == Keys(ms[..i]) + (if KeyOf(ms[i]) in Keys(ms[..i]) then [] else [KeyOf(ms[i])])
  {
    assert ms[..i + 1][..i] == ms[..i];
  }

  function Added(g: Group, m: Row): Group {
    Group(g.peerKey, g.target, g.messages + [m], if m.seqNo > g.maxSeq then m.seqNo else g.maxSeq)
  }

  lemma OtherGroups(ms: seq<Row>, i: nat, k: string)
    requires i < |ms| && k in Keys(ms[..i + 1]) && k != KeyOf(ms[i])
    ensures k in Keys(ms[..i]) && GroupFor(ms[..i + 1], k) == GroupFor(ms[..i], k)
  {
    KeysTake(ms, i);
    InEither(Keys(ms[..i]), if KeyOf(ms[i]) in Keys(ms[..i]) then [] else [KeyOf(ms[i])], k);
    assert ms[..i + 1][..i] == ms[..i];
    var f := Filter(ms[..i], k);
    assert f + [] == f;
    assert Filter(ms[..i + 1], k) == f;
  }

  lemma InEither<T>(a: seq<T>, b: seq<T>, x: T)
    ensures x in a + b <==> x in a || x in b
  {}

  lemma HeadTarget(a: seq<Row>, m: Row, k: string)
    requires k == KeyOf(m) && k in Keys(a)
    ensures Filter(a, k) != [] && TargetOf(Filter(a, k)[0]) == TargetOf(m)
  {
    AllHaveKey(a, k);
    KeyHasMessage(a, k);
    SameKeySameTarget(Filter(a, k)[0], m);
  }

  lemma FilterTake(ms: seq<Row>, i: nat, k: string)
    requires i < |ms| && k == KeyOf(ms[i])
    ensures k in Keys(ms[..i + 1])
    ensures Filter(ms[..i + 1], k) == Filter(ms[..i], k) + [ms[i]]
    ensures MaxSeq(Filter(ms[..i + 1], k)) ==
            Added(Group(k, TargetOf(ms[i]), [], MaxSeq(Filter(ms[..i], k))), ms[i]).maxSeq
  {
    assert ms[..i + 1][..i] == ms[..i];
    var f := Filter(ms[..i], k);
    assert (f + [ms[i]])[..|f|] == f;
  }

  lemma GroupTake(ms: seq<Row>, i: nat, k: string)
    requires i < |ms| && k == KeyOf(ms[i])
    ensures var a, b := ms[..i], ms[..i + 1];
            k in Keys(b) && GroupFor(b, k) ==
              Added(if k in Keys(a) then GroupFor(a, k) else Group(k, TargetOf(ms[i]), [], 0), ms[i])
  {
    FilterTake(ms, i, k);
    if k in Keys(ms[..i]) {
      HeadTarget(ms[..i], ms[i], k);
    } else {
      NoKeyNoMessage(ms[..i], k);
    }
  }

  // ---------------------------------------------------------------- keys and targets

  lemma KeysInjective(a: int, b: int)
    ensures PeerKeyForUser(a) == PeerKeyForUser(b) ==> a == b
    ensures PeerKeyForGroup(a) == PeerKeyForGroup(b) ==> a == b
    ensures PeerKeyForUser(a) != PeerKeyForGroup(b)
  {
    Decimal.ParseFormat(a);
    Decimal.ParseFormat(b);
    var u, v, x, y := PeerKeyForUser(a), PeerKeyForUser(b), PeerKeyForGroup(a), PeerKeyForGroup(b);
    assert u[2..] == x[2..] == Decimal.Format(a) && v[2..] == y[2..] == Decimal.Format(b);
    assert u[0] == 'u' && y[0] == 'g';
  }

  /** The reply target of a group is determined by its key, and the key by the target. */
  lemma SameKeySameTarget(m: Row, n: Row)
    ensures KeyOf(m) == KeyOf(n) <==> TargetOf(m) == TargetOf(n)
  {
    KeysInjective(m.groupId, n.groupId);
    KeysInjective(m.fromUid, n.fromUid);
    KeysInjective(m.fromUid, n.groupId);
    KeysInjective(n.fromUid, m.groupId);
  }

  // ---------------------------------------------------------------- what the groups are

  lemma {:induction false} KeyHasMessage(ms: seq<Row>, key: string)
    requires key in Keys(ms)
    ensures Filter(ms, key) != []
  {
    if KeyOf(ms[|ms| - 1]) != key {
      KeyHasMessage(ms[..|ms| - 1], key);
    }
  }

  lemma {:induction false} NoKeyNoMessage(ms: seq<Row>, key: string)
    requires key !in Keys(ms)
    ensures Filter(ms, key) == []
  {
    if ms != [] {
      NoKeyNoMessage(ms[..|ms| - 1], key);
    }
  }

  lemma {:induction false} AllHaveKey(ms: seq<Row>, key: string)
    ensures forall i :: 0 <= i < |Filter(ms, key)| ==> KeyOf(Filter(ms, key)[i]) == key && Filter(ms, key)[i] in ms
  {
    if ms != [] {
      AllHaveKey(ms[..|ms| - 1], key);
    }
  }

  lemma {:induction false} KeysDistinct(ms: seq<Row>)
    ensures forall i, j :: 0 <= i < j < |Keys(ms)| ==> Keys(ms)[i] != Keys(ms)[j]
  {
    if ms != [] {
      KeysDistinct(ms[..|ms| - 1]);
    }
  }

  /** Every message of the batch is in the group of its own key. */
  lemma {:induction false} InOwnGroup(ms: seq<Row>, m: Row)
    requires m in ms
    ensures KeyOf(m) in Keys(ms) && m in Filter(ms, KeyOf(m))
  {
    var last := |ms| - 1;
    if m != ms[last] {
      assert ms == ms[..last] + [ms[last]];
      InOwnGroup(ms[..last], m);
    }
  }

  /** The largest number of a group bounds its messages and, for positive numbers, is one of them. */
  lemma {:induction false} MaxSeqIsMax(ms: seq<Row>)
    ensures forall m :: m in ms ==> m.seqNo <= MaxSeq(ms)
    ensures ms != [] && (forall m :: m in ms ==> m.seqNo > 0) ==>
              exists i :: 0 <= i < |ms| && ms[i].seqNo == MaxSeq(ms)
  {
    if ms != [] {
      var last := |ms| - 1;
      var rest := ms[..last];
      assert ms == rest + [ms[last]];
      MaxSeqIsMax(rest);
      if (forall m :: m in ms ==> m.seqNo > 0) && ms[last].seqNo <= MaxSeq(rest) {
        assert ms[last] in ms && ms[last].seqNo > 0;
        assert rest != [];
        var i :| 0 <= i < |rest| && rest[i].seqNo == MaxSeq(rest);
        assert ms[i].seqNo == MaxSeq(ms);
      } else {
        assert ms[last].seqNo == MaxSeq(ms) || !(forall m :: m in ms ==> m.seqNo > 0);
      }
    }
  }

  predicate BySeq(ms: seq<Row>) {
    forall i, j :: 0 <= i < j < |ms| ==> ms[i].seqNo < ms[j].seqNo
  }

  lemma BySeqSnoc(ms: seq<Row>, m: Row)
    requires BySeq(ms) && forall i :: 0 <= i < |ms| ==> ms[i].seqNo < m.seqNo
    ensures BySeq(ms + [m])
  {}

  /** The order of the batch is kept inside each group. */
  lemma {:induction false} FilterKeepsOrder(ms: seq<Row>, key: string)
    requires BySeq(ms)
    ensures BySeq(Filter(ms, key))
  {
    if ms != [] {
      var last := |ms| - 1;
      var f := Filter(ms[..last], key);
      FilterKeepsOrder(ms[..last], key);
      AllHaveKey(ms[..last], key);
      forall i | 0 <= i < |f| ensures f[i].seqNo < ms[last].seqNo {
        var j :| 0 <= j < last && ms[..last][j] == f[i];
      }
      BySeqSnoc(f, ms[last]);
    }
  }

  lemma KeysAt(ms: seq<Row>, n: nat, i: nat)
    requires |ms| == n + 1 && i < |Keys(ms)|
    ensures i < |Keys(ms[..n])| ==> Keys(ms)[i] == Keys(ms[..n])[i]
    ensures i >= |Keys(ms[..n])| ==>
              i == |Keys(ms[..n])| && Keys(ms)[i] == KeyOf(ms[n]) && KeyOf(ms[n]) !in Keys(ms[..n])
  {}

  /** The oldest message of a group in a longer batch. */
  lemma HeadOf(ms: seq<Row>, n: nat, k: string)
    requires |ms| == n + 1
    ensures k in Keys(ms[..n]) ==>
              Filter(ms, k) != [] && Filter(ms[..n], k) != [] && Filter(ms, k)[0] == Filter(ms[..n], k)[0]
    ensures k !in Keys(ms[..n]) && k == KeyOf(ms[n]) ==> Filter(ms, k) == [ms[n]]
  {
    if k in Keys(ms[..n]) { KeyHasMessage(ms[..n], k); } else { NoKeyNoMessage(ms[..n], k); }
  }

  /** Groups come in the order of their oldest messages. */
  lemma {:induction false} OldestRise(ms: seq<Row>, i: nat, j: nat)
    requires BySeq(ms) && i < j < |Keys(ms)|
    ensures Filter(ms, Keys(ms)[i]) != [] && Filter(ms, Keys(ms)[j]) != []
    ensures Filter(ms, Keys(ms)[i])[0].seqNo < Filter(ms, Keys(ms)[j])[0].seqNo
    decreases |ms|
  {
    var n := |ms| - 1;
    KeysAt(ms, n, i);
    KeysAt(ms, n, j);
    HeadOf(ms, n, Keys(ms)[i]);
    HeadOf(ms, n, Keys(ms)[j]);
    if j < |Keys(ms[..n])| {
      OldestRise(ms[..n], i, j);
    } else {
      var f := Filter(ms[..n], Keys(ms)[i]);
      assert Keys(ms[..n])[i] in Keys(ms[..n]);
      AllHaveKey(ms[..n], Keys(ms)[i]);
      assert f[0] in ms[..n];
      var x :| 0 <= x < n && ms[x] == f[0];
    }
  }

  lemma GroupsInOrder(ms: seq<Row>, i: nat, j: nat)
    requires BySeq(ms) && i < j < |Groups(ms)|
    ensures var a, b := Groups(ms)[i].messages, Groups(ms)[j].messages; a != [] && b != [] && a[0].seqNo < b[0].seqNo
  {
    OldestRise(ms, i, j);
  }

  function Concat(gs: seq<Group>): seq<Row> {
    if gs == [] then [] else Concat(gs[..|gs| - 1]) + gs[|gs| - 1].messages
  }

  function FilterAll(ms: seq<Row>, ks: seq<string>): seq<Row> {
    if ks == [] then [] else FilterAll(ms, ks[..|ks| - 1]) + Filter(ms, ks[|ks| - 1])
  }

  lemma {:induction false} ConcatGroups(ms: seq<Row>, n: nat)
    requires n <= |Keys(ms)|
    ensures Concat(Groups(ms)[..n]) == FilterAll(ms, Keys(ms)[..n])
  {
    if n > 0 {
      ConcatGroups(ms, n - 1);
      assert Groups(ms)[..n][..n - 1] == Groups(ms)[..n - 1];
      assert Keys(ms)[..n][..n - 1] == Keys(ms)[..n - 1];
    }
  }

  lemma FilterAllSnoc(ms: seq<Row>, ks: seq<string>, k: string)
    ensures multiset(FilterAll(ms, ks + [k])) == multiset(FilterAll(ms, ks)) + multiset(Filter(ms, k))
  {
    assert (ks + [k])[..|ks|] == ks;
  }

  lemma FilterCount(ms: seq<Row>, m: Row, k: string)
    ensures multiset(Filter(ms + [m], k)) ==
            multiset(Filter(ms, k)) + (if KeyOf(m) == k then multiset{m} else multiset{})
  {
    assert (ms + [m])[..|ms|] == ms;
  }

  function Once(m: Row, present: bool): multiset<Row> {
    if present then multiset{m} else multiset{}
  }

  lemma FilterAllCountStep(ms: seq<Row>, m: Row, ks: seq<string>, k: string)
    requires k !in ks
    requires multiset(FilterAll(ms + [m], ks)) == multiset(FilterAll(ms, ks)) + Once(m, KeyOf(m) in ks)
    ensures multiset(FilterAll(ms + [m], ks + [k])) == multiset(FilterAll(ms, ks + [k])) + Once(m, KeyOf(m) in ks + [k])
  {
    FilterCount(ms, m, k);
    FilterAllSnoc(ms, ks, k);
    FilterAllSnoc(ms + [m], ks, k);
  }

  lemma {:induction false} FilterAllCount(ms: seq<Row>, m: Row, ks: seq<string>, n: nat)
    requires n <= |ks| && forall x, y :: 0 <= x < y < |ks| ==> ks[x] != ks[y]
    ensures multiset(FilterAll(ms + [m], ks[..n])) == multiset(FilterAll(ms, ks[..n])) + Once(m, KeyOf(m) in ks[..n])
  {
    if n > 0 {
      FilterAllCount(ms, m, ks, n - 1);
      TakeNext(ks, n - 1);
      FilterAllCountStep(ms, m, ks[..n - 1], ks[n - 1]);
    }
  }

  lemma {:induction false} FilterAllIsPermutation(ms: seq<Row>)
    ensures multiset(FilterAll(ms, Keys(ms))) == multiset(ms)
  {
    if ms != [] {
      var last := |ms| - 1;
      var a, m := ms[..last], ms[last];
      assert ms == a + [m];
      FilterAllIsPermutation(a);
      KeysDistinct(ms);
      FilterAllCount(a, m, Keys(ms), |Keys(ms)|);
      TakeNext(Keys(ms), |Keys(ms)|);
      OwnKeyListed(a, m);
    }
  }

  lemma OwnKeyListed(a: seq<Row>, m: Row)
    ensures KeyOf(m) in Keys(a + [m])
    ensures multiset(FilterAll(a, Keys(a + [m]))) == multiset(FilterAll(a, Keys(a)))
  {
    assert (a + [m])[..|a|] == a;
    if KeyOf(m) !in Keys(a) {
      NoKeyNoMessage(a, KeyOf(m));
      FilterAllSnoc(a, Keys(a), KeyOf(m));
    }
  }

  /** The groups together are exactly the batch: nothing lost, nothing twice. */
  lemma GroupsArePermutation(ms: seq<Row>)
    ensures multiset(Concat(Groups(ms))) == multiset(ms)
  {
    ConcatGroups(ms, |Keys(ms)|);
    assert Groups(ms)[..|Keys(ms)|] == Groups(ms) && Keys(ms)[..|Keys(ms)|] == Keys(ms);
    FilterAllIsPermutation(ms);
  }
}
