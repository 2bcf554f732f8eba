/** The processing cursor of one account and its bounded memory of conversation partners. */
module AgentState {
  import opened Wrappers
  import Ordered

  /** A summary is a byte string; updatedAt is in milliseconds. */
  datatype PeerMemory = PeerMemory(summary: string, updatedAt: int, turns: int)

  type Peers = map<string, PeerMemory>

  datatype AccountState = AccountState(processedSeq: int, peers: Peers)

  /** What the state file holds when it is opened. */
  datatype File = Missing | Unreadable | Corrupt | Saved(state: AccountState)

  datatype StateError = ReadFailed | ParseFailed | PersistFailed

  datatype PeerUpdate = PeerUpdate(key: string, summary: string)

  /** How far writing the state out gets: a write that fails, or a process that dies in it, leaves some
      part of the file behind. */
  datatype PersistFate = NoDirectory | NotEncoded | Torn(part: File) | NotRenamed | Written

  function Truncated(summary: string, maxChars: int): string {
    if maxChars > 0 && |summary| > maxChars then summary[..maxChars] else summary
  }

  function Updated(peers: Peers, u: PeerUpdate, now: int, maxChars: int): Peers {
    var turns := if u.key in peers then peers[u.key].turns else 0;
    peers[u.key := PeerMemory(Truncated(u.summary, maxChars), now, turns + 1)]
  }

  function UpdatedAll(peers: Peers, us: seq<PeerUpdate>, now: int, maxChars: int): Peers {
    if us == [] then peers
    else Updated(UpdatedAll(peers, us[..|us| - 1], now, maxChars), us[|us| - 1], now, maxChars)
  }

  /** What an eviction may leave: everything within the limit; above it, exactly the limit, unchanged
      entries, and nothing dropped that is newer than something kept. Ties are settled either way. */
  ghost predicate Evicted(before: Peers, after: Peers, maxPeers: int) {
    if maxPeers <= 0 || |before| <= maxPeers then after == before
    else
      && |after| == maxPeers
      && (forall k :: k in after ==> k in before && after[k] == before[k])
      && (forall k, e :: k in after && e in before && e !in after ==> before[e].updatedAt <= before[k].updatedAt)
  }

  predicate Bounded(peers: Peers, maxChars: int) {
    maxChars > 0 ==> forall k :: k in peers ==> |peers[k].summary| <= maxChars
  }

  lemma {:induction false} UpdatesBounded(peers: Peers, us: seq<PeerUpdate>, now: int, maxChars: int)
    requires Bounded(peers, maxChars)
    ensures Bounded(UpdatedAll(peers, us, now, maxChars), maxChars)
  {
    if us != [] { UpdatesBounded(peers, us[..|us| - 1], now, maxChars); }
  }

  /** Whatever is committed, no summary outgrows its limit and no more partners are kept than allowed. */
  lemma CommitKeepsBounds(before: Peers, us: seq<PeerUpdate>, now: int, maxChars: int, maxPeers: int, after: Peers)
    requires Bounded(before, maxChars) && Evicted(UpdatedAll(before, us, now, maxChars), after, maxPeers)
    ensures Bounded(after, maxChars) && (maxPeers > 0 ==> |after| <= maxPeers)
  {
    UpdatesBounded(before, us, now, maxChars);
  }

  /** Each commit of a partner counts one turn more, from wherever its entry stood. */
  lemma {:induction false} TurnsCount(peers: Peers, us: seq<PeerUpdate>, now: int, maxChars: int, key: string)
    ensures var after := UpdatedAll(peers, us, now, maxChars);
            (if key in after then after[key].turns else 0) ==
            (if key in peers then peers[key].turns else 0) + |Updates(us, key)|
  {
    if us != [] { TurnsCount(peers, us[..|us| - 1], now, maxChars, key); }
  }

  function Updates(us: seq<PeerUpdate>, key: string): seq<PeerUpdate> {
    if us == [] then [] else
      Updates(us[..|us| - 1], key) + if us[|us| - 1].key == key then [us[|us| - 1]] else []
  }

  /** kept is the given summary, cut off at the limit when there is one and it is exceeded. */
  predicate CutAt(kept: string, given: string, maxChars: int) {
    && kept <= given
    && (maxChars <= 0 || |given| <= maxChars ==> kept == given)
    && (0 < maxChars < |given| ==> |kept| == maxChars)
  }

  /** us[i] is the last update of its partner. */
  predicate LastFor(us: seq<PeerUpdate>, i: nat) {
    i < |us| && forall j :: i < j < |us| ==> us[j].key != us[i].key
  }

  predicate NotUpdated(us: seq<PeerUpdate>, key: string) {
    forall i :: 0 <= i < |us| ==> us[i].key != key
  }

  /** What is remembered of the partners kept: the last summary given for each, or what there was. */
  predicate Remembers(before: Peers, us: seq<PeerUpdate>, now: int, maxChars: int, after: Peers) {
    && (forall i :: 0 <= i < |us| && LastFor(us, i) && us[i].key in after ==>
          after[us[i].key].updatedAt == now && CutAt(after[us[i].key].summary, us[i].summary, maxChars))
    && (forall k :: k in after && NotUpdated(us, k) ==> k in before && after[k] == before[k])
  }

  lemma NotUpdatedSnoc(us: seq<PeerUpdate>, n: nat, k: string)
    requires |us| == n + 1
    ensures NotUpdated(us, k) <==> NotUpdated(us[..n], k) && us[n].key != k
  {
    assert forall i :: 0 <= i < n ==> us[..n][i] == us[i];
  }

  /** A partner with an update keeps what the last one gave, whichever was applied last. */
  lemma LastRemembered(peers: Peers, us: seq<PeerUpdate>, now: int, maxChars: int, n: nat, mid: Peers, i: nat)
    requires |us| == n + 1 && Remembers(peers, us[..n], now, maxChars, mid) && LastFor(us, i)
    requires i < n ==> us[i].key in mid
    ensures var after := Updated(mid, us[n], now, maxChars);
            && us[i].key in after && after[us[i].key].updatedAt == now
            && CutAt(after[us[i].key].summary, us[i].summary, maxChars)
  {
    if i < n {
      assert us[i].key != us[n].key;
      assert LastFor(us[..n], i);
    }
  }

  lemma {:induction false} UpdatesRemember(peers: Peers, us: seq<PeerUpdate>, now: int, maxChars: int)
    ensures Remembers(peers, us, now, maxChars, UpdatedAll(peers, us, now, maxChars))
  {
    if us != [] {
      var n := |us| - 1;
      var mid, after := UpdatedAll(peers, us[..n], now, maxChars), UpdatedAll(peers, us, now, maxChars);
      UpdatesRemember(peers, us[..n], now, maxChars);
      forall k | k in after && NotUpdated(us, k) ensures k in peers && after[k] == peers[k] {
        NotUpdatedSnoc(us, n, k);
        assert k in mid;
      }
      forall i | 0 <= i < |us| && LastFor(us, i) && us[i].key in after
        ensures after[us[i].key].updatedAt == now && CutAt(after[us[i].key].summary, us[i].summary, maxChars)
      {
        LastRemembered(peers, us, now, maxChars, n, mid, i);
      }
    }
  }

  /** Eviction does not touch what it keeps. */
  lemma EvictionRemembers(before: Peers, us: seq<PeerUpdate>, now: int, maxChars: int, maxPeers: int, mid: Peers,
                          after: Peers)
    requires Remembers(before, us, now, maxChars, mid) && Evicted(mid, after, maxPeers)
    ensures Remembers(before, us, now, maxChars, after)
  {
    assert forall k :: k in after ==> k in mid && after[k] == mid[k];
  }

  class Store {
    const maxCharsPer: int
    const maxPeers: int
    var processedSeq: int
    var peers: Peers
    var disk: File
    var tmp: File  // the file written first and then renamed to the state file

    constructor (file: File, maxCharsPer: int, maxPeers: int)
      requires file.Missing? || file.Saved?
      ensures this.maxCharsPer == maxCharsPer && this.maxPeers == maxPeers && disk == file
      ensures processedSeq == (if file.Saved? then file.state.processedSeq else 0)
      ensures peers == (if file.Saved? then file.state.peers else map[])
    {
      this.maxCharsPer, this.maxPeers, disk, tmp := maxCharsPer, maxPeers, file, Missing;
      processedSeq := if file.Saved? then file.state.processedSeq else 0;
      peers := if file.Saved? then file.state.peers else map[];
    }

    /** Opening starts afresh when there is no file, resumes from a readable one, fails otherwise. */
    static method Open(file: File, maxCharsPer: int, maxPeers: int) returns (r: Result<Store, StateError>)
      ensures file.Unreadable? ==> r == Err(ReadFailed)
      ensures file.Corrupt? ==> r == Err(ParseFailed)
      ensures file.Missing? ==> r.Ok? && r.value.processedSeq == 0 && r.value.peers == map[]
      ensures file.Saved? ==>
                && r.Ok? && r.value.processedSeq == file.state.processedSeq
                && r.value.peers == file.state.peers
      ensures r.Ok? ==> fresh(r.value) && r.value.disk == file
      ensures r.Ok? ==> r.value.maxCharsPer == maxCharsPer && r.value.maxPeers == maxPeers
    {
      match file
      case Unreadable => r := Err(ReadFailed);
      case Corrupt => r := Err(ParseFailed);
      case _ =>
        var s := new Store(file, maxCharsPer, maxPeers);
        r := Ok(s);
    }

    function PeerSummary(key: string): (summary: string)
      reads this
      ensures key in peers ==> summary == peers[key].summary
      ensures key !in peers ==> summary == ""
    {
      if key in peers then peers[key].summary else ""
    }

    /** Advance the cursor, never backwards, update the memory, evict, and write the whole state out.
        When the write fails the memory copy has moved all the same and the file has not. */
    method Commit(newSeq: int, updates: seq<PeerUpdate>, now: int, fate: PersistFate) returns (ok: bool)
      modifies this
      ensures processedSeq == if newSeq > old(processedSeq) then newSeq else old(processedSeq)
      ensures Evicted(UpdatedAll(old(peers), updates, now, maxCharsPer), peers, maxPeers)
      ensures Remembers(old(peers), updates, now, maxCharsPer, peers)
      ensures maxPeers > 0 ==> |peers| <= maxPeers
      ensures ok <==> fate.Written?
      ensures disk == if ok then Saved(AccountState(processedSeq, peers)) else old(disk)
    {
      if newSeq > processedSeq {
        processedSeq := newSeq;
      }
      for i := 0 to |updates|
        invariant peers == UpdatedAll(old(peers), updates[..i], now, maxCharsPer)
        invariant disk == old(disk)
        invariant processedSeq == if newSeq > old(processedSeq) then newSeq else old(processedSeq)
      {
        var u := updates[i];
        var summary := u.summary;
        if maxCharsPer > 0 && |summary| > maxCharsPer {
          summary := summary[..maxCharsPer];
        }
        var turns := if u.key in peers then peers[u.key].turns else 0;
        peers := peers[u.key := PeerMemory(summary, now, turns + 1)];
        assert updates[..i + 1][..i] == updates[..i];
      }
      assert updates[..|updates|] == updates;
      ghost var mid := peers;
      EvictLocked();
      UpdatesRemember(old(peers), updates, now, maxCharsPer);
      EvictionRemembers(old(peers), updates, now, maxCharsPer, maxPeers, mid, peers);
      ok := PersistLocked(fate);
    }

    method EvictLocked()
      modifies this`peers
      ensures Evicted(old(peers), peers, maxPeers)
    {
      if maxPeers <= 0 || |peers| <= maxPeers {
        return;
      }
      var entries := OldestFirst(peers);
      var excess := |entries| - maxPeers;
      var all := peers;
      for i := 0 to excess
        invariant peers == all - Prefix(entries, i)
      {
        DropNext(all, entries, i);
        peers := peers - {entries[i]};
      }
      EvictionIsEvicted(all, peers, entries, excess, maxPeers);
    }

    /** Written to a temporary file first and then renamed: whatever fails, and whatever an earlier failure
        left in the temporary file, the state file holds what it held or exactly the state in memory. */
    method PersistLocked(fate: PersistFate) returns (ok: bool)
      modifies this`disk, this`tmp
      ensures ok <==> fate.Written?
      ensures ok ==> disk == Saved(AccountState(processedSeq, peers))
      ensures !ok ==> disk == old(disk)
    {
      if fate.NoDirectory? || fate.NotEncoded? {
        return false;
      }
      var data := Saved(AccountState(processedSeq, peers));
      if fate.Torn? {
        tmp := fate.part;
        return false;
      }
      tmp := data;
      if fate.NotRenamed? {
        return false;
      }
      disk, tmp := tmp, Missing;
      return true;
    }
  }

  predicate ByAge(peers: Peers, keys: seq<string>) {
    && (forall i :: 0 <= i < |keys| ==> keys[i] in peers)
    && (forall i, j :: 0 <= i < j < |keys| ==> keys[i] != keys[j])
    && (forall i, j :: 0 <= i < j < |keys| && keys[i] in peers && keys[j] in peers ==>
          peers[keys[i]].updatedAt <= peers[keys[j]].updatedAt)
  }

  /** Every key once, oldest first; keys of equal age in any order. */
  method OldestFirst(peers: Peers) returns (keys: seq<string>)
    ensures ByAge(peers, keys) && |keys| == |peers|
    ensures forall k :: k in peers ==> k in keys
  {
    keys := [];
    var rest := peers.Keys;
    while rest != {}
      invariant rest <= peers.Keys
      invariant forall k :: k in peers ==> k in keys || k in rest
      invariant forall k :: k in keys ==> k in peers && k !in rest
      invariant |keys| + |rest| == |peers|
      invariant ByAge(peers, keys)
      invariant forall i, k :: 0 <= i < |keys| && k in rest ==> peers[keys[i]].updatedAt <= peers[k].updatedAt
      decreases |rest|
    {
      OldestExists(peers, rest);
      var k :| Oldest(peers, rest, k);
      keys := keys + [k];
      rest := rest - {k};
    }
  }

  predicate Oldest(peers: Peers, keys: set<string>, k: string)
    requires keys <= peers.Keys
  {
    k in keys && forall k' :: k' in keys ==> peers[k].updatedAt <= peers[k'].updatedAt
  }

  lemma {:induction false} OldestExists(peers: Peers, keys: set<string>)
    requires keys != {} && keys <= peers.Keys
    ensures exists k :: Oldest(peers, keys, k)
    decreases |keys|
  {
    var k := Ordered.SomeMember(keys);
    if keys == {k} {
      assert Oldest(peers, keys, k);
    } else {
      var rest := keys - {k};
      assert rest != {};
      OldestExists(peers, rest);
      var r :| Oldest(peers, rest, r);
      assert forall k' :: k' in keys ==> k' == k || k' in rest;
      assert Oldest(peers, keys, if peers[k].updatedAt <= peers[r].updatedAt then k else r);
    }
  }

  function Prefix(keys: seq<string>, n: nat): set<string>
    requires n <= |keys|
  {
    if n == 0 then {} else Prefix(keys, n - 1) + {keys[n - 1]}
  }

  lemma DropNext(all: Peers, keys: seq<string>, i: nat)
    requires i < |keys|
    ensures all - Prefix(keys, i) - {keys[i]} == all - Prefix(keys, i + 1)
  {}

  lemma {:induction false} PrefixMembers(keys: seq<string>, n: nat)
    requires n <= |keys|
    ensures forall k :: k in Prefix(keys, n) <==> k in keys[..n]
    ensures (forall i, j :: 0 <= i < j < |keys| ==> keys[i] != keys[j]) ==> |Prefix(keys, n)| == n
  {
    if n > 0 {
      PrefixMembers(keys, n - 1);
      assert keys[..n] == keys[..n - 1] + [keys[n - 1]];
    }
  }

  lemma EvictionIsEvicted(before: Peers, after: Peers, keys: seq<string>, excess: nat, maxPeers: int)
    requires ByAge(before, keys) && |keys| == |before| && forall k :: k in before ==> k in keys
    requires 0 < maxPeers && excess == |before| - maxPeers
    requires after == before - Prefix(keys, excess)
    ensures Evicted(before, after, maxPeers)
  {
    var gone := Prefix(keys, excess);
    PrefixMembers(keys, excess);
    assert gone <= before.Keys;
    assert after.Keys == before.Keys - gone;
    forall k, e | k in after && e in before && e !in after
      ensures before[e].updatedAt <= before[k].updatedAt
    {
      GoneIsOlder(before, keys, excess, k, e);
    }
  }

  lemma GoneIsOlder(before: Peers, keys: seq<string>, excess: nat, k: string, e: string)
    requires ByAge(before, keys) && excess <= |keys| && k in before && e in before
    requires k in keys && k !in keys[..excess] && e in keys[..excess]
    ensures before[e].updatedAt <= before[k].updatedAt
  {
    forall n | 0 <= n < excess ensures keys[n] in keys[..excess] {
      assert keys[..excess][n] == keys[n];
    }
    var i :| 0 <= i < |keys| && keys[i] == k;
    var j :| 0 <= j < |keys[..excess]| && keys[..excess][j] == e;
  }

  // ---------------------------------------------------------------- least recently used

  /** One commit of one partner at one time. */
  datatype Touch = Touch(key: string, summary: string, now: int)

  /** The partners of a history, most recently committed first, each once. */
  function Recency(h: seq<Touch>): seq<string> {
    if h == [] then [] else
      var k := h[|h| - 1].key;
      [k] + Without(Recency(h[..|h| - 1]), k)
  }

  function Without(s: seq<string>, k: string): seq<string> {
    if s == [] then [] else (if s[0] == k then [] else [s[0]]) + Without(s[1..], k)
  }

  function First(s: seq<string>, n: int): seq<string> {
    if n <= 0 || |s| <= n then s else s[..n]
  }

  /** One state per commit, each reached from the one before by an update and an eviction. */
  ghost predicate Run(h: seq<Touch>, states: seq<Peers>, maxChars: int, maxPeers: int) {
    && |states| == |h| + 1
    && states[0] == map[]
    && forall i :: 0 <= i < |h| ==>
         Evicted(Updated(states[i], PeerUpdate(h[i].key, h[i].summary), h[i].now, maxChars), states[i + 1], maxPeers)
  }

  predicate ClockAdvances(h: seq<Touch>) {
    forall i, j :: 0 <= i < j < |h| ==> h[i].now < h[j].now
  }

  /** r lists partners held, dated strictly newest first. */
  ghost predicate Descending(peers: Peers, r: seq<string>) {
    r != [] ==>
      && r[0] in peers
      && (forall x :: x in r[1..] ==> x in peers && peers[x].updatedAt < peers[r[0]].updatedAt)
      && Descending(peers, r[1..])
  }

  /** The partners held are exactly those of r, strictly newest first, none after the time now. */
  ghost predicate Holds(peers: Peers, r: seq<string>, now: int) {
    && Descending(peers, r)
    && (forall k :: k in peers ==> k in r && peers[k].updatedAt <= now)
  }

  lemma {:induction false} WithoutMembers(s: seq<string>, k: string)
    ensures forall x :: x in Without(s, k) <==> x in s && x != k
  {
    if s != [] { WithoutMembers(s[1..], k); }
  }

  lemma {:induction false} DescendingAt(peers: Peers, r: seq<string>, i: nat, j: nat)
    requires Descending(peers, r) && i <= j < |r|
    ensures r[i] in peers && r[j] in peers
    ensures i < j ==> peers[r[j]].updatedAt < peers[r[i]].updatedAt
  {
    if i == 0 {
      if j > 0 { assert r[1..][j - 1] == r[j]; }
    } else {
      DescendingAt(peers, r[1..], i - 1, j - 1);
    }
  }

  lemma {:induction false} DescendingTake(peers: Peers, r: seq<string>, n: nat)
    requires Descending(peers, r) && n <= |r|
    ensures Descending(peers, r[..n])
  {
    if n > 0 {
      DescendingTake(peers, r[1..], n - 1);
      assert r[..n][1..] == r[1..][..n - 1];
    }
  }

  /** Dropping one partner from the list, and redating it among those held, keeps the rest in order. */
  lemma {:induction false} DescendingWithout(peers: Peers, peers': Peers, r: seq<string>, k: string)
    requires Descending(peers, r)
    requires forall x :: x in peers && x != k ==> x in peers' && peers'[x] == peers[x]
    ensures Descending(peers', Without(r, k))
  {
    if r != [] {
      DescendingWithout(peers, peers', r[1..], k);
      WithoutMembers(r[1..], k);
      if r[0] == k {
        assert [] + Without(r[1..], k) == Without(r[1..], k);
      } else {
        assert Without(r, k)[1..] == Without(r[1..], k);
      }
    }
  }

  lemma TouchHolds(peers: Peers, r: seq<string>, t: Touch, before: int, maxChars: int)
    requires Holds(peers, r, before) && before < t.now
    ensures Holds(Updated(peers, PeerUpdate(t.key, t.summary), t.now, maxChars), [t.key] + Without(r, t.key), t.now)
  {
    var peers', r' := Updated(peers, PeerUpdate(t.key, t.summary), t.now, maxChars), [t.key] + Without(r, t.key);
    DescendingWithout(peers, peers', r, t.key);
    WithoutMembers(r, t.key);
    assert r'[1..] == Without(r, t.key);
    assert r'[0] in r';
    forall x | x in r'[1..] ensures x in peers' && peers'[x].updatedAt < t.now {
      var i :| 0 <= i < |r| && r[i] == x;
      DescendingAt(peers, r, i, i);
    }
  }

  function Members(r: seq<string>): set<string> {
    set x | x in r
  }

  lemma {:induction false} DescendingSize(peers: Peers, r: seq<string>)
    requires Descending(peers, r)
    ensures |Members(r)| == |r|
  {
    if r == [] {
      assert Members(r) == {};
    } else {
      DescendingSize(peers, r[1..]);
      assert r[0] !in r[1..];
      assert r == [r[0]] + r[1..];
      assert Members(r) == {r[0]} + Members(r[1..]);
    }
  }

  lemma SubsetSize(a: set<string>, b: set<string>)
    requires a <= b
    ensures |a| <= |b|
    ensures |a| == |b| ==> a == b
  {
    assert b == a + (b - a);
    if |a| == |b| { assert b - a == {}; }
  }

  /** Evicting the oldest leaves the front of the list. */
  lemma EvictHolds(before: Peers, after: Peers, r: seq<string>, now: int, maxPeers: int)
    requires Holds(before, r, now) && Evicted(before, after, maxPeers)
    ensures Holds(after, First(r, maxPeers), now)
  {
    DescendingSize(before, r);
    HoldsMembers(before, r, now);
    if 0 < maxPeers < |r| {
      KeptIsFront(before, after, r, maxPeers);
      DescendingTake(before, r, maxPeers);
      DescendingSame(before, after, r[..maxPeers]);
    }
  }

  lemma {:induction false} DescendingSame(peers: Peers, peers': Peers, r: seq<string>)
    requires Descending(peers, r) && forall k :: k in r && k in peers ==> k in peers' && peers'[k] == peers[k]
    ensures Descending(peers', r)
  {
    if r != [] {
      assert forall k :: k in r[1..] ==> k in r;
      assert r[0] in r;
      DescendingSame(peers, peers', r[1..]);
    }
  }

  lemma KeptIsFront(before: Peers, after: Peers, r: seq<string>, maxPeers: int)
    requires Descending(before, r) && before.Keys == Members(r) && |Members(r)| == |r|
    requires 0 < maxPeers < |r| && Evicted(before, after, maxPeers)
    ensures after.Keys == Members(r[..maxPeers])
  {
    var front := Members(r[..maxPeers]);
    DescendingTake(before, r, maxPeers);
    DescendingSize(before, r[..maxPeers]);
    if j :| maxPeers <= j < |r| && r[j] in after {
      forall i | 0 <= i < maxPeers ensures r[i] in after {
        DescendingAt(before, r, i, j);
      }
      assert front <= after.Keys;
      SubsetSize(front, after.Keys);
      var i :| 0 <= i < maxPeers && r[i] == r[j];
      DescendingAt(before, r, i, j);
      assert false;
    }
    forall k | k in after ensures k in front {
      var i :| 0 <= i < |r| && r[i] == k;
      assert r[..maxPeers][i] == k;
    }
    SubsetSize(after.Keys, front);
  }

  predicate Distinct(s: seq<string>) {
    forall i, j :: 0 <= i < j < |s| ==> s[i] != s[j]
  }

  lemma DistinctCons(x: string, s: seq<string>)
    requires Distinct(s) && x !in s
    ensures Distinct([x] + s)
  {
    assert forall i :: 0 <= i < |s| ==> s[i] in s;
  }

  lemma {:induction false} WithoutAbsent(s: seq<string>, k: string)
    requires k !in s
    ensures Without(s, k) == s
  {
    if s != [] {
      assert forall x :: x in s[1..] ==> x in s;
      WithoutAbsent(s[1..], k);
    }
  }

  lemma {:induction false} WithoutDistinct(s: seq<string>, k: string)
    requires Distinct(s)
    ensures Distinct(Without(s, k))
  {
    if s != [] {
      WithoutDistinct(s[1..], k);
      WithoutMembers(s[1..], k);
      if s[0] == k {
        assert Without(s, k) == Without(s[1..], k);
      } else {
        assert s[0] !in s[1..];
        DistinctCons(s[0], Without(s[1..], k));
      }
    }
  }

  lemma {:induction false} RecencyDistinct(h: seq<Touch>)
    ensures Distinct(Recency(h))
  {
    if h != [] {
      var r, k := Recency(h[..|h| - 1]), h[|h| - 1].key;
      RecencyDistinct(h[..|h| - 1]);
      WithoutDistinct(r, k);
      WithoutMembers(r, k);
      DistinctCons(k, Without(r, k));
    }
  }

  lemma {:induction false} WithoutTake(s: seq<string>, k: string, n: nat)
    requires n <= |s| && Distinct(s)
    ensures Without(s[..n], k) <= Without(s, k)
    ensures |Without(s[..n], k)| >= n - 1
  {
    if n > 0 {
      assert s[..n][1..] == s[1..][..n - 1];
      WithoutTake(s[1..], k, n - 1);
      if s[0] == k {
        WithoutAbsent(s[1..][..n - 1], k);
      }
    }
  }

  /** Truncating before or after the newest partner is put in front makes no difference. */
  lemma FirstOfTouched(r: seq<string>, k: string, maxPeers: int)
    requires Distinct(r)
    ensures First([k] + Without(First(r, maxPeers), k), maxPeers) == First([k] + Without(r, k), maxPeers)
  {
    if 0 < maxPeers < |r| {
      WithoutTake(r, k, maxPeers);
      var a, b := Without(r[..maxPeers], k), Without(r, k);
      assert a == b[..|a|];
      assert ([k] + a)[..maxPeers] == ([k] + b)[..maxPeers];
    }
  }

  /** With a clock that advances, the store keeps exactly the most recently committed partners. */
  lemma {:induction false} KeepsMostRecent(h: seq<Touch>, states: seq<Peers>, maxChars: int, maxPeers: int)
    requires Run(h, states, maxChars, maxPeers) && ClockAdvances(h)
    ensures h != [] ==> Holds(states[|h|], First(Recency(h), maxPeers), h[|h| - 1].now)
    ensures states[|h|].Keys == Members(First(Recency(h), maxPeers))
  {
    if h == [] {
      assert First(Recency(h), maxPeers) == [];
    } else {
      var n := |h| - 1;
      var r, t, before := Recency(h[..n]), h[n], if n == 0 then h[0].now - 1 else h[n - 1].now;
      KeepsMostRecent(h[..n], states[..n + 1], maxChars, maxPeers);
      assert Holds(states[n], First(r, maxPeers), before);
      TouchHolds(states[n], First(r, maxPeers), t, before, maxChars);
      var touched := Updated(states[n], PeerUpdate(t.key, t.summary), t.now, maxChars);
      EvictHolds(touched, states[n + 1], [t.key] + Without(First(r, maxPeers), t.key), t.now, maxPeers);
      RecencyDistinct(h[..n]);
      FirstOfTouched(r, t.key, maxPeers);
      HoldsMembers(states[n + 1], First(Recency(h), maxPeers), t.now);
    }
  }

  lemma HoldsMembers(peers: Peers, r: seq<string>, now: int)
    requires Holds(peers, r, now)
    ensures peers.Keys == Members(r)
  {
    forall k | k in r ensures k in peers {
      var i :| 0 <= i < |r| && r[i] == k;
      DescendingAt(peers, r, i, i);
    }
  }
}
