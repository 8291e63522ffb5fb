/** The forwarder's cache over runs: it is the textbook LRU map, told by time stamps instead of a
    list, and a hit is the last value stored. */
module ForwardCacheLaws {
  import opened Names
  import opened ForwardCache

  // ----- the reference: values and the time each was last used -----

  datatype Stamped = Stamped(vals: map<Key, Entry>, used: map<Key, nat>, clock: nat)

  ghost predicate LeastUsed(s: Stamped, k: Key) {
    k in s.used && forall j :: j in s.used ==> s.used[k] <= s.used[j]
  }

  function Dropped(s: Stamped, k: Key): Stamped {
    s.(vals := s.vals - {k}, used := s.used - {k})
  }

  /** Using `k` now. */
  function Touched(s: Stamped, k: Key, e: Entry): Stamped {
    Stamped(s.vals[k := e], s.used[k := s.clock], s.clock + 1)
  }

  ghost predicate StampedGet(s: Stamped, k: Key, now: int, after: Stamped, hit: Option<Entry>) {
    if k !in s.vals then after == s && hit == None
    else if now >= s.vals[k].expiresAt then after == Dropped(s, k) && hit == None
    else after == Touched(s, k, s.vals[k]) && hit == Some(s.vals[k])
  }

  /** A store that does not fit drops a least recently used key. */
  ghost predicate StampedPut(s: Stamped, cap: nat, k: Key, e: Entry, after: Stamped) {
    var t := Touched(s, k, e);
    if |t.vals| <= cap then after == t
    else exists v :: LeastUsed(t, v) && after == Dropped(t, v)
  }

  // ----- the list represents the reference -----

  ghost predicate Listed(l: Recency, k: Key) {
    exists i :: 0 <= i < |l| && l[i].key == k
  }

  ghost predicate Covered(l: Recency, s: Stamped) {
    forall k :: k in s.vals ==> Listed(l, k)
  }

  ghost predicate ValuesAgree(l: Recency, s: Stamped) {
    forall i :: 0 <= i < |l| ==> l[i].key in s.vals && s.vals[l[i].key] == l[i].val
  }

  ghost predicate SameKeys(l: Recency, s: Stamped) {
    |l| == |s.vals| && (forall k :: k in s.vals <==> k in s.used) && ValuesAgree(l, s) && Covered(l, s)
  }

  /** Most recent first. */
  ghost predicate ByRecency(l: Recency, s: Stamped) {
    && (forall k :: k in s.used ==> s.used[k] < s.clock)
    && forall i, j :: 0 <= i < j < |l| && l[i].key in s.used && l[j].key in s.used ==> s.used[l[i].key] > s.used[l[j].key]
  }

  ghost predicate Represents(l: Recency, s: Stamped) {
    SameKeys(l, s) && ByRecency(l, s)
  }

  lemma RepresentsDistinct(l: Recency, s: Stamped)
    requires Represents(l, s)
    ensures DistinctKeys(l)
  {
    forall i, j | 0 <= i < j < |l|
      ensures l[i].key != l[j].key
    {
      assert l[i].key in s.used && l[j].key in s.used;
    }
  }

  // ----- dropping and touching on both sides -----

  lemma MapWithout<K, V>(m: map<K, V>, k: K)
    requires k in m
    ensures |m - {k}| == |m| - 1
  {
    assert m == (m - {k})[k := m[k]];
  }

  lemma MapWith<K, V>(m: map<K, V>, k: K, v: V)
    ensures |m[k := v]| == if k in m then |m| else |m| + 1
  {
    if k in m {
      assert m[k := v].Keys == m.Keys;
    }
  }

  lemma DroppedCovered(l: Recency, s: Stamped, i: nat)
    requires Covered(l, s) && i < |l|
    ensures Covered(Without(l, i), Dropped(s, l[i].key))
  {
    hide Without;
    var l', s' := Without(l, i), Dropped(s, l[i].key);
    forall x | x in s'.vals
      ensures Listed(l', x)
    {
      assert Listed(l, x);
      var j :| 0 <= j < |l| && l[j].key == x;
      if j < i {
        WithoutAt(l, i, j);
        assert l'[j].key == x;
      } else {
        WithoutAt(l, i, j - 1);
        assert l'[j - 1].key == x;
      }
    }
  }

  lemma DroppedValues(l: Recency, s: Stamped, i: nat)
    requires ValuesAgree(l, s) && DistinctKeys(l) && i < |l|
    ensures ValuesAgree(Without(l, i), Dropped(s, l[i].key))
  {
    hide Without;
    var l', s' := Without(l, i), Dropped(s, l[i].key);
    forall j | 0 <= j < |l'|
      ensures l'[j].key in s'.vals && s'.vals[l'[j].key] == l'[j].val
    {
      WithoutAt(l, i, j);
    }
  }

  lemma DroppedKeys(l: Recency, s: Stamped, i: nat)
    requires SameKeys(l, s) && DistinctKeys(l) && i < |l|
    ensures SameKeys(Without(l, i), Dropped(s, l[i].key))
  {
    hide Without, Covered, DistinctKeys;
    MapWithout(s.vals, l[i].key);
    DroppedValues(l, s, i);
    DroppedCovered(l, s, i);
  }

  lemma DroppedOrder(l: Recency, s: Stamped, i: nat)
    requires ByRecency(l, s) && DistinctKeys(l) && i < |l|
    ensures ByRecency(Without(l, i), Dropped(s, l[i].key))
  {
    hide Without;
    var l', s' := Without(l, i), Dropped(s, l[i].key);
    forall a, b | 0 <= a < b < |l'| && l'[a].key in s'.used && l'[b].key in s'.used
      ensures s'.used[l'[a].key] > s'.used[l'[b].key]
    {
      WithoutAt(l, i, a);
      WithoutAt(l, i, b);
    }
  }

  lemma DroppedRepresents(l: Recency, s: Stamped, i: nat)
    requires Represents(l, s) && i < |l|
    ensures Represents(Without(l, i), Dropped(s, l[i].key))
  {
    hide SameKeys, ByRecency, Without;
    RepresentsDistinct(l, s);
    DroppedKeys(l, s, i);
    DroppedOrder(l, s, i);
  }

  lemma PushedCovered(l: Recency, s: Stamped, k: Key, e: Entry)
    requires Covered(l, s)
    ensures Covered([Item(k, e)] + l, Touched(s, k, e))
  {
    var l', s' := [Item(k, e)] + l, Touched(s, k, e);
    forall x | x in s'.vals
      ensures Listed(l', x)
    {
      if x == k {
        assert l'[0].key == x;
      } else {
        assert Listed(l, x);
        var j :| 0 <= j < |l| && l[j].key == x;
        assert l'[j + 1].key == x;
      }
    }
  }

  lemma PushedKeys(l: Recency, s: Stamped, k: Key, e: Entry)
    requires SameKeys(l, s) && k !in s.vals
    ensures SameKeys([Item(k, e)] + l, Touched(s, k, e))
  {
    hide Covered;
    MapWith(s.vals, k, e);
    PushedCovered(l, s, k, e);
    var l' := [Item(k, e)] + l;
    assert forall i :: 0 < i < |l'| ==> l'[i] == l[i - 1];
  }

  lemma PushedOrder(l: Recency, s: Stamped, k: Key, e: Entry)
    requires ByRecency(l, s) && forall i :: 0 <= i < |l| ==> l[i].key != k
    ensures ByRecency([Item(k, e)] + l, Touched(s, k, e))
  {
    var l', s' := [Item(k, e)] + l, Touched(s, k, e);
    forall i, j | 0 <= i < j < |l'| && l'[i].key in s'.used && l'[j].key in s'.used
      ensures s'.used[l'[i].key] > s'.used[l'[j].key]
    {
      assert l'[j] == l[j - 1];
      if i > 0 {
        assert l'[i] == l[i - 1];
      }
    }
  }

  lemma PushedRepresents(l: Recency, s: Stamped, k: Key, e: Entry)
    requires Represents(l, s) && k !in s.vals
    ensures Represents([Item(k, e)] + l, Touched(s, k, e))
  {
    hide ByRecency, Touched;
    PushedKeys(l, s, k, e);
    PushedOrder(l, s, k, e);
  }

  lemma TouchedAgain(s: Stamped, k: Key, e: Entry)
    ensures Touched(Dropped(s, k), k, e) == Touched(s, k, e)
  {
    assert (s.vals - {k})[k := e] == s.vals[k := e];
    assert (s.used - {k})[k := s.clock] == s.used[k := s.clock];
  }

  lemma MovedRepresents(l: Recency, s: Stamped, i: nat, e: Entry)
    requires Represents(l, s) && i < |l|
    ensures Represents([Item(l[i].key, e)] + Without(l, i), Touched(s, l[i].key, e))
  {
    hide Represents, Without, Touched;
    var k := l[i].key;
    DroppedRepresents(l, s, i);
    PushedRepresents(Without(l, i), Dropped(s, k), k, e);
    TouchedAgain(s, k, e);
  }

  // ----- refinement of the two operations -----

  lemma FindIs(l: Recency, s: Stamped, k: Key)
    requires Represents(l, s)
    ensures Find(l, k).Some? <==> k in s.vals
  {
    hide Find;
    var r := Find(l, k);
  }

  /** A lookup on the list is a lookup on the reference. */
  lemma GetRefines(l: Recency, s: Stamped, k: Key, now: int) returns (after: Stamped)
    requires Represents(l, s)
    ensures var g := GetFrom(l, k, now); Represents(g.list, after) && StampedGet(s, k, now, after, g.hit)
  {
    hide Represents, Without, Touched, Dropped, Find;
    FindIs(l, s, k);
    match Find(l, k)
    case None =>
      after := s;
    case Some(i) =>
      ValueIs(l, s, i);
      if now >= l[i].val.expiresAt {
        after := Dropped(s, k);
        DroppedRepresents(l, s, i);
      } else {
        after := Touched(s, k, l[i].val);
        MovedRepresents(l, s, i, l[i].val);
      }
  }

  lemma ValueIs(l: Recency, s: Stamped, i: nat)
    requires Represents(l, s) && i < |l|
    ensures l[i].key in s.vals && s.vals[l[i].key] == l[i].val
  {
  }

  lemma LastIsLeast(l: Recency, s: Stamped)
    requires Represents(l, s) && l != []
    ensures LeastUsed(s, l[|l| - 1].key)
  {
    var last := l[|l| - 1].key;
    forall j | j in s.used
      ensures s.used[last] <= s.used[j]
    {
      assert Listed(l, j);
      var i :| 0 <= i < |l| && l[i].key == j;
    }
  }

  lemma TouchedSize(l: Recency, s: Stamped, k: Key, e: Entry)
    requires Represents(l, s)
    ensures |Touched(s, k, e).vals| == if k in s.vals then |l| else |l| + 1
  {
    MapWith(s.vals, k, e);
  }

  /** A store on the list is a store on the reference: what falls off the end of the list is a
      least recently used key. */
  lemma PutRefines(l: Recency, s: Stamped, cap: nat, k: Key, e: Entry) returns (after: Stamped)
    requires Represents(l, s) && 0 < cap && |l| <= cap
    ensures Represents(PutInto(l, cap, k, e), after) && StampedPut(s, cap, k, e, after)
    ensures |PutInto(l, cap, k, e)| <= cap
  {
    hide Represents, Without, Touched, Dropped, Find, LeastUsed;
    FindIs(l, s, k);
    TouchedSize(l, s, k, e);
    after := Touched(s, k, e);
    match Find(l, k)
    case Some(i) =>
      MovedRepresents(l, s, i, e);
    case None =>
      PushedRepresents(l, s, k, e);
      var grown := [Item(k, e)] + l;
      if |grown| > cap {
        LastIsLeast(grown, after);
        DroppedRepresents(grown, after, |l|);
        LastOff(grown);
        after := Dropped(after, grown[|l|].key);
      }
  }

  lemma LastOff<T>(l: seq<T>)
    requires l != []
    ensures Without(l, |l| - 1) == l[..|l| - 1]
  {
  }

  // ----- runs -----

  datatype Op = GetOp(key: Key, now: int) | PutOp(key: Key, val: Entry) | ClearOp

  function ListStep(cap: nat, l: Recency, op: Op): Recency {
    match op
    case GetOp(k, now) => GetFrom(l, k, now).list
    case PutOp(k, e) => PutInto(l, cap, k, e)
    case ClearOp => []
  }

  function HitOf(l: Recency, op: Op): Option<Entry> {
    match op
    case GetOp(k, now) => GetFrom(l, k, now).hit
    case _ => None
  }

  /** The list after the first operations of a run. */
  function After(cap: nat, ops: seq<Op>): Recency {
    if ops == [] then [] else ListStep(cap, After(cap, ops[..|ops| - 1]), ops[|ops| - 1])
  }

  ghost predicate StampedStep(cap: nat, s: Stamped, op: Op, after: Stamped, hit: Option<Entry>) {
    match op
    case GetOp(k, now) => StampedGet(s, k, now, after, hit)
    case PutOp(k, e) => StampedPut(s, cap, k, e, after) && hit == None
    case ClearOp => after == Stamped(map[], map[], s.clock) && hit == None
  }

  /** A run of the reference with the hits of the list. */
  ghost predicate StampedRun(cap: nat, ops: seq<Op>, states: seq<Stamped>) {
    && |states| == |ops| + 1 && states[0] == Stamped(map[], map[], 0)
    && forall i :: 0 <= i < |ops| ==> StampedStep(cap, states[i], ops[i], states[i + 1], HitOf(After(cap, ops[..i]), ops[i]))
  }

  lemma StepRefines(cap: nat, l: Recency, s: Stamped, op: Op) returns (after: Stamped)
    requires Represents(l, s) && 0 < cap && |l| <= cap
    ensures Represents(ListStep(cap, l, op), after) && |ListStep(cap, l, op)| <= cap
    ensures StampedStep(cap, s, op, after, HitOf(l, op))
  {
    hide Represents, StampedGet, StampedPut, PutInto, Find, Without;
    match op
    case GetOp(k, now) =>
      after := GetRefines(l, s, k, now);
    case PutOp(k, e) =>
      after := PutRefines(l, s, cap, k, e);
    case ClearOp =>
      after := Stamped(map[], map[], s.clock);
      EmptyRepresents(s.clock);
  }

  lemma EmptyRepresents(clock: nat)
    ensures Represents([], Stamped(map[], map[], clock))
  {
  }

  lemma RunExtends(cap: nat, ops: seq<Op>, states: seq<Stamped>, op: Op, after: Stamped)
    requires StampedRun(cap, ops, states)
    requires StampedStep(cap, states[|ops|], op, after, HitOf(After(cap, ops), op))
    ensures StampedRun(cap, ops + [op], states + [after])
  {
    hide StampedStep, HitOf, After;
    var all, ss := ops + [op], states + [after];
    forall i | 0 <= i < |all|
      ensures StampedStep(cap, ss[i], all[i], ss[i + 1], HitOf(After(cap, all[..i]), all[i]))
    {
      if i < |ops| {
        assert all[..i] == ops[..i];
      } else {
        assert all[..i] == ops;
      }
    }
  }

  /** Every run of the list cache is a run of the stamped reference: same hits, same contents, and
      never more than `cap` items. */
  lemma {:induction false} RunRefines(cap: nat, ops: seq<Op>) returns (states: seq<Stamped>)
    requires 0 < cap
    ensures StampedRun(cap, ops, states) && Represents(After(cap, ops), states[|ops|]) && |After(cap, ops)| <= cap
  {
    hide StampedRun, Represents, StampedStep, ListStep, HitOf;
    if ops == [] {
      states := [Stamped(map[], map[], 0)];
      EmptyRun(cap);
    } else {
      var init, op := ops[..|ops| - 1], ops[|ops| - 1];
      assert ops == init + [op];
      var before := RunRefines(cap, init);
      RunShape(cap, init, before);
      var after := StepRefines(cap, After(cap, init), before[|init|], op);
      RunExtends(cap, init, before, op, after);
      states := before + [after];
    }
  }

  lemma EmptyRun(cap: nat)
    ensures StampedRun(cap, [], [Stamped(map[], map[], 0)]) && Represents([], Stamped(map[], map[], 0))
  {
  }

  lemma RunShape(cap: nat, ops: seq<Op>, states: seq<Stamped>)
    requires StampedRun(cap, ops, states)
    ensures |states| == |ops| + 1
  {
  }

  // ----- the latest value -----

  ghost predicate LastPut(ops: seq<Op>, k: Key, j: nat) {
    && j < |ops| && ops[j].PutOp? && ops[j].key == k
    && forall x :: j < x < |ops| ==> !ops[x].ClearOp? && !(ops[x].PutOp? && ops[x].key == k)
  }

  ghost predicate IsLast(ops: seq<Op>, it: Item) {
    exists j: nat :: LastPut(ops, it.key, j) && ops[j].val == it.val
  }

  lemma IsLastLater(ops: seq<Op>, op: Op, it: Item)
    requires IsLast(ops, it) && !op.ClearOp? && !(op.PutOp? && op.key == it.key)
    ensures IsLast(ops + [op], it)
  {
    var j: nat :| LastPut(ops, it.key, j) && ops[j].val == it.val;
    assert LastPut(ops + [op], it.key, j);
  }

  lemma StepListed(cap: nat, l: Recency, op: Op, it: Item)
    requires DistinctKeys(l) && it in ListStep(cap, l, op)
    ensures it in l || (op.PutOp? && it == Item(op.key, op.val))
    ensures !op.ClearOp? && (op.PutOp? && op.key == it.key ==> it.val == op.val)
  {
    hide Without, Find;
    match op
    case GetOp(k, _) =>
      if Find(l, k).Some? {
        WithoutMember(l, Find(l, k).value, it);
      }
    case PutOp(k, e) =>
      var r := Find(l, k);
      if r.Some? {
        WithoutMember(l, r.value, it);
        WithoutKey(l, r.value, it);
      }
    case ClearOp =>
  }

  lemma WithoutKey(l: Recency, i: nat, it: Item)
    requires DistinctKeys(l) && i < |l|
    ensures it in Without(l, i) ==> it.key != l[i].key
  {
    hide Without;
    if it in Without(l, i) {
      var j :| 0 <= j < |l| - 1 && Without(l, i)[j] == it;
      WithoutAt(l, i, j);
    }
  }

  /** Everything in the cache is the last value stored under its key since the last clear. */
  lemma {:induction false} ContentsAreLast(cap: nat, ops: seq<Op>, it: Item)
    requires 0 < cap && it in After(cap, ops)
    ensures IsLast(ops, it)
  {
    hide IsLast, ListStep, DistinctKeys, Represents, StampedRun;
    if ops != [] {
      var init, op := ops[..|ops| - 1], ops[|ops| - 1];
      assert ops == init + [op];
      var l := After(cap, init);
      var states := RunRefines(cap, init);
      RunShape(cap, init, states);
      RepresentsDistinct(l, states[|init|]);
      StepListed(cap, l, op, it);
      if op.PutOp? && op.key == it.key {
        JustPut(init, op, it);
      } else {
        ContentsAreLast(cap, init, it);
        IsLastLater(init, op, it);
      }
    }
  }

  lemma JustPut(ops: seq<Op>, op: Op, it: Item)
    requires op.PutOp? && it == Item(op.key, op.val)
    ensures IsLast(ops + [op], it)
  {
    assert LastPut(ops + [op], it.key, |ops|);
  }

  lemma HitListed(l: Recency, k: Key, now: int)
    requires GetFrom(l, k, now).hit.Some?
    ensures Item(k, GetFrom(l, k, now).hit.value) in l && now < GetFrom(l, k, now).hit.value.expiresAt
  {
    hide Without;
    var i := Find(l, k).value;
    assert l[i] == Item(k, l[i].val);
  }

  /** A hit is the last value stored under the same name, type, class and DNSSEC-OK bit, and it has
      not expired. */
  lemma HitIsLast(cap: nat, ops: seq<Op>, k: Key, now: int)
    requires 0 < cap && GetFrom(After(cap, ops), k, now).hit.Some?
    ensures IsLast(ops, Item(k, GetFrom(After(cap, ops), k, now).hit.value))
    ensures now < GetFrom(After(cap, ops), k, now).hit.value.expiresAt
  {
    hide IsLast, GetFrom, After;
    HitListed(After(cap, ops), k, now);
    ContentsAreLast(cap, ops, Item(k, GetFrom(After(cap, ops), k, now).hit.value));
  }
}
