/** The cached NSEC3 records of a validating resolver: per zone, entries in hash space, from which
    negative answers for other names are assembled. */
module Nsec3 {
  import opened Names
  import opened WireDecode
  import opened Records

  type Hash = seq<byte>

  const SHA1: nat := 1
  const MAX_ITERATIONS: nat := 100

  datatype Params = Params(alg: nat, iterations: uint16, salt: Bytes)

  datatype Entry = Entry(ownerHash: Hash, nextHash: Hash, types: seq<uint16>, optOut: bool, expiresAt: int)

  datatype ZoneEntries = ZoneEntries(params: Params, entries: seq<Entry>)

  type ZoneTable = map<Name, ZoneEntries>

  predicate Usable(p: Params) {
    p.alg == SHA1 && p.iterations <= MAX_ITERATIONS
  }

  // ----- hash order -----

  /** Lexicographic order on octets, a proper prefix first. */
  predicate BytesLess(a: Hash, b: Hash) {
    b != [] && (a == [] || a[0] < b[0] || (a[0] == b[0] && BytesLess(a[1..], b[1..])))
  }

  method Less(a: Hash, b: Hash) returns (r: bool)
    ensures r <==> BytesLess(a, b)
  {
    var n := if |a| < |b| then |a| else |b|;
    var i := 0;
    while i < n
      invariant 0 <= i <= n <= |a| && n <= |b|
      invariant BytesLess(a, b) <==> BytesLess(a[i..], b[i..])
    {
      if a[i] != b[i] {
        return a[i] < b[i];
      }
      assert a[i..][1..] == a[i + 1..] && b[i..][1..] == b[i + 1..];
      i := i + 1;
    }
    return |a| < |b|;
  }

  lemma {:induction false} LessTransitive(a: Hash, b: Hash, c: Hash)
    requires BytesLess(a, b) && BytesLess(b, c)
    ensures BytesLess(a, c)
  {
    if a != [] && a[0] == b[0] == c[0] {
      LessTransitive(a[1..], b[1..], c[1..]);
    }
  }

  lemma {:induction false} LessTotal(a: Hash, b: Hash)
    ensures BytesLess(a, b) || a == b || BytesLess(b, a)
    ensures !(BytesLess(a, b) && BytesLess(b, a)) && !BytesLess(a, a)
  {
    if a != [] && b != [] && a[0] == b[0] {
      LessTotal(a[1..], b[1..]);
      LessTotal(a[1..], a[1..]);
      assert a == [a[0]] + a[1..] && b == [b[0]] + b[1..];
    } else if a != [] {
      LessTotal(a[1..], a[1..]);
    }
  }

  /** Strictly between, on the circle of hashes. */
  predicate IntervalContains(owner: Hash, next: Hash, x: Hash) {
    if BytesLess(owner, next) then BytesLess(owner, x) && BytesLess(x, next)
    else BytesLess(owner, x) || BytesLess(x, next)
  }

  // ----- the hash of a name -----

  function Rehashed(sha1: Bytes -> Hash, salt: Bytes, h: Hash, n: nat): Hash {
    if n == 0 then h else sha1(Rehashed(sha1, salt, h, n - 1) + salt)
  }

  function HashOf(sha1: Bytes -> Hash, name: Name, p: Params): Option<Hash> {
    if !Usable(p) then None else Some(Rehashed(sha1, p.salt, sha1(Wire(name) + p.salt), p.iterations))
  }

  method ComputeHash(sha1: Bytes -> Hash, name: Name, p: Params) returns (h: Option<Hash>)
    ensures h == HashOf(sha1, name, p)
  {
    if !Usable(p) {
      return None;
    }
    var cur := sha1(Wire(name) + p.salt);
    var i := 0;
    while i < p.iterations
      invariant 0 <= i <= p.iterations
      invariant cur == Rehashed(sha1, p.salt, sha1(Wire(name) + p.salt), i)
    {
      cur := sha1(cur + p.salt);
      i := i + 1;
    }
    return Some(cur);
  }

  // ----- searching one zone -----

  function Search(entries: seq<Entry>, target: Hash, lo: nat, hi: nat): (r: nat)
    requires lo <= hi <= |entries|
    ensures lo <= r <= hi
    decreases hi - lo
  {
    if lo == hi then lo
    else
      var mid := (lo + hi) / 2;
      if BytesLess(entries[mid].ownerHash, target) then Search(entries, target, mid + 1, hi)
      else Search(entries, target, lo, mid)
  }

  function Position(entries: seq<Entry>, target: Hash): (r: nat)
    ensures r <= |entries|
  {
    Search(entries, target, 0, |entries|)
  }

  predicate FoundAt(entries: seq<Entry>, target: Hash, i: nat) {
    i < |entries| && entries[i].ownerHash == target
  }

  method BinarySearch(entries: seq<Entry>, target: Hash) returns (idx: nat, found: bool)
    ensures idx == Position(entries, target) && (found <==> FoundAt(entries, target, idx))
  {
    var i, j := 0, |entries|;
    while i < j
      invariant i <= j <= |entries| && Search(entries, target, 0, |entries|) == Search(entries, target, i, j)
    {
      var mid := (i + j) / 2;
      var less := Less(entries[mid].ownerHash, target);
      if less {
        i := mid + 1;
      } else {
        j := mid;
      }
    }
    return i, i < |entries| && entries[i].ownerHash == target;
  }

  ghost predicate Sorted(entries: seq<Entry>) {
    forall i, j :: 0 <= i < j < |entries| ==> BytesLess(entries[i].ownerHash, entries[j].ownerHash)
  }

  /** Everything before the position is smaller, everything from it on is not. */
  lemma {:induction false} SearchSplits(entries: seq<Entry>, target: Hash, lo: nat, hi: nat)
    requires Sorted(entries) && lo <= hi <= |entries|
    requires forall i :: 0 <= i < lo ==> BytesLess(entries[i].ownerHash, target)
    requires forall i :: hi <= i < |entries| ==> !BytesLess(entries[i].ownerHash, target)
    ensures var r := Search(entries, target, lo, hi);
            && (forall i :: 0 <= i < r ==> BytesLess(entries[i].ownerHash, target))
            && forall i :: r <= i < |entries| ==> !BytesLess(entries[i].ownerHash, target)
    decreases hi - lo
  {
    if lo < hi {
      var mid := (lo + hi) / 2;
      if BytesLess(entries[mid].ownerHash, target) {
        forall i | 0 <= i < mid + 1
          ensures BytesLess(entries[i].ownerHash, target)
        {
          if i < mid {
            LessTransitive(entries[i].ownerHash, entries[mid].ownerHash, target);
          }
        }
        SearchSplits(entries, target, mid + 1, hi);
      } else {
        forall i | mid <= i < |entries|
          ensures !BytesLess(entries[i].ownerHash, target)
        {
          if mid < i && BytesLess(entries[i].ownerHash, target) {
            LessTransitive(entries[mid].ownerHash, entries[i].ownerHash, target);
          }
        }
        SearchSplits(entries, target, lo, mid);
      }
    }
  }

  /** On sorted entries the binary search is the linear search. */
  lemma SearchFinds(entries: seq<Entry>, target: Hash)
    requires Sorted(entries)
    ensures FoundAt(entries, target, Position(entries, target)) <==> exists e :: e in entries && e.ownerHash == target
  {
    var r := Position(entries, target);
    SearchSplits(entries, target, 0, |entries|);
    LessTotal(target, target);
    if e :| e in entries && e.ownerHash == target {
      var k :| 0 <= k < |entries| && entries[k] == e;
      assert r <= k;
    }
  }

  /** The live entry for exactly this name. */
  function MatchOf(sha1: Bytes -> Hash, z: ZoneEntries, name: Name, now: int): (r: Option<Entry>)
    ensures r.Some? ==> r.value in z.entries && HashOf(sha1, name, z.params) == Some(r.value.ownerHash) && r.value.expiresAt > now
  {
    match HashOf(sha1, name, z.params)
    case None => None
    case Some(want) =>
      var i := Position(z.entries, want);
      if !FoundAt(z.entries, want, i) || z.entries[i].expiresAt <= now then None else Some(z.entries[i])
  }

  method MatchHash(sha1: Bytes -> Hash, z: ZoneEntries, name: Name, now: int) returns (r: Option<Entry>)
    ensures r == MatchOf(sha1, z, name, now)
  {
    var want := ComputeHash(sha1, name, z.params);
    if want.None? {
      return None;
    }
    var idx, found := BinarySearch(z.entries, want.value);
    if !found {
      return None;
    }
    var e := z.entries[idx];
    return if e.expiresAt > now then Some(e) else None;
  }

  predicate Covers(e: Entry, target: Hash, now: int, denyOptOut: bool) {
    e.expiresAt > now && !(denyOptOut && e.optOut) && IntervalContains(e.ownerHash, e.nextHash, target)
  }

  function FirstCover(entries: seq<Entry>, target: Hash, now: int, denyOptOut: bool): (r: Option<Entry>)
    ensures r.Some? ==> r.value in entries && Covers(r.value, target, now, denyOptOut)
    ensures r.None? ==> forall e :: e in entries ==> !Covers(e, target, now, denyOptOut)
  {
    if entries == [] then None
    else if Covers(entries[0], target, now, denyOptOut) then Some(entries[0])
    else FirstCover(entries[1..], target, now, denyOptOut)
  }

  /** The first live entry whose interval holds the hash of `name`. */
  function CoverOf(sha1: Bytes -> Hash, z: ZoneEntries, name: Name, now: int, denyOptOut: bool): Option<Entry> {
    match HashOf(sha1, name, z.params)
    case None => None
    case Some(target) => FirstCover(z.entries, target, now, denyOptOut)
  }

  method CoverHash(sha1: Bytes -> Hash, z: ZoneEntries, name: Name, now: int, denyOptOut: bool) returns (r: Option<Entry>)
    ensures r == CoverOf(sha1, z, name, now, denyOptOut)
  {
    var target := ComputeHash(sha1, name, z.params);
    if target.None? {
      return None;
    }
    var es := z.entries;
    var i := 0;
    while i < |es|
      invariant 0 <= i <= |es|
      invariant FirstCover(es, target.value, now, denyOptOut) == FirstCover(es[i..], target.value, now, denyOptOut)
    {
      assert es[i..][1..] == es[i + 1..];
      var e := es[i];
      if e.expiresAt > now && !(denyOptOut && e.optOut) && IntervalContains(e.ownerHash, e.nextHash, target.value) {
        return Some(e);
      }
      i := i + 1;
    }
    return None;
  }

  // ----- the closest-encloser proof -----

  /** The ancestor-or-self of `q` with `k + 1` labels. */
  function OneLabelLonger(q: Name, k: nat): Option<Name> {
    if Depth(q) > k + 1 then OneLabelLonger(q.parent, k) else if Depth(q) == k + 1 then Some(q) else None
  }

  method NextCloser(q: Name, encloser: Name) returns (r: Option<Name>)
    ensures r == OneLabelLonger(q, Depth(encloser))
  {
    var n := q;
    while Depth(n) > Depth(encloser) + 1
      invariant OneLabelLonger(q, Depth(encloser)) == OneLabelLonger(n, Depth(encloser))
      decreases Depth(n)
    {
      n := n.parent;
    }
    return if Depth(n) == Depth(encloser) + 1 then Some(n) else None;
  }

  predicate HasZeroOctet(n: Name) {
    n.Sub? && (0 in n.head || HasZeroOctet(n.parent))
  }

  /** The wildcard is built through the text form, which has no spelling for a wildcard at the
      root, nor for a name with a zero octet in a label. */
  function WildcardAt(encloser: Name): Option<Name> {
    if encloser.Root? || HasZeroOctet(encloser) || WireLen(encloser) + 2 > MAX_NAME then None
    else Some(Wildcard(encloser))
  }

  datatype Proof = Proof(matched: Entry, nextCloser: Entry, wildcard: Entry)

  function EncloserProof(sha1: Bytes -> Hash, z: ZoneEntries, q: Name, cur: Name, matched: Entry, now: int): Option<Proof> {
    match OneLabelLonger(q, Depth(cur))
    case None => None
    case Some(next) =>
      match CoverOf(sha1, z, next, now, true)
      case None => None
      case Some(nc) =>
        match WildcardAt(cur)
        case None => None
        case Some(wild) =>
          match CoverOf(sha1, z, wild, now, true)
          case None => None
          case Some(wc) => Some(Proof(matched, nc, wc))
  }

  /** The proof found by climbing from `cur` to the first matched ancestor. */
  function ProofFrom(sha1: Bytes -> Hash, z: ZoneEntries, q: Name, cur: Name, now: int): Option<Proof>
    decreases cur
  {
    match MatchOf(sha1, z, cur, now)
    case Some(m) => EncloserProof(sha1, z, q, cur, m, now)
    case None => if cur.Root? then None else ProofFrom(sha1, z, q, cur.parent, now)
  }

  method ProveAt(sha1: Bytes -> Hash, z: ZoneEntries, q: Name, cur: Name, matched: Entry, now: int) returns (r: Option<Proof>)
    ensures r == EncloserProof(sha1, z, q, cur, matched, now)
  {
    var next := NextCloser(q, cur);
    if next.None? {
      return None;
    }
    var nc := CoverHash(sha1, z, next.value, now, true);
    if nc.None? {
      return None;
    }
    var wild := WildcardAt(cur);
    if wild.None? {
      return None;
    }
    var wc := CoverHash(sha1, z, wild.value, now, true);
    if wc.None? {
      return None;
    }
    return Some(Proof(matched, nc.value, wc.value));
  }

  method ClosestEncloserProof(sha1: Bytes -> Hash, z: ZoneEntries, q: Name, now: int) returns (r: Option<Proof>)
    ensures r == ProofFrom(sha1, z, q, q, now)
  {
    var cur := q;
    while true
      invariant ProofFrom(sha1, z, q, q, now) == ProofFrom(sha1, z, q, cur, now)
      decreases cur
    {
      var m := MatchHash(sha1, z, cur, now);
      if m.Some? {
        r := ProveAt(sha1, z, q, cur, m.value, now);
        return;
      }
      if cur.Root? {
        return None;
      }
      cur := cur.parent;
    }
  }

  // ----- the verdict -----

  datatype Verdict = NoProof | NoData(entry: Entry) | NameError(proof: Proof)

  predicate DeniesType(e: Entry, qtype: uint16) {
    TYPE_CNAME !in e.types && qtype !in e.types
  }

  function VerdictIn(sha1: Bytes -> Hash, z: ZoneEntries, q: Name, qtype: uint16, now: int): Verdict {
    var m := MatchOf(sha1, z, q, now);
    if m.Some? && DeniesType(m.value, qtype) then NoData(m.value)
    else
      match ProofFrom(sha1, z, q, q, now)
      case None => NoProof
      case Some(p) => NameError(p)
  }

  function VerdictOf(sha1: Bytes -> Hash, zones: ZoneTable, apex: Name, q: Name, qtype: uint16, now: int): Verdict {
    if apex !in zones then NoProof else VerdictIn(sha1, zones[apex], q, qtype, now)
  }

  function HasZone(zones: ZoneTable): Name -> bool {
    (n: Name) => n in zones
  }

  // ----- changing the index -----

  function Live(now: int): Entry -> bool {
    (e: Entry) => e.expiresAt > now
  }

  function LiveEntries(entries: seq<Entry>, now: int): seq<Entry> {
    Filter(entries, Live(now))
  }

  function Inserted(entries: seq<Entry>, i: nat, e: Entry): (r: seq<Entry>)
    requires i <= |entries|
    ensures |r| == |entries| + 1 && forall x :: x in r <==> x == e || x in entries
  {
    assert entries == entries[..i] + entries[i..];
    entries[..i] + ([e] + entries[i..])
  }

  function Removed(entries: seq<Entry>, i: nat): (r: seq<Entry>)
    requires i < |entries|
    ensures |r| == |entries| - 1 && forall x :: x in r ==> x in entries
  {
    entries[..i] + entries[i + 1..]
  }

  /** Only live entries stay, and only zones that still have some. */
  function Swept(zones: ZoneTable, now: int): ZoneTable {
    map k | k in zones && LiveEntries(zones[k].entries, now) != []
      :: ZoneEntries(zones[k].params, LiveEntries(zones[k].entries, now))
  }

  ghost predicate Soonest(zones: ZoneTable, k: Name, j: nat) {
    && k in zones && j < |zones[k].entries|
    && forall n, e :: n in zones && e in zones[n].entries ==> zones[k].entries[j].expiresAt <= e.expiresAt
  }

  function Without(zones: ZoneTable, k: Name, j: nat): ZoneTable
    requires k in zones && j < |zones[k].entries|
  {
    if |zones[k].entries| == 1 then zones - {k}
    else zones[k := ZoneEntries(zones[k].params, Removed(zones[k].entries, j))]
  }

  ghost predicate NoEntries(zones: ZoneTable) {
    forall n :: n in zones ==> zones[n].entries == []
  }

  /** One soonest-expiring entry goes, if there is any. */
  ghost predicate Evicts(zones: ZoneTable, after: ZoneTable) {
    if NoEntries(zones) then after == zones
    else exists k, j :: Soonest(zones, k, j) && after == Without(zones, k, j)
  }

  /** The number of entries in all zones. */
  ghost function Total(zones: ZoneTable): nat {
    if zones == map[] then 0
    else
      var k :| k in zones;
      |zones[k].entries| + Total(zones - {k})
  }

  /** The bucket an entry goes to: a parameter change empties it. */
  function WithZone(zones: ZoneTable, key: Name, params: Params): (r: ZoneTable)
    ensures key in r && r[key].params == params
  {
    if key in zones && zones[key].params == params then zones else zones[key := ZoneEntries(params, [])]
  }

  function WithEntryAt(zones: ZoneTable, key: Name, i: nat, e: Entry): ZoneTable
    requires key in zones && i <= |zones[key].entries|
  {
    zones[key := zones[key].(entries := Inserted(zones[key].entries, i, e))]
  }

  ghost predicate AtCap(zones: ZoneTable, maxLen: nat) {
    maxLen > 0 && Total(zones) >= maxLen
  }

  datatype Outcome = Kept | Lost | Panicked

  /** Storing at a position computed before the last sweep: the sweep may have shortened the bucket
      under it, or dropped the bucket from the index altogether. */
  function StoreAt(zones: ZoneTable, key: Name, i: nat, e: Entry): (ZoneTable, Outcome) {
    var len := if key in zones then |zones[key].entries| else 0;
    if i > len then (zones, Panicked)
    else if key !in zones then (zones, Lost)
    else (WithEntryAt(zones, key, i, e), Kept)
  }

  /** Storing after an eviction, at a fresh position. */
  function StoreFresh(zones: ZoneTable, key: Name, params: Params, e: Entry): ZoneTable {
    var z := if key in zones then zones else zones[key := ZoneEntries(params, [])];
    WithEntryAt(z, key, Position(z[key].entries, e.ownerHash), e)
  }

  /** Making room for a new entry and storing it. */
  ghost predicate Adds(zones: ZoneTable, maxLen: nat, key: Name, params: Params, e: Entry, now: int, after: ZoneTable, out: Outcome)
    requires key in zones
  {
    var swept := if AtCap(zones, maxLen) then Swept(zones, now) else zones;
    if AtCap(swept, maxLen) then
      out == Kept && exists evicted :: Evicts(swept, evicted) && after == StoreFresh(evicted, key, params, e)
    else (after, out) == StoreAt(swept, key, Position(zones[key].entries, e.ownerHash), e)
  }

  /** One insertion, from the index before to the index after. */
  ghost predicate Inserts(zones: ZoneTable, maxLen: nat, key: Name, params: Params, e: Entry, now: int, after: ZoneTable, out: Outcome) {
    if !Usable(params) then after == zones && out == Lost
    else
      var z := WithZone(zones, key, params);
      var i := Position(z[key].entries, e.ownerHash);
      if FoundAt(z[key].entries, e.ownerHash, i) then
        out == Kept && after == z[key := z[key].(entries := z[key].entries[i := e])]
      else Adds(z, maxLen, key, params, e, now, after, out)
  }
}
