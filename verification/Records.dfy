/** Resource records and the sequence helpers every section walk uses. */
module Records {
  import opened Names

  const TYPE_A: uint16 := 1
  const TYPE_NS: uint16 := 2
  const TYPE_CNAME: uint16 := 5
  const TYPE_SOA: uint16 := 6
  const TYPE_AAAA: uint16 := 28
  const TYPE_DNAME: uint16 := 39
  const TYPE_OPT: uint16 := 41
  const TYPE_RRSIG: uint16 := 46
  const TYPE_NSEC: uint16 := 47
  const TYPE_NSEC3: uint16 := 50
  const TYPE_ANY: uint16 := 255

  const CLASS_IN: uint16 := 1
  const CLASS_NONE: uint16 := 254
  const CLASS_ANY: uint16 := 255

  /** Durations and instants are integers counting nanoseconds. */
  const SECOND: int := 1_000_000_000

  /** Start-of-authority data; the four timers are durations. */
  datatype SOA = SOA(
    mname: Name, rname: Name, serial: uint32,
    refresh: nat, retry: nat, expire: nat, minimum: nat)

  /** Record data.  `Opaque` carries every type without a structure of interest here, and also
      the empty payload that any type decodes to when its length on the wire is zero: such a
      record has the type but is not an SOA, CNAME, NS or DNAME value. */
  datatype RData =
    | SoaData(soa: SOA)
    | CnameData(target: Name)
    | NsData(target: Name)
    | DnameData(target: Name)
    | Opaque(kind: uint16, bytes: seq<byte>)
  {
    function Type(): uint16 {
      match this
      case SoaData(_) => TYPE_SOA
      case CnameData(_) => TYPE_CNAME
      case NsData(_) => TYPE_NS
      case DnameData(_) => TYPE_DNAME
      case Opaque(k, _) => k
    }

  }

  datatype Record = Record(name: Name, cls: uint16, ttl: int, rdata: RData) {
    function Type(): uint16 { rdata.Type() }
  }

  datatype Rcode = NoError | FormErr | ServFail | NXDomain | Refused | YXDomain | YXRRSet | NXRRSet | NotAuth | NotZone

  function U32(v: nat): (b: seq<byte>)
    ensures |b| == 4
  {
    [v / 0x100_0000 % 0x100, v / 0x1_0000 % 0x100, v / 0x100 % 0x100, v % 0x100]
  }

  /** The second name of an SOA, compressed against the first one, which starts at offset 0:
      at its first suffix that is also a suffix of `first` it turns into a pointer. */
  function PackAfter(first: Name, n: Name): (w: seq<byte>)
    ensures |w| > 0
  {
    if n.Root? then [0]
    else if AtOrBelow(first, n) then
      [0xc0 + (WireLen(first) - WireLen(n)) / 0x100 % 0x40, (WireLen(first) - WireLen(n)) % 0x100]
    else [|n.head| % 0x100] + n.head + PackAfter(first, n.parent)
  }

  /** The wire form of the data alone. */
  function Pack(d: RData): (w: seq<byte>)
    ensures |w| == 0 <==> d.Opaque? && d.bytes == []
  {
    match d
    case SoaData(s) =>
      Wire(s.mname) + PackAfter(s.mname, s.rname) + U32(s.serial)
      + U32(s.refresh / SECOND) + U32(s.retry / SECOND) + U32(s.expire / SECOND) + U32(s.minimum / SECOND)
    case Opaque(_, b) => b
    case _ => Wire(d.target)
  }

  predicate HasRData(r: Record)
  {
    |Pack(r.rdata)| > 0
  }

  predicate RDataEqual(a: RData, b: RData)
  {
    a.Type() == b.Type() && Pack(a) == Pack(b)
  }

  // ----- sequences -----

  /** The elements of `s` satisfying `p`, in order. */
  function Filter<T(!new)>(s: seq<T>, p: T -> bool): (r: seq<T>)
    ensures |r| <= |s|
  {
    if s == [] then []
    else Filter(s[..|s| - 1], p) + (if p(s[|s| - 1]) then [s[|s| - 1]] else [])
  }

  lemma {:induction false} FilterMember<T(!new)>(s: seq<T>, p: T -> bool)
    ensures forall x :: x in Filter(s, p) <==> x in s && p(x)
  {
    if s != [] {
      assert s == s[..|s| - 1] + [s[|s| - 1]];
      FilterMember(s[..|s| - 1], p);
    }
  }

  lemma FilterSnoc<T(!new)>(s: seq<T>, x: T, p: T -> bool)
    ensures Filter(s + [x], p) == Filter(s, p) + (if p(x) then [x] else [])
  {
    assert (s + [x])[..|s|] == s;
  }

  lemma FilterPrefix<T(!new)>(s: seq<T>, i: nat, p: T -> bool)
    requires i < |s|
    ensures Filter(s[..i + 1], p) == Filter(s[..i], p) + (if p(s[i]) then [s[i]] else [])
  {
    assert s[..i + 1] == s[..i] + [s[i]];
    FilterSnoc(s[..i], s[i], p);
  }

  lemma {:induction false} FilterConcat<T(!new)>(s: seq<T>, t: seq<T>, p: T -> bool)
    ensures Filter(s + t, p) == Filter(s, p) + Filter(t, p)
    decreases |t|
  {
    if t == [] {
      assert s + t == s;
    } else {
      var t', x := t[..|t| - 1], t[|t| - 1];
      assert s + t == (s + t') + [x] && t == t' + [x];
      FilterSnoc(s + t', x, p);
      FilterSnoc(t', x, p);
      FilterConcat(s, t', p);
    }
  }

  lemma {:induction false} FilterAll<T(!new)>(s: seq<T>, p: T -> bool)
    ensures |Filter(s, p)| == |s| <==> forall x :: x in s ==> p(x)
    ensures |Filter(s, p)| == |s| ==> Filter(s, p) == s
  {
    if s != [] {
      var s', x := s[..|s| - 1], s[|s| - 1];
      assert s == s' + [x];
      FilterAll(s', p);
    }
  }

  lemma {:induction false} FilterNone<T(!new)>(s: seq<T>, p: T -> bool)
    requires forall x :: x in s ==> !p(x)
    ensures Filter(s, p) == []
  {
    if s != [] {
      assert s == s[..|s| - 1] + [s[|s| - 1]];
      FilterNone(s[..|s| - 1], p);
    }
  }

  /** Two predicates that agree on the elements filter alike. */
  lemma {:induction false} FilterAgrees<T(!new)>(s: seq<T>, p: T -> bool, q: T -> bool)
    requires forall x :: x in s ==> p(x) == q(x)
    ensures Filter(s, p) == Filter(s, q)
  {
    if s != [] {
      assert s == s[..|s| - 1] + [s[|s| - 1]];
      FilterAgrees(s[..|s| - 1], p, q);
    }
  }

  /** Filtering twice is filtering by the conjunction. */
  lemma {:induction false} FilterFilter<T(!new)>(s: seq<T>, p: T -> bool, q: T -> bool, both: T -> bool)
    requires forall x :: x in s ==> both(x) == (p(x) && q(x))
    ensures Filter(Filter(s, p), q) == Filter(s, both)
  {
    if s != [] {
      var s', x := s[..|s| - 1], s[|s| - 1];
      assert x in s && forall y :: y in s' ==> y in s;
      FilterFilter(s', p, q, both);
      if p(x) {
        FilterSnoc(Filter(s', p), x, q);
      } else {
        assert Filter(s, p) == Filter(s', p);
      }
    }
  }

  /** The concatenation of a sequence of sequences. */
  function Flatten<T>(ss: seq<seq<T>>): seq<T> {
    if ss == [] then [] else ss[0] + Flatten(ss[1..])
  }

  lemma {:induction false} FlattenConcat<T>(a: seq<seq<T>>, b: seq<seq<T>>)
    ensures Flatten(a + b) == Flatten(a) + Flatten(b)
  {
    if a == [] {
      assert a + b == b;
    } else {
      assert (a + b)[1..] == a[1..] + b;
      FlattenConcat(a[1..], b);
    }
  }

  lemma FlattenSnoc<T>(a: seq<seq<T>>, x: seq<T>)
    ensures Flatten(a + [x]) == Flatten(a) + x
  {
    FlattenConcat(a, [x]);
    assert Flatten([x]) == x + Flatten([]);
  }

  // ----- record predicates used as filters -----

  function OfType(t: uint16): Record -> bool {
    (r: Record) => r.Type() == t
  }

  function NotOfType(t: uint16): Record -> bool {
    (r: Record) => r.Type() != t
  }

  function OwnedBy(n: Name): Record -> bool {
    (r: Record) => r.name == n
  }

  /** The first SOA value among the records, whoever owns it. */
  function FirstSoa(records: seq<Record>): (s: Option<Record>)
    ensures s.Some? ==> s.value in records && s.value.rdata.SoaData?
  {
    if records == [] then None
    else if records[0].rdata.SoaData? then Some(records[0])
    else FirstSoa(records[1..])
  }

  /** The i-th element is the first one satisfying `p`. */
  ghost predicate FirstAt<T(!new)>(s: seq<T>, p: T -> bool, i: nat) {
    i < |s| && p(s[i]) && forall j :: 0 <= j < i ==> !p(s[j])
  }

  /** Dropping a head that does not satisfy `p` moves the first one up. */
  lemma FirstShifts<T(!new)>(s: seq<T>, p: T -> bool, i: nat)
    requires s != [] && !p(s[0])
    ensures FirstAt(s[1..], p, i) <==> FirstAt(s, p, i + 1)
  {
    var t := s[1..];
    assert forall j :: 0 <= j < |t| ==> t[j] == s[j + 1];
    if FirstAt(s, p, i + 1) {
      forall j | 0 <= j < i
        ensures !p(t[j])
      {
        assert !p(s[j + 1]);
      }
    }
  }

  function IsSoa(): Record -> bool {
    (r: Record) => r.rdata.SoaData?
  }

  lemma {:induction false} FirstSoaExactly(records: seq<Record>, i: nat)
    ensures FirstAt(records, IsSoa(), i) ==> FirstSoa(records) == Some(records[i])
    ensures FirstSoa(records).None? <==> forall r :: r in records ==> !r.rdata.SoaData?
  {
    if records != [] && !records[0].rdata.SoaData? {
      if i > 0 {
        FirstShifts(records, IsSoa(), i - 1);
      }
      FirstSoaExactly(records[1..], if i > 0 then i - 1 else 0);
      assert records == [records[0]] + records[1..];
    } else if records != [] {
      assert records[0] in records;
    }
  }

  // ----- sizes -----

  lemma ProperSubsetSmaller<T>(a: set<T>, b: set<T>, x: T)
    requires a <= b && x in b && x !in a
    ensures |a| < |b|
  {
    SubsetSize(a, b - {x});
  }

  lemma {:induction false} SubsetSize<T>(a: set<T>, b: set<T>)
    requires a <= b
    ensures |a| <= |b|
  {
    if x :| x in a {
      SubsetSize(a - {x}, b - {x});
    }
  }

  lemma KeysSize<K, V>(a: map<K, V>, b: map<K, V>)
    requires forall k :: k in a ==> k in b
    ensures |a| <= |b|
  {
    assert |a| == |a.Keys| && |b| == |b.Keys|;
    SubsetSize(a.Keys, b.Keys);
  }
}
