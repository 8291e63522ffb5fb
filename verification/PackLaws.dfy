/** Packed data determines the data: comparing wire forms, as updates and prerequisites do, is comparing
    values. */
module PackLaws {
  import opened Names
  import opened Records
  import opened Octets

  /** Data as it is read from a message: proper names, timers of whole seconds that fit 32 bits, and
      bytes without structure only where the type has none. */
  ghost predicate Readable(d: RData) {
    match d
    case SoaData(s) =>
      && Representable(s.mname) && Representable(s.rname)
      && Timer(s.refresh) && Timer(s.retry) && Timer(s.expire) && Timer(s.minimum)
    case Opaque(k, b) => k == TYPE_SOA || k == TYPE_CNAME || k == TYPE_NS || k == TYPE_DNAME ==> b == []
    case _ => Representable(d.target)
  }

  predicate Timer(ns: nat) {
    ns % SECOND == 0 && ns / SECOND < 0x1_0000_0000
  }

  lemma U32Splits(a: nat, b: nat, s: seq<byte>, t: seq<byte>)
    requires a < 0x1_0000_0000 && b < 0x1_0000_0000 && U32(a) + s == U32(b) + t
    ensures a == b && s == t
  {
    hide U32, BigEndian, Range;
    U32Octets(a);
    U32Octets(b);
    Ranges();
    BigEndianSplits(a, b, 4, s, t);
  }

  lemma TimerSplits(a: nat, b: nat, s: seq<byte>, t: seq<byte>)
    requires Timer(a) && Timer(b) && U32(a / SECOND) + s == U32(b / SECOND) + t
    ensures a == b && s == t
  {
    hide U32;
    U32Splits(a / SECOND, b / SECOND, s, t);
  }

  lemma {:induction false} AncestorShorter(n: Name, anc: Name)
    requires AtOrBelow(n, anc)
    ensures WireLen(anc) <= WireLen(n) && (WireLen(anc) == WireLen(n) ==> anc == n)
  {
    if n != anc {
      AncestorShorter(n.parent, anc);
    }
  }

  /** A pointer into a name determines the suffix it points at. */
  lemma SuffixByLength(first: Name, a: Name, b: Name)
    requires AtOrBelow(first, a) && AtOrBelow(first, b) && WireLen(a) == WireLen(b)
    ensures a == b
  {
    if Depth(a) <= Depth(b) {
      AncestorsNested(first, a, b);
      AncestorShorter(b, a);
    } else {
      AncestorsNested(first, b, a);
      AncestorShorter(a, b);
    }
  }

  lemma PointerOctets(p: nat, q: nat, s: seq<byte>, t: seq<byte>)
    requires p <= MAX_NAME && q <= MAX_NAME
    requires [0xc0 + p / 0x100 % 0x40, p % 0x100] + s == [0xc0 + q / 0x100 % 0x40, q % 0x100] + t
    ensures p == q && s == t
  {
    var x, y := [0xc0 + p / 0x100 % 0x40, p % 0x100] + s, [0xc0 + q / 0x100 % 0x40, q % 0x100] + t;
    assert x[1] == y[1] && x[2..] == s && y[2..] == t;
  }

  lemma PointerSplits(first: Name, a: Name, b: Name, s: seq<byte>, t: seq<byte>)
    requires WireLen(first) <= MAX_NAME && a.Sub? && b.Sub? && AtOrBelow(first, a) && AtOrBelow(first, b)
    requires PackAfter(first, a) + s == PackAfter(first, b) + t
    ensures a == b && s == t
  {
    hide WireLen, AtOrBelow;
    AncestorShorter(first, a);
    AncestorShorter(first, b);
    PointerOctets(WireLen(first) - WireLen(a), WireLen(first) - WireLen(b), s, t);
    SuffixByLength(first, a, b);
  }

  lemma PackAfterStarts(first: Name, n: Name)
    requires ValidLabels(n)
    ensures n.Root? ==> PackAfter(first, n) == [0]
    ensures n.Sub? && AtOrBelow(first, n) ==> PackAfter(first, n)[0] >= 0xc0
    ensures n.Sub? && !AtOrBelow(first, n) ==> 0 < PackAfter(first, n)[0] <= MAX_LABEL
  {
  }

  lemma PackAfterLabel(first: Name, n: Name, s: seq<byte>)
    requires n.Sub? && !AtOrBelow(first, n)
    ensures PackAfter(first, n) + s == [|n.head| % 0x100] + (n.head + (PackAfter(first, n.parent) + s))
  {
    hide AtOrBelow;
  }

  lemma {:induction false} PackAfterPrefixFree(first: Name, a: Name, b: Name, s: seq<byte>, t: seq<byte>)
    requires WireLen(first) <= MAX_NAME && ValidLabels(a) && ValidLabels(b)
    requires PackAfter(first, a) + s == PackAfter(first, b) + t
    ensures a == b && s == t
    decreases a
  {
    hide PackAfter, AtOrBelow;
    var x, y := PackAfter(first, a) + s, PackAfter(first, b) + t;
    PackAfterStarts(first, a);
    PackAfterStarts(first, b);
    assert x[0] == y[0];
    if a.Root? {
      assert x[1..] == s && y[1..] == t;
    } else if AtOrBelow(first, a) {
      PointerSplits(first, a, b, s, t);
    } else {
      PackAfterLabel(first, a, s);
      PackAfterLabel(first, b, t);
      LabelSplits(a.head, b.head, PackAfter(first, a.parent) + s, PackAfter(first, b.parent) + t);
      PackAfterPrefixFree(first, a.parent, b.parent, s, t);
    }
  }

  function Timers(s: SOA): seq<byte> {
    U32(s.refresh / SECOND) + (U32(s.retry / SECOND) + (U32(s.expire / SECOND) + (U32(s.minimum / SECOND) + [])))
  }

  lemma PackSplits(s: SOA)
    ensures Pack(SoaData(s)) == Wire(s.mname) + (PackAfter(s.mname, s.rname) + (U32(s.serial) + Timers(s)))
  {
    hide U32, Wire, PackAfter;
  }

  lemma SoaPackInjective(a: SOA, b: SOA)
    requires Readable(SoaData(a)) && Readable(SoaData(b)) && Pack(SoaData(a)) == Pack(SoaData(b))
    ensures a == b
  {
    hide U32, Wire, PackAfter, Timer, Pack;
    PackSplits(a);
    PackSplits(b);
    WirePrefixFree(a.mname, b.mname, PackAfter(a.mname, a.rname) + (U32(a.serial) + Timers(a)),
                   PackAfter(b.mname, b.rname) + (U32(b.serial) + Timers(b)));
    PackAfterPrefixFree(a.mname, a.rname, b.rname, U32(a.serial) + Timers(a), U32(b.serial) + Timers(b));
    U32Splits(a.serial, b.serial, Timers(a), Timers(b));
    TimersInjective(a, b);
  }

  lemma TimersInjective(a: SOA, b: SOA)
    requires Readable(SoaData(a)) && Readable(SoaData(b)) && Timers(a) == Timers(b)
    ensures a.refresh == b.refresh && a.retry == b.retry && a.expire == b.expire && a.minimum == b.minimum
  {
    hide U32, Timer;
    var x, y := U32(a.minimum / SECOND) + [], U32(b.minimum / SECOND) + [];
    TimerSplits(a.refresh, b.refresh, U32(a.retry / SECOND) + (U32(a.expire / SECOND) + x), U32(b.retry / SECOND) + (U32(b.expire / SECOND) + y));
    TimerSplits(a.retry, b.retry, U32(a.expire / SECOND) + x, U32(b.expire / SECOND) + y);
    TimerSplits(a.expire, b.expire, x, y);
    TimerSplits(a.minimum, b.minimum, [], []);
  }

  /** Data of one type packs alike exactly when it is equal. */
  lemma PackInjective(a: RData, b: RData)
    requires Readable(a) && Readable(b) && a.Type() == b.Type()
    ensures Pack(a) == Pack(b) <==> a == b
  {
    hide U32, Wire, PackAfter, Representable;
    if Pack(a) == Pack(b) {
      if a.SoaData? && b.SoaData? {
        SoaPackInjective(a.soa, b.soa);
      } else if !a.Opaque? && !b.Opaque? {
        TargetsEqual(a.target, b.target);
      }
    }
  }

  lemma TargetsEqual(a: Name, b: Name)
    requires Representable(a) && Representable(b) && Wire(a) == Wire(b)
    ensures a == b
  {
    assert Wire(a) + [] == Wire(a) && Wire(b) + [] == Wire(b);
    WirePrefixFree(a, b, [], []);
  }

  /** So comparing as updates do is equality of values. */
  lemma RDataEqualExactly(a: RData, b: RData)
    requires Readable(a) && Readable(b)
    ensures RDataEqual(a, b) <==> a == b
  {
    hide Pack, Readable;
    if a.Type() == b.Type() {
      PackInjective(a, b);
    }
  }
}
