/** The byte strings used as map keys identify what they are made from. */
module Keys {
  import opened Names
  import opened WireDecode

  const BAR: byte := 124

  /** The mnemonics of types and classes, a table each: different values read differently, and none
      contains a bar. */
  datatype Texts = Texts(kind: uint16 -> Bytes, cls: uint16 -> Bytes)

  ghost predicate Telling(text: uint16 -> Bytes) {
    && (forall a, b :: text(a) == text(b) ==> a == b)
    && forall a :: BAR !in text(a)
  }

  datatype Question = Question(name: Name, kind: uint16, cls: uint16, dnssecOk: bool)

  /** The forwarder's key for a query that may be shared. */
  function ForwardKey(t: Texts, q: Question): Bytes {
    Wire(q.name) + ([BAR] + (t.kind(q.kind) + ([BAR] + (t.cls(q.cls) + [BAR, if q.dnssecOk then 49 else 48]))))
  }

  /** The recursive resolver's cache key. */
  function CacheKey(t: Texts, name: Name, cls: uint16, kind: uint16): Bytes {
    Wire(name) + ([BAR] + (t.cls(cls) + ([BAR] + t.kind(kind))))
  }

  function Decimal(n: nat): (d: Bytes)
    ensures d != []
  {
    if n < 10 then [48 + n] else Decimal(n / 10) + [48 + n % 10]
  }

  /** The recursive resolver's key for a resolution that may be shared. */
  function ResolveKey(name: Name, kind: uint16): Bytes {
    Wire(name) + ([0] + Decimal(kind))
  }

  lemma BarNotLater(a: Bytes, b: Bytes, s: Bytes, t: Bytes)
    requires BAR !in b && a + ([BAR] + s) == b + ([BAR] + t)
    ensures |b| <= |a|
  {
    assert forall i :: 0 <= i < |b| ==> (b + ([BAR] + t))[i] == b[i];
    assert (a + ([BAR] + s))[|a|] == BAR;
  }

  lemma BarSplits(a: Bytes, b: Bytes, s: Bytes, t: Bytes)
    requires BAR !in a && BAR !in b && a + ([BAR] + s) == b + ([BAR] + t)
    ensures a == b && s == t
  {
    BarNotLater(a, b, s, t);
    BarNotLater(b, a, t, s);
    var x, y := a + ([BAR] + s), b + ([BAR] + t);
    assert x[..|a|] == a && y[..|b|] == b;
    assert x[|a| + 1..] == s && y[|b| + 1..] == t;
  }

  lemma HeadSplits(s: Bytes, t: Bytes, c: byte)
    requires [c] + s == [c] + t
    ensures s == t
  {
    assert ([c] + s)[1..] == s && ([c] + t)[1..] == t;
  }

  lemma ForwardKeyInjective(t: Texts, a: Question, b: Question)
    requires Telling(t.kind) && Telling(t.cls) && ValidLabels(a.name) && ValidLabels(b.name)
    requires ForwardKey(t, a) == ForwardKey(t, b)
    ensures a == b
  {
    hide Wire, ValidLabels;
    var fa, fb := [BAR, if a.dnssecOk then 49 else 48], [BAR, if b.dnssecOk then 49 else 48];
    var ca, cb := t.cls(a.cls) + fa, t.cls(b.cls) + fb;
    var ka, kb := t.kind(a.kind) + ([BAR] + ca), t.kind(b.kind) + ([BAR] + cb);
    WirePrefixFree(a.name, b.name, [BAR] + ka, [BAR] + kb);
    HeadSplits(ka, kb, BAR);
    BarSplits(t.kind(a.kind), t.kind(b.kind), ca, cb);
    assert fa == [BAR] + [if a.dnssecOk then 49 else 48] && fb == [BAR] + [if b.dnssecOk then 49 else 48];
    BarSplits(t.cls(a.cls), t.cls(b.cls), [if a.dnssecOk then 49 else 48], [if b.dnssecOk then 49 else 48]);
  }

  lemma CacheKeyInjective(t: Texts, n: Name, c: uint16, k: uint16, n': Name, c': uint16, k': uint16)
    requires Telling(t.kind) && Telling(t.cls) && ValidLabels(n) && ValidLabels(n')
    requires CacheKey(t, n, c, k) == CacheKey(t, n', c', k')
    ensures n == n' && c == c' && k == k'
  {
    hide Wire, ValidLabels;
    var r, r' := t.cls(c) + ([BAR] + t.kind(k)), t.cls(c') + ([BAR] + t.kind(k'));
    WirePrefixFree(n, n', [BAR] + r, [BAR] + r');
    HeadSplits(r, r', BAR);
    BarSplits(t.cls(c), t.cls(c'), t.kind(k), t.kind(k'));
  }

  function ValueOf(d: Bytes): int {
    if d == [] then 0 else ValueOf(d[..|d| - 1]) * 10 + (d[|d| - 1] as int - 48)
  }

  lemma {:induction false} DecimalReads(n: nat)
    ensures ValueOf(Decimal(n)) == n
  {
    var d := Decimal(n);
    if n < 10 {
      assert d[..0] == [];
      assert ValueOf(d) == ValueOf([]) * 10 + n;
    } else {
      DecimalReads(n / 10);
      assert d[..|d| - 1] == Decimal(n / 10);
    }
  }

  lemma ResolveKeyInjective(a: Name, ka: uint16, b: Name, kb: uint16)
    requires ValidLabels(a) && ValidLabels(b) && ResolveKey(a, ka) == ResolveKey(b, kb)
    ensures a == b && ka == kb
  {
    hide Wire, ValidLabels, Decimal;
    WirePrefixFree(a, b, [0] + Decimal(ka), [0] + Decimal(kb));
    HeadSplits(Decimal(ka), Decimal(kb), 0);
    DecimalReads(ka);
    DecimalReads(kb);
  }
}
