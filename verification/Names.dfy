/** Domain names.  A name is the root or a label in front of its parent; stored names are
    canonical (lower case), so name equality is structural. */
module Names {
  type byte = x: int | 0 <= x < 0x100
  type uint16 = x: int | 0 <= x < 0x1_0000
  type uint32 = x: int | 0 <= x < 0x1_0000_0000

  type Label = seq<byte>
  datatype Name = Root | Sub(head: Label, parent: Name)

  datatype Option<+T> = None | Some(value: T)

  const MAX_LABEL: nat := 63
  const MAX_NAME: nat := 255
  const STAR: Label := [42]

  /** One to 63 octets, with upper-case ASCII folded away. */
  predicate ValidLabel(l: Label) {
    1 <= |l| <= MAX_LABEL && forall i :: 0 <= i < |l| ==> !(65 <= l[i] <= 90)
  }

  predicate ValidLabels(n: Name) {
    n.Sub? ==> ValidLabel(n.head) && ValidLabels(n.parent)
  }

  function WireLen(n: Name): (r: nat)
    ensures r >= 1
  {
    match n
    case Root => 1
    case Sub(l, p) => 1 + |l| + WireLen(p)
  }

  /** What every constructor of a name enforces. */
  predicate Representable(n: Name) {
    ValidLabels(n) && WireLen(n) <= MAX_NAME
  }

  /** The uncompressed wire form: length-prefixed labels and a terminating zero.  The length
      octet is the low byte of the label length. */
  function Wire(n: Name): (w: seq<byte>)
    ensures |w| == WireLen(n)
  {
    match n
    case Root => [0]
    case Sub(l, p) => [|l| % 0x100] + l + Wire(p)
  }

  function Depth(n: Name): nat {
    if n.Root? then 0 else 1 + Depth(n.parent)
  }

  /** `n` is `anc` itself or one of its descendants. */
  predicate AtOrBelow(n: Name, anc: Name) {
    n == anc || (n.Sub? && AtOrBelow(n.parent, anc))
  }

  predicate StrictlyBelow(n: Name, anc: Name) {
    n.Sub? && AtOrBelow(n.parent, anc)
  }

  function Wildcard(n: Name): Name {
    Sub(STAR, n)
  }

  lemma {:induction false} AtOrBelowRoot(n: Name)
    ensures AtOrBelow(n, Root)
  {
    if n.Sub? {
      AtOrBelowRoot(n.parent);
    }
  }

  lemma {:induction false} AtOrBelowTransitive(a: Name, b: Name, c: Name)
    requires AtOrBelow(a, b) && AtOrBelow(b, c)
    ensures AtOrBelow(a, c)
  {
    if a != b {
      AtOrBelowTransitive(a.parent, b, c);
    }
  }

  lemma {:induction false} AtOrBelowDepth(n: Name, anc: Name)
    requires AtOrBelow(n, anc)
    ensures Depth(anc) <= Depth(n)
    ensures Depth(anc) == Depth(n) <==> anc == n
  {
    if n != anc {
      AtOrBelowDepth(n.parent, anc);
    }
  }

  /** Two ancestors of one name are themselves related. */
  lemma {:induction false} AncestorsNested(n: Name, a: Name, b: Name)
    requires AtOrBelow(n, a) && AtOrBelow(n, b) && Depth(a) <= Depth(b)
    ensures AtOrBelow(b, a)
  {
    if n == a {
      AtOrBelowDepth(n, b);
    } else if n != b {
      AncestorsNested(n.parent, a, b);
    }
  }

  lemma LabelSplits(l: Label, m: Label, s: seq<byte>, t: seq<byte>)
    requires |l| <= MAX_LABEL && |m| <= MAX_LABEL && [|l| % 0x100] + (l + s) == [|m| % 0x100] + (m + t)
    ensures l == m && s == t
  {
    var x, y := [|l| % 0x100] + (l + s), [|m| % 0x100] + (m + t);
    assert x[0] == y[0];
    assert x[1..|l| + 1] == l && y[1..|m| + 1] == m;
    assert x[|l| + 1..] == s && y[|m| + 1..] == t;
  }

  lemma WireSplits(n: Name, s: seq<byte>)
    requires n.Sub?
    ensures Wire(n) + s == [|n.head| % 0x100] + (n.head + (Wire(n.parent) + s))
  {
  }

  /** The wire form is prefix-free: it identifies its name and the bytes behind it.  This is
      what makes the wire form usable as a map key, and as a prefix of a longer key. */
  lemma {:induction false} WirePrefixFree(a: Name, b: Name, s: seq<byte>, t: seq<byte>)
    requires ValidLabels(a) && ValidLabels(b)
    requires Wire(a) + s == Wire(b) + t
    ensures a == b && s == t
  {
    assert (Wire(a) + s)[0] == (Wire(b) + t)[0];
    if a.Root? {
      assert (Wire(a) + s)[1..] == s && (Wire(b) + t)[1..] == t;
    } else {
      WireSplits(a, s);
      WireSplits(b, t);
      LabelSplits(a.head, b.head, Wire(a.parent) + s, Wire(b.parent) + t);
      WirePrefixFree(a.parent, b.parent, s, t);
    }
  }

  /** The bailiwick walk: climb from `name` until `origin` or the root. */
  method InBailiwick(origin: Name, name: Name) returns (b: bool)
    ensures b <==> AtOrBelow(name, origin)
  {
    var cur := name;
    while true
      invariant AtOrBelow(name, origin) <==> AtOrBelow(cur, origin)
      decreases cur
    {
      if cur == origin {
        return true;
      }
      if cur.Root? {
        return false;
      }
      cur := cur.parent;
    }
  }

  /** The closest ancestor-or-self of `n` satisfying `p`, found by climbing. */
  function Nearest(n: Name, p: Name -> bool): (r: Option<Name>)
    ensures r.Some? ==> AtOrBelow(n, r.value) && p(r.value)
  {
    if p(n) then Some(n) else if n.Root? then None else Nearest(n.parent, p)
  }

  /** `Nearest` is exactly the deepest satisfying ancestor-or-self. */
  lemma {:induction false} NearestIsDeepest(n: Name, p: Name -> bool, c: Name)
    requires AtOrBelow(n, c) && p(c)
    ensures Nearest(n, p).Some? && AtOrBelow(Nearest(n, p).value, c)
  {
    if !p(n) {
      NearestIsDeepest(n.parent, p, c);
    }
  }

  lemma {:induction false} NearestAgrees(n: Name, p: Name -> bool, q: Name -> bool)
    requires forall c :: AtOrBelow(n, c) ==> p(c) == q(c)
    ensures Nearest(n, p) == Nearest(n, q)
  {
    assert AtOrBelow(n, n);
    if !p(n) && n.Sub? {
      NearestAgrees(n.parent, p, q);
    }
  }
}
