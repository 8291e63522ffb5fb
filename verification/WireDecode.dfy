/** Reading names and integers out of message bytes, compression pointers included. */
module WireDecode {
  import opened Names

  type Bytes = seq<byte>

  const MAX_HOPS: nat := 32

  function U16(v: nat): (b: Bytes)
    ensures |b| == 2
  {
    [v / 0x100 % 0x100, v % 0x100]
  }

  function At16(msg: Bytes, i: nat): (v: uint16)
    requires i + 2 <= |msg|
  {
    msg[i] as int * 0x100 + msg[i + 1] as int
  }

  /** The target of the compression pointer at `cur`. */
  function Pointer(msg: Bytes, cur: nat): nat
    requires cur + 1 < |msg| && msg[cur] >= 0xc0
  {
    (msg[cur] as int - 0xc0) * 0x100 + msg[cur + 1] as int
  }

  function FoldByte(c: byte): byte {
    if 65 <= c <= 90 then c + 32 else c
  }

  function Folded(b: Bytes): (f: Bytes)
    ensures |f| == |b|
  {
    seq(|b|, i requires 0 <= i < |b| => FoldByte(b[i]))
  }

  /** The name at `cur` and the offset just behind its inline encoding.  Pointers must go
      backwards, at most 32 of them, and the whole name must fit 255 octets. */
  function DecodeAt(msg: Bytes, cur: nat, hops: nat, total: nat): (r: Option<(Name, nat)>)
    requires hops <= MAX_HOPS
    ensures r.Some? ==> cur < r.value.1 <= |msg|
    decreases MAX_HOPS - hops, |msg| - cur
  {
    if cur >= |msg| then None
    else
      var b := msg[cur];
      if b == 0 then
        if total + 1 > MAX_NAME then None else Some((Root, cur + 1))
      else if b < 0x40 then
        if cur + 1 + b > |msg| || total + 1 + b > MAX_NAME then None
        else
          match DecodeAt(msg, cur + 1 + b, hops, total + 1 + b)
          case None => None
          case Some((rest, end)) => Some((Sub(Folded(msg[cur + 1..cur + 1 + b]), rest), end))
      else if b >= 0xc0 && cur + 1 < |msg| then
        var ptr := Pointer(msg, cur);
        if ptr >= cur || hops == MAX_HOPS then None
        else
          match DecodeAt(msg, ptr, hops + 1, total)
          case None => None
          case Some((n, _)) => Some((n, cur + 2))
      else None
  }

  function DecodeName(msg: Bytes, off: nat): (r: Option<(Name, nat)>)
    ensures r.Some? ==> off < r.value.1 <= |msg|
  {
    DecodeAt(msg, off, 0, 0)
  }

  // ----- the decoder's loop -----

  /** What is still to be decoded, behind the bytes already written. */
  ghost function Outstanding(msg: Bytes, out: Bytes, cur: nat, next: Option<nat>, hops: nat, total: nat): Option<(Bytes, nat)>
    requires hops <= MAX_HOPS
  {
    match DecodeAt(msg, cur, hops, total)
    case None => None
    case Some((n, end)) => Some((out + Wire(n), if next.Some? then next.value else end))
  }

  lemma LabelWritten(msg: Bytes, out: Bytes, cur: nat, next: Option<nat>, hops: nat, total: nat)
    requires hops <= MAX_HOPS && cur < |msg| && 0 < msg[cur] < 0x40
    requires cur + 1 + msg[cur] <= |msg| && total + 1 + msg[cur] <= MAX_NAME
    ensures var b := msg[cur];
            Outstanding(msg, out, cur, next, hops, total)
            == Outstanding(msg, out + ([b] + Folded(msg[cur + 1..cur + 1 + b])), cur + 1 + b, next, hops, total + 1 + b)
  {
    var b := msg[cur];
    var l := Folded(msg[cur + 1..cur + 1 + b]);
    match DecodeAt(msg, cur + 1 + b, hops, total + 1 + b)
    case None =>
    case Some((rest, _)) =>
      assert Wire(Sub(l, rest)) == [b] + l + Wire(rest);
      assert out + ([b] + l + Wire(rest)) == out + ([b] + l) + Wire(rest);
  }

  /** The decoder writes the folded wire form of the name it reads. */
  method DecodeWire(msg: Bytes, off: nat) returns (r: Option<(Bytes, nat)>)
    ensures r == match DecodeName(msg, off) case None => None case Some((n, end)) => Some((Wire(n), end))
  {
    var out: Bytes, cur: nat, next: Option<nat>, hops: nat, total: nat := [], off, None, 0, 0;
    assert forall w: Bytes :: [] + w == w;
    while true
      invariant hops <= MAX_HOPS
      invariant Outstanding(msg, [], off, None, 0, 0) == Outstanding(msg, out, cur, next, hops, total)
      decreases MAX_HOPS - hops, |msg| - cur
    {
      if cur >= |msg| {
        return None;
      }
      var b := msg[cur];
      if b == 0 {
        if total + 1 > MAX_NAME {
          return None;
        }
        return Some((out + [0], if next.Some? then next.value else cur + 1));
      } else if b < 0x40 {
        if cur + 1 + b > |msg| || total + 1 + b > MAX_NAME {
          return None;
        }
        LabelWritten(msg, out, cur, next, hops, total);
        out := out + ([b] + Folded(msg[cur + 1..cur + 1 + b]));
        total := total + 1 + b;
        cur := cur + 1 + b;
      } else if b >= 0xc0 {
        if cur + 1 >= |msg| {
          return None;
        }
        var ptr := Pointer(msg, cur);
        if ptr >= cur || hops == MAX_HOPS {
          return None;
        }
        if next.None? {
          next := Some(cur + 2);
        }
        hops := hops + 1;
        cur := ptr;
      } else {
        return None;
      }
    }
  }

  // ----- decoding what was written -----

  lemma FoldValid(l: Label)
    requires ValidLabel(l)
    ensures Folded(l) == l
  {
  }

  lemma SubSlice(s: Bytes, a: nat, b: nat, i: nat, j: nat)
    requires a <= b <= |s| && i <= j <= b - a
    ensures s[a..b][i..j] == s[a + i..a + j]
  {
    var u, v := s[a..b][i..j], s[a + i..a + j];
    forall k | 0 <= k < j - i
      ensures u[k] == v[k]
    {
      assert u[k] == s[a..b][i + k];
    }
  }

  lemma WireSlices(n: Name)
    requires n.Sub?
    ensures Wire(n)[1..1 + |n.head|] == n.head && Wire(n)[1 + |n.head|..] == Wire(n.parent)
  {
  }

  /** `w` stands in `msg` at `cur`. */
  ghost predicate Stands(msg: Bytes, cur: nat, w: Bytes) {
    cur + |w| <= |msg| && msg[cur..cur + |w|] == w
  }

  lemma StandsPart(msg: Bytes, cur: nat, w: Bytes, i: nat, j: nat)
    requires Stands(msg, cur, w) && i <= j <= |w|
    ensures Stands(msg, cur + i, w[i..j])
  {
    SubSlice(msg, cur, cur + |w|, i, j);
  }

  lemma LabelStands(msg: Bytes, cur: nat, n: Name)
    requires Stands(msg, cur, Wire(n)) && n.Sub? && ValidLabel(n.head)
    ensures
      var k := |n.head|;
      && cur + 1 + k <= |msg| && msg[cur] == k && msg[cur + 1..cur + 1 + k] == n.head
      && Stands(msg, cur + 1 + k, Wire(n.parent))
  {
    var w, k := Wire(n), |n.head|;
    assert msg[cur] == msg[cur..cur + |w|][0];
    WireSlices(n);
    StandsPart(msg, cur, w, 1, 1 + k);
    StandsPart(msg, cur, w, 1 + k, |w|);
    assert w[1 + k..|w|] == w[1 + k..];
  }

  /** An uncompressed name decodes to itself wherever it stands. */
  lemma {:induction false} DecodeWritten(msg: Bytes, cur: nat, n: Name, total: nat)
    requires ValidLabels(n) && total + WireLen(n) <= MAX_NAME && Stands(msg, cur, Wire(n))
    ensures DecodeAt(msg, cur, 0, total) == Some((n, cur + WireLen(n)))
    decreases n
  {
    if n.Root? {
      assert msg[cur] == msg[cur..cur + 1][0];
    } else {
      LabelStands(msg, cur, n);
      DecodeWritten(msg, cur + 1 + |n.head|, n.parent, total + 1 + |n.head|);
      FoldValid(n.head);
    }
  }

  // ----- decoding that does not look at the mutable header fields -----

  /** Bytes a signer or a forwarder may change: the message id and the additional count. */
  predicate MutableHeader(i: nat) {
    i < 2 || 10 <= i < 12
  }

  /** Same bytes, mutable header fields aside, and possibly more of them. */
  ghost predicate Extends(msg: Bytes, longer: Bytes) {
    |msg| <= |longer| && forall i :: 0 <= i < |msg| && !MutableHeader(i) ==> longer[i] == msg[i]
  }

  /** Decoding at `cur` takes no length octet and no pointer from a mutable header field. */
  predicate Avoids(msg: Bytes, cur: nat, hops: nat, total: nat)
    requires hops <= MAX_HOPS
    decreases MAX_HOPS - hops, |msg| - cur
  {
    cur < |msg| ==>
      var b := msg[cur];
      && !MutableHeader(cur)
      && (0 < b < 0x40 && cur + 1 + b <= |msg| && total + 1 + b <= MAX_NAME ==> Avoids(msg, cur + 1 + b, hops, total + 1 + b))
      && (b >= 0xc0 && cur + 1 < |msg| ==>
            && !MutableHeader(cur + 1)
            && var ptr := Pointer(msg, cur);
            ptr < cur && hops < MAX_HOPS ==> Avoids(msg, ptr, hops + 1, total))
  }

  /** Where a decodable name ends does not depend on anything else. */
  lemma {:induction false} DecodeStable(msg: Bytes, longer: Bytes, cur: nat, hops: nat, total: nat)
    requires Extends(msg, longer) && hops <= MAX_HOPS && Avoids(msg, cur, hops, total)
    requires DecodeAt(msg, cur, hops, total).Some?
    ensures DecodeAt(longer, cur, hops, total).Some?
    ensures DecodeAt(longer, cur, hops, total).value.1 == DecodeAt(msg, cur, hops, total).value.1
    decreases MAX_HOPS - hops, |msg| - cur
  {
    var b := msg[cur];
    assert longer[cur] == b;
    if 0 < b < 0x40 {
      DecodeStable(msg, longer, cur + 1 + b, hops, total + 1 + b);
    } else if b >= 0xc0 {
      assert longer[cur + 1] == msg[cur + 1];
      DecodeStable(msg, longer, Pointer(msg, cur), hops + 1, total);
    }
  }

  // ----- what can be read -----

  /** Every name that is read can be represented: its labels fit, are folded, and it is short enough. */
  lemma {:induction false} DecodedFits(msg: Bytes, cur: nat, hops: nat, total: nat)
    requires hops <= MAX_HOPS
    ensures var r := DecodeAt(msg, cur, hops, total);
            r.Some? ==> ValidLabels(r.value.0) && total + WireLen(r.value.0) <= 255
    decreases MAX_HOPS - hops, |msg| - cur
  {
    if DecodeAt(msg, cur, hops, total).Some? {
      var b := msg[cur];
      if 0 < b < 0x40 {
        DecodedFits(msg, cur + 1 + b, hops, total + 1 + b);
        assert ValidLabel(Folded(msg[cur + 1..cur + 1 + b]));
      } else if b >= 0xc0 {
        DecodedFits(msg, Pointer(msg, cur), hops + 1, total);
      }
    }
  }

  /** A pointer is followed only backwards, and at most 32 of them in one name; it takes two octets. */
  lemma PointerExactly(msg: Bytes, cur: nat, hops: nat, total: nat)
    requires hops <= MAX_HOPS && cur < |msg| && msg[cur] >= 0x40
    ensures DecodeAt(msg, cur, hops, total).Some? ==> msg[cur] >= 0xc0 && cur + 1 < |msg| && hops < 32
    ensures msg[cur] >= 0xc0 && cur + 1 < |msg| ==>
              var ptr := (msg[cur] - 0xc0) as int * 0x100 + msg[cur + 1] as int;
              if ptr < cur && hops < 32 && DecodeAt(msg, ptr, hops + 1, total).Some?
              then DecodeAt(msg, cur, hops, total) == Some((DecodeAt(msg, ptr, hops + 1, total).value.0, cur + 2))
              else DecodeAt(msg, cur, hops, total) == None
  {
  }

  lemma NameFits(msg: Bytes, off: nat)
    ensures DecodeName(msg, off).Some? ==> Representable(DecodeName(msg, off).value.0)
  {
    DecodedFits(msg, off, 0, 0);
  }
}
