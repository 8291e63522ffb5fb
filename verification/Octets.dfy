/** Numbers in network order, most significant octet first. */
module Octets {
  import opened Names
  import opened Records

  function BigEndian(v: nat, n: nat): (b: seq<byte>)
    ensures |b| == n
  {
    if n == 0 then [] else BigEndian(v / 0x100, n - 1) + [v % 0x100]
  }

  function Value(b: seq<byte>): (v: nat)
    ensures v < Range(|b|)
  {
    if b == [] then 0 else Value(b[..|b| - 1]) * 0x100 + b[|b| - 1]
  }

  function Range(n: nat): nat {
    if n == 0 then 1 else 0x100 * Range(n - 1)
  }

  /** A number that fits is read back. */
  lemma {:induction false} ValueWritten(v: nat, n: nat)
    requires v < Range(n)
    ensures Value(BigEndian(v, n)) == v
    decreases n
  {
    if n > 0 {
      ValueWritten(v / 0x100, n - 1);
      var b := BigEndian(v, n);
      assert b[..n - 1] == BigEndian(v / 0x100, n - 1) && b[n - 1] == v % 0x100;
    }
  }

  lemma Ranges()
    ensures Range(2) == 0x1_0000 && Range(4) == 0x1_0000_0000 && Range(6) == 0x1_0000_0000_0000
  {
    assert Range(3) == 0x100_0000 && Range(5) == 0x100_0000_0000;
  }

  lemma Shifts(v: nat)
    ensures v / 0x100 / 0x100 == v / 0x1_0000 && v / 0x1_0000 / 0x100 == v / 0x100_0000
  {
  }

  lemma U32Octets(v: nat)
    ensures U32(v) == BigEndian(v, 4)
  {
    Shifts(v);
    assert BigEndian(v / 0x100 / 0x100 / 0x100, 1) == [v / 0x100 / 0x100 / 0x100 % 0x100];
    assert BigEndian(v / 0x100 / 0x100, 2) == [v / 0x100 / 0x100 / 0x100 % 0x100, v / 0x100 / 0x100 % 0x100];
    assert BigEndian(v / 0x100, 3) == [v / 0x100 / 0x100 / 0x100 % 0x100, v / 0x100 / 0x100 % 0x100, v / 0x100 % 0x100];
  }

  lemma BigEndianSplits(a: nat, b: nat, n: nat, s: seq<byte>, t: seq<byte>)
    requires a < Range(n) && b < Range(n) && BigEndian(a, n) + s == BigEndian(b, n) + t
    ensures a == b && s == t
  {
    hide BigEndian, Value, Range;
    var x, y := BigEndian(a, n) + s, BigEndian(b, n) + t;
    assert x[..n] == BigEndian(a, n) && y[..n] == BigEndian(b, n);
    assert x[n..] == s && y[n..] == t;
    ValueWritten(a, n);
    ValueWritten(b, n);
  }
}
