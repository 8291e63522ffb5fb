/** Serial number arithmetic on 32-bit SOA serials. */
module Serials {
  import opened Names

  /** The sequence-space comparison of RFC 1982, as the transfer client computes it on 32-bit
      unsigned values. */
  predicate SerialIsOlder(a: uint32, b: uint32) {
    a != b && (b - a) % 0x1_0000_0000 < 0x8000_0000
  }

  function Advance(serial: uint32, n: nat): uint32 {
    (serial + n) % 0x1_0000_0000
  }

  /** After k bumps the client takes the old serial for older exactly when k is not a multiple of
      2^32 and stays below half the sequence space. */
  lemma AdvancedIsNewer(serial: uint32, k: nat)
    ensures SerialIsOlder(serial, Advance(serial, k)) <==> 0 < k % 0x1_0000_0000 < 0x8000_0000
  {
    var m := k % 0x1_0000_0000;
    assert Advance(serial, k) == (serial + m) % 0x1_0000_0000;
    if serial + m < 0x1_0000_0000 {
      assert Advance(serial, k) == serial + m;
      assert (serial + m - serial) % 0x1_0000_0000 == m;
    } else {
      assert Advance(serial, k) == serial + m - 0x1_0000_0000;
      assert (m - 0x1_0000_0000) % 0x1_0000_0000 == m;
    }
  }
}
