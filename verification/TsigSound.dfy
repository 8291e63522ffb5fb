/** What an accepted signature proves: exactly which bytes were signed, under which key and when. */
module TsigSound {
  import opened Names
  import opened Records
  import opened Octets
  import opened WireDecode
  import opened SectionWalk
  import opened Tsig

  // ----- integers in a message -----

  lemma U16Octets(v: nat)
    ensures U16(v) == BigEndian(v, 2)
  {
    assert BigEndian(v / 0x100, 1) == [v / 0x100 % 0x100];
  }

  lemma Shifts48(v: nat)
    ensures v / 0x100_0000 / 0x100 == v / 0x1_0000_0000
  {
  }

  lemma U48Octets(v: nat)
    ensures U48(v) == BigEndian(v, 6)
  {
    hide U32, U16;
    U32Octets(v);
    U16Octets(v / 0x1_0000_0000);
    Shifts(v);
    Shifts48(v);
    BigEndianFour(v);
    var top := v / 0x1_0000_0000;
    assert BigEndian(v, 6) == BigEndian(top, 2) + BigEndian(v, 4);
  }

  lemma BigEndianFour(v: nat)
    ensures BigEndian(v, 6) == BigEndian(v / 0x100 / 0x100 / 0x100 / 0x100, 2) + BigEndian(v, 4)
  {
    BigEndianStep(v, 5);
    BigEndianStep(v / 0x100, 4);
    BigEndianStep(v / 0x100 / 0x100, 3);
    BigEndianStep(v / 0x100 / 0x100 / 0x100, 2);
    BigEndianStep(v, 3);
    BigEndianStep(v / 0x100, 2);
    BigEndianStep(v / 0x100 / 0x100, 1);
    BigEndianStep(v / 0x100 / 0x100 / 0x100, 0);
  }

  lemma BigEndianStep(v: nat, n: nat)
    ensures BigEndian(v, n + 1) == BigEndian(v / 0x100, n) + [v % 0x100]
  {
  }

  /** The number in the `n` octets at `i`. */
  function Field(msg: Bytes, i: nat, n: nat): (v: nat)
    requires i + n <= |msg|
    ensures n == 2 ==> v < 0x1_0000
  {
    Ranges();
    Value(msg[i..i + n])
  }

  lemma FieldStep(msg: Bytes, i: nat, n: nat)
    requires i + n + 1 <= |msg|
    ensures Field(msg, i, n + 1) == Field(msg, i, n) * 0x100 + msg[i + n]
  {
    assert msg[i..i + n + 1][..n] == msg[i..i + n];
  }

  lemma At16Field(msg: Bytes, i: nat)
    requires i + 2 <= |msg|
    ensures At16(msg, i) == Field(msg, i, 2)
  {
    assert Field(msg, i, 0) == 0;
    FieldStep(msg, i, 0);
    FieldStep(msg, i, 1);
  }

  lemma At48Field(msg: Bytes, i: nat)
    requires i + 6 <= |msg|
    ensures At48(msg, i) == Field(msg, i, 6)
  {
    hide Field;
    At16Field(msg, i);
    FieldStep(msg, i, 2);
    FieldStep(msg, i, 3);
    FieldStep(msg, i, 4);
    FieldStep(msg, i, 5);
  }

  // ----- the record, field by field -----

  /** The signature data that starts at `start` and does not reach past `end`. */
  ghost predicate DataAt(msg: Bytes, start: nat, end: nat, t: Parsed, a: nat) {
    && end <= |msg| && DecodeName(msg, start) == Some((t.algorithm, a))
    && a + 16 + |t.mac| + |t.other| <= end
    && t.timeSigned == Field(msg, a, 6) && t.fudge == Field(msg, a + 6, 2)
    && |t.mac| == Field(msg, a + 8, 2) && t.mac == msg[a + 10..a + 10 + |t.mac|]
    && var o := a + 10 + |t.mac|;
    && t.origId == Field(msg, o, 2) && t.errCode == Field(msg, o + 2, 2)
    && |t.other| == Field(msg, o + 4, 2) && t.other == msg[o + 6..o + 6 + |t.other|]
  }

  /** A record of type 250 at `start`, owned by `owner`, holding `t`. */
  ghost predicate SignatureAt(msg: Bytes, start: nat, owner: Name, t: Parsed) {
    exists off: nat, a: nat :: RecordAt(msg, start, owner, t, off, a)
  }

  ghost predicate RecordAt(msg: Bytes, start: nat, owner: Name, t: Parsed, off: nat, a: nat) {
    && DecodeName(msg, start) == Some((owner, off)) && off + 10 <= |msg|
    && Field(msg, off, 2) == 250 && DataAt(msg, off + 10, off + 10 + Field(msg, off + 8, 2), t, a)
  }

  lemma ParseExactly(msg: Bytes, start: nat, end: nat, t: Parsed)
    requires end <= |msg|
    ensures ParseRData(msg, start, end) == Some(t) <==> exists a: nat :: DataAt(msg, start, end, t, a)
  {
    hide At16, At48, Field;
    if DecodeName(msg, start).Some? {
      var a := DecodeName(msg, start).value.1;
      if a + 10 <= end {
        At48Field(msg, a);
        At16Field(msg, a + 6);
        At16Field(msg, a + 8);
        var o := a + 10 + At16(msg, a + 8);
        if o + 6 <= end {
          At16Field(msg, o);
          At16Field(msg, o + 2);
          At16Field(msg, o + 4);
        }
      }
      assert ParseRData(msg, start, end) == Some(t) ==> DataAt(msg, start, end, t, a);
      assert forall x: nat :: DataAt(msg, start, end, t, x) ==> x == a;
      assert DataAt(msg, start, end, t, a) ==> ParseRData(msg, start, end) == Some(t);
    }
  }

  /** The bytes before the record, with the original identifier and one additional record less. */
  ghost predicate Restores(msg: Bytes, start: nat, id: uint16, body: Bytes) {
    && 12 <= start <= |msg| && |body| == start
    && Field(body, 0, 2) == id && Field(body, 10, 2) == Field(msg, 10, 2) - 1
    && forall k :: 2 <= k < start && k != 10 && k != 11 ==> body[k] == msg[k]
  }

  lemma StripExactly(msg: Bytes, start: nat, owner: Name, t: Parsed)
    requires |msg| >= 12 && LastRecord(msg) == Some(start)
    ensures (exists body :: Strip(msg) == Stripped(body, owner, t)) <==> SignatureAt(msg, start, owner, t)
    ensures Strip(msg).Stripped? ==> Strip(msg).body == Put16(msg[..start], 10, Additionals(msg) + 0xffff)
  {
    hide At16, ParseRData, Put16, DataAt, LastRecord, Field;
    if DecodeName(msg, start).Some? {
      var off := DecodeName(msg, start).value.1;
      if off + 10 <= |msg| {
        At16Field(msg, off);
        At16Field(msg, off + 8);
        if off + 10 + At16(msg, off + 8) <= |msg| {
          ParseExactly(msg, off + 10, off + 10 + At16(msg, off + 8), t);
        }
      }
      if SignatureAt(msg, start, owner, t) {
        var x: nat, a: nat :| RecordAt(msg, start, owner, t, x, a);
        InsideMessage(msg, off + 10, off + 10 + At16(msg, off + 8), t, a);
      }
      if Strip(msg).Stripped? && Strip(msg).owner == owner && Strip(msg).tsig == t {
        var a: nat :| DataAt(msg, off + 10, off + 10 + At16(msg, off + 8), t, a);
        assert RecordAt(msg, start, owner, t, off, a);
      }
    }
  }

  lemma InsideMessage(msg: Bytes, start: nat, end: nat, t: Parsed, a: nat)
    requires DataAt(msg, start, end, t, a)
    ensures end <= |msg|
  {
  }

  lemma FieldPut(msg: Bytes, i: nat, v: nat)
    requires i + 2 <= |msg|
    ensures Field(Put16(msg, i, v), i, 2) == v % 0x1_0000
  {
    hide Field;
    At16Field(Put16(msg, i, v), i);
  }

  lemma FieldSame(a: Bytes, b: Bytes, i: nat, n: nat)
    requires i + n <= |a| && i + n <= |b| && a[i..i + n] == b[i..i + n]
    ensures Field(a, i, n) == Field(b, i, n)
  {
  }

  /** Only one body restores the message. */
  lemma RestoredOnce(msg: Bytes, start: nat, id: uint16, body: Bytes, other: Bytes)
    requires Restores(msg, start, id, body) && Restores(msg, start, id, other)
    ensures body == other
  {
    hide Field, At16;
    At16Field(body, 0);
    At16Field(other, 0);
    At16Field(body, 10);
    At16Field(other, 10);
    SameOctets(body, other, 0);
    SameOctets(body, other, 10);
    assert forall k :: 0 <= k < start ==> body[k] == other[k];
  }

  lemma SameOctets(a: Bytes, b: Bytes, i: nat)
    requires i + 2 <= |a| && i + 2 <= |b| && At16(a, i) == At16(b, i)
    ensures a[i] == b[i] && a[i + 1] == b[i + 1]
  {
  }

  lemma RestoredBody(msg: Bytes, start: nat, id: uint16)
    requires 12 <= start <= |msg| && Additionals(msg) > 0
    ensures Restores(msg, start, id, Put16(Put16(msg[..start], 10, Additionals(msg) + 0xffff), 0, id))
  {
    hide Field, Put16;
    var count := Additionals(msg) + 0xffff;
    var lowered := Put16(msg[..start], 10, count);
    var body := Put16(lowered, 0, id);
    At16Field(msg, 10);
    FieldPut(msg[..start], 10, count);
    FieldPut(lowered, 0, id);
    FieldSame(body, lowered, 10, 2);
  }

  // ----- what the code covers -----

  /** The signed bytes: the code of the previous message with its length, the message without its
      signature, and the signature's own fields, or only its timers. */
  function Covered(body: Bytes, owner: Name, t: Parsed, prior: Option<Bytes>, timersOnly: bool): Bytes {
    (match prior case None => [] case Some(p) => BigEndian(|p|, 2) + p)
    + body
    + (if timersOnly then BigEndian(t.timeSigned, 6) + BigEndian(t.fudge, 2)
       else Wire(owner) + BigEndian(255, 2) + BigEndian(0, 4) + Wire(t.algorithm)
            + BigEndian(t.timeSigned, 6) + BigEndian(t.fudge, 2) + BigEndian(t.errCode, 2)
            + BigEndian(|t.other|, 2) + t.other)
  }

  lemma InputExactly(body: Bytes, owner: Name, t: Parsed, prior: Option<Bytes>, timersOnly: bool)
    ensures SigningInput(body, owner, t, prior, timersOnly) == Covered(body, owner, t, prior, timersOnly)
  {
    hide U16, U32, U48, BigEndian, Wire;
    if prior.Some? {
      U16Octets(|prior.value|);
    }
    U48Octets(t.timeSigned);
    U16Octets(t.fudge);
    U16Octets(t.errCode);
    U16Octets(|t.other|);
    U16Octets(255);
    U32Octets(0);
  }

  /** At least half of the full code. */
  lemma HalfTheCode(a: Algorithm)
    ensures 2 * MinMacSize(a) == MacSize(a)
  {
  }

  // ----- what is accepted -----

  /** Everything a verified message satisfies. */
  ghost predicate Vouched(
    hmac: Hmac, msg: Bytes, key: Key, prior: Option<Bytes>, timersOnly: bool, now: int, fudge: int,
    body: Bytes, start: nat, t: Parsed)
  {
    && |msg| >= 12 && LastRecord(msg) == Some(start) && SignatureAt(msg, start, key.name, t)
    && t.algorithm == AlgorithmName(key.algorithm) && (key.algorithm == HmacSha1 ==> key.allowSha1)
    && Restores(msg, start, t.origId, body)
    && 2 * |t.mac| >= MacSize(key.algorithm)
    && t.mac <= hmac(key.algorithm, key.secret, Covered(body, key.name, t, prior, timersOnly))
    && -fudge <= now - t.timeSigned * SECOND <= fudge
  }

  /** The result once the signature record is found and read. */
  lemma VerifyStripped(
    hmac: Hmac, msg: Bytes, key: Key, prior: Option<Bytes>, timersOnly: bool, now: int, fudge: int,
    start: nat, owner: Name, t: Parsed)
    requires |msg| >= 12 && LastRecord(msg) == Some(start) && SignatureAt(msg, start, owner, t)
    ensures var body := Put16(Put16(msg[..start], 10, Additionals(msg) + 0xffff), 0, t.origId);
            var mac := hmac(key.algorithm, key.secret, Covered(body, owner, t, prior, timersOnly));
            && Restores(msg, start, t.origId, body)
            && Verify(hmac, msg, key, prior, timersOnly, now, fudge) ==
               if owner != key.name then VerifyFailed(KeyMismatch)
               else if t.algorithm != AlgorithmName(key.algorithm) then VerifyFailed(AlgorithmMismatch)
               else if 2 * |t.mac| < MacSize(key.algorithm) then VerifyFailed(BadTruncation)
               else if key.algorithm == HmacSha1 && !key.allowSha1 then VerifyFailed(Sha1Disabled)
               else if |t.mac| > |mac| then VerifyFailed(MacTooLong)
               else if !(t.mac <= mac) then VerifyFailed(WrongMac)
               else if !(-fudge <= now - t.timeSigned * SECOND <= fudge) then VerifyFailed(BadTime)
               else Verified(body, t.mac, t.timeSigned * SECOND)
  {
    hide Strip, Put16, SignatureAt, LastRecord, Restores, Covered, SigningInput, AlgorithmName;
    StripExactly(msg, start, owner, t);
    RestoredBody(msg, start, t.origId);
    HalfTheCode(key.algorithm);
    var body := Put16(Put16(msg[..start], 10, Additionals(msg) + 0xffff), 0, t.origId);
    InputExactly(body, owner, t, prior, timersOnly);
  }

  /** A message verifies exactly when its last record is a signature of that key over it, at least half
      the code long, and made within the window; what is returned is the message as it was signed. */
  lemma VerifiedExactly(
    hmac: Hmac, msg: Bytes, key: Key, prior: Option<Bytes>, timersOnly: bool, now: int, fudge: int,
    body: Bytes, mac: Bytes, at: int)
    ensures Verify(hmac, msg, key, prior, timersOnly, now, fudge) == Verified(body, mac, at) <==>
              exists start: nat, t: Parsed ::
                Vouched(hmac, msg, key, prior, timersOnly, now, fudge, body, start, t) && mac == t.mac && at == t.timeSigned * SECOND
  {
    hide Strip, SignatureAt, LastRecord, Restores, Covered, Verify, AlgorithmName, Put16;
    if Verify(hmac, msg, key, prior, timersOnly, now, fudge) == Verified(body, mac, at) {
      var start, owner, t := AcceptedStrips(hmac, msg, key, prior, timersOnly, now, fudge);
      VerifyStripped(hmac, msg, key, prior, timersOnly, now, fudge, start, owner, t);
      assert Vouched(hmac, msg, key, prior, timersOnly, now, fudge, body, start, t);
    }
    forall start: nat, t | Vouched(hmac, msg, key, prior, timersOnly, now, fudge, body, start, t)
      ensures Verify(hmac, msg, key, prior, timersOnly, now, fudge) == Verified(body, t.mac, t.timeSigned * SECOND)
    {
      VerifyStripped(hmac, msg, key, prior, timersOnly, now, fudge, start, key.name, t);
      RestoredOnce(msg, start, t.origId, body, Put16(Put16(msg[..start], 10, Additionals(msg) + 0xffff), 0, t.origId));
    }
  }

  lemma AcceptedStrips(hmac: Hmac, msg: Bytes, key: Key, prior: Option<Bytes>, timersOnly: bool, now: int, fudge: int)
    returns (start: nat, owner: Name, t: Parsed)
    requires Verify(hmac, msg, key, prior, timersOnly, now, fudge).Verified?
    ensures |msg| >= 12 && LastRecord(msg) == Some(start) && SignatureAt(msg, start, owner, t)
  {
    hide StripAt, SignatureAt, LastRecord, SigningInput, Put16, AlgorithmName;
    start, owner, t := LastRecord(msg).value, Strip(msg).owner, Strip(msg).tsig;
    StripExactly(msg, start, owner, t);
  }

  /** The other refusals: no header, no additional record, no record where the walk ends, none of type
      250 there, or one whose fields do not fit. */
  lemma UnsignedExactly(hmac: Hmac, msg: Bytes, key: Key, prior: Option<Bytes>, timersOnly: bool, now: int, fudge: int)
    requires forall start: nat, owner, t :: |msg| >= 12 && LastRecord(msg) == Some(start) ==> !SignatureAt(msg, start, owner, t)
    ensures Verify(hmac, msg, key, prior, timersOnly, now, fudge) ==
            VerifyFailed(if |msg| < 12 then TooShort else if OtherRecordLast(msg) then TsigMissing else Malformed)
  {
    hide SignatureAt, LastRecord, SigningInput, Put16, AlgorithmName, ParseRData;
    if |msg| >= 12 {
      At16Field(msg, 10);
      if LastRecord(msg).Some? {
        var start := LastRecord(msg).value;
        if Strip(msg).Stripped? {
          StripExactly(msg, start, Strip(msg).owner, Strip(msg).tsig);
        }
        if DecodeName(msg, start).Some? && DecodeName(msg, start).value.1 + 10 <= |msg| {
          At16Field(msg, DecodeName(msg, start).value.1);
        }
      }
    }
  }

  /** No additional record, or a readable last record of another type. */
  ghost predicate OtherRecordLast(msg: Bytes)
    requires |msg| >= 12
  {
    || Field(msg, 10, 2) == 0
    || (LastRecord(msg).Some? && DecodeName(msg, LastRecord(msg).value).Some? &&
        var off := DecodeName(msg, LastRecord(msg).value).value.1;
        off + 10 <= |msg| && Field(msg, off, 2) != 250)
  }

  // ----- signing -----

  /** What a signer writes behind the message. */
  function SignatureRecord(key: Key, t: Parsed): Bytes {
    var data := Wire(t.algorithm) + BigEndian(t.timeSigned, 6) + BigEndian(t.fudge, 2) + BigEndian(|t.mac|, 2) + t.mac
                + BigEndian(t.origId, 2) + BigEndian(t.errCode, 2) + BigEndian(|t.other|, 2) + t.other;
    Wire(key.name) + BigEndian(250, 2) + BigEndian(255, 2) + BigEndian(0, 4) + BigEndian(|data|, 2) + data
  }

  lemma RecordWritten(key: Key, t: Parsed)
    ensures TsigRecord(key.name, TsigRData(t)) == SignatureRecord(key, t)
  {
    hide U16, U32, U48, BigEndian, Wire;
    U48Octets(t.timeSigned);
    U16Octets(t.fudge);
    U16Octets(|t.mac|);
    U16Octets(t.origId);
    U16Octets(t.errCode);
    U16Octets(|t.other|);
    U16Octets(250);
    U16Octets(255);
    U32Octets(0);
    U16Octets(|TsigRData(t)|);
    DataWritten(t);
  }

  lemma DataWritten(t: Parsed)
    ensures TsigRData(t) == Wire(t.algorithm) + U48(t.timeSigned) + U16(t.fudge) + U16(|t.mac|) + t.mac
                            + U16(t.origId) + U16(t.errCode) + U16(|t.other|) + t.other
  {
    hide U16, U48, Wire;
  }

  /** Signing fails on a message without header, a fudge that does not fit, or a disabled algorithm.
      Otherwise the message is followed by a record of the key's name that carries the algorithm, the
      time, the fudge, the identifier and the code over all of this, and counts one record more. */
  lemma SignedExactly(hmac: Hmac, msg: Bytes, key: Key, prior: Option<Bytes>, timersOnly: bool, now: int, fudge: int)
    ensures var s := Sign(hmac, msg, key, prior, timersOnly, now, fudge);
            if |msg| < 12 then s == SignFailed(TooShort)
            else if fudge < 0 || fudge > 65535 * SECOND then s == SignFailed(BadFudge)
            else if key.algorithm == HmacSha1 && !key.allowSha1 then s == SignFailed(Sha1Disabled)
            else
              var t := Parsed(AlgorithmName(key.algorithm), now / SECOND % 0x1_0000_0000_0000, fudge / SECOND, s.mac, Field(msg, 0, 2), 0, []);
              && s.Signed? && s.mac == hmac(key.algorithm, key.secret, Covered(msg, key.name, t, prior, timersOnly))
              && |s.msg| == |msg| + |SignatureRecord(key, t)| && s.msg[|msg|..] == SignatureRecord(key, t)
              && Field(s.msg, 10, 2) == (Field(msg, 10, 2) + 1) % 0x1_0000
              && forall k :: 0 <= k < |msg| && k != 10 && k != 11 ==> s.msg[k] == msg[k]
  {
    hide SigningInput, Covered, TsigRecord, SignatureRecord, Put16, AlgorithmName, Field;
    if |msg| >= 12 && 0 <= fudge <= 65535 * SECOND && KeyUsable(key) {
      var s := Sign(hmac, msg, key, prior, timersOnly, now, fudge);
      var u := Unsigned(msg, key, now, fudge);
      var t := u.(mac := s.mac);
      At16Field(msg, 0);
      At16Field(msg, 10);
      InputExactly(msg, key.name, t, prior, timersOnly);
      InputIgnoresMac(msg, key.name, u, s.mac, prior, timersOnly);
      RecordWritten(key, t);
      FieldPut(msg + TsigRecord(key.name, TsigRData(t)), 10, Additionals(msg) + 1);
    }
  }

  lemma InputIgnoresMac(msg: Bytes, owner: Name, t: Parsed, mac: Bytes, prior: Option<Bytes>, timersOnly: bool)
    ensures SigningInput(msg, owner, t.(mac := mac), prior, timersOnly) == SigningInput(msg, owner, t, prior, timersOnly)
  {
  }
}
