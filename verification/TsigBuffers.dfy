/** The signer and verifier as they work: buffers appended to and patched, offsets moved along. */
module TsigBuffers {
  import opened Names
  import opened Records
  import opened WireDecode
  import opened SectionWalk
  import opened Tsig

  method BuildVariables(owner: Name, t: Parsed) returns (buf: Bytes)
    ensures buf == TsigVariables(owner, t)
  {
    hide Wire, U16, U32, U48;
    buf := Wire(owner);
    buf := buf + U16(TSIG_CLASS);
    buf := buf + U32(0);
    buf := buf + Wire(t.algorithm);
    buf := buf + U48(t.timeSigned);
    buf := buf + U16(t.fudge);
    buf := buf + U16(t.errCode);
    buf := buf + U16(|t.other|);
    buf := buf + t.other;
  }

  method BuildSigningInput(msg: Bytes, owner: Name, t: Parsed, prior: Option<Bytes>, timersOnly: bool) returns (input: Bytes)
    ensures input == SigningInput(msg, owner, t, prior, timersOnly)
  {
    hide TsigVariables, U16, U48;
    input := [];
    if prior.Some? {
      input := input + U16(|prior.value|);
      input := input + prior.value;
      assert input == U16(|prior.value|) + prior.value;
    }
    input := input + msg;
    if timersOnly {
      ghost var head := input;
      input := input + U48(t.timeSigned);
      input := input + U16(t.fudge);
      assert input == head + (U48(t.timeSigned) + U16(t.fudge));
      return;
    }
    var vars := BuildVariables(owner, t);
    input := input + vars;
  }

  lemma Regroup(a: Bytes, b: Bytes, c: Bytes)
    ensures a + b + c == a + (b + c)
  {
  }

  method BuildRData(t: Parsed) returns (buf: Bytes)
    ensures buf == TsigRData(t)
  {
    hide Wire, U16, U48, AfterMac;
    var alg, time, fudge, size := Wire(t.algorithm), U48(t.timeSigned), U16(t.fudge), U16(|t.mac|);
    buf := alg;
    buf := buf + time;
    buf := buf + fudge;
    buf := buf + size;
    buf := buf + t.mac;
    var tail := BuildAfterMac(t);
    Regroup(alg + time + fudge + size, t.mac, tail);
    Regroup(alg + time + fudge, size, t.mac + tail);
    Regroup(alg + time, fudge, size + (t.mac + tail));
    Regroup(alg, time, fudge + (size + (t.mac + tail)));
    buf := buf + tail;
  }

  method BuildAfterMac(t: Parsed) returns (buf: Bytes)
    ensures buf == AfterMac(t)
  {
    hide U16;
    var id, err, size := U16(t.origId), U16(t.errCode), U16(|t.other|);
    buf := id;
    buf := buf + err;
    buf := buf + size;
    buf := buf + t.other;
    Regroup(id + err, size, t.other);
    Regroup(id, err, size + t.other);
  }

  method AppendRecord(msg: Bytes, owner: Name, rdata: Bytes) returns (out: Bytes)
    ensures out == msg + TsigRecord(owner, rdata)
  {
    hide Wire, U16, U32;
    var name, kind, cls, ttl, size := Wire(owner), U16(TSIG_TYPE), U16(TSIG_CLASS), U32(0), U16(|rdata|);
    out := msg + name;
    out := out + kind;
    out := out + cls;
    out := out + ttl;
    out := out + size;
    out := out + rdata;
    Regroup(msg + name + kind + cls + ttl, size, rdata);
    Regroup(msg + name + kind + cls, ttl, size + rdata);
    Regroup(msg + name + kind, cls, ttl + (size + rdata));
    Regroup(msg + name, kind, cls + (ttl + (size + rdata)));
    Regroup(msg, name, kind + (cls + (ttl + (size + rdata))));
  }

  method SignMessage(hmac: Hmac, msg: Bytes, key: Key, prior: Option<Bytes>, timersOnly: bool, now: int, fudge: int)
    returns (r: SignResult)
    ensures r == Sign(hmac, msg, key, prior, timersOnly, now, fudge)
  {
    hide SigningInput, TsigRData, TsigRecord, AlgorithmName, TimeField, At16, Put16;
    if |msg| < 12 {
      return SignFailed(TooShort);
    }
    if fudge < 0 || fudge > 0xffff * SECOND {
      return SignFailed(BadFudge);
    }
    var t := Unsigned(msg, key, now, fudge);
    var input := BuildSigningInput(msg, key.name, t, prior, timersOnly);
    if key.algorithm.HmacSha1? && !key.allowSha1 {
      return SignFailed(Sha1Disabled);
    }
    var mac := hmac(key.algorithm, key.secret, input);
    var rdata := BuildRData(t.(mac := mac));
    var out := AppendRecord(msg, key.name, rdata);
    CountAppended(msg, key.name, rdata);
    out := Put16(out, 10, At16(out, 10) + 1);
    return Signed(out, mac);
  }

  lemma CountAppended(msg: Bytes, owner: Name, rdata: Bytes)
    requires |msg| >= 12
    ensures At16(msg + TsigRecord(owner, rdata), 10) == Additionals(msg)
  {
    hide TsigRecord;
  }

  /** The data after the code: original identifier, error and other data. */
  method ParseTail(msg: Bytes, off: nat, end: nat) returns (r: Option<(uint16, uint16, Bytes)>)
    requires off + 6 <= end <= |msg|
    ensures r == if off + 6 + At16(msg, off + 4) > end then None
                 else Some((At16(msg, off), At16(msg, off + 2), msg[off + 6..off + 6 + At16(msg, off + 4)]))
  {
    hide At16;
    var o := off;
    var id := At16(msg, o);
    o := o + 2;
    var err := At16(msg, o);
    o := o + 2;
    var size := At16(msg, o);
    o := o + 2;
    if o + size > end {
      return None;
    }
    return Some((id, err, msg[o..o + size]));
  }

  method ParseTsigRData(msg: Bytes, start: nat, end: nat) returns (r: Option<Parsed>)
    requires end <= |msg|
    ensures r == ParseRData(msg, start, end)
  {
    hide DecodeName, At16, At48;
    var d := DecodeName(msg, start);
    if d.None? {
      return None;
    }
    var off := d.value.1;
    if off + 6 + 2 + 2 > end {
      return None;
    }
    var time := At48(msg, off);
    off := off + 6;
    var fudge := At16(msg, off);
    off := off + 2;
    var size := At16(msg, off);
    off := off + 2;
    if off + size + 2 + 2 + 2 > end {
      return None;
    }
    var mac := msg[off..off + size];
    off := off + size;
    var tail := ParseTail(msg, off, end);
    if tail.None? {
      return None;
    }
    return Some(Parsed(d.value.0, time, fudge, mac, tail.value.0, tail.value.1, tail.value.2));
  }

  method StripTsigAt(msg: Bytes, start: nat) returns (r: Stripped)
    requires 12 <= start <= |msg|
    ensures r == StripAt(msg, start)
  {
    hide DecodeName, At16, ParseRData, Put16;
    var d := DecodeName(msg, start);
    if d.None? {
      return StripFailed(Malformed);
    }
    var off := d.value.1;
    if off + 10 > |msg| {
      return StripFailed(Malformed);
    }
    if At16(msg, off) != TSIG_TYPE {
      return StripFailed(TsigMissing);
    }
    var size := At16(msg, off + 8);
    if off + 10 + size > |msg| {
      return StripFailed(Malformed);
    }
    var t := ParseTsigRData(msg, off + 10, off + 10 + size);
    if t.None? {
      return StripFailed(Malformed);
    }
    var body := msg[..start];
    body := Put16(body, 10, At16(msg, 10) + 0xffff);
    return Stripped(body, d.value.0, t.value);
  }

  method StripTsig(msg: Bytes) returns (r: Stripped)
    ensures r == Strip(msg)
  {
    hide StripAt, LastRecord, At16;
    if |msg| < 12 {
      return StripFailed(TooShort);
    }
    if At16(msg, 10) == 0 {
      return StripFailed(TsigMissing);
    }
    var start := FindLastRROffset(msg);
    if start.None? {
      return StripFailed(Malformed);
    }
    r := StripTsigAt(msg, start.value);
  }

  method VerifyMessage(hmac: Hmac, msg: Bytes, key: Key, prior: Option<Bytes>, timersOnly: bool, now: int, fudge: int)
    returns (r: VerifyResult)
    ensures r == Verify(hmac, msg, key, prior, timersOnly, now, fudge)
  {
    hide Strip, SigningInput, AlgorithmName, Put16;
    var s := StripTsig(msg);
    if s.StripFailed? {
      return VerifyFailed(s.error);
    }
    var t := s.tsig;
    if s.owner != key.name {
      return VerifyFailed(KeyMismatch);
    }
    if t.algorithm != AlgorithmName(key.algorithm) {
      return VerifyFailed(AlgorithmMismatch);
    }
    if |t.mac| < MinMacSize(key.algorithm) {
      return VerifyFailed(BadTruncation);
    }
    var body := Put16(s.body, 0, t.origId);
    var input := BuildSigningInput(body, s.owner, t, prior, timersOnly);
    if key.algorithm.HmacSha1? && !key.allowSha1 {
      return VerifyFailed(Sha1Disabled);
    }
    var mac := hmac(key.algorithm, key.secret, input);
    if |t.mac| > |mac| {
      return VerifyFailed(MacTooLong);
    }
    if mac[..|t.mac|] != t.mac {
      return VerifyFailed(WrongMac);
    }
    var delta := now - t.timeSigned * SECOND;
    if delta > fudge || delta < -fudge {
      return VerifyFailed(BadTime);
    }
    return Verified(body, t.mac, t.timeSigned * SECOND);
  }
}
