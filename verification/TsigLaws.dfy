/** Signing and verifying undo each other. */
module TsigLaws {
  import opened Names
  import opened Records
  import opened WireDecode
  import opened SectionWalk
  import opened Tsig

  // ----- reading back what was written -----

  lemma StandsConcat(msg: Bytes, cur: nat, a: Bytes, b: Bytes)
    requires Stands(msg, cur, a + b)
    ensures Stands(msg, cur, a) && Stands(msg, cur + |a|, b)
  {
    var w := a + b;
    StandsPart(msg, cur, w, 0, |a|);
    StandsPart(msg, cur, w, |a|, |w|);
    assert w[0..|a|] == a && w[|a|..|w|] == b;
  }

  lemma At16Stands(msg: Bytes, cur: nat, v: nat)
    requires Stands(msg, cur, U16(v))
    ensures At16(msg, cur) == v % 0x1_0000
  {
    var w := msg[cur..cur + 2];
    assert msg[cur] == w[0] && msg[cur + 1] == w[1];
  }

  lemma U32Halves(v: nat)
    ensures U32(v) == U16(v / 0x1_0000) + U16(v)
  {
    assert v / 0x1_0000 / 0x100 == v / 0x100_0000;
  }

  lemma At48Stands(msg: Bytes, cur: nat, v: nat)
    requires Stands(msg, cur, U48(v)) && v < 0x1_0000_0000_0000
    ensures At48(msg, cur) == v
  {
    U32Halves(v);
    StandsConcat(msg, cur, U16(v / 0x1_0000_0000), U32(v));
    StandsConcat(msg, cur + 2, U16(v / 0x1_0000), U16(v));
    At16Stands(msg, cur, v / 0x1_0000_0000);
    At16Stands(msg, cur + 2, v / 0x1_0000);
    At16Stands(msg, cur + 4, v);
    SplitWords(v);
  }

  lemma SplitWords(v: nat)
    requires v < 0x1_0000_0000_0000
    ensures v / 0x1_0000_0000 % 0x1_0000 * 0x1_0000_0000 + v / 0x1_0000 % 0x1_0000 * 0x1_0000 + v % 0x1_0000 == v
  {
    var a, b := v / 0x1_0000, v % 0x1_0000;
    var c, d := a / 0x1_0000, a % 0x1_0000;
    assert v == a * 0x1_0000 + b && a == c * 0x1_0000 + d;
    assert v / 0x1_0000_0000 == c;
    assert c < 0x1_0000;
  }

  /** Reading a two-octet field written in front of `rest`. */
  lemma Field16(msg: Bytes, cur: nat, v: uint16, rest: Bytes)
    requires Stands(msg, cur, U16(v) + rest)
    ensures cur + 2 <= |msg| && At16(msg, cur) == v && Stands(msg, cur + 2, rest)
  {
    StandsConcat(msg, cur, U16(v), rest);
    At16Stands(msg, cur, v);
  }

  lemma Field48(msg: Bytes, cur: nat, v: nat, rest: Bytes)
    requires Stands(msg, cur, U48(v) + rest) && v < 0x1_0000_0000_0000
    ensures cur + 6 <= |msg| && At48(msg, cur) == v && Stands(msg, cur + 6, rest)
  {
    StandsConcat(msg, cur, U48(v), rest);
    At48Stands(msg, cur, v);
  }

  lemma FieldBytes(msg: Bytes, cur: nat, b: Bytes, rest: Bytes)
    requires Stands(msg, cur, b + rest)
    ensures cur + |b| <= |msg| && msg[cur..cur + |b|] == b && Stands(msg, cur + |b|, rest)
  {
    StandsConcat(msg, cur, b, rest);
  }

  lemma FieldName(msg: Bytes, cur: nat, n: Name, rest: Bytes)
    requires Stands(msg, cur, Wire(n) + rest) && Representable(n)
    ensures DecodeName(msg, cur) == Some((n, cur + WireLen(n))) && Stands(msg, cur + WireLen(n), rest)
  {
    StandsConcat(msg, cur, Wire(n), rest);
    DecodeWritten(msg, cur, n, 0);
  }

  /** The fields of a signature record fit their wire widths. */
  ghost predicate Fits(t: Parsed) {
    Representable(t.algorithm) && t.timeSigned < 0x1_0000_0000_0000 && |t.mac| < 0x1_0000 && |t.other| < 0x1_0000
  }

  lemma AfterMacStands(msg: Bytes, p: nat, t: Parsed)
    requires Fits(t) && Stands(msg, p, AfterMac(t))
    ensures p + 6 + |t.other| <= |msg| && At16(msg, p) == t.origId && At16(msg, p + 2) == t.errCode
    ensures At16(msg, p + 4) == |t.other| && msg[p + 6..p + 6 + |t.other|] == t.other
  {
    Field16(msg, p, t.origId, U16(t.errCode) + (U16(|t.other|) + t.other));
    Field16(msg, p + 2, t.errCode, U16(|t.other|) + t.other);
    Field16(msg, p + 4, |t.other|, t.other);
  }

  lemma AfterAlgorithmStands(msg: Bytes, off: nat, t: Parsed)
    requires Fits(t) && Stands(msg, off, AfterAlgorithm(t))
    ensures off + 10 + |t.mac| <= |msg| && At48(msg, off) == t.timeSigned && At16(msg, off + 6) == t.fudge
    ensures At16(msg, off + 8) == |t.mac| && msg[off + 10..off + 10 + |t.mac|] == t.mac
    ensures Stands(msg, off + 10 + |t.mac|, AfterMac(t))
  {
    Field48(msg, off, t.timeSigned, U16(t.fudge) + (U16(|t.mac|) + (t.mac + AfterMac(t))));
    Field16(msg, off + 6, t.fudge, U16(|t.mac|) + (t.mac + AfterMac(t)));
    Field16(msg, off + 8, |t.mac|, t.mac + AfterMac(t));
    FieldBytes(msg, off + 10, t.mac, AfterMac(t));
  }

  /** Every field behind the algorithm name reads back as written. */
  ghost predicate ReadsBack(msg: Bytes, off: nat, t: Parsed) {
    var p := off + 10 + |t.mac|;
    && p + 6 + |t.other| <= |msg|
    && At48(msg, off) == t.timeSigned && At16(msg, off + 6) == t.fudge && At16(msg, off + 8) == |t.mac|
    && msg[off + 10..p] == t.mac && At16(msg, p) == t.origId && At16(msg, p + 2) == t.errCode
    && At16(msg, p + 4) == |t.other| && msg[p + 6..p + 6 + |t.other|] == t.other
  }

  lemma FieldsReadBack(msg: Bytes, off: nat, t: Parsed)
    requires Fits(t) && Stands(msg, off, AfterAlgorithm(t))
    ensures ReadsBack(msg, off, t)
  {
    hide AfterAlgorithm, AfterMac, At16, At48;
    AfterAlgorithmStands(msg, off, t);
    AfterMacStands(msg, off + 10 + |t.mac|, t);
  }

  lemma ParseReadBack(msg: Bytes, start: nat, off: nat, t: Parsed)
    requires DecodeName(msg, start) == Some((t.algorithm, off)) && ReadsBack(msg, off, t)
    ensures ParseRData(msg, start, off + 16 + |t.mac| + |t.other|) == Some(t)
  {
  }

  lemma ParseWritten(msg: Bytes, start: nat, t: Parsed)
    requires Fits(t) && Stands(msg, start, Wire(t.algorithm) + AfterAlgorithm(t))
    ensures start + WireLen(t.algorithm) + 16 + |t.mac| + |t.other| <= |msg|
    ensures ParseRData(msg, start, start + WireLen(t.algorithm) + 16 + |t.mac| + |t.other|) == Some(t)
  {
    hide ParseRData, DecodeName, AfterAlgorithm, Wire, ReadsBack;
    FieldName(msg, start, t.algorithm, AfterAlgorithm(t));
    FieldsReadBack(msg, start + WireLen(t.algorithm), t);
    ParseReadBack(msg, start, start + WireLen(t.algorithm), t);
  }

  lemma AfterOwnerStands(msg: Bytes, off: nat, rdata: Bytes)
    requires |rdata| < 0x1_0000 && Stands(msg, off, AfterOwner(rdata))
    ensures off + 10 + |rdata| <= |msg| && At16(msg, off) == TSIG_TYPE
    ensures At16(msg, off + 8) == |rdata| && Stands(msg, off + 10, rdata)
  {
    Field16(msg, off, TSIG_TYPE, U16(TSIG_CLASS) + (U32(0) + (U16(|rdata|) + rdata)));
    Field16(msg, off + 2, TSIG_CLASS, U32(0) + (U16(|rdata|) + rdata));
    FieldBytes(msg, off + 4, U32(0), U16(|rdata|) + rdata);
    Field16(msg, off + 8, |rdata|, rdata);
  }

  /** The header of a signature record with `size` octets of data, at `start`. */
  ghost predicate HeaderAt(msg: Bytes, start: nat, owner: Name, off: nat, size: nat) {
    && DecodeName(msg, start) == Some((owner, off)) && off + 10 + size <= |msg|
    && At16(msg, off) == TSIG_TYPE && At16(msg, off + 8) == size
  }

  lemma RecordStands(msg: Bytes, start: nat, owner: Name, rdata: Bytes)
    requires Representable(owner) && |rdata| < 0x1_0000 && Stands(msg, start, Wire(owner) + AfterOwner(rdata))
    ensures HeaderAt(msg, start, owner, start + WireLen(owner), |rdata|)
    ensures Stands(msg, start + WireLen(owner) + 10, rdata)
  {
    hide Wire, WireLen, AfterOwner, DecodeName, At16, Representable, Stands;
    FieldName(msg, start, owner, AfterOwner(rdata));
    AfterOwnerStands(msg, start + WireLen(owner), rdata);
  }

  lemma SkipsRecord(msg: Bytes, start: nat, owner: Name, off: nat, size: nat)
    requires HeaderAt(msg, start, owner, off, size)
    ensures SkipRR(msg, start) == Some(off + 10 + size)
  {
  }

  lemma StripsRecord(msg: Bytes, start: nat, owner: Name, off: nat, size: nat, t: Parsed)
    requires 12 <= start <= |msg| && HeaderAt(msg, start, owner, off, size)
    requires ParseRData(msg, off + 10, off + 10 + size) == Some(t)
    ensures StripAt(msg, start) == Stripped(Put16(msg[..start], 10, Additionals(msg) + 0xffff), owner, t)
  {
    hide ParseRData, DecodeName, Put16, At16;
  }

  /** Stripping at the place where a signature record was written finds that record. */
  lemma StripWritten(msg: Bytes, start: nat, owner: Name, rdata: Bytes, t: Parsed)
    requires 12 <= start <= |msg| && Representable(owner) && Fits(t) && |rdata| < 0x1_0000
    requires rdata == Wire(t.algorithm) + AfterAlgorithm(t) && Stands(msg, start, Wire(owner) + AfterOwner(rdata))
    ensures StripAt(msg, start) == Stripped(Put16(msg[..start], 10, Additionals(msg) + 0xffff), owner, t)
    ensures SkipRR(msg, start) == Some(start + WireLen(owner) + 10 + |rdata|)
  {
    hide StripAt, SkipRR, ParseRData, DecodeName, Put16, AfterOwner, AfterAlgorithm, Wire, At16;
    RecordStands(msg, start, owner, rdata);
    var off := start + WireLen(owner);
    SkipsRecord(msg, start, owner, off, |rdata|);
    ParseWritten(msg, off + 10, t);
    StripsRecord(msg, start, owner, off, |rdata|, t);
  }

  // ----- what signing puts on the wire -----

  /** A signed message as it may arrive: the transaction identifier rewritten on the way. */
  function Arrives(msg: Bytes, rec: Bytes, id: uint16): (m: Bytes)
    requires |msg| >= 12
    ensures |m| == |msg| + |rec|
  {
    Put16(Put16(msg + rec, 10, Additionals(msg) + 1), 0, id)
  }

  lemma PutReads(msg: Bytes, i: nat, v: nat)
    requires i + 2 <= |msg|
    ensures At16(Put16(msg, i, v), i) == v % 0x1_0000
    ensures v == At16(msg, i) ==> Put16(msg, i, v) == msg
  {
    assert v % 0x1_0000 == v / 0x100 % 0x100 * 0x100 + v % 0x100;
  }

  lemma ArrivesExtends(msg: Bytes, rec: Bytes, id: uint16)
    requires |msg| >= 12
    ensures Extends(msg, Arrives(msg, rec, id)) && Stands(Arrives(msg, rec, id), |msg|, rec)
  {
    var m := Arrives(msg, rec, id);
    forall i | 0 <= i < |m| && !MutableHeader(i)
      ensures m[i] == (msg + rec)[i]
    {
      assert i != 0 && i != 1 && i != 10 && i != 11;
    }
    assert m[|msg|..|msg| + |rec|] == rec;
  }

  lemma ArrivesCounts(msg: Bytes, rec: Bytes, id: uint16)
    requires |msg| >= 12
    ensures Additionals(Arrives(msg, rec, id)) == (Additionals(msg) + 1) % 0x1_0000
  {
    var m := Put16(msg + rec, 10, Additionals(msg) + 1);
    PutReads(msg + rec, 10, Additionals(msg) + 1);
    assert Put16(m, 0, id)[10] == m[10] && Put16(m, 0, id)[11] == m[11];
  }

  lemma WordIsItsBytes(a: Bytes, b: Bytes, i: nat)
    requires i + 2 <= |a| == |b| && At16(a, i) == At16(b, i)
    ensures a[i] == b[i] && a[i + 1] == b[i + 1]
  {
  }

  /** Lowering the count and restoring the identifier gives the unsigned message back. */
  lemma RestoresMessage(msg: Bytes, rec: Bytes, id: uint16)
    requires |msg| >= 12
    ensures var m := Arrives(msg, rec, id);
            Put16(Put16(m[..|msg|], 10, Additionals(m) + 0xffff), 0, At16(msg, 0)) == msg
  {
    var m := Arrives(msg, rec, id);
    var lowered := Put16(m[..|msg|], 10, Additionals(m) + 0xffff);
    var r := Put16(lowered, 0, At16(msg, 0));
    ArrivesCounts(msg, rec, id);
    ArrivesExtends(msg, rec, id);
    RestoresWords(msg, m[..|msg|], Additionals(m) + 0xffff);
    forall k | 0 <= k < |msg|
      ensures r[k] == msg[k]
    {
      if !MutableHeader(k) {
        assert r[k] == m[k];
      }
    }
  }

  lemma RestoresWords(msg: Bytes, body: Bytes, count: nat)
    requires 12 <= |msg| == |body| && count % 0x1_0000 == Additionals(msg)
    ensures var r := Put16(Put16(body, 10, count), 0, At16(msg, 0));
            r[0] == msg[0] && r[1] == msg[1] && r[10] == msg[10] && r[11] == msg[11]
  {
    var lowered := Put16(body, 10, count);
    var r := Put16(lowered, 0, At16(msg, 0));
    PutReads(body, 10, count);
    PutReads(lowered, 0, At16(msg, 0));
    WordIsItsBytes(r, msg, 0);
    assert r[10] == lowered[10] && r[11] == lowered[11];
    WordIsItsBytes(r, msg, 10);
  }

  // ----- the round trip -----

  lemma AlgorithmFits(a: Algorithm)
    ensures Representable(AlgorithmName(a)) && WireLen(AlgorithmName(a)) <= 13
  {
    var n := AlgorithmName(a);
    assert n.parent == Root && WireLen(n) == 1 + |n.head| + WireLen(Root);
  }

  /** What a verifier at the right place sees. */
  lemma StripArrived(msg: Bytes, owner: Name, t: Parsed, id: uint16)
    requires |msg| >= 12 && Representable(owner) && Fits(t) && |TsigRData(t)| < 0x1_0000
    ensures var m := Arrives(msg, TsigRecord(owner, TsigRData(t)), id);
            && StripAt(m, |msg|) == Stripped(Put16(m[..|msg|], 10, Additionals(m) + 0xffff), owner, t)
            && SkipRR(m, |msg|).Some?
  {
    hide StripAt, SkipRR, Put16, Arrives, AfterOwner, AfterAlgorithm, At16, Wire;
    ArrivesExtends(msg, TsigRecord(owner, TsigRData(t)), id);
    StripWritten(Arrives(msg, TsigRecord(owner, TsigRData(t)), id), |msg|, owner, TsigRData(t), t);
  }

  /** The signature data a signer writes. */
  function Written(hmac: Hmac, msg: Bytes, key: Key, prior: Option<Bytes>, timersOnly: bool, now: int, fudge: int): Parsed
    requires |msg| >= 12 && 0 <= fudge <= 0xffff * SECOND
  {
    var t := Unsigned(msg, key, now, fudge);
    t.(mac := MacOf(hmac, key, SigningInput(msg, key.name, t, prior, timersOnly)))
  }

  lemma WrittenFits(
    hmac: Hmac, msg: Bytes, key: Key, prior: Option<Bytes>, timersOnly: bool, now: int, fudge: int)
    requires Sized(hmac) && |msg| >= 12 && 0 <= fudge <= 0xffff * SECOND
    ensures var t := Written(hmac, msg, key, prior, timersOnly, now, fudge);
            Fits(t) && |t.mac| == MacSize(key.algorithm) && |TsigRData(t)| < 0x1_0000
  {
    hide SigningInput, AfterAlgorithm, Wire;
    AlgorithmFits(key.algorithm);
  }

  /** Authentic data for `msg`: the code in `t` is the code over `msg` and the rest of `t`. */
  ghost predicate Authentic(hmac: Hmac, msg: Bytes, key: Key, prior: Option<Bytes>, timersOnly: bool, t: Parsed) {
    && |msg| >= 12 && t.origId == At16(msg, 0) && t.algorithm == AlgorithmName(key.algorithm)
    && |t.mac| == MacSize(key.algorithm)
    && t.mac == MacOf(hmac, key, SigningInput(msg, key.name, t, prior, timersOnly))
  }

  lemma SignWrites(
    hmac: Hmac, msg: Bytes, key: Key, prior: Option<Bytes>, timersOnly: bool, now: int, fudge: int, id: uint16)
    requires Sized(hmac) && |msg| >= 12 && 0 <= fudge <= 0xffff * SECOND && KeyUsable(key)
    ensures var t := Written(hmac, msg, key, prior, timersOnly, now, fudge);
            var s := Sign(hmac, msg, key, prior, timersOnly, now, fudge);
            && s.Signed? && |s.msg| >= 12 && s.mac == t.mac
            && Put16(s.msg, 0, id) == Arrives(msg, TsigRecord(key.name, TsigRData(t)), id)
            && Authentic(hmac, msg, key, prior, timersOnly, t)
  {
    hide TsigRecord, TsigRData, Put16, Wire, AlgorithmName, TimeField;
    WrittenFits(hmac, msg, key, prior, timersOnly, now, fudge);
  }

  /** A verifier that strips authentic data accepts it exactly while the signing time is close. */
  lemma VerifyStripped(
    hmac: Hmac, m: Bytes, msg: Bytes, key: Key, prior: Option<Bytes>, timersOnly: bool, t: Parsed, now: int, fudge: int)
    requires Strip(m).Stripped? && Strip(m).owner == key.name && Strip(m).tsig == t && KeyUsable(key)
    requires Authentic(hmac, msg, key, prior, timersOnly, t) && Put16(Strip(m).body, 0, t.origId) == msg
    ensures var v := Verify(hmac, m, key, prior, timersOnly, now, fudge);
            if -fudge <= now - t.timeSigned * SECOND <= fudge then v == Verified(msg, t.mac, t.timeSigned * SECOND)
            else v == VerifyFailed(BadTime)
  {
    hide Strip, Put16, SigningInput, AlgorithmName, At16;
  }

  /** Whatever a verifier accepts as `msg` was found right behind `msg`. */
  lemma VerifiedWhere(hmac: Hmac, m: Bytes, key: Key, prior: Option<Bytes>, timersOnly: bool, now: int, fudge: int)
    requires |m| >= 12 && Verify(hmac, m, key, prior, timersOnly, now, fudge).Verified?
    ensures LastRecord(m) == Some(|Verify(hmac, m, key, prior, timersOnly, now, fudge).body|)
  {
    hide LastRecord, StripAt, SigningInput, AlgorithmName, At16, MacOf;
  }

  ghost predicate Close(now: int, fudge: int, signedAt: int) {
    -fudge <= now - signedAt <= fudge
  }

  /** Signing and then verifying, with the identifier rewritten in between: the verifier gets the
      message back exactly when its record walk ends on the signature and its clock is close. */
  lemma SignVerifyExactly(
    hmac: Hmac, msg: Bytes, key: Key, prior: Option<Bytes>, timersOnly: bool,
    now: int, fudge: int, id: uint16, later: int, window: int)
    requires Sized(hmac) && |msg| >= 12 && 0 <= fudge <= 0xffff * SECOND && KeyUsable(key) && Representable(key.name)
    ensures Sign(hmac, msg, key, prior, timersOnly, now, fudge).Signed?
    ensures var s := Sign(hmac, msg, key, prior, timersOnly, now, fudge);
            && |s.msg| >= 12
            && (Verify(hmac, Put16(s.msg, 0, id), key, prior, timersOnly, later, window)
                == Verified(msg, s.mac, TimeField(now) * SECOND)
                <==> LastRecord(Put16(s.msg, 0, id)) == Some(|msg|) && Close(later, window, TimeField(now) * SECOND))
  {
    hide LastRecord, StripAt, SigningInput, AlgorithmName, At16, Put16, TsigRData, TsigRecord, TimeField, Verify, Sign, Arrives, Authentic, SkipRR;
    var t := Written(hmac, msg, key, prior, timersOnly, now, fudge);
    var rec := TsigRecord(key.name, TsigRData(t));
    var m := Arrives(msg, rec, id);
    SignWrites(hmac, msg, key, prior, timersOnly, now, fudge, id);
    if LastRecord(m) == Some(|msg|) {
      WrittenFits(hmac, msg, key, prior, timersOnly, now, fudge);
      StripArrived(msg, key.name, t, id);
      RestoresMessage(msg, rec, id);
      VerifyStripped(hmac, m, msg, key, prior, timersOnly, t, later, window);
    } else if Verify(hmac, m, key, prior, timersOnly, later, window).Verified? {
      VerifiedWhere(hmac, m, key, prior, timersOnly, later, window);
    }
  }

  /** For a well-formed message with room for one more record, that is every time. */
  lemma SignVerifyRoundTrip(
    hmac: Hmac, msg: Bytes, key: Key, prior: Option<Bytes>, timersOnly: bool,
    now: int, fudge: int, id: uint16, later: int, window: int)
    requires Sized(hmac) && 0 <= fudge <= 0xffff * SECOND && KeyUsable(key) && Representable(key.name)
    requires WellFormed(msg) && Additionals(msg) < 0xffff && Close(later, window, TimeField(now) * SECOND)
    ensures var s := Sign(hmac, msg, key, prior, timersOnly, now, fudge);
            && s.Signed? && |s.msg| >= 12
            && Verify(hmac, Put16(s.msg, 0, id), key, prior, timersOnly, later, window)
               == Verified(msg, s.mac, TimeField(now) * SECOND)
  {
    hide LastRecord, StripAt, SigningInput, AlgorithmName, At16, Put16, TsigRData, TsigRecord, TimeField, Verify, Sign, Arrives, Authentic, SkipRR;
    var t := Written(hmac, msg, key, prior, timersOnly, now, fudge);
    var rec := TsigRecord(key.name, TsigRData(t));
    WrittenFits(hmac, msg, key, prior, timersOnly, now, fudge);
    StripArrived(msg, key.name, t, id);
    ArrivesExtends(msg, rec, id);
    ArrivesCounts(msg, rec, id);
    AppendedIsLast(msg, Arrives(msg, rec, id));
    SignWrites(hmac, msg, key, prior, timersOnly, now, fudge, id);
    SignVerifyExactly(hmac, msg, key, prior, timersOnly, now, fudge, id, later, window);
  }

  // ----- chained envelopes -----

  /** The continuation envelopes of a signed transfer: each covers the code of the one before. */
  function SignStream(hmac: Hmac, key: Key, prior: Bytes, msgs: seq<Bytes>, now: int, fudge: int): Option<seq<Bytes>>
    decreases |msgs|
  {
    if msgs == [] then Some([])
    else if prior == [] then None
    else
      match Sign(hmac, msgs[0], key, Some(prior), true, now, fudge)
      case SignFailed(_) => None
      case Signed(out, mac) =>
        match SignStream(hmac, key, mac, msgs[1..], now, fudge)
        case None => None
        case Some(rest) => Some([out] + rest)
  }

  function VerifyStream(hmac: Hmac, key: Key, prior: Bytes, msgs: seq<Bytes>, now: int, fudge: int): Option<seq<Bytes>>
    decreases |msgs|
  {
    if msgs == [] then Some([])
    else if prior == [] then None
    else
      match Verify(hmac, msgs[0], key, Some(prior), true, now, fudge)
      case VerifyFailed(_) => None
      case Verified(body, mac, _) =>
        match VerifyStream(hmac, key, mac, msgs[1..], now, fudge)
        case None => None
        case Some(rest) => Some([body] + rest)
  }

  lemma SignVerifyUnchanged(
    hmac: Hmac, msg: Bytes, key: Key, prior: Option<Bytes>, timersOnly: bool,
    now: int, fudge: int, later: int, window: int)
    requires Sized(hmac) && 0 <= fudge <= 0xffff * SECOND && KeyUsable(key) && Representable(key.name)
    requires WellFormed(msg) && Additionals(msg) < 0xffff && Close(later, window, TimeField(now) * SECOND)
    ensures var s := Sign(hmac, msg, key, prior, timersOnly, now, fudge);
            && s.Signed? && Verify(hmac, s.msg, key, prior, timersOnly, later, window) == Verified(msg, s.mac, TimeField(now) * SECOND)
  {
    hide Sign, Verify, WellFormed, Put16, At16, TimeField;
    SignVerifyRoundTrip(hmac, msg, key, prior, timersOnly, now, fudge, 0, later, window);
    var s := Sign(hmac, msg, key, prior, timersOnly, now, fudge);
    SignVerifyRoundTrip(hmac, msg, key, prior, timersOnly, now, fudge, At16(s.msg, 0), later, window);
    PutReads(s.msg, 0, At16(s.msg, 0));
  }

  lemma CodeNotEmpty(hmac: Hmac, msg: Bytes, key: Key, prior: Option<Bytes>, timersOnly: bool, now: int, fudge: int)
    requires Sized(hmac) && Sign(hmac, msg, key, prior, timersOnly, now, fudge).Signed?
    ensures Sign(hmac, msg, key, prior, timersOnly, now, fudge).mac != []
  {
    hide SigningInput, TsigRData, TsigRecord, Put16, AlgorithmName;
  }

  /** A whole signed transfer verifies, envelope by envelope, to the bytes that were signed. */
  lemma {:induction false} StreamRoundTrip(
    hmac: Hmac, key: Key, prior: Bytes, msgs: seq<Bytes>, now: int, fudge: int, later: int, window: int)
    requires Sized(hmac) && 0 <= fudge <= 0xffff * SECOND && KeyUsable(key) && Representable(key.name)
    requires prior != [] && Close(later, window, TimeField(now) * SECOND)
    requires forall m :: m in msgs ==> WellFormed(m) && Additionals(m) < 0xffff
    ensures SignStream(hmac, key, prior, msgs, now, fudge).Some?
    ensures VerifyStream(hmac, key, prior, SignStream(hmac, key, prior, msgs, now, fudge).value, later, window) == Some(msgs)
    decreases |msgs|
  {
    hide Sign, Verify, WellFormed, TimeField, Close;
    if msgs != [] {
      var s := Sign(hmac, msgs[0], key, Some(prior), true, now, fudge);
      SignVerifyUnchanged(hmac, msgs[0], key, Some(prior), true, now, fudge, later, window);
      CodeNotEmpty(hmac, msgs[0], key, Some(prior), true, now, fudge);
      StreamRoundTrip(hmac, key, s.mac, msgs[1..], now, fudge, later, window);
      var rest := SignStream(hmac, key, s.mac, msgs[1..], now, fudge).value;
      assert ([s.msg] + rest)[0] == s.msg && ([s.msg] + rest)[1..] == rest;
      assert [msgs[0]] + msgs[1..] == msgs;
    }
  }

  // ----- messages the round trip loses -----

  /** With no room left in the additional count it wraps to zero, and the verifier finds no
      signature: every such message, key and clock. */
  lemma FullCountLost(
    hmac: Hmac, msg: Bytes, key: Key, prior: Option<Bytes>, timersOnly: bool,
    now: int, fudge: int, id: uint16, later: int, window: int)
    requires Sized(hmac) && |msg| >= 12 && 0 <= fudge <= 0xffff * SECOND && KeyUsable(key) && Additionals(msg) == 0xffff
    ensures var s := Sign(hmac, msg, key, prior, timersOnly, now, fudge);
            && s.Signed? && |s.msg| >= 12
            && Verify(hmac, Put16(s.msg, 0, id), key, prior, timersOnly, later, window) == VerifyFailed(TsigMissing)
  {
    hide LastRecord, StripAt, SigningInput, AlgorithmName, At16, Put16, TsigRData, TsigRecord, TimeField, Sign, Arrives, Authentic, SkipRR;
    var t := Written(hmac, msg, key, prior, timersOnly, now, fudge);
    SignWrites(hmac, msg, key, prior, timersOnly, now, fudge, id);
    ArrivesCounts(msg, TsigRecord(key.name, TsigRData(t)), id);
  }

  /** A root question name written as a pointer into the identifier: readable while that starts
      with a zero octet. */
  const INTO_HEADER: Bytes := [0, 7, 0, 0, 0, 1, 0, 0, 0, 0, 0, 0, 0xc0, 0, 0, 1, 0, 1]

  lemma PointerReadable()
    ensures DecodeName(INTO_HEADER, 12) == Some((Root, 14)) && Questions(INTO_HEADER) == 1
  {
    assert DecodeAt(INTO_HEADER, 0, 1, 0) == Some((Root, 1));
  }

  lemma PointerUnreadable(m: Bytes)
    requires |m| >= 18 && m[0] >= 0xc0 && m[12] == 0xc0 && m[13] == 0 && Questions(m) == 1
    ensures LastRecord(m) == None
  {
    assert DecodeAt(m, 0, 1, 0) == None;
    assert DecodeName(m, 12) == None;
    assert SkipQuestion(m, 12) == None;
  }

  /** The question is readable before signing; once the identifier is rewritten on the way, no
      verifier accepts the signature. */
  lemma HeaderPointerLost(
    hmac: Hmac, key: Key, prior: Option<Bytes>, timersOnly: bool, now: int, fudge: int, later: int, window: int)
    requires Sized(hmac) && 0 <= fudge <= 0xffff * SECOND && KeyUsable(key) && Representable(key.name)
    ensures SkipQuestions(INTO_HEADER, 12, 1) == Some(|INTO_HEADER|)
    ensures var s := Sign(hmac, INTO_HEADER, key, prior, timersOnly, now, fudge);
            && s.Signed? && |s.msg| >= 12
            && Verify(hmac, Put16(s.msg, 0, 0xc000), key, prior, timersOnly, later, window).VerifyFailed?
  {
    hide LastRecord, StripAt, SigningInput, AlgorithmName, At16, Put16, TsigRData, TsigRecord, TimeField, Verify, Sign, Arrives, Authentic, SkipRR;
    var rec := TsigRecord(key.name, TsigRData(Written(hmac, INTO_HEADER, key, prior, timersOnly, now, fudge)));
    PointerReadable();
    SignWrites(hmac, INTO_HEADER, key, prior, timersOnly, now, fudge, 0xc000);
    PointerArrives(rec);
    var m := Arrives(INTO_HEADER, rec, 0xc000);
    if Verify(hmac, m, key, prior, timersOnly, later, window).Verified? {
      VerifiedWhere(hmac, m, key, prior, timersOnly, later, window);
    }
  }

  lemma PointerArrives(rec: Bytes)
    ensures LastRecord(Arrives(INTO_HEADER, rec, 0xc000)) == None
  {
    var m := Arrives(INTO_HEADER, rec, 0xc000);
    ArrivesExtends(INTO_HEADER, rec, 0xc000);
    HeaderStable(INTO_HEADER, m);
    assert m[12] == INTO_HEADER[12] && m[13] == INTO_HEADER[13];
    PointerUnreadable(m);
  }
}
