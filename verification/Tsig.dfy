/** Transaction signatures on raw message bytes: signing appends one record, verifying finds it,
    strips it and recomputes the code over what is left. */
module Tsig {
  import opened Names
  import opened Records
  import opened WireDecode
  import opened SectionWalk

  const TSIG_TYPE: uint16 := 250
  const TSIG_CLASS: uint16 := 255

  datatype Algorithm = HmacSha1 | HmacSha256 | HmacSha384 | HmacSha512

  /** "hmac-sha1." and its siblings. */
  function AlgorithmName(a: Algorithm): Name {
    var hmac := [104, 109, 97, 99, 45, 115, 104, 97];
    match a
    case HmacSha1 => Sub(hmac + [49], Root)
    case HmacSha256 => Sub(hmac + [50, 53, 54], Root)
    case HmacSha384 => Sub(hmac + [51, 56, 52], Root)
    case HmacSha512 => Sub(hmac + [53, 49, 50], Root)
  }

  function MacSize(a: Algorithm): nat {
    match a case HmacSha1 => 20 case HmacSha256 => 32 case HmacSha384 => 48 case HmacSha512 => 64
  }

  function MinMacSize(a: Algorithm): nat {
    match a case HmacSha1 => 10 case HmacSha256 => 16 case HmacSha384 => 24 case HmacSha512 => 32
  }

  datatype Key = Key(name: Name, algorithm: Algorithm, secret: Bytes, allowSha1: bool)

  /** The keyed hash, a parameter: all that is used of it is its output length. */
  type Hmac = (Algorithm, Bytes, Bytes) -> Bytes

  ghost predicate Sized(hmac: Hmac) {
    forall a, s, p :: |hmac(a, s, p)| == MacSize(a)
  }

  datatype TsigError =
    | TooShort | BadFudge | Sha1Disabled | TsigMissing | Malformed | KeyMismatch | AlgorithmMismatch
    | BadTruncation | MacTooLong | WrongMac | BadTime

  // ----- the record -----

  function U48(v: nat): (b: Bytes)
    ensures |b| == 6
  {
    U16(v / 0x1_0000_0000) + U32(v)
  }

  function At48(msg: Bytes, i: nat): nat
    requires i + 6 <= |msg|
  {
    At16(msg, i) * 0x1_0000_0000 + At16(msg, i + 2) * 0x1_0000 + At16(msg, i + 4)
  }

  datatype Parsed = Parsed(
    algorithm: Name, timeSigned: nat, fudge: uint16, mac: Bytes, origId: uint16, errCode: uint16, other: Bytes)

  function AfterMac(t: Parsed): (b: Bytes)
    ensures |b| == 6 + |t.other|
  {
    U16(t.origId) + (U16(t.errCode) + (U16(|t.other|) + t.other))
  }

  function AfterAlgorithm(t: Parsed): (b: Bytes)
    ensures |b| == 16 + |t.mac| + |t.other|
  {
    U48(t.timeSigned) + (U16(t.fudge) + (U16(|t.mac|) + (t.mac + AfterMac(t))))
  }

  function TsigRData(t: Parsed): (b: Bytes)
    ensures |b| == WireLen(t.algorithm) + 16 + |t.mac| + |t.other|
  {
    Wire(t.algorithm) + AfterAlgorithm(t)
  }

  function AfterOwner(rdata: Bytes): (b: Bytes)
    ensures |b| == 10 + |rdata|
  {
    U16(TSIG_TYPE) + (U16(TSIG_CLASS) + (U32(0) + (U16(|rdata|) + rdata)))
  }

  function TsigRecord(owner: Name, rdata: Bytes): (b: Bytes)
    ensures |b| == WireLen(owner) + 10 + |rdata|
  {
    Wire(owner) + AfterOwner(rdata)
  }

  function ParseRData(msg: Bytes, start: nat, end: nat): Option<Parsed>
    requires end <= |msg|
  {
    match DecodeName(msg, start)
    case None => None
    case Some((alg, off)) =>
      if off + 10 > end then None
      else
        var macSize := At16(msg, off + 8);
        var o := off + 10 + macSize;
        if o + 6 > end || o + 6 + At16(msg, o + 4) > end then None
        else
          Some(Parsed(alg, At48(msg, off), At16(msg, off + 6), msg[off + 10..o],
                      At16(msg, o), At16(msg, o + 2), msg[o + 6..o + 6 + At16(msg, o + 4)]))
  }

  // ----- what the code covers -----

  function TsigVariables(owner: Name, t: Parsed): Bytes {
    Wire(owner) + U16(TSIG_CLASS) + U32(0) + Wire(t.algorithm) + U48(t.timeSigned)
    + U16(t.fudge) + U16(t.errCode) + U16(|t.other|) + t.other
  }

  function SigningInput(msg: Bytes, owner: Name, t: Parsed, prior: Option<Bytes>, timersOnly: bool): Bytes {
    (if prior.Some? then U16(|prior.value|) + prior.value else [])
    + msg + (if timersOnly then U48(t.timeSigned) + U16(t.fudge) else TsigVariables(owner, t))
  }

  // ----- signing -----

  function Put16(msg: Bytes, i: nat, v: nat): (m: Bytes)
    requires i + 2 <= |msg|
    ensures |m| == |msg| && forall k :: 0 <= k < |msg| && k != i && k != i + 1 ==> m[k] == msg[k]
  {
    msg[i := U16(v)[0]][i + 1 := U16(v)[1]]
  }

  datatype SignResult = Signed(msg: Bytes, mac: Bytes) | SignFailed(error: TsigError)

  /** The whole-second signing time as the 48-bit field carries it. */
  function TimeField(now: int): nat {
    now / SECOND % 0x1_0000_0000_0000
  }

  function Unsigned(msg: Bytes, key: Key, now: int, fudge: int): Parsed
    requires |msg| >= 12 && 0 <= fudge <= 0xffff * SECOND
  {
    Parsed(AlgorithmName(key.algorithm), TimeField(now), fudge / SECOND, [], At16(msg, 0), 0, [])
  }

  function MacOf(hmac: Hmac, key: Key, input: Bytes): Bytes {
    hmac(key.algorithm, key.secret, input)
  }

  predicate KeyUsable(key: Key) {
    key.algorithm.HmacSha1? ==> key.allowSha1
  }

  function Sign(hmac: Hmac, msg: Bytes, key: Key, prior: Option<Bytes>, timersOnly: bool, now: int, fudge: int): SignResult {
    if |msg| < 12 then SignFailed(TooShort)
    else if fudge < 0 || fudge > 0xffff * SECOND then SignFailed(BadFudge)
    else if !KeyUsable(key) then SignFailed(Sha1Disabled)
    else
      var t := Unsigned(msg, key, now, fudge);
      var mac := MacOf(hmac, key, SigningInput(msg, key.name, t, prior, timersOnly));
      Signed(Put16(msg + TsigRecord(key.name, TsigRData(t.(mac := mac))), 10, Additionals(msg) + 1), mac)
  }

  // ----- verifying -----

  datatype Stripped = Stripped(body: Bytes, owner: Name, tsig: Parsed) | StripFailed(error: TsigError)

  /** The signature record at `start`, and the message before it with its count lowered. */
  function StripAt(msg: Bytes, start: nat): (r: Stripped)
    requires 12 <= start <= |msg|
    ensures r.Stripped? ==> |r.body| == start
  {
    match DecodeName(msg, start)
    case None => StripFailed(Malformed)
    case Some((owner, off)) =>
      if off + 10 > |msg| then StripFailed(Malformed)
      else if At16(msg, off) != TSIG_TYPE then StripFailed(TsigMissing)
      else if off + 10 + At16(msg, off + 8) > |msg| then StripFailed(Malformed)
      else
        match ParseRData(msg, off + 10, off + 10 + At16(msg, off + 8))
        case None => StripFailed(Malformed)
        case Some(t) => Stripped(Put16(msg[..start], 10, Additionals(msg) + 0xffff), owner, t)
  }

  function Strip(msg: Bytes): (r: Stripped)
    ensures r.Stripped? ==> |r.body| >= 12
  {
    if |msg| < 12 then StripFailed(TooShort)
    else if Additionals(msg) == 0 then StripFailed(TsigMissing)
    else
      match LastRecord(msg)
      case None => StripFailed(Malformed)
      case Some(start) => StripAt(msg, start)
  }

  datatype VerifyResult = Verified(body: Bytes, mac: Bytes, signedAt: int) | VerifyFailed(error: TsigError)

  function Verify(hmac: Hmac, msg: Bytes, key: Key, prior: Option<Bytes>, timersOnly: bool, now: int, fudge: int): VerifyResult {
    match Strip(msg)
    case StripFailed(e) => VerifyFailed(e)
    case Stripped(body, owner, t) =>
      if owner != key.name then VerifyFailed(KeyMismatch)
      else if t.algorithm != AlgorithmName(key.algorithm) then VerifyFailed(AlgorithmMismatch)
      else if |t.mac| < MinMacSize(key.algorithm) then VerifyFailed(BadTruncation)
      else if !KeyUsable(key) then VerifyFailed(Sha1Disabled)
      else
        var restored := Put16(body, 0, t.origId);
        var mac := MacOf(hmac, key, SigningInput(restored, owner, t, prior, timersOnly));
        var delta := now - t.timeSigned * SECOND;
        if |t.mac| > |mac| then VerifyFailed(MacTooLong)
        else if mac[..|t.mac|] != t.mac then VerifyFailed(WrongMac)
        else if delta > fudge || delta < -fudge then VerifyFailed(BadTime)
        else Verified(restored, t.mac, t.timeSigned * SECOND)
  }
}
