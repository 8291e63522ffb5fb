/** Full zone transfer: the server's chunker and the client's iterator, and why they undo each
    other. */
module Axfr {
  import opened Names
  import opened Records
  import opened TransferStream

  // ----- the server side -----

  const CHUNK_BUDGET: nat := 16 * 1024

  /** An upper bound on the wire size of a record before name compression. */
  function EstimateSize(r: Record): (n: nat)
    ensures n >= 11
  {
    WireLen(r.name) + 10 + |Pack(r.rdata)|
  }

  type Sizing = Record -> nat

  function Estimate(): Sizing {
    (r: Record) => EstimateSize(r)
  }

  function TotalSize(size: Sizing, rs: seq<Record>): nat {
    if rs == [] then 0 else TotalSize(size, rs[..|rs| - 1]) + size(rs[|rs| - 1])
  }

  lemma TotalSizeSnoc(size: Sizing, rs: seq<Record>, r: Record)
    ensures TotalSize(size, rs + [r]) == TotalSize(size, rs) + size(r)
  {
    assert (rs + [r])[..|rs|] == rs;
  }

  /** What the receiver must see: the apex SOA around the body, other SOA records left out. */
  function Transferred(soa: Record, body: seq<Record>): seq<Record> {
    [soa] + Filter(body, NotOfType(TYPE_SOA)) + [soa]
  }

  /** A message is never empty, and one over the budget holds a single record. */
  ghost predicate MessageOK(size: Sizing, m: seq<Record>) {
    m != [] && (TotalSize(size, m) <= CHUNK_BUDGET || |m| == 1)
  }

  ghost predicate WellChunked(size: Sizing, msgs: seq<seq<Record>>) {
    forall i :: 0 <= i < |msgs| ==> MessageOK(size, msgs[i])
  }

  /** The builder's state: messages written, the one being filled and its size, and everything
      sent so far.  A message of two or more records leaves room for the closing SOA. */
  ghost predicate Building(size: Sizing, msgs: seq<seq<Record>>, b: seq<Record>, used: int, soaSize: nat, sent: seq<Record>) {
    && WellChunked(size, msgs) && used == TotalSize(size, b)
    && (used + soaSize <= CHUNK_BUDGET || |b| <= 1)
    && Flatten(msgs) + b == sent
  }

  lemma Flushed(size: Sizing, msgs: seq<seq<Record>>, b: seq<Record>, used: int, soaSize: nat, sent: seq<Record>)
    requires Building(size, msgs, b, used, soaSize, sent) && b != []
    ensures Building(size, msgs + [b], [], 0, soaSize, sent)
  {
    FlattenSnoc(msgs, b);
    assert MessageOK(size, b);
    assert Flatten(msgs + [b]) + [] == sent;
  }

  lemma Filled(size: Sizing, msgs: seq<seq<Record>>, b: seq<Record>, used: int, soaSize: nat, sent: seq<Record>, rec: Record)
    requires Building(size, msgs, b, used, soaSize, sent)
    requires b == [] || used + size(rec) + soaSize <= CHUNK_BUDGET
    ensures Building(size, msgs, b + [rec], used + size(rec), soaSize, sent + [rec])
  {
    TotalSizeSnoc(size, b, rec);
    assert (Flatten(msgs) + b) + [rec] == Flatten(msgs) + (b + [rec]);
  }

  lemma Closed(size: Sizing, msgs: seq<seq<Record>>, b: seq<Record>, used: int, soaSize: nat, sent: seq<Record>, soa: Record)
    requires Building(size, msgs, b, used, soaSize, sent) && soaSize == size(soa)
    requires b == [] || used + soaSize <= CHUNK_BUDGET
    ensures WellChunked(size, msgs + [b + [soa]]) && Flatten(msgs + [b + [soa]]) == sent + [soa]
  {
    TotalSizeSnoc(size, b, soa);
    FlattenSnoc(msgs, b + [soa]);
    assert MessageOK(size, b + [soa]);
    assert (Flatten(msgs) + b) + [soa] == Flatten(msgs) + (b + [soa]);
  }

  /** The chunker: a message is flushed before a record that would leave no room for the closing
      SOA, and again before the closing SOA itself if need be. */
  method StreamAXFR(soa: Record, body: seq<Record>) returns (msgs: seq<seq<Record>>)
    ensures WellChunked(Estimate(), msgs)
    ensures Flatten(msgs) == Transferred(soa, body)
  {
    msgs := Chunk(Estimate(), soa, body);
  }

  /** Adds one record to the message being filled, flushing that one first when it is full. */
  method AddRecord(size: Sizing, msgs: seq<seq<Record>>, b: seq<Record>, used: int, soaSize: nat, rec: Record, ghost sent: seq<Record>)
    returns (msgs': seq<seq<Record>>, b': seq<Record>, used': int)
    requires Building(size, msgs, b, used, soaSize, sent) && b != [] && used > 0
    ensures Building(size, msgs', b', used', soaSize, sent + [rec]) && b' != [] && used' >= size(rec)
  {
    msgs', b', used' := msgs, b, used;
    var recSize := size(rec);
    if used > 0 && used + recSize + soaSize > CHUNK_BUDGET {
      Flushed(size, msgs, b, used, soaSize, sent);
      msgs', b', used' := msgs + [b], [], 0;
    }
    Filled(size, msgs', b', used', soaSize, sent, rec);
    b', used' := b' + [rec], used' + recSize;
  }

  /** What has been sent after the first `i` records of the body. */
  ghost function SentAfter(soa: Record, body: seq<Record>, i: nat): seq<Record>
    requires i <= |body|
  {
    [soa] + Filter(body[..i], NotOfType(TYPE_SOA))
  }

  lemma SentNext(soa: Record, body: seq<Record>, i: nat)
    requires i < |body|
    ensures body[i].Type() != TYPE_SOA ==> SentAfter(soa, body, i + 1) == SentAfter(soa, body, i) + [body[i]]
    ensures body[i].Type() == TYPE_SOA ==> SentAfter(soa, body, i + 1) == SentAfter(soa, body, i)
  {
    FilterPrefix(body, i, NotOfType(TYPE_SOA));
  }

  lemma SentStart(size: Sizing, soa: Record, body: seq<Record>)
    ensures Building(size, [], [soa], size(soa), size(soa), SentAfter(soa, body, 0))
  {
    TotalSizeSnoc(size, [], soa);
    assert [] + [soa] == [soa] && SentAfter(soa, body, 0) == [soa];
  }

  lemma SentAll(soa: Record, body: seq<Record>)
    ensures SentAfter(soa, body, |body|) + [soa] == Transferred(soa, body)
  {
    assert body[..|body|] == body;
  }

  method FillBody(size: Sizing, soa: Record, body: seq<Record>) returns (msgs: seq<seq<Record>>, b: seq<Record>, used: int)
    requires forall r :: size(r) > 0
    ensures Building(size, msgs, b, used, size(soa), SentAfter(soa, body, |body|)) && b != []
  {
    SentStart(size, soa, body);
    msgs, b, used := [], [soa], size(soa);
    for i := 0 to |body|
      invariant b != [] && used > 0
      invariant Building(size, msgs, b, used, size(soa), SentAfter(soa, body, i))
    {
      SentNext(soa, body, i);
      if body[i].Type() != TYPE_SOA {
        msgs, b, used := AddRecord(size, msgs, b, used, size(soa), body[i], SentAfter(soa, body, i));
      }
    }
  }

  /** The same, for any estimate that gives every record a positive size. */
  method Chunk(size: Sizing, soa: Record, body: seq<Record>) returns (msgs: seq<seq<Record>>)
    requires forall r :: size(r) > 0
    ensures WellChunked(size, msgs)
    ensures Flatten(msgs) == Transferred(soa, body)
  {
    var b, used;
    msgs, b, used := FillBody(size, soa, body);
    ghost var sent := SentAfter(soa, body, |body|);
    if used + size(soa) > CHUNK_BUDGET {
      Flushed(size, msgs, b, used, size(soa), sent);
      msgs, b, used := msgs + [b], [], 0;
    }
    Closed(size, msgs, b, used, size(soa), sent, soa);
    SentAll(soa, body);
    msgs := msgs + [b + [soa]];
  }

  // ----- the client side -----

  datatype InitError = EmptyResponse | MissingLeadingSoa | StreamFailed(error: StreamError)

  /** The iterator: what is still to be read, the SOA that start the transfer, and how many of
      its bracketing SOAs have gone by. */
  datatype Iter = Iter(pending: seq<Item>, soa: SOA, emittedFirst: bool, done: bool)

  datatype Opened = Ready(iter: Iter) | NotReady(error: InitError)

  function Open(pending: seq<Item>): Opened {
    if pending == [] then NotReady(EmptyResponse)
    else
      match pending[0]
      case Err(e) => NotReady(StreamFailed(e))
      case Rec(r) => if r.rdata.SoaData? then Ready(Iter(pending, r.rdata.soa, false, false)) else NotReady(MissingLeadingSoa)
  }

  predicate Brackets(soa: SOA, r: Record) {
    r.rdata.SoaData? && r.rdata.soa.serial == soa.serial
  }

  function Step(it: Iter): (ReadResult, Iter) {
    if it.done || it.pending == [] then (Eof, it)
    else
      var rest := it.(pending := it.pending[1..]);
      match it.pending[0]
      case Err(e) => (Got(Err(e)), rest)
      case Rec(r) =>
        if !Brackets(it.soa, r) then (Got(Rec(r)), rest)
        else if !it.emittedFirst then (Got(Rec(r)), rest.(emittedFirst := true))
        else (Got(Rec(r)), rest.(done := true))
  }

  /** The records pulled until the iterator ends or fails, and whether it ended. */
  function Drain(it: Iter): (seq<Record>, bool)
    decreases |it.pending|
  {
    if it.done || it.pending == [] then ([], true)
    else
      match Step(it).0.item
      case Err(_) => ([], false)
      case Rec(r) => var (rs, ok) := Drain(Step(it).1); ([r] + rs, ok)
  }

  class Transfer {
    const reader: RecReader
    var newSOA: SOA
    var emittedFirstSOA: bool
    var done: bool

    ghost predicate Valid()
      reads this, reader
    {
      reader.Valid()
    }

    ghost function Abs(): Iter
      requires Valid()
      reads this, reader
    {
      Iter(reader.Pending(), newSOA, emittedFirstSOA, done)
    }

    constructor (reader: RecReader)
      ensures this.reader == reader && !emittedFirstSOA && !done
    {
      this.reader := reader;
      this.newSOA := SOA(Root, Root, 0, 0, 0, 0, 0);
      this.emittedFirstSOA := false;
      this.done := false;
    }

    /** Reads the leading SOA and puts it back. */
    method Init() returns (err: Option<InitError>)
      requires Valid() && reader.pushback == [] && !emittedFirstSOA && !done
      modifies this`newSOA, reader
      ensures Valid()
      ensures
        match Open(old(reader.Pending()))
        case NotReady(e) => err == Some(e)
        case Ready(it) => err == None && Abs() == it
    {
      var res := reader.Read();
      if res.Eof? {
        return Some(EmptyResponse);
      }
      if res.item.Err? {
        return Some(StreamFailed(res.item.error));
      }
      var rec := res.item.rec;
      if !rec.rdata.SoaData? {
        return Some(MissingLeadingSoa);
      }
      newSOA := rec.rdata.soa;
      reader.Push(rec);
      return None;
    }

    method Next() returns (res: ReadResult)
      requires Valid()
      modifies this`emittedFirstSOA, this`done, reader
      ensures Valid() && (res, Abs()) == Step(old(Abs()))
    {
      if done {
        return Eof;
      }
      res := reader.Read();
      if res.Eof? || res.item.Err? {
        return;
      }
      var rec := res.item.rec;
      if rec.rdata.SoaData? && rec.rdata.soa.serial == newSOA.serial {
        if !emittedFirstSOA {
          emittedFirstSOA := true;
        } else {
          done := true;
        }
      }
    }
  }

  // ----- the round trip -----

  lemma {:induction false} DrainBody(body: seq<Record>, last: Record, rest: seq<Item>, soa: SOA)
    requires (forall i :: 0 <= i < |body| ==> !Brackets(soa, body[i])) && Brackets(soa, last)
    ensures Drain(Iter(RecItems(body + [last]) + rest, soa, true, false)) == (body + [last], true)
  {
    var all := RecItems(body + [last]) + rest;
    if body == [] {
      assert all[0] == Rec(last);
      assert Drain(Iter(all[1..], soa, true, true)) == ([], true);
      assert body + [last] == [last] + [];
    } else {
      assert all[0] == Rec(body[0]);
      assert all[1..] == RecItems(body[1..] + [last]) + rest;
      DrainBody(body[1..], last, rest, soa);
      assert body + [last] == [body[0]] + (body[1..] + [last]);
    }
  }

  /** Whatever is delivered behind the closing SOA, a transfer of `Transferred(soa, body)` opens
      and yields exactly those records, provided the apex SOA is an SOA value; if it is not, the
      client refuses the stream. */
  lemma TransferRoundTrip(soa: Record, body: seq<Record>, rest: seq<Item>)
    requires soa.Type() == TYPE_SOA
    ensures
      var start := Open(RecItems(Transferred(soa, body)) + rest);
      if soa.rdata.SoaData? then
        start.Ready? && Drain(start.iter) == (Transferred(soa, body), true)
      else start == NotReady(MissingLeadingSoa)
  {
    var inner := Filter(body, NotOfType(TYPE_SOA));
    var all := RecItems(Transferred(soa, body)) + rest;
    assert Transferred(soa, body) == [soa] + (inner + [soa]);
    assert all[0] == Rec(soa) && all[1..] == RecItems(inner + [soa]) + rest;
    if soa.rdata.SoaData? {
      FilterMember(body, NotOfType(TYPE_SOA));
      assert forall i :: 0 <= i < |inner| ==> inner[i] in inner;
      DrainBody(inner, soa, rest, soa.rdata.soa);
    }
  }

  /** The envelopes the server writes for a list of messages. */
  function Envelopes(req: Request, msgs: seq<seq<Record>>): seq<Delivery> {
    if msgs == [] then [] else [Msg(Envelope(req.id, [req.question], NoError, true, msgs[0]))] + Envelopes(req, msgs[1..])
  }

  lemma {:induction false} EnvelopesCarry(req: Request, msgs: seq<seq<Record>>)
    ensures Clean(req, Envelopes(req, msgs)) && Answers(Envelopes(req, msgs)) == Flatten(msgs)
  {
    if msgs != [] {
      EnvelopesCarry(req, msgs[1..]);
      assert Envelopes(req, msgs)[1..] == Envelopes(req, msgs[1..]);
    }
  }

  /** Server to client: however the zone was chunked, the client sees the SOA, the body without
      SOA records, in order, the SOA, and then the end. */
  lemma ServerClientRoundTrip(req: Request, soa: Record, body: seq<Record>, msgs: seq<seq<Record>>)
    requires soa.rdata.SoaData? && Flatten(msgs) == Transferred(soa, body)
    ensures
      var start := Open(Items(req, Envelopes(req, msgs)));
      start.Ready? && Drain(start.iter) == (Transferred(soa, body), true)
  {
    EnvelopesCarry(req, msgs);
    ChunkingInvisible(req, Envelopes(req, msgs));
    TransferRoundTrip(soa, body, []);
    assert RecItems(Transferred(soa, body)) + [] == RecItems(Transferred(soa, body));
  }
}
