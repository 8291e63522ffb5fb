/** The record reader both transfer clients share: records pulled from the answer sections of
    successive stream messages, with a pushback queue. */
module TransferStream {
  import opened Names
  import opened Records

  datatype StreamError = Transport | EnvelopeMismatch | BadRcode | BadSignature

  datatype ZoneQuestion = ZoneQuestion(name: Name, qtype: uint16, qclass: uint16)

  /** One response message.  `authentic` is the verdict of the signature verifier, true when no
      key is configured. */
  datatype Envelope = Envelope(
    id: uint16, questions: seq<ZoneQuestion>, rcode: Rcode, authentic: bool, answers: seq<Record>)

  /** What the transport delivers next; the end of the sequence is the end of the stream. */
  datatype Delivery = Msg(env: Envelope) | Broken

  /** What a caller gets to see, one at a time: a record, or the error that replaces a message. */
  datatype Item = Rec(rec: Record) | Err(error: StreamError)

  datatype ReadResult = Got(item: Item) | Eof

  /** The request an envelope must echo. */
  datatype Request = Request(id: uint16, question: ZoneQuestion)

  function EnvelopeError(req: Request, e: Envelope): Option<StreamError> {
    if e.id != req.id then Some(EnvelopeMismatch)
    else if |e.questions| > 0 && e.questions[0] != req.question then Some(EnvelopeMismatch)
    else if e.rcode != NoError then Some(BadRcode)
    else if !e.authentic then Some(BadSignature)
    else None
  }

  function RecItems(rs: seq<Record>): (out: seq<Item>)
    ensures |out| == |rs| && forall i :: 0 <= i < |rs| ==> out[i] == Rec(rs[i])
  {
    seq(|rs|, i requires 0 <= i < |rs| => Rec(rs[i]))
  }

  function DeliveryItems(req: Request, d: Delivery): seq<Item> {
    match d
    case Broken => [Err(Transport)]
    case Msg(e) =>
      match EnvelopeError(req, e)
      case Some(err) => [Err(err)]
      case None => RecItems(e.answers)
  }

  function Items(req: Request, ds: seq<Delivery>): seq<Item> {
    if ds == [] then [] else DeliveryItems(req, ds[0]) + Items(req, ds[1..])
  }

  /** The message has the identifier of the request and its question first or none. */
  predicate Echoes(req: Request, e: Envelope) {
    e.id == req.id && (e.questions == [] || e.questions[0] == req.question)
  }

  /** A message gives its records exactly when it echoes the request, succeeds and verifies; otherwise
      it gives one error, which says the first of these that fails. */
  lemma DeliveryExactly(req: Request, e: Envelope)
    ensures DeliveryItems(req, Msg(e)) ==
            if !Echoes(req, e) then [Err(EnvelopeMismatch)] else if e.rcode != NoError then [Err(BadRcode)]
            else if !e.authentic then [Err(BadSignature)] else RecItems(e.answers)
    ensures EnvelopeError(req, e).None? <==> Echoes(req, e) && e.rcode == NoError && e.authentic
  {
  }

  /** Every message echoes the request, succeeds and verifies. */
  ghost predicate Clean(req: Request, ds: seq<Delivery>) {
    forall i :: 0 <= i < |ds| ==> ds[i].Msg? && Echoes(req, ds[i].env) && ds[i].env.rcode == NoError && ds[i].env.authentic
  }

  function Answers(ds: seq<Delivery>): seq<Record> {
    if ds == [] then [] else (if ds[0].Msg? then ds[0].env.answers else []) + Answers(ds[1..])
  }

  /** How the records were cut into messages, empty ones included, cannot be seen. */
  lemma {:induction false} ChunkingInvisible(req: Request, ds: seq<Delivery>)
    requires Clean(req, ds)
    ensures Items(req, ds) == RecItems(Answers(ds))
  {
    if ds != [] {
      DeliveryExactly(req, ds[0].env);
      assert Clean(req, ds[1..]);
      ChunkingInvisible(req, ds[1..]);
      assert RecItems(Answers(ds)) == RecItems(ds[0].env.answers) + RecItems(Answers(ds[1..]));
    }
  }

  /** What one read does to the items still to come. */
  ghost predicate Reads(before: seq<Item>, res: ReadResult, after: seq<Item>) {
    match res
    case Eof => before == [] && after == []
    case Got(item) => before == [item] + after
  }

  lemma RecItemsCons(r: Record, rs: seq<Record>, rest: seq<Item>)
    ensures RecItems([r] + rs) + rest == [Rec(r)] + (RecItems(rs) + rest)
  {
  }

  lemma NoPushback(a: seq<Item>, b: seq<Item>)
    ensures RecItems([]) + (a + b) == a + b
  {
  }

  lemma EmptyFront(rs: seq<Record>, b: seq<Item>)
    requires rs == []
    ensures RecItems([]) + (RecItems(rs) + b) == b
  {
  }

  class RecReader {
    const req: Request
    var stream: seq<Delivery>  // not yet read from the transport
    var cur: seq<Record>       // answers of the current message
    var curIdx: nat
    var pushback: seq<Record>
    var msgEOF: bool

    ghost predicate Valid()
      reads this
    {
      curIdx <= |cur| && (msgEOF ==> stream == [])
    }

    ghost function Rest(): seq<Item>
      requires Valid()
      reads this
    {
      RecItems(cur[curIdx..]) + Items(req, stream)
    }

    /** What successive reads will return. */
    ghost function Pending(): seq<Item>
      requires Valid()
      reads this
    {
      RecItems(pushback) + Rest()
    }

    constructor (req: Request, stream: seq<Delivery>)
      ensures Valid() && Pending() == Items(req, stream)
      ensures this.req == req
    {
      this.req := req;
      this.stream := stream;
      this.cur := [];
      this.curIdx := 0;
      this.pushback := [];
      this.msgEOF := false;
    }

    /** One message from the transport; no result means its records are now current. */
    method NextMessage() returns (res: Option<ReadResult>)
      requires Valid() && pushback == [] && curIdx == |cur|
      modifies this
      ensures Valid() && pushback == []
      ensures res.None? ==> Pending() == old(Pending()) && |stream| < old(|stream|)
      ensures res.Some? ==> Reads(old(Pending()), res.value, Pending())
    {
      EmptyFront(cur[curIdx..], Items(req, stream));
      if msgEOF {
        return Some(Eof);
      }
      if stream == [] {
        msgEOF := true;
        return Some(Eof);
      }
      var d := stream[0];
      stream := stream[1..];
      EmptyFront(cur[curIdx..], Items(req, stream));
      if d.Broken? {
        return Some(Got(Err(Transport)));
      }
      var err := EnvelopeError(req, d.env);
      if err.Some? {
        return Some(Got(Err(err.value)));
      }
      cur := d.env.answers;
      curIdx := 0;
      assert cur[0..] == cur;
      NoPushback(RecItems(cur), Items(req, stream));
      return None;
    }

    method TakePushed() returns (rec: Record)
      requires Valid() && pushback != []
      modifies this`pushback
      ensures Valid() && Reads(old(Pending()), Got(Rec(rec)), Pending())
      ensures pushback == old(pushback)[1..]
    {
      rec := pushback[0];
      RecItemsCons(rec, pushback[1..], RecItems(cur[curIdx..]) + Items(req, stream));
      assert pushback == [rec] + pushback[1..];
      pushback := pushback[1..];
    }

    method TakeCurrent() returns (rec: Record)
      requires Valid() && pushback == [] && curIdx < |cur|
      modifies this`curIdx
      ensures Valid() && Reads(old(Pending()), Got(Rec(rec)), Pending())
    {
      rec := cur[curIdx];
      assert cur[curIdx..] == [rec] + cur[curIdx + 1..];
      RecItemsCons(rec, cur[curIdx + 1..], Items(req, stream));
      NoPushback(RecItems(cur[curIdx..]), Items(req, stream));
      curIdx := curIdx + 1;
      NoPushback(RecItems(cur[curIdx..]), Items(req, stream));
    }

    method Read() returns (res: ReadResult)
      requires Valid()
      modifies this
      ensures Valid() && Reads(old(Pending()), res, Pending())
      ensures pushback == if old(pushback) == [] then [] else old(pushback)[1..]
    {
      if |pushback| > 0 {
        var rec := TakePushed();
        return Got(Rec(rec));
      }
      while true
        invariant Valid() && pushback == [] && Pending() == old(Pending())
        decreases |stream|
      {
        if curIdx < |cur| {
          var rec := TakeCurrent();
          return Got(Rec(rec));
        }
        var done := NextMessage();
        if done.Some? {
          return done.value;
        }
      }
    }

    /** Pushed records come back before anything else, oldest first. */
    method Push(rec: Record)
      requires Valid()
      modifies this`pushback
      ensures Valid()
      ensures pushback == old(pushback) + [rec] && Rest() == old(Rest())
      ensures old(pushback) == [] ==> Pending() == [Rec(rec)] + old(Pending())
    {
      pushback := pushback + [rec];
    }
  }
}
