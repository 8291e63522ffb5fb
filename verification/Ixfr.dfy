/** The incremental-transfer client: classifying a response, pulling sub-diffs, and why it inverts
    the encoding of RFC 1995 under any chunking. */
module Ixfr {
  import opened Names
  import opened Records
  import opened TransferStream
  import opened Serials

  datatype Kind = UpToDate | AxfrFallback | Incremental

  datatype Failure =
    | EmptyResponse | MissingLeadingSoa | InvalidSoaPair | UnexpectedRecord
    | MissingClosingSoa | MissingSubDiffSoa | TruncatedDiff | StreamFailed(error: StreamError)

  datatype Event = RecordEvent(rec: Record) | DiffEvent(from: uint32, to: uint32, removed: seq<Record>, added: seq<Record>)

  datatype Result = Next(event: Event) | End | Fail(failure: Failure)

  datatype Iter = Iter(pending: seq<Item>, kind: Kind, newSOA: SOA, emittedFirst: bool, axfrDone: bool, incDone: bool)

  datatype Opened = Ready(iter: Iter) | NotReady(failure: Failure)

  // ----- classification -----

  function Start(pending: seq<Item>, kind: Kind, soa: SOA): Opened {
    Ready(Iter(pending, kind, soa, false, false, false))
  }

  /** The kind of a response is decided by its first two records. */
  function Open(p: seq<Item>, clientSerial: uint32): Opened {
    if p == [] then NotReady(EmptyResponse)
    else if p[0].Err? then NotReady(StreamFailed(p[0].error))
    else if !p[0].rec.rdata.SoaData? then NotReady(MissingLeadingSoa)
    else
      var soa := p[0].rec.rdata.soa;
      if |p| == 1 then Start([], UpToDate, soa)
      else if p[1].Err? then NotReady(StreamFailed(p[1].error))
      else if !p[1].rec.rdata.SoaData? then Start(p, AxfrFallback, soa)
      else
        var serial := p[1].rec.rdata.soa.serial;
        if SerialIsOlder(serial, soa.serial) then Start(p[1..], Incremental, soa)
        else if serial == soa.serial then
          if soa.serial == clientSerial then Start(p[2..], UpToDate, soa) else Start(p, AxfrFallback, soa)
        else NotReady(InvalidSoaPair)
  }

  // ----- pulling events -----

  predicate StopsAt(i: Item) {
    i.Err? || i.rec.Type() == TYPE_SOA
  }

  /** The records before the first SOA or error. */
  function Run(p: seq<Item>): (rs: seq<Record>)
    ensures |rs| <= |p|
    ensures |rs| < |p| ==> StopsAt(p[|rs|])
  {
    if p == [] || StopsAt(p[0]) then [] else [p[0].rec] + Run(p[1..])
  }

  function StepAxfr(it: Iter): (Result, Iter) {
    if it.axfrDone || it.pending == [] then (End, it)
    else
      var rest := it.(pending := it.pending[1..]);
      match it.pending[0]
      case Err(e) => (Fail(StreamFailed(e)), rest)
      case Rec(r) =>
        if r.rdata.SoaData? && r.rdata.soa.serial == it.newSOA.serial then
          if !it.emittedFirst then (Next(RecordEvent(r)), rest.(emittedFirst := true))
          else (Next(RecordEvent(r)), rest.(axfrDone := true))
        else (Next(RecordEvent(r)), rest)
  }

  /** The closing SOA has been read: nothing may follow. */
  function Close(it: Iter): (Result, Iter) {
    if it.pending == [] then (End, it.(incDone := true))
    else
      var rest := it.(pending := it.pending[1..]);
      match it.pending[0]
      case Err(e) => (Fail(StreamFailed(e)), rest)
      case Rec(_) => (Fail(UnexpectedRecord), rest)
  }

  /** The added half of a sub-diff; the SOA behind it stays for the next call. */
  function AddedHalf(it: Iter, from: uint32, removed: seq<Record>, to: uint32): (Result, Iter) {
    var p := it.pending;
    var added := Run(p);
    if |added| == |p| then (Fail(MissingClosingSoa), it.(pending := []))
    else if p[|added|].Err? then (Fail(StreamFailed(p[|added|].error)), it.(pending := p[|added| + 1..]))
    else (Next(DiffEvent(from, to, removed, added)), it.(pending := p[|added|..]))
  }

  /** The removed half of a sub-diff, up to and including the SOA that opens the added half. */
  function RemovedHalf(it: Iter, from: uint32): (Result, Iter) {
    var p := it.pending;
    var removed := Run(p);
    if |removed| == |p| then (Fail(TruncatedDiff), it.(pending := []))
    else
      var rest := it.(pending := p[|removed| + 1..]);
      match p[|removed|]
      case Err(e) => (Fail(StreamFailed(e)), rest)
      case Rec(r) =>
        if !r.rdata.SoaData? then (Fail(MissingSubDiffSoa), rest)
        else AddedHalf(rest, from, removed, r.rdata.soa.serial)
  }

  /** What the first record of an incremental pull leads to. */
  function FromHead(it: Iter, r: Record): (Result, Iter) {
    if !r.rdata.SoaData? then (Fail(MissingSubDiffSoa), it)
    else if r.rdata.soa.serial == it.newSOA.serial then Close(it)
    else RemovedHalf(it, r.rdata.soa.serial)
  }

  function StepIncremental(it: Iter): (Result, Iter) {
    if it.incDone then (End, it)
    else if it.pending == [] then (Fail(TruncatedDiff), it)
    else
      var rest := it.(pending := it.pending[1..]);
      match it.pending[0]
      case Err(e) => (Fail(StreamFailed(e)), rest)
      case Rec(r) => FromHead(rest, r)
  }

  function Step(it: Iter): (Result, Iter) {
    match it.kind
    case UpToDate => (End, it)
    case AxfrFallback => StepAxfr(it)
    case Incremental => StepIncremental(it)
  }

  lemma StepConsumes(it: Iter)
    ensures Step(it).0.Next? ==> |Step(it).1.pending| < |it.pending|
  {
  }

  /** The events pulled until the iterator ends or fails, and the way it stopped. */
  function Drain(it: Iter): (seq<Event>, Result)
    decreases |it.pending|
  {
    StepConsumes(it);
    match Step(it).0
    case Next(e) => var (es, end) := Drain(Step(it).1); ([e] + es, end)
    case stop => ([], stop)
  }

  // ----- the iterator object -----

  class Transfer {
    const reader: RecReader
    var kind: Kind
    var newSOA: SOA
    var axfrEmittedFirst: bool
    var axfrDone: bool
    var incDone: bool

    ghost predicate Valid()
      reads this, reader
    {
      reader.Valid() && (kind.Incremental? ==> |reader.pushback| <= 1)
    }

    ghost function Abs(): Iter
      requires Valid()
      reads this, reader
    {
      Iter(reader.Pending(), kind, newSOA, axfrEmittedFirst, axfrDone, incDone)
    }

    constructor (reader: RecReader)
      ensures this.reader == reader && !axfrEmittedFirst && !axfrDone && !incDone
    {
      this.reader := reader;
      this.kind := UpToDate;
      this.newSOA := SOA(Root, Root, 0, 0, 0, 0, 0);
      this.axfrEmittedFirst := false;
      this.axfrDone := false;
      this.incDone := false;
    }

    /** Reads up to two records, decides the kind, and puts back what the events will need. */
    method Init(clientSerial: uint32) returns (err: Option<Failure>)
      requires reader.Valid() && reader.pushback == [] && !axfrEmittedFirst && !axfrDone && !incDone
      modifies this`kind, this`newSOA, reader
      ensures Valid()
      ensures
        match Open(old(reader.Pending()), clientSerial)
        case NotReady(e) => err == Some(e)
        case Ready(it) => err == None && Abs() == it
    {
      ghost var p := reader.Pending();
      var res1 := reader.Read();
      if res1.Eof? {
        return Some(EmptyResponse);
      }
      if res1.item.Err? {
        return Some(StreamFailed(res1.item.error));
      }
      var rec1 := res1.item.rec;
      if !rec1.rdata.SoaData? {
        return Some(MissingLeadingSoa);
      }
      newSOA := rec1.rdata.soa;
      err := Classify(rec1, p, clientSerial);
    }

    method Classify(rec1: Record, ghost p: seq<Item>, clientSerial: uint32) returns (err: Option<Failure>)
      requires reader.Valid() && reader.pushback == [] && !axfrEmittedFirst && !axfrDone && !incDone
      requires rec1.rdata.SoaData? && newSOA == rec1.rdata.soa && p == [Rec(rec1)] + reader.Pending()
      modifies this`kind, reader
      ensures Valid()
      ensures
        match Open(p, clientSerial)
        case NotReady(e) => err == Some(e)
        case Ready(it) => err == None && Abs() == it
    {
      var res2 := reader.Read();
      if res2.Eof? {
        kind := UpToDate;
        return None;
      }
      if res2.item.Err? {
        return Some(StreamFailed(res2.item.error));
      }
      var rec2 := res2.item.rec;
      assert p == [Rec(rec1)] + [Rec(rec2)] + reader.Pending();
      assert p[1..] == [Rec(rec2)] + reader.Pending() && p[2..] == reader.Pending();
      if !rec2.rdata.SoaData? {
        kind := AxfrFallback;
        PushBoth(rec1, rec2);
        return None;
      }
      if SerialIsOlder(rec2.rdata.soa.serial, newSOA.serial) {
        kind := Incremental;
        reader.Push(rec2);
        return None;
      }
      if rec2.rdata.soa.serial == newSOA.serial {
        if newSOA.serial == clientSerial {
          kind := UpToDate;
          return None;
        }
        kind := AxfrFallback;
        PushBoth(rec1, rec2);
        return None;
      }
      return Some(InvalidSoaPair);
    }

    method PushBoth(rec1: Record, rec2: Record)
      requires reader.Valid() && reader.pushback == []
      modifies reader
      ensures reader.Valid() && reader.Pending() == [Rec(rec1)] + [Rec(rec2)] + old(reader.Pending())
    {
      assert reader.Pending() == reader.Rest();
      reader.Push(rec1);
      reader.Push(rec2);
      assert RecItems(reader.pushback) == [Rec(rec1)] + [Rec(rec2)];
    }

    method NextAXFR() returns (res: Result)
      requires Valid()
      modifies this`axfrEmittedFirst, this`axfrDone, reader
      ensures Valid() && (res, Abs()) == StepAxfr(old(Abs()))
    {
      if axfrDone {
        return End;
      }
      var got := reader.Read();
      if got.Eof? {
        return End;
      }
      if got.item.Err? {
        return Fail(StreamFailed(got.item.error));
      }
      var rec := got.item.rec;
      if rec.rdata.SoaData? && rec.rdata.soa.serial == newSOA.serial {
        if !axfrEmittedFirst {
          axfrEmittedFirst := true;
        } else {
          axfrDone := true;
        }
      }
      return Next(RecordEvent(rec));
    }

    /** Collects records until an SOA, an error or the end, which is consumed and returned. */
    method Collect() returns (rs: seq<Record>, stop: ReadResult)
      requires reader.Valid() && reader.pushback == []
      modifies reader
      ensures reader.Valid() && reader.pushback == []
      ensures Collected(old(reader.Pending()), rs, stop, reader.Pending())
    {
      rs := [];
      ghost var p, q := reader.Pending(), reader.Pending();
      assert p == RecItems(rs) + q;
      while true
        invariant reader.Valid() && reader.pushback == [] && reader.Pending() == q
        invariant Run(p) == rs + Run(q) && p == RecItems(rs) + q
        decreases |q|
      {
        stop := reader.Read();
        if stop.Eof? || StopsAt(stop.item) {
          RunStops(p, rs, q, stop, reader.Pending());
          return;
        }
        RunMore(p, rs, stop.item, reader.Pending());
        rs := rs + [stop.item.rec];
        q := reader.Pending();
      }
    }

    /** The closing bracket: nothing may follow it. */
    method ReadPastClosing() returns (res: Result)
      requires reader.Valid() && reader.pushback == [] && kind.Incremental?
      modifies this`incDone, reader
      ensures Valid() && (res, Abs()) == Close(old(Abs()))
    {
      var got := reader.Read();
      if got.Eof? {
        incDone := true;
        return End;
      }
      if got.item.Err? {
        return Fail(StreamFailed(got.item.error));
      }
      return Fail(UnexpectedRecord);
    }

    method ReadAdded(from: uint32, removed: seq<Record>, to: uint32) returns (res: Result)
      requires reader.Valid() && reader.pushback == [] && kind.Incremental?
      modifies reader
      ensures Valid() && (res, Abs()) == AddedHalf(old(Abs()), from, removed, to)
    {
      hide Run, Items, RecItems;
      ghost var p := reader.Pending();
      var added, stop := Collect();
      if stop.Eof? {
        return Fail(MissingClosingSoa);
      }
      if stop.item.Err? {
        return Fail(StreamFailed(stop.item.error));
      }
      ghost var after := reader.Pending();
      reader.Push(stop.item.rec);
      assert reader.Pending() == [stop.item] + after == p[|added|..];
      return Next(DiffEvent(from, to, removed, added));
    }

    method ReadDiff(from: uint32) returns (res: Result)
      requires reader.Valid() && reader.pushback == [] && kind.Incremental?
      modifies reader
      ensures Valid() && (res, Abs()) == RemovedHalf(old(Abs()), from)
    {
      var removed, stop := Collect();
      if stop.Eof? {
        return Fail(TruncatedDiff);
      }
      if stop.item.Err? {
        return Fail(StreamFailed(stop.item.error));
      }
      if !stop.item.rec.rdata.SoaData? {
        return Fail(MissingSubDiffSoa);
      }
      res := ReadAdded(from, removed, stop.item.rec.rdata.soa.serial);
    }

    method NextIncremental() returns (res: Result)
      requires Valid() && kind.Incremental?
      modifies this`incDone, reader
      ensures Valid() && (res, Abs()) == StepIncremental(old(Abs()))
    {
      if incDone {
        return End;
      }
      var got := reader.Read();
      if got.Eof? {
        return Fail(TruncatedDiff);
      }
      if got.item.Err? {
        return Fail(StreamFailed(got.item.error));
      }
      res := DispatchHead(got.item.rec);
    }

    method DispatchHead(rec: Record) returns (res: Result)
      requires reader.Valid() && reader.pushback == [] && kind.Incremental?
      modifies this`incDone, reader
      ensures Valid() && (res, Abs()) == FromHead(old(Abs()), rec)
    {
      if !rec.rdata.SoaData? {
        return Fail(MissingSubDiffSoa);
      }
      if rec.rdata.soa.serial == newSOA.serial {
        res := ReadPastClosing();
        return;
      }
      res := ReadDiff(rec.rdata.soa.serial);
    }

    method Pull() returns (res: Result)
      requires Valid()
      modifies this, reader
      ensures Valid() && (res, Abs()) == Step(old(Abs()))
    {
      match kind {
        case UpToDate => return End;
        case AxfrFallback => res := NextAXFR();
        case Incremental => res := NextIncremental();
      }
    }
  }

  /** `rs` are the records before the first stop in `p`, and `stop` is that stop. */
  ghost predicate Collected(p: seq<Item>, rs: seq<Record>, stop: ReadResult, after: seq<Item>) {
    && rs == Run(p)
    && match stop
       case Eof => |rs| == |p| && after == []
       case Got(i) => |rs| < |p| && i == p[|rs|] && after == p[|rs| + 1..]
  }

  lemma RunStops(p: seq<Item>, rs: seq<Record>, q: seq<Item>, stop: ReadResult, after: seq<Item>)
    requires Run(p) == rs + Run(q) && p == RecItems(rs) + q && Reads(q, stop, after)
    requires stop.Eof? || StopsAt(stop.item)
    ensures Collected(p, rs, stop, after)
  {
    assert Run(q) == [];
  }

  lemma RunMore(p: seq<Item>, rs: seq<Record>, i: Item, rest: seq<Item>)
    requires Run(p) == rs + Run([i] + rest) && p == RecItems(rs) + ([i] + rest) && !StopsAt(i)
    ensures Run(p) == (rs + [i.rec]) + Run(rest) && p == RecItems(rs + [i.rec]) + rest
  {
    assert ([i] + rest)[1..] == rest;
    assert rs + ([i.rec] + Run(rest)) == (rs + [i.rec]) + Run(rest);
    assert RecItems(rs + [i.rec]) == RecItems(rs) + [i];
  }

  // ----- the encoding of section 4 of RFC 1995 -----

  datatype Diff = Diff(oldSoa: Record, newSoa: Record, removed: seq<Record>, added: seq<Record>)

  ghost predicate SoaFree(rs: seq<Record>) {
    forall i :: 0 <= i < |rs| ==> rs[i].Type() != TYPE_SOA
  }

  /** SOA values at the boundaries, no SOA between them. */
  ghost predicate DiffOK(d: Diff) {
    d.oldSoa.rdata.SoaData? && d.newSoa.rdata.SoaData? && SoaFree(d.removed) && SoaFree(d.added)
  }

  ghost predicate DiffsOK(ds: seq<Diff>) {
    forall i :: 0 <= i < |ds| ==> DiffOK(ds[i])
  }

  function EncodeDiff(d: Diff): seq<Record> {
    [d.oldSoa] + (d.removed + ([d.newSoa] + d.added))
  }

  /** The sub-diffs in order, then the closing SOA. */
  function EncodeDiffs(ds: seq<Diff>, newSoa: Record): seq<Record> {
    if ds == [] then [newSoa] else EncodeDiff(ds[0]) + EncodeDiffs(ds[1..], newSoa)
  }

  function Encode(newSoa: Record, ds: seq<Diff>): seq<Record> {
    [newSoa] + EncodeDiffs(ds, newSoa)
  }

  function EventOf(d: Diff): Event
    requires d.oldSoa.rdata.SoaData? && d.newSoa.rdata.SoaData?
  {
    DiffEvent(d.oldSoa.rdata.soa.serial, d.newSoa.rdata.soa.serial, d.removed, d.added)
  }

  ghost function EventsOf(ds: seq<Diff>): seq<Event>
    requires DiffsOK(ds)
  {
    if ds == [] then [] else assert DiffOK(ds[0]); [EventOf(ds[0])] + EventsOf(ds[1..])
  }

  /** An SOA-free run is collected whole and the SOA behind it is where it stops. */
  lemma {:induction false} RunOverFree(rs: seq<Record>, soa: Record, rest: seq<Item>)
    requires SoaFree(rs) && soa.Type() == TYPE_SOA
    ensures Run(RecItems(rs) + ([Rec(soa)] + rest)) == rs
  {
    var p := RecItems(rs) + ([Rec(soa)] + rest);
    if rs != [] {
      assert p[0] == Rec(rs[0]) && p[1..] == RecItems(rs[1..]) + ([Rec(soa)] + rest);
      RunOverFree(rs[1..], soa, rest);
    }
  }

  /** The items of one sub-diff, with the SOA that must follow it. */
  function DiffItems(d: Diff, soa: Record, rest: seq<Item>): seq<Item> {
    [Rec(d.oldSoa)] + (RecItems(d.removed) + ([Rec(d.newSoa)] + (RecItems(d.added) + ([Rec(soa)] + rest))))
  }

  lemma AddedDecodes(it: Iter, d: Diff, soa: Record, rest: seq<Item>)
    requires DiffOK(d) && soa.Type() == TYPE_SOA
    requires it.pending == RecItems(d.added) + ([Rec(soa)] + rest)
    ensures AddedHalf(it, d.oldSoa.rdata.soa.serial, d.removed, d.newSoa.rdata.soa.serial)
            == (Next(EventOf(d)), it.(pending := [Rec(soa)] + rest))
  {
    RunOverFree(d.added, soa, rest);
    assert it.pending[|d.added|..] == [Rec(soa)] + rest;
  }

  lemma RemovedDecodes(it: Iter, d: Diff, soa: Record, rest: seq<Item>)
    requires DiffOK(d) && soa.Type() == TYPE_SOA
    requires it.pending == RecItems(d.removed) + ([Rec(d.newSoa)] + (RecItems(d.added) + ([Rec(soa)] + rest)))
    ensures RemovedHalf(it, d.oldSoa.rdata.soa.serial) == (Next(EventOf(d)), it.(pending := [Rec(soa)] + rest))
  {
    var tail := RecItems(d.added) + ([Rec(soa)] + rest);
    RunOverFree(d.removed, d.newSoa, tail);
    assert it.pending[|d.removed|] == Rec(d.newSoa) && it.pending[|d.removed| + 1..] == tail;
    AddedDecodes(it.(pending := tail), d, soa, rest);
  }

  /** A sub-diff whose old serial is not the new one is pulled as itself. */
  lemma DiffDecodes(it: Iter, d: Diff, soa: Record, rest: seq<Item>)
    requires DiffOK(d) && soa.Type() == TYPE_SOA && it.kind.Incremental? && !it.incDone
    requires it.pending == DiffItems(d, soa, rest) && d.oldSoa.rdata.soa.serial != it.newSOA.serial
    ensures Step(it) == (Next(EventOf(d)), it.(pending := [Rec(soa)] + rest))
  {
    RemovedDecodes(it.(pending := it.pending[1..]), d, soa, rest);
  }
}
