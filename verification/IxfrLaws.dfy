/** Whole incremental and fallback transfers: what the client yields for what a server sends. */
module IxfrLaws {
  import opened Names
  import opened Records
  import opened TransferStream
  import opened Serials
  import opened Ixfr
  import Axfr

  // ----- draining an encoded diff list -----

  lemma EncodedHead(ds: seq<Diff>, newSoa: Record)
    requires DiffsOK(ds) && newSoa.rdata.SoaData?
    ensures
      var all := EncodeDiffs(ds, newSoa);
      all != [] && all[0] == (if ds == [] then newSoa else ds[0].oldSoa) && all[0].rdata.SoaData?
  {
    if ds != [] {
      assert DiffOK(ds[0]);
    }
  }

  /** The items of a non-empty list: the first sub-diff, the SOA behind it, and the rest. */
  lemma EncodedItems(ds: seq<Diff>, newSoa: Record)
    requires ds != [] && DiffsOK(ds) && newSoa.rdata.SoaData?
    ensures
      var more := EncodeDiffs(ds[1..], newSoa);
      && more != []
      && RecItems(EncodeDiffs(ds, newSoa)) == DiffItems(ds[0], more[0], RecItems(more[1..]))
      && RecItems(more) == [Rec(more[0])] + RecItems(more[1..])
  {
    EncodedHead(ds[1..], newSoa);
    var more := EncodeDiffs(ds[1..], newSoa);
    var d := ds[0];
    ItemsOfDiff(d, more);
  }

  lemma ItemsOfDiff(d: Diff, more: seq<Record>)
    requires more != []
    ensures RecItems(EncodeDiff(d) + more) == DiffItems(d, more[0], RecItems(more[1..]))
    ensures RecItems(more) == [Rec(more[0])] + RecItems(more[1..])
  {
    var a, b := RecItems(EncodeDiff(d) + more), DiffItems(d, more[0], RecItems(more[1..]));
    assert EncodeDiff(d) + more == [d.oldSoa] + d.removed + [d.newSoa] + d.added + [more[0]] + more[1..];
    assert a == [Rec(d.oldSoa)] + RecItems(d.removed) + [Rec(d.newSoa)] + RecItems(d.added) + [Rec(more[0])] + RecItems(more[1..]);
  }

  ghost predicate NoneIsNew(ds: seq<Diff>, serial: uint32)
    requires DiffsOK(ds)
  {
    forall i :: 0 <= i < |ds| ==> assert DiffOK(ds[i]); ds[i].oldSoa.rdata.soa.serial != serial
  }

  /** The iterator waiting for the sub-diffs `ds` and the closing SOA. */
  ghost predicate WaitsFor(it: Iter, ds: seq<Diff>, newSoa: Record) {
    && Axfr.Brackets(it.newSOA, newSoa)
    && it.kind.Incremental? && !it.incDone
    && it.pending == RecItems(EncodeDiffs(ds, newSoa))
  }

  lemma ClosesAtEnd(it: Iter, newSoa: Record)
    requires WaitsFor(it, [], newSoa)
    ensures Drain(it) == ([], End)
  {
    assert it.pending == [Rec(newSoa)] && it.pending[1..] == [];
    assert Step(it).0 == End;
  }

  lemma ClosesTooEarly(it: Iter, ds: seq<Diff>, newSoa: Record)
    requires WaitsFor(it, ds, newSoa) && ds != [] && DiffsOK(ds)
    requires DiffOK(ds[0]) && ds[0].oldSoa.rdata.soa.serial == it.newSOA.serial
    ensures Drain(it) == ([], Fail(UnexpectedRecord))
  {
    EncodedItems(ds, newSoa);
    var rest := it.pending[1..];
    assert rest[0].Rec?;
    assert Step(it).0 == Fail(UnexpectedRecord);
  }

  lemma PullsFirst(it: Iter, ds: seq<Diff>, newSoa: Record)
    requires WaitsFor(it, ds, newSoa) && ds != [] && DiffsOK(ds)
    requires DiffOK(ds[0]) && ds[0].oldSoa.rdata.soa.serial != it.newSOA.serial
    ensures Step(it).0 == Next(EventOf(ds[0])) && WaitsFor(Step(it).1, ds[1..], newSoa)
  {
    EncodedItems(ds, newSoa);
    EncodedHead(ds[1..], newSoa);
    var more := EncodeDiffs(ds[1..], newSoa);
    DiffDecodes(it, ds[0], more[0], RecItems(more[1..]));
  }

  lemma {:induction false} DrainDiffs(it: Iter, ds: seq<Diff>, newSoa: Record)
    requires WaitsFor(it, ds, newSoa) && DiffsOK(ds)
    ensures NoneIsNew(ds, it.newSOA.serial) ==> Drain(it) == (EventsOf(ds), End)
    ensures !NoneIsNew(ds, it.newSOA.serial) ==> Drain(it).1 == Fail(UnexpectedRecord)
    decreases |ds|
  {
    if ds == [] {
      ClosesAtEnd(it, newSoa);
    } else {
      assert DiffOK(ds[0]);
      if ds[0].oldSoa.rdata.soa.serial == it.newSOA.serial {
        ClosesTooEarly(it, ds, newSoa);
      } else {
        PullsFirst(it, ds, newSoa);
        DrainDiffs(Step(it).1, ds[1..], newSoa);
        NoneIsNewCons(ds, it.newSOA.serial);
      }
    }
  }

  lemma NoneIsNewCons(ds: seq<Diff>, serial: uint32)
    requires ds != [] && DiffsOK(ds) && DiffOK(ds[0]) && ds[0].oldSoa.rdata.soa.serial != serial
    ensures NoneIsNew(ds, serial) <==> NoneIsNew(ds[1..], serial)
  {
    if NoneIsNew(ds[1..], serial) {
      forall i | 0 <= i < |ds|
        ensures DiffOK(ds[i]) && ds[i].oldSoa.rdata.soa.serial != serial
      {
        if i > 0 {
          assert ds[i] == ds[1..][i - 1];
        }
      }
    }
  }

  // ----- the round trip -----

  ghost predicate Decodes(start: Opened, ds: seq<Diff>)
    requires DiffsOK(ds)
  {
    start.Ready? && start.iter.kind.Incremental? && Drain(start.iter) == (EventsOf(ds), End)
  }

  lemma OpensIncremental(ds: seq<Diff>, newSoa: Record, clientSerial: uint32)
    requires ds != [] && DiffsOK(ds) && DiffOK(ds[0]) && newSoa.rdata.SoaData?
    ensures
      var start := Open(RecItems(Encode(newSoa, ds)), clientSerial);
      var older := SerialIsOlder(ds[0].oldSoa.rdata.soa.serial, newSoa.rdata.soa.serial);
      && (older ==> start.Ready? && WaitsFor(start.iter, ds, newSoa))
      && (!older ==> start.NotReady? || !start.iter.kind.Incremental?)
  {
    EncodedItems(ds, newSoa);
    var p := RecItems(Encode(newSoa, ds));
    assert p[0] == Rec(newSoa) && p[1..] == RecItems(EncodeDiffs(ds, newSoa));
    assert p[1] == p[1..][0] == Rec(ds[0].oldSoa);
  }

  /** Parsing inverts encoding under any chunking exactly when the first old serial is older than
      the new one in sequence space and no old serial equals it. */
  lemma IncrementalRoundTrip(req: Request, stream: seq<Delivery>, newSoa: Record, ds: seq<Diff>, clientSerial: uint32)
    requires Clean(req, stream) && Answers(stream) == Encode(newSoa, ds)
    requires ds != [] && DiffsOK(ds) && DiffOK(ds[0]) && newSoa.rdata.SoaData?
    ensures Decodes(Open(Items(req, stream), clientSerial), ds) <==>
              && SerialIsOlder(ds[0].oldSoa.rdata.soa.serial, newSoa.rdata.soa.serial)
              && NoneIsNew(ds, newSoa.rdata.soa.serial)
  {
    ChunkingInvisible(req, stream);
    OpensIncremental(ds, newSoa, clientSerial);
    var start := Open(RecItems(Encode(newSoa, ds)), clientSerial);
    if SerialIsOlder(ds[0].oldSoa.rdata.soa.serial, newSoa.rdata.soa.serial) {
      DrainDiffs(start.iter, ds, newSoa);
    }
  }

  // ----- a full transfer read by the incremental client -----

  function RecordEvents(rs: seq<Record>): seq<Event> {
    if rs == [] then [] else [RecordEvent(rs[0])] + RecordEvents(rs[1..])
  }

  lemma {:induction false} DrainFallback(it: Iter, body: seq<Record>, last: Record)
    requires it.kind.AxfrFallback? && it.emittedFirst && !it.axfrDone
    requires it.pending == RecItems(body + [last]) && Axfr.Brackets(it.newSOA, last)
    requires forall i :: 0 <= i < |body| ==> !Axfr.Brackets(it.newSOA, body[i])
    ensures Drain(it) == (RecordEvents(body + [last]), End)
    decreases |body|
  {
    var next := Step(it).1;
    var all := body + [last];
    assert it.pending[0] == Rec(all[0]) && it.pending[1..] == RecItems(all[1..]);
    if body == [] {
      assert Step(next).0 == End;
      assert Drain(next) == ([], End);
      assert all[1..] == [];
    } else {
      assert all[1..] == body[1..] + [last];
      DrainFallback(next, body[1..], last);
    }
  }

  /** The iterator over the records of a full transfer. */
  function FallbackIter(soa: Record, rs: seq<Record>): Iter
    requires soa.rdata.SoaData?
  {
    Iter(RecItems(rs), AxfrFallback, soa.rdata.soa, false, false, false)
  }

  lemma DrainWhole(soa: Record, inner: seq<Record>)
    requires soa.rdata.SoaData? && forall i :: 0 <= i < |inner| ==> inner[i].Type() != TYPE_SOA
    ensures
      var rs := [soa] + (inner + [soa]);
      Drain(FallbackIter(soa, rs)) == (RecordEvents(rs), End)
  {
    var rs := [soa] + (inner + [soa]);
    var it := FallbackIter(soa, rs);
    assert it.pending[0] == Rec(soa) && it.pending[1..] == RecItems(inner + [soa]);
    DrainFallback(it.(pending := it.pending[1..], emittedFirst := true), inner, soa);
    assert rs[1..] == inner + [soa];
  }

  predicate OpensFallback(start: Opened) {
    start.Ready? && start.iter.kind.AxfrFallback?
  }

  /** The incremental client takes a full transfer for one, with the same records, exactly when the
      body has a record other than SOAs or the serial differs from the client's own. */
  lemma FallbackRoundTrip(req: Request, stream: seq<Delivery>, soa: Record, body: seq<Record>, clientSerial: uint32)
    requires Clean(req, stream) && Answers(stream) == Axfr.Transferred(soa, body) && soa.rdata.SoaData?
    ensures OpensFallback(Open(Items(req, stream), clientSerial)) <==>
              (Filter(body, NotOfType(TYPE_SOA)) != [] || soa.rdata.soa.serial != clientSerial)
    ensures OpensFallback(Open(Items(req, stream), clientSerial)) ==>
              Drain(Open(Items(req, stream), clientSerial).iter) == (RecordEvents(Axfr.Transferred(soa, body)), End)
  {
    ChunkingInvisible(req, stream);
    var inner := Filter(body, NotOfType(TYPE_SOA));
    FilterMember(body, NotOfType(TYPE_SOA));
    assert forall i :: 0 <= i < |inner| ==> inner[i] in inner;
    var rs := [soa] + (inner + [soa]);
    assert Axfr.Transferred(soa, body) == rs;
    var p := RecItems(rs);
    assert p[0] == Rec(soa) && |p| >= 2 && p[1] == Rec(if inner == [] then soa else inner[0]);
    DrainWhole(soa, inner);
  }
}
