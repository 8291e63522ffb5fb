/** What the transfer clients make of any stream, well formed or not. */
module TransferExact {
  import opened Names
  import opened Records
  import opened TransferStream
  import opened Serials
  import Axfr
  import opened Ixfr
  import opened IxfrLaws

  // ----- full transfers -----

  /** Where the client stops: nothing left, an error, or the SOA again. */
  ghost predicate StopsHere(soa: SOA, rest: seq<Item>) {
    rest == [] || rest[0].Err? || Axfr.Brackets(soa, rest[0].rec)
  }

  ghost predicate NoBrackets(soa: SOA, rs: seq<Record>) {
    forall i :: 0 <= i < |rs| ==> !Axfr.Brackets(soa, rs[i])
  }

  /** Every stream is some records other than the SOA, and then a stop. */
  lemma {:induction false} SplitsAtStop(p: seq<Item>, soa: SOA) returns (rs: seq<Record>, rest: seq<Item>)
    ensures p == RecItems(rs) + rest && NoBrackets(soa, rs) && StopsHere(soa, rest)
  {
    rs, rest := [], p;
    if !StopsHere(soa, p) {
      rs, rest := SplitsAtStop(p[1..], soa);
      assert p == [p[0]] + p[1..];
      rs := [p[0].rec] + rs;
    }
  }

  lemma {:induction false} DrainExactly(rs: seq<Record>, rest: seq<Item>, soa: SOA)
    requires NoBrackets(soa, rs) && StopsHere(soa, rest)
    ensures Axfr.Drain(Axfr.Iter(RecItems(rs) + rest, soa, true, false)) ==
            if rest == [] then (rs, true) else if rest[0].Err? then (rs, false) else (rs + [rest[0].rec], true)
    decreases |rs|
  {
    var all := RecItems(rs) + rest;
    if rs == [] {
      assert all == rest;
      if rest != [] && rest[0].Rec? {
        assert Axfr.Drain(Axfr.Iter(rest[1..], soa, true, true)) == ([], true);
        assert [] + [rest[0].rec] == [rest[0].rec] + [];
      }
    } else {
      assert all[0] == Rec(rs[0]) && all[1..] == RecItems(rs[1..]) + rest;
      DrainExactly(rs[1..], rest, soa);
      assert rs == [rs[0]] + rs[1..];
      if rest != [] && rest[0].Rec? {
        assert rs + [rest[0].rec] == [rs[0]] + (rs[1..] + [rest[0].rec]);
      }
    }
  }

  /** The stream is an SOA, `rs` without that SOA again, and then `rest`, where the client stops. */
  ghost predicate Splits(p: seq<Item>, soa: SOA, rs: seq<Record>, rest: seq<Item>) {
    && p != [] && p[0].Rec? && p[0].rec.rdata == SoaData(soa)
    && p[1..] == RecItems(rs) + rest && NoBrackets(soa, rs) && StopsHere(soa, rest)
  }

  /** The client refuses an empty stream, a leading error and a leading record that is no SOA value. */
  lemma ClientRefuses(p: seq<Item>)
    ensures Axfr.Open(p) == Axfr.NotReady(Axfr.EmptyResponse) <==> p == []
    ensures forall e :: Axfr.Open(p) == Axfr.NotReady(Axfr.StreamFailed(e)) <==> p != [] && p[0] == Err(e)
    ensures Axfr.Open(p) == Axfr.NotReady(Axfr.MissingLeadingSoa) <==> p != [] && p[0].Rec? && !p[0].rec.rdata.SoaData?
    ensures Axfr.Open(p).Ready? <==> exists soa, rs, rest :: Splits(p, soa, rs, rest)
  {
    if Axfr.Open(p).Ready? {
      var soa := p[0].rec.rdata.soa;
      var rs, rest := SplitsAtStop(p[1..], soa);
      assert Splits(p, soa, rs, rest);
    }
  }

  /** Otherwise it yields the SOA and all records up to the next SOA of that serial, and ends; it fails on
      an error before that; and it also ends where the stream does. */
  lemma ClientExactly(p: seq<Item>, soa: SOA, rs: seq<Record>, rest: seq<Item>)
    requires Splits(p, soa, rs, rest)
    ensures Axfr.Open(p).Ready?
    ensures Axfr.Drain(Axfr.Open(p).iter) ==
            if rest == [] then ([p[0].rec] + rs, true)
            else if rest[0].Err? then ([p[0].rec] + rs, false)
            else ([p[0].rec] + rs + [rest[0].rec], true)
  {
    hide Axfr.Drain;
    DrainExactly(rs, rest, soa);
    FirstPulled(p, soa);
    if rest != [] && rest[0].Rec? {
      assert [p[0].rec] + (rs + [rest[0].rec]) == [p[0].rec] + rs + [rest[0].rec];
    }
  }

  lemma FirstPulled(p: seq<Item>, soa: SOA)
    requires p != [] && p[0].Rec? && p[0].rec.rdata == SoaData(soa)
    ensures var (rs, ok) := Axfr.Drain(Axfr.Iter(p[1..], soa, true, false));
            Axfr.Drain(Axfr.Iter(p, soa, false, false)) == ([p[0].rec] + rs, ok)
  {
  }

  // ----- incremental transfers -----

  /** The stream begins with a record that holds this SOA. */
  ghost predicate Leads(p: seq<Item>, i: nat, soa: SOA) {
    i < |p| && p[i].Rec? && p[i].rec.rdata == SoaData(soa)
  }

  /** The kind of a response, by its first two records: up to date if there is only the SOA, or the
      client's own SOA twice; incremental if an older SOA follows; a full transfer if another record
      follows, or the same SOA for a client with another serial. */
  lemma ClassifyExactly(p: seq<Item>, clientSerial: uint32, soa: SOA)
    requires Leads(p, 0, soa)
    ensures var start := Open(p, clientSerial);
            && (start.Ready? ==> start.iter.newSOA == soa && !start.iter.emittedFirst && !start.iter.axfrDone && !start.iter.incDone)
            && (start.Ready? && start.iter.kind == UpToDate <==>
                  |p| == 1 || exists s :: Leads(p, 1, s) && s.serial == soa.serial == clientSerial)
            && (start.Ready? && start.iter.kind == Incremental <==>
                  exists s :: Leads(p, 1, s) && SerialIsOlder(s.serial, soa.serial))
            && (start.Ready? && start.iter.kind == Incremental ==> start.iter.pending == p[1..])
            && (start.Ready? && start.iter.kind == AxfrFallback <==>
                  || (|p| > 1 && p[1].Rec? && !p[1].rec.rdata.SoaData?)
                  || exists s :: Leads(p, 1, s) && s.serial == soa.serial != clientSerial)
            && (start.Ready? && start.iter.kind == AxfrFallback ==> start.iter.pending == p)
            && (start == NotReady(InvalidSoaPair) <==>
                  exists s :: Leads(p, 1, s) && s.serial != soa.serial && !SerialIsOlder(s.serial, soa.serial))
            && (forall e :: start == NotReady(StreamFailed(e)) <==> |p| > 1 && p[1] == Err(e))
  {
    hide SerialIsOlder;
    OlderDiffers(soa.serial);
    if |p| > 1 && p[1].Rec? && p[1].rec.rdata.SoaData? {
      assert Leads(p, 1, p[1].rec.rdata.soa);
    }
  }

  lemma OlderDiffers(serial: uint32)
    ensures !SerialIsOlder(serial, serial)
  {
  }

  /** The other refusals. */
  lemma RefusesExactly(p: seq<Item>, clientSerial: uint32)
    requires forall soa :: !Leads(p, 0, soa)
    ensures Open(p, clientSerial) ==
            NotReady(if p == [] then EmptyResponse else if p[0].Err? then StreamFailed(p[0].error) else MissingLeadingSoa)
  {
    if p != [] && p[0].Rec? && p[0].rec.rdata.SoaData? {
      assert Leads(p, 0, p[0].rec.rdata.soa);
    }
  }

  lemma {:induction false} RunIsFree(p: seq<Item>)
    ensures p[..|Run(p)|] == RecItems(Run(p)) && SoaFree(Run(p))
  {
    if p != [] && !StopsAt(p[0]) {
      var rs := Run(p[1..]);
      RunIsFree(p[1..]);
      assert p[..|rs| + 1] == [p[0]] + p[1..][..|rs|];
      assert forall i :: 1 <= i < |Run(p)| ==> Run(p)[i] == rs[i - 1];
    }
  }

  /** The pieces of the stream a pulled difference is made of. */
  lemma PulledPieces(it: Iter)
    requires it.kind.Incremental? && !it.incDone && Step(it).0.Next?
    ensures it.pending != [] && it.pending[0].Rec? && it.pending[0].rec.rdata.SoaData?
    ensures it.pending[0].rec.rdata.soa.serial != it.newSOA.serial
    ensures var p := it.pending[1..];
            var removed := Run(p);
            && |removed| < |p| && p[|removed|].Rec? && p[|removed|].rec.rdata.SoaData?
            && var q := p[|removed| + 1..];
            && |Run(q)| < |q|
            && Step(it).0 == Next(DiffEvent(it.pending[0].rec.rdata.soa.serial, p[|removed|].rec.rdata.soa.serial, removed, Run(q)))
            && Step(it).1 == it.(pending := q[|Run(q)|..])
  {
    hide Run;
  }

  lemma RunSplits(p: seq<Item>)
    requires |Run(p)| < |p|
    ensures p == RecItems(Run(p)) + ([p[|Run(p)|]] + p[|Run(p)| + 1..]) && p == RecItems(Run(p)) + p[|Run(p)|..]
  {
    hide Run, RecItems;
    RunIsFree(p);
    var n := |Run(p)|;
    assert p == p[..n] + p[n..];
    assert p[n..] == [p[n]] + p[n + 1..];
  }

  /** A pulled difference was read off the stream as it stands there. */
  lemma PulledIsEncoded(it: Iter) returns (d: Diff)
    requires it.kind.Incremental? && !it.incDone && Step(it).0.Next?
    ensures DiffOK(d) && Step(it).0 == Next(EventOf(d)) && d.oldSoa.rdata.soa.serial != it.newSOA.serial
    ensures it.pending == RecItems(EncodeDiff(d)) + Step(it).1.pending && Step(it).1 == it.(pending := Step(it).1.pending)
  {
    hide Run, Step, RecItems, EncodeDiff;
    PulledPieces(it);
    var oldSoa, p := it.pending[0].rec, it.pending[1..];
    var removed := Run(p);
    var newSoa, q := p[|removed|].rec, p[|removed| + 1..];
    var added := Run(q);
    d := Diff(oldSoa, newSoa, removed, added);
    RunIsFree(p);
    RunIsFree(q);
    Assembles(it.pending, d, q[|added|..]) by {
      assert it.pending == [Rec(oldSoa)] + p;
      RunSplits(p);
      RunSplits(q);
      assert p[|removed|] == Rec(newSoa);
    }
  }

  lemma Assembles(p: seq<Item>, d: Diff, rest: seq<Item>)
    requires p == [Rec(d.oldSoa)] + (RecItems(d.removed) + ([Rec(d.newSoa)] + (RecItems(d.added) + rest)))
    ensures p == RecItems(EncodeDiff(d)) + rest
  {
    hide RecItems, EncodeDiff;
    ItemsJoin(d, rest);
  }

  lemma ItemsJoin(d: Diff, rest: seq<Item>)
    ensures [Rec(d.oldSoa)] + (RecItems(d.removed) + ([Rec(d.newSoa)] + (RecItems(d.added) + rest))) == RecItems(EncodeDiff(d)) + rest
  {
  }

  /** The iterator ends cleanly only on an encoded list of differences, which is the one it yields. */
  lemma {:induction false} EndsOnlyEncoded(it: Iter) returns (ds: seq<Diff>, closing: Record)
    requires it.kind.Incremental? && !it.incDone && Drain(it).1 == End
    ensures DiffsOK(ds) && WaitsFor(it, ds, closing) && NoneIsNew(ds, it.newSOA.serial) && Drain(it).0 == EventsOf(ds)
    decreases |it.pending|
  {
    hide Run, RemovedHalf;
    StepConsumes(it);
    if Step(it).0.Next? {
      var d := PulledIsEncoded(it);
      var more, last := EndsOnlyEncoded(Step(it).1);
      closing := last;
      ds := [d] + more;
      assert ds[1..] == more;
      JoinEncoded(d, more, closing);
      NoneIsNewCons(ds, it.newSOA.serial);
    } else {
      ds, closing := [], it.pending[0].rec;
      ClosedThere(it);
    }
  }

  lemma DifferenceNeverEnds(it: Iter, from: uint32)
    ensures RemovedHalf(it, from).0 != End
  {
    hide Run;
  }

  lemma ClosedThere(it: Iter)
    requires it.kind.Incremental? && !it.incDone && Step(it).0 == End
    ensures it.pending != [] && it.pending[0].Rec? && Axfr.Brackets(it.newSOA, it.pending[0].rec) && it.pending == [it.pending[0]]
    ensures EncodeDiffs([], it.pending[0].rec) == [it.pending[0].rec]
  {
    hide RemovedHalf;
    var rest := it.(pending := it.pending[1..]);
    var r := it.pending[0].rec;
    if r.rdata.SoaData? {
      DifferenceNeverEnds(rest, r.rdata.soa.serial);
    }
    assert it.pending == [it.pending[0]] + it.pending[1..];
  }

  lemma JoinEncoded(d: Diff, more: seq<Diff>, closing: Record)
    ensures EncodeDiffs([d] + more, closing) == EncodeDiff(d) + EncodeDiffs(more, closing)
    ensures RecItems(EncodeDiffs([d] + more, closing)) == RecItems(EncodeDiff(d)) + RecItems(EncodeDiffs(more, closing))
  {
    assert ([d] + more)[1..] == more;
  }

  /** An incremental response is read to a clean end exactly when it encodes the differences that are
      read, closed by an SOA of the new serial, with no old serial equal to that. */
  lemma IncrementalExactly(it: Iter, es: seq<Event>)
    requires it.kind.Incremental? && !it.incDone
    ensures Drain(it) == (es, End) <==>
              exists ds, closing :: DiffsOK(ds) && WaitsFor(it, ds, closing) && NoneIsNew(ds, it.newSOA.serial) && es == EventsOf(ds)
  {
    hide Drain, WaitsFor, EventsOf, NoneIsNew, DiffsOK;
    if Drain(it) == (es, End) {
      var ds, closing := EndsOnlyEncoded(it);
    }
    forall ds, closing | DiffsOK(ds) && WaitsFor(it, ds, closing) && NoneIsNew(ds, it.newSOA.serial)
      ensures Drain(it) == (EventsOf(ds), End)
    {
      DrainDiffs(it, ds, closing);
    }
  }
}
