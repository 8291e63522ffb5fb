/** The minimal message walker: where the last record starts, found by skipping every question and
    record without interpreting them. */
module SectionWalk {
  import opened Names
  import opened WireDecode

  function SkipQuestion(msg: Bytes, off: nat): (r: Option<nat>)
    ensures r.Some? ==> off < r.value <= |msg|
  {
    match DecodeName(msg, off)
    case None => None
    case Some((_, next)) => if next + 4 > |msg| then None else Some(next + 4)
  }

  function SkipQuestions(msg: Bytes, off: nat, n: nat): (r: Option<nat>)
    ensures r.Some? ==> off <= r.value
    decreases n
  {
    if n == 0 then Some(off)
    else
      match SkipQuestion(msg, off)
      case None => None
      case Some(next) => SkipQuestions(msg, next, n - 1)
  }

  function SkipRR(msg: Bytes, off: nat): (r: Option<nat>)
    ensures r.Some? ==> off < r.value <= |msg|
  {
    match DecodeName(msg, off)
    case None => None
    case Some((_, next)) =>
      if next + 10 > |msg| || next + 10 + At16(msg, next + 8) > |msg| then None
      else Some(next + 10 + At16(msg, next + 8))
  }

  function SkipRRs(msg: Bytes, off: nat, n: nat): (r: Option<nat>)
    ensures r.Some? ==> off <= r.value
    decreases n
  {
    if n == 0 then Some(off)
    else
      match SkipRR(msg, off)
      case None => None
      case Some(next) => SkipRRs(msg, next, n - 1)
  }

  lemma {:induction false} SkipRRsLast(msg: Bytes, off: nat, n: nat)
    ensures SkipRRs(msg, off, n + 1) ==
            match SkipRRs(msg, off, n) case None => None case Some(last) => SkipRR(msg, last)
    decreases n
  {
    if n == 0 {
      assert SkipRRs(msg, off, 1) == match SkipRR(msg, off) case None => None case Some(next) => SkipRRs(msg, next, 0);
    } else if SkipRR(msg, off).Some? {
      SkipRRsLast(msg, SkipRR(msg, off).value, n - 1);
    }
  }

  // ----- header counts -----

  function Questions(msg: Bytes): nat requires |msg| >= 12 { At16(msg, 4) }
  function Answers(msg: Bytes): nat requires |msg| >= 12 { At16(msg, 6) }
  function Authorities(msg: Bytes): nat requires |msg| >= 12 { At16(msg, 8) }
  function Additionals(msg: Bytes): nat requires |msg| >= 12 { At16(msg, 10) }

  function RecordCount(msg: Bytes): nat
    requires |msg| >= 12
  {
    Answers(msg) + Authorities(msg) + Additionals(msg)
  }

  /** The offset of the last record, which must lie in the additional section. */
  function LastRecord(msg: Bytes): (r: Option<nat>)
    requires |msg| >= 12
    ensures r.Some? ==> 12 <= r.value < |msg| && Additionals(msg) > 0
  {
    match SkipQuestions(msg, 12, Questions(msg))
    case None => None
    case Some(off) =>
      if SkipRRs(msg, off, RecordCount(msg)).None? || Additionals(msg) == 0 then None
      else
        SkipRRsLast(msg, off, RecordCount(msg) - 1);
        SkipRRs(msg, off, RecordCount(msg) - 1)
  }

  method FindLastRROffset(msg: Bytes) returns (r: Option<nat>)
    requires |msg| >= 12
    ensures r == LastRecord(msg)
  {
    var off := 12;
    var left := Questions(msg);
    while left > 0
      invariant off >= 0 && left >= 0
      invariant SkipQuestions(msg, 12, Questions(msg)) == SkipQuestions(msg, off, left)
    {
      var next := SkipQuestion(msg, off);
      if next.None? {
        return None;
      }
      off := next.value;
      left := left - 1;
    }
    r := WalkRecords(msg, off);
  }

  method WalkRecords(msg: Bytes, start: nat) returns (r: Option<nat>)
    requires |msg| >= 12
    ensures r == if SkipRRs(msg, start, RecordCount(msg)).None? || Additionals(msg) == 0 then None
                 else SkipRRs(msg, start, RecordCount(msg) - 1)
  {
    var off, last, lastIdx := start, start, -1;
    for i := 0 to RecordCount(msg)
      invariant off >= 0 && last >= 0 && lastIdx == i - 1
      invariant SkipRRs(msg, start, i) == Some(off)
      invariant i > 0 ==> SkipRRs(msg, start, i - 1) == Some(last)
    {
      last, lastIdx := off, i;
      SkipRRsLast(msg, start, i);
      var next := SkipRR(msg, off);
      if next.None? {
        SkipRRsFail(msg, start, i + 1, RecordCount(msg));
        return None;
      }
      off := next.value;
    }
    if lastIdx < Answers(msg) + Authorities(msg) {
      return None;
    }
    return Some(last);
  }

  lemma {:induction false} SkipRRsFail(msg: Bytes, off: nat, n: nat, m: nat)
    requires n <= m && SkipRRs(msg, off, n).None?
    ensures SkipRRs(msg, off, m).None?
  {
    if n < m {
      SkipRRsFail(msg, off, n, m - 1);
      SkipRRsLast(msg, off, m - 1);
    }
  }

  // ----- walks that survive a change of the mutable header fields -----

  predicate QuestionsAvoid(msg: Bytes, off: nat, n: nat)
    decreases n
  {
    n > 0 ==> Avoids(msg, off, 0, 0) && (SkipQuestion(msg, off).Some? ==> QuestionsAvoid(msg, SkipQuestion(msg, off).value, n - 1))
  }

  predicate RecordsAvoid(msg: Bytes, off: nat, n: nat)
    decreases n
  {
    n > 0 ==> Avoids(msg, off, 0, 0) && (SkipRR(msg, off).Some? ==> RecordsAvoid(msg, SkipRR(msg, off).value, n - 1))
  }

  /** The walk covers the message exactly, and no name in it reads the mutable header fields. */
  predicate WellFormed(msg: Bytes) {
    && |msg| >= 12
    && QuestionsAvoid(msg, 12, Questions(msg))
    && match SkipQuestions(msg, 12, Questions(msg))
       case None => false
       case Some(off) => SkipRRs(msg, off, RecordCount(msg)) == Some(|msg|) && RecordsAvoid(msg, off, RecordCount(msg))
  }

  lemma {:induction false} SkipQuestionsStable(msg: Bytes, longer: Bytes, off: nat, n: nat)
    requires Extends(msg, longer) && QuestionsAvoid(msg, off, n) && SkipQuestions(msg, off, n).Some?
    ensures SkipQuestions(longer, off, n) == SkipQuestions(msg, off, n)
    decreases n
  {
    if n > 0 {
      DecodeStable(msg, longer, off, 0, 0);
      SkipQuestionsStable(msg, longer, SkipQuestion(msg, off).value, n - 1);
    }
  }

  lemma SkipRRStable(msg: Bytes, longer: Bytes, off: nat)
    requires Extends(msg, longer) && off >= 12 && Avoids(msg, off, 0, 0) && SkipRR(msg, off).Some?
    ensures SkipRR(longer, off) == SkipRR(msg, off)
  {
    DecodeStable(msg, longer, off, 0, 0);
    var next := DecodeName(msg, off).value.1;
    assert longer[next + 8] == msg[next + 8] && longer[next + 9] == msg[next + 9];
  }

  lemma {:induction false} SkipRRsStable(msg: Bytes, longer: Bytes, off: nat, n: nat)
    requires Extends(msg, longer) && off >= 12 && RecordsAvoid(msg, off, n) && SkipRRs(msg, off, n).Some?
    ensures SkipRRs(longer, off, n) == SkipRRs(msg, off, n)
    decreases n
  {
    if n > 0 {
      SkipRRStable(msg, longer, off);
      SkipRRsStable(msg, longer, SkipRR(msg, off).value, n - 1);
    }
  }

  /** Where the records of a well-formed message start. */
  function RecordsStart(msg: Bytes): nat
    requires WellFormed(msg)
  {
    SkipQuestions(msg, 12, Questions(msg)).value
  }

  lemma WalkStable(msg: Bytes, longer: Bytes)
    requires WellFormed(msg) && Extends(msg, longer)
    ensures |longer| >= 12 && SkipQuestions(longer, 12, Questions(longer)) == Some(RecordsStart(msg))
    ensures SkipRRs(longer, RecordsStart(msg), RecordCount(msg)) == Some(|msg|)
  {
    HeaderStable(msg, longer);
    SkipQuestionsStable(msg, longer, 12, Questions(msg));
    SkipRRsStable(msg, longer, RecordsStart(msg), RecordCount(msg));
  }

  /** A well-formed message extended by one record that fills the rest, with the additional count
      raised by one, has that record as its last. */
  lemma AppendedIsLast(msg: Bytes, longer: Bytes)
    requires WellFormed(msg) && Extends(msg, longer) && Additionals(longer) == Additionals(msg) + 1
    requires SkipRR(longer, |msg|).Some?
    ensures LastRecord(longer) == Some(|msg|)
  {
    hide SkipRR, SkipQuestions, SkipRRs, Extends;
    HeaderStable(msg, longer);
    WalkStable(msg, longer);
    SkipRRsLast(longer, RecordsStart(msg), RecordCount(msg));
  }

  lemma HeaderStable(msg: Bytes, longer: Bytes)
    requires Extends(msg, longer) && |msg| >= 12
    ensures Questions(longer) == Questions(msg) && Answers(longer) == Answers(msg) && Authorities(longer) == Authorities(msg)
  {
    assert forall i :: 4 <= i < 10 ==> !MutableHeader(i);
  }
}
