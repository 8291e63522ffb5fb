/** The flat record list a zone is exported from. */
module ZoneExport {
  import opened Names
  import opened Records
  import opened Zones
  import opened LookupLaws

  /** `out` holds the buckets of every name but those in `todo`. */
  ghost predicate Exported(z: Zone, out: seq<Record>, todo: set<Name>) {
    forall n :: OwnedAt(out, n) == if n in todo then [] else Bucket(z, n)
  }

  lemma OneMoreBucket(z: Zone, out: seq<Record>, todo: set<Name>, k: Name)
    requires WellKeyed(z) && k in z.byName && k in todo && Exported(z, out, todo)
    ensures Exported(z, out + z.byName[k], todo - {k})
  {
    hide Filter;
    var b := z.byName[k];
    assert BucketOK(z.origin, k, b);
    forall n
      ensures OwnedAt(out + b, n) == if n in todo - {k} then [] else Bucket(z, n)
    {
      FilterConcat(out, b, OwnedBy(n));
      if n == k {
        FilterAll(b, OwnedBy(n));
      } else {
        FilterNone(b, OwnedBy(n));
      }
    }
  }

  /** Every record of the zone, bucket by bucket in whatever order the map yields them. */
  method AllRecords(z: Zone) returns (out: seq<Record>)
    ensures WellKeyed(z) ==> Lists(z, out)
  {
    out := [];
    var todo := z.byName.Keys;
    while todo != {}
      invariant todo <= z.byName.Keys
      invariant WellKeyed(z) ==> Exported(z, out, todo)
    {
      var k :| k in todo;
      if WellKeyed(z) {
        OneMoreBucket(z, out, todo, k);
      }
      out := out + z.byName[k];
      todo := todo - {k};
    }
  }
}
