/** The mutable zone index: buckets are slices over backing arrays, deletes compact them in
    place, and appends reuse spare capacity.  Every operation is tied to the zone value it
    computes. */
module ZoneStore {
  import opened Names
  import opened Records
  import opened Zones

  /** A slice from the start of a backing array; the array beyond `len` is spare capacity. */
  datatype Slice = Slice(arr: array<Record>, len: nat) {
    predicate Valid() { len <= arr.Length }

    function Content(): seq<Record>
      requires Valid()
      reads arr
    {
      arr[..len]
    }
  }

  /** Appends in place when there is room, and otherwise moves to a larger array. */
  method Append(s: Slice, r: Record) returns (t: Slice)
    requires s.Valid()
    modifies s.arr
    ensures t.Valid() && t.Content() == old(s.Content()) + [r]
    ensures t.arr == s.arr || fresh(t.arr)
  {
    if s.len < s.arr.Length {
      s.arr[s.len] := r;
      return Slice(s.arr, s.len + 1);
    }
    var arr := new Record[2 * s.len + 1](_ => r);
    for i := 0 to s.len
      invariant forall j :: 0 <= j < i ==> arr[j] == s.arr[j]
      invariant forall j :: i <= j < arr.Length ==> arr[j] == r
      invariant s.arr[..] == old(s.arr[..])
    {
      arr[i] := s.arr[i];
    }
    assert arr[..s.len] == s.arr[..s.len];
    return Slice(arr, s.len + 1);
  }

  /** Keeps the satisfying records, overwriting the same array from its start. */
  method Compact(s: Slice, keep: Record -> bool) returns (kept: Slice)
    requires s.Valid()
    modifies s.arr
    ensures kept.Valid() && kept.arr == s.arr
    ensures kept.Content() == Filter(old(s.Content()), keep)
  {
    var w := 0;
    ghost var before := s.Content();
    for i := 0 to s.len
      invariant 0 <= w <= i
      invariant s.arr[..w] == Filter(before[..i], keep)
      invariant forall j :: i <= j < s.len ==> s.arr[j] == before[j]
    {
      FilterPrefix(before, i, keep);
      if keep(s.arr[i]) {
        ghost var front := s.arr[..w];
        s.arr[w] := s.arr[i];
        w := w + 1;
        assert s.arr[..w] == front + [before[i]];
      }
    }
    assert before[..s.len] == before;
    return Slice(s.arr, w);
  }

  /** A fresh copy with exactly the needed capacity. */
  method Copy(s: Slice) returns (t: Slice)
    requires s.Valid()
    ensures t.Valid() && fresh(t.arr) && t.Content() == s.Content()
  {
    var arr := new Record[s.len];
    for i := 0 to s.len
      invariant forall j :: 0 <= j < i ==> arr[j] == s.arr[j]
    {
      arr[i] := s.arr[i];
    }
    return Slice(arr, s.len);
  }

  lemma FilterNothing()
    ensures Filter<Record>([], NotOfType(TYPE_SOA)) == []
  {
  }

  method FromSeq(recs: seq<Record>) returns (t: Slice)
    ensures t.Valid() && fresh(t.arr) && t.Content() == recs
  {
    var arr := new Record[|recs|](i requires 0 <= i < |recs| => recs[i]);
    return Slice(arr, |recs|);
  }

  /** The two maps of an index are objects: whoever holds a reference sees every write. */
  class BucketMap {
    var m: map<Name, Slice>

    constructor ()
      ensures m == map[]
    {
      m := map[];
    }
  }

  class NameSet {
    var s: set<Name>

    constructor ()
      ensures s == {}
    {
      s := {};
    }
  }

  /** Adds `n` and its ancestors up to the origin to a set of names, in place. */
  method Climb(origin: Name, n: Name, names: NameSet)
    modifies names
    ensures names.s == old(names.s) + PathUp(origin, n)
  {
    var cur := n;
    while true
      invariant names.s + PathUp(origin, cur) == old(names.s) + PathUp(origin, n)
      decreases cur
    {
      names.s := names.s + {cur};
      if cur == origin || cur.Root? {
        return;
      }
      cur := cur.parent;
    }
  }

  lemma {:induction false} ReplaceFirstSoaAt(recs: seq<Record>, rec: Record, at: nat)
    requires at <= |recs| && forall j :: 0 <= j < at ==> recs[j].Type() != TYPE_SOA
    ensures at == |recs| ==> ReplaceFirstSoa(recs, rec) == recs + [rec]
    ensures at < |recs| && recs[at].Type() == TYPE_SOA ==> ReplaceFirstSoa(recs, rec) == recs[..at] + [rec] + recs[at + 1..]
  {
    if at > 0 {
      ReplaceFirstSoaAt(recs[1..], rec, at - 1);
    }
  }

  /** Rebuilds a bucket with its first SOA replaced. */
  method ReplaceSoa(recs: seq<Record>, rec: Record) returns (out: seq<Record>)
    ensures out == ReplaceFirstSoa(recs, rec)
  {
    out := [];
    var replaced := false;
    ghost var at := 0;
    for i := 0 to |recs|
      invariant !replaced ==> at == i && out == recs[..i]
      invariant replaced ==> at < i && recs[at].Type() == TYPE_SOA && out == recs[..at] + [rec] + recs[at + 1..i]
      invariant forall j :: 0 <= j < at ==> recs[j].Type() != TYPE_SOA
    {
      if !replaced && recs[i].Type() == TYPE_SOA {
        out := out + [rec];
        replaced := true;
      } else {
        out := out + [recs[i]];
        if !replaced {
          at := i + 1;
        } else {
          assert recs[at + 1..i + 1] == recs[at + 1..i] + [recs[i]];
        }
      }
      assert recs[..i + 1] == recs[..i] + [recs[i]];
    }
    assert recs[..|recs|] == recs;
    if !replaced {
      out := out + [rec];
    } else {
      assert recs[at + 1..|recs|] == recs[at + 1..];
    }
    ReplaceFirstSoaAt(recs, rec, at);
  }

  // ----- which records each delete branch keeps -----

  function ApexKept(): Record -> bool {
    (r: Record) => r.Type() == TYPE_SOA || r.Type() == TYPE_NS
  }

  function Differs(u: Record): Record -> bool {
    (r: Record) => !(r.Type() == u.Type() && RDataEqual(r.rdata, u.rdata))
  }

  /** Compacting with `keep` is what applying `u` means, when `keep` is right on that bucket. */
  ghost predicate DeletesBy(z: Zone, u: Record, keep: Record -> bool)
    requires u.name in z.byName
  {
    var recs := z.byName[u.name];
    var kept := Filter(recs, keep);
    && Changes(z, u) == (|kept| < |recs|)
    && Apply(z, u) == if |kept| < |recs| then z.(byName := WithBucket(z.byName, u.name, kept)) else z
  }

  lemma KeepDecides(z: Zone, u: Record, keep: Record -> bool)
    requires u.name in z.byName && IsDelete(u)
    requires forall r :: r in z.byName[u.name] ==> keep(r) == Survives(z.origin, u)(r)
    ensures DeletesBy(z, u, keep)
  {
    FilterAgrees(z.byName[u.name], keep, Survives(z.origin, u));
  }

  lemma DeletesApexRest(z: Zone, u: Record)
    requires z.origin in z.byName && u.cls == CLASS_ANY && u.name == z.origin && u.Type() == TYPE_ANY
    ensures DeletesBy(z, u, ApexKept())
  {
    KeepDecides(z, u, ApexKept());
  }

  lemma DeletesNothingAtApex(z: Zone, u: Record)
    requires z.origin in z.byName && IsDelete(u) && u.name == z.origin && (u.Type() == TYPE_SOA || u.Type() == TYPE_NS)
    ensures !Changes(z, u)
  {
    FilterAll(z.byName[u.name], Survives(z.origin, u));
  }

  lemma DeletesAll(z: Zone, u: Record)
    requires u.name in z.byName && z.byName[u.name] != []
    requires u.cls == CLASS_ANY && u.name != z.origin && u.Type() == TYPE_ANY
    ensures Changes(z, u) && Apply(z, u) == z.(byName := z.byName - {u.name})
  {
    FilterNone(z.byName[u.name], Survives(z.origin, u));
  }

  lemma DeletesType(z: Zone, u: Record)
    requires u.name in z.byName && u.cls == CLASS_ANY && u.Type() != TYPE_ANY
    requires (u.name == z.origin ==> u.Type() != TYPE_SOA && u.Type() != TYPE_NS)
    ensures DeletesBy(z, u, NotOfType(u.Type()))
  {
    KeepDecides(z, u, NotOfType(u.Type()));
  }

  lemma DeletesValue(z: Zone, u: Record)
    requires u.name in z.byName && u.cls == CLASS_NONE
    requires (u.name == z.origin ==> u.Type() != TYPE_SOA && u.Type() != TYPE_NS)
    ensures DeletesBy(z, u, Differs(u))
  {
    KeepDecides(z, u, Differs(u));
  }

  lemma ApplyAllStep(z: Zone, us: seq<Record>, i: nat)
    requires i < |us|
    ensures ApplyAll(z, us[..i + 1]) == Apply(ApplyAll(z, us[..i]), us[i])
    ensures AnyChanges(z, us[..i + 1]) == (AnyChanges(z, us[..i]) || Changes(ApplyAll(z, us[..i]), us[i]))
  {
    assert us[..i + 1][..i] == us[..i];
  }

  // ----- rebuilding -----

  /** The paths of the first owners of some buckets. */
  function Paths(origin: Name, buckets: map<Name, seq<Record>>, done: set<Name>): set<Name> {
    set n, m | n in buckets && n in done && buckets[n] != [] && m in PathUp(origin, buckets[n][0].name) :: m
  }

  lemma NoPaths(origin: Name, buckets: map<Name, seq<Record>>)
    ensures Paths(origin, buckets, {}) == {}
  {
  }

  lemma MorePaths(origin: Name, buckets: map<Name, seq<Record>>, done: set<Name>, k: Name)
    requires k in buckets && buckets[k] != []
    ensures Paths(origin, buckets, done + {k}) == Paths(origin, buckets, done) + PathUp(origin, buckets[k][0].name)
  {
    hide PathUp;
  }

  lemma RebuiltPaths(z: Zone)
    ensures Rebuilt(z) == z.(namesExist := Paths(z.origin, z.byName, z.byName.Keys) + {z.origin})
  {
    hide PathUp;
    assert Rebuilt(z).namesExist == Paths(z.origin, z.byName, z.byName.Keys) + {z.origin};
  }

  class ZoneIndex {
    const origin: Name
    var soaRec: Record
    const byName: BucketMap
    var namesExist: NameSet
    ghost var contents: map<Name, seq<Record>>  // what the buckets hold
    ghost var owner: map<array<Record>, Name>   // which bucket a backing array belongs to

    /** Everything but the bucket of `n` is as `contents` says; no bucket is empty and no array
        serves two buckets. */
    ghost predicate ValidBut(n: Option<Name>)
      reads this, byName, owner.Keys
    {
      && byName.m.Keys == contents.Keys
      && forall k :: k in byName.m ==>
           && byName.m[k].Valid() && byName.m[k].arr in owner && owner[byName.m[k].arr] == k
           && (n == Some(k) || (byName.m[k].Content() == contents[k] && contents[k] != []))
    }

    ghost predicate Valid()
      reads this, byName, owner.Keys
    {
      ValidBut(None)
    }

    /** The zone value the index stands for. */
    ghost function View(): Zone
      reads this, namesExist
    {
      Zone(origin, soaRec, contents, namesExist.s)
    }

    constructor (origin: Name, soaRec: Record)
      ensures Valid() && owner == map[] && fresh(byName) && fresh(namesExist)
      ensures View() == Zone(origin, soaRec, map[], {})
    {
      this.origin := origin;
      this.soaRec := soaRec;
      this.byName := new BucketMap();
      this.namesExist := new NameSet();
      this.contents := map[];
      this.owner := map[];
    }

    /** Marks `n` and its ancestors up to the origin, or to the root when `n` is out of zone. */
    method MarkExists(n: Name)
      modifies namesExist
      ensures namesExist.s == old(namesExist.s) + PathUp(origin, n)
    {
      Climb(origin, n, namesExist);
    }

    method StoreSlice(n: Name, t: Slice)
      requires ValidBut(Some(n)) && t.Valid() && t.len > 0 && (t.arr in owner ==> owner[t.arr] == n)
      modifies byName, this`contents, this`owner
      ensures Valid() && owner == old(owner)[t.arr := n]
      ensures contents == old(contents)[n := t.Content()]
    {
      byName.m := byName.m[n := t];
      contents := contents[n := t.Content()];
      owner := owner[t.arr := n];
    }

    /** Stores a record at the end of its owner's bucket. */
    method AppendTo(n: Name, r: Record)
      requires Valid()
      modifies byName, this`contents, this`owner, owner.Keys
      ensures Valid() && fresh(owner.Keys - old(owner.Keys))
      ensures contents == old(contents)[n := old(Bucket(View(), n)) + [r]]
    {
      if n in byName.m {
        Extend(n, r);
      } else {
        var arr := new Record[1](_ => r);
        assert arr[..1] == [] + [r];
        StoreSlice(n, Slice(arr, 1));
      }
    }

    method Extend(n: Name, r: Record)
      requires Valid() && n in byName.m
      modifies byName, this`contents, this`owner, owner.Keys
      ensures Valid() && fresh(owner.Keys - old(owner.Keys))
      ensures contents == old(contents)[n := old(contents)[n] + [r]]
    {
      var t := Append(byName.m[n], r);
      StoreSlice(n, t);
    }

    /** Replaces a bucket by a shorter slice of the same array, or drops it when nothing is left. */
    method StoreKept(n: Name, kept: Slice)
      requires ValidBut(Some(n)) && n in byName.m && kept.Valid() && kept.arr == byName.m[n].arr
      modifies byName, this`contents
      ensures Valid()
      ensures contents == WithBucket(old(contents), n, kept.Content())
    {
      if kept.len == 0 {
        byName.m := byName.m - {n};
        contents := contents - {n};
      } else {
        byName.m := byName.m[n := kept];
        contents := contents[n := kept.Content()];
      }
    }

    /** Compacts a bucket in place; the shorter slice is stored only if something went. */
    method CompactAt(n: Name, keep: Record -> bool) returns (changed: bool)
      requires Valid() && n in byName.m
      modifies byName, this`contents, owner.Keys
      ensures Valid()
      ensures
        var recs := old(contents)[n];
        var kept := Filter(recs, keep);
        && changed == (|kept| < |recs|)
        && contents == if changed then WithBucket(old(contents), n, kept) else old(contents)
    {
      FilterAll(contents[n], keep);
      var kept := Compact(byName.m[n], keep);
      changed := kept.len < byName.m[n].len;
      if changed {
        StoreKept(n, kept);
      }
    }

    lemma SameKeys()
      requires Valid()
      ensures byName.m.Keys == contents.Keys
    {
    }

    lemma BucketHeld(k: Name)
      requires Valid() && k in contents
      ensures contents[k] != []
    {
    }

    method DropBucket(n: Name)
      requires Valid()
      modifies byName, this`contents
      ensures Valid() && contents == old(contents) - {n}
    {
      byName.m := byName.m - {n};
      contents := contents - {n};
    }

    /** Delete an RRset, or every RRset of the name when the type is ANY; at the apex the SOA and
        the NS records stay. */
    method DeleteRRset(u: Record) returns (changed: bool)
      requires Valid() && u.cls == CLASS_ANY
      modifies byName, this`contents, owner.Keys
      ensures Valid()
      ensures View() == Apply(old(View()), u) && changed == Changes(old(View()), u)
    {
      hide Filter, PathUp, Survives, Matches, ValidBut;
      SameKeys();
      var name, t := u.name, u.Type();
      if name !in byName.m {
        return false;
      }
      if name == origin && (t == TYPE_SOA || t == TYPE_NS || t == TYPE_ANY) {
        if t == TYPE_ANY {
          DeletesApexRest(View(), u);
          changed := CompactAt(name, ApexKept());
          return;
        }
        DeletesNothingAtApex(View(), u);
        return false;
      }
      if t == TYPE_ANY {
        BucketHeld(name);
        DeletesAll(View(), u);
        DropBucket(name);
        return true;
      }
      DeletesType(View(), u);
      changed := CompactAt(name, NotOfType(t));
    }

    /** Delete the records with the given type and data; apex SOA and NS records stay. */
    method DeleteRecord(u: Record) returns (changed: bool)
      requires Valid() && u.cls == CLASS_NONE
      modifies byName, this`contents, owner.Keys
      ensures Valid()
      ensures View() == Apply(old(View()), u) && changed == Changes(old(View()), u)
    {
      var name, t := u.name, u.Type();
      if name !in byName.m {
        return false;
      }
      if name == origin && (t == TYPE_SOA || t == TYPE_NS) {
        DeletesNothingAtApex(View(), u);
        return false;
      }
      DeletesValue(View(), u);
      changed := CompactAt(name, Differs(u));
    }

    /** Whether the bucket already holds the record an add would store. */
    method HasDuplicate(u: Record) returns (found: bool)
      requires Valid()
      ensures found <==> exists r :: r in Bucket(View(), u.name) && Duplicate(u, r)
    {
      hide Duplicate;
      if u.name !in byName.m {
        return false;
      }
      var s := byName.m[u.name];
      for i := 0 to s.len
        invariant forall j :: 0 <= j < i ==> !Duplicate(u, s.arr[j])
      {
        if Duplicate(u, s.arr[i]) {
          assert s.arr[i] in s.Content();
          return true;
        }
      }
      return false;
    }

    /** Compaction in place, then an append to what is left. */
    method CompactAppend(n: Name, keep: Record -> bool, r: Record)
      requires Valid() && n in byName.m
      modifies byName, this`contents, this`owner, owner.Keys
      ensures Valid() && fresh(owner.Keys - old(owner.Keys))
      ensures contents == old(contents)[n := Filter(old(Bucket(View(), n)), keep) + [r]]
    {
      hide Filter;
      var kept := Compact(byName.m[n], keep);
      assert ValidBut(Some(n));
      var t := Append(kept, r);
      StoreSlice(n, t);
    }

    method SetSoa(rec: Record)
      requires Valid()
      modifies this`soaRec
      ensures Valid() && soaRec == rec
    {
      soaRec := rec;
    }

    /** Compacts every SOA out of the apex bucket in place and appends the new one. */
    method ReplaceApexSoa(stored: Record)
      requires Valid()
      modifies byName, this`contents, this`soaRec, this`owner, owner.Keys
      ensures Valid() && fresh(owner.Keys - old(owner.Keys))
      ensures soaRec == stored
      ensures contents == old(contents)[origin := Filter(old(Bucket(View(), origin)), NotOfType(TYPE_SOA)) + [stored]]
    {
      hide Filter, ValidBut;
      SameKeys();
      if origin in byName.m {
        CompactAppend(origin, NotOfType(TYPE_SOA), stored);
      } else {
        AppendTo(origin, stored);
        FilterNothing();
      }
      SetSoa(stored);
    }

    /** Add a record unless it is already there; an apex SOA replaces the previous one. */
    method AddRecord(u: Record) returns (changed: bool)
      requires Valid() && !IsDelete(u)
      modifies this, byName, namesExist, owner.Keys
      ensures namesExist == old(namesExist)
      ensures Valid() && fresh(owner.Keys - old(owner.Keys))
      ensures View() == Apply(old(View()), u) && changed == Changes(old(View()), u)
    {
      hide Filter, PathUp, Duplicate;
      var dup := HasDuplicate(u);
      if dup {
        return false;
      }
      var stored := Stored(u);
      if u.name == origin && u.Type() == TYPE_SOA {
        ReplaceApexSoa(stored);
        MarkExists(u.name);
        return true;
      }
      AppendTo(u.name, stored);
      MarkExists(u.name);
      return true;
    }

    /** One record of the update section. */
    method ApplyUpdate(u: Record) returns (changed: bool)
      requires Valid()
      modifies this, byName, namesExist, owner.Keys
      ensures namesExist == old(namesExist)
      ensures Valid() && fresh(owner.Keys - old(owner.Keys))
      ensures View() == Apply(old(View()), u) && changed == Changes(old(View()), u)
    {
      if u.cls == CLASS_ANY {
        changed := DeleteRRset(u);
      } else if u.cls == CLASS_NONE {
        changed := DeleteRecord(u);
      } else {
        changed := AddRecord(u);
      }
    }

    method CopyBucket(out: ZoneIndex, k: Name)
      requires Valid() && k in contents && out != this && out.byName != byName && out.Valid() && out.owner.Keys !! owner.Keys
      modifies out.byName, out`contents, out`owner
      ensures out.Valid() && fresh(out.owner.Keys - old(out.owner.Keys))
      ensures out.contents == old(out.contents)[k := contents[k]]
    {
      var cp := Copy(byName.m[k]);
      out.StoreSlice(k, cp);
    }

    /** Gives `out` a fresh backing array for every bucket of this index. */
    method CopyBuckets(out: ZoneIndex)
      requires Valid() && out != this && out.byName != byName && out.Valid() && out.owner == map[] && out.contents == map[]
      modifies out.byName, out`contents, out`owner
      ensures out.Valid() && fresh(out.owner.Keys) && out.contents == contents
    {
      hide ValidBut;
      SameKeys();
      var todo := byName.m.Keys;
      while todo != {}
        invariant todo <= contents.Keys
        invariant out.Valid() && fresh(out.owner.Keys)
        invariant forall k :: k in out.contents ==> k in contents && out.contents[k] == contents[k]
        invariant forall k :: k in contents ==> k in todo || k in out.contents
      {
        var k :| k in todo;
        CopyBucket(out, k);
        todo := todo - {k};
      }
    }

    /** A deep copy: fresh maps and a fresh backing array for every bucket. */
    method Clone() returns (out: ZoneIndex)
      requires Valid()
      ensures fresh(out) && fresh(out.byName) && fresh(out.namesExist) && fresh(out.owner.Keys)
      ensures out.Valid() && out.View() == View()
    {
      out := new ZoneIndex(origin, soaRec);
      CopyBuckets(out);
      CopyNames(out.namesExist);
    }

    method CopyNames(out: NameSet)
      requires out != namesExist && out.s == {}
      modifies out
      ensures out.s == namesExist.s
    {
      var todo := namesExist.s;
      while todo != {}
        invariant namesExist.s == old(namesExist.s) && todo <= namesExist.s && out.s == namesExist.s - todo
        decreases |todo|
      {
        var k :| k in todo;
        out.s := out.s + {k};
        todo := todo - {k};
      }
    }

    /** The records of an update section in order. */
    method ApplyUpdates(us: seq<Record>) returns (changed: bool)
      requires Valid()
      modifies this, byName, namesExist, owner.Keys
      ensures namesExist == old(namesExist)
      ensures Valid() && fresh(owner.Keys - old(owner.Keys))
      ensures View() == ApplyAll(old(View()), us) && changed == AnyChanges(old(View()), us)
    {
      changed := false;
      ghost var z := View();
      for i := 0 to |us|
        invariant Valid() && fresh(owner.Keys - old(owner.Keys)) && namesExist == old(namesExist)
        invariant View() == ApplyAll(z, us[..i]) && changed == AnyChanges(z, us[..i])
      {
        ApplyAllStep(z, us, i);
        var c := ApplyUpdate(us[i]);
        changed := changed || c;
      }
      assert us[..|us|] == us;
    }

    /** Puts a new SOA in both places that hold one. */
    method StoreSoa(rec: Record)
      requires Valid()
      modifies this`soaRec, byName, this`contents, this`owner
      ensures Valid() && fresh(owner.Keys - old(owner.Keys))
      ensures soaRec == rec
      ensures contents == old(contents)[origin := ReplaceFirstSoa(old(Bucket(View(), origin)), rec)]
    {
      soaRec := rec;
      var recs := if origin in byName.m then byName.m[origin].Content() else [];
      var out := ReplaceSoa(recs, rec);
      var s := FromSeq(out);
      StoreSlice(origin, s);
    }

    /** Increments the apex serial. */
    method BumpSerial()
      requires Valid()
      modifies this, byName
      ensures namesExist == old(namesExist)
      ensures Valid() && fresh(owner.Keys - old(owner.Keys))
      ensures View() == BumpSoa(old(View()))
    {
      if Bumpable(soaRec) {
        StoreSoa(Bumped(soaRec));
      }
    }

    /** Adds the path of a bucket's first owner. */
    method ClimbFrom(k: Name, out: NameSet)
      requires Valid() && k in contents
      modifies out
      ensures contents[k] != [] && out.s == old(out.s) + PathUp(origin, contents[k][0].name)
    {
      hide PathUp;
      assert byName.m[k].arr[0] == contents[k][0];
      if byName.m[k].len > 0 {
        Climb(origin, byName.m[k].arr[0].name, out);
      }
    }

    /** Recomputes the existing names from the buckets, in a new set that replaces the old one. */
    method RebuildNamesExist()
      requires Valid()
      modifies this`namesExist
      ensures View() == Rebuilt(old(View())) && fresh(namesExist)
    {
      hide PathUp, ValidBut, Paths, Rebuilt;
      var out := CollectPaths();
      out.s := out.s + {origin};
      namesExist := out;
      RebuiltPaths(old(View()));
    }

    method CollectPaths() returns (out: NameSet)
      requires Valid()
      ensures fresh(out) && out.s == Paths(origin, contents, contents.Keys)
    {
      hide PathUp, ValidBut, Paths;
      SameKeys();
      out := new NameSet();
      var todo := byName.m.Keys;
      ghost var done := {};
      NoPaths(origin, contents);
      while todo != {}
        invariant todo <= contents.Keys && fresh(out) && done + todo == contents.Keys
        invariant out.s == Paths(origin, contents, done)
        decreases |todo|
      {
        var k :| k in todo;
        ClimbFrom(k, out);
        MorePaths(origin, contents, done, k);
        todo, done := todo - {k}, done + {k};
      }
      assert done == contents.Keys;
    }

    /** The value of a published index; it is never written again, so the value stays true. */
    method Snapshot() returns (z: Zone)
      requires Valid()
      ensures z == View()
    {
      z := Zone(origin, soaRec, map k | k in byName.m :: byName.m[k].Content(), namesExist.s);
    }

    /** Turns a private copy of the published index into the next one. */
    method Advance(us: seq<Record>) returns (notice: Option<(uint32, uint32)>)
      requires Valid()
      modifies this, byName, namesExist, owner.Keys
      ensures namesExist == old(namesExist) || fresh(namesExist)
      ensures Valid() && fresh(owner.Keys - old(owner.Keys))
      ensures View() == UpdateZone(old(View()), us) && notice == Notice(old(View()), us)
    {
      var changed := ApplyUpdates(us);
      var oldSerial := SerialOf(soaRec);
      if !changed {
        return None;
      }
      BumpSerial();
      RebuildNamesExist();
      return Some((oldSerial, SerialOf(soaRec)));
    }
  }
}
