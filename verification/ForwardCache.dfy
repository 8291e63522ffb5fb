/** The forwarder's cache: a map into a recency list, with the least recently used item dropped
    when a new one does not fit. */
module ForwardCache {
  import opened Names
  import opened Records

  datatype Entry = Entry(
    answers: seq<Record>, authority: seq<Record>, additional: seq<Record>,
    rcode: nat, ad: bool, insertedAt: int, expiresAt: int)

  /** The requester's DNSSEC-OK bit is part of the key. */
  datatype Key = Key(name: Name, kind: uint16, cls: uint16, dnssecOk: bool)

  // ----- the recency list as a value, most recent first -----

  datatype Item = Item(key: Key, val: Entry)

  type Recency = seq<Item>

  predicate DistinctKeys(l: Recency) {
    forall i, j :: 0 <= i < j < |l| ==> l[i].key != l[j].key
  }

  function Without<T>(l: seq<T>, i: nat): (r: seq<T>)
    requires i < |l|
    ensures |r| == |l| - 1
  {
    l[..i] + l[i + 1..]
  }

  function Find(l: Recency, k: Key): (r: Option<nat>)
    ensures r.Some? ==> r.value < |l| && l[r.value].key == k
    ensures r.None? ==> forall i :: 0 <= i < |l| ==> l[i].key != k
  {
    if l == [] then None
    else if l[|l| - 1].key == k then Some(|l| - 1)
    else Find(l[..|l| - 1], k)
  }

  datatype Got = Got(list: Recency, hit: Option<Entry>)

  function GetFrom(l: Recency, k: Key, now: int): Got {
    match Find(l, k)
    case None => Got(l, None)
    case Some(i) =>
      if now >= l[i].val.expiresAt then Got(Without(l, i), None)
      else Got([l[i]] + Without(l, i), Some(l[i].val))
  }

  function PutInto(l: Recency, cap: nat, k: Key, e: Entry): Recency {
    match Find(l, k)
    case Some(i) => [Item(k, e)] + Without(l, i)
    case None =>
      var grown := [Item(k, e)] + l;
      if |grown| > cap then grown[..|l|] else grown
  }

  // ----- the cache in place -----

  class Element {
    const key: Key
    var val: Entry

    constructor (key: Key, val: Entry)
      ensures this.key == key && this.val == val
    {
      this.key := key;
      this.val := val;
    }
  }

  /** List and map hold the same elements, each under its own key. */
  ghost predicate Linked(lru: seq<Element>, m: map<Key, Element>) {
    && (forall i, j :: 0 <= i < j < |lru| ==> lru[i].key != lru[j].key)
    && (forall el :: el in lru ==> el.key in m && m[el.key] == el)
    && forall k :: k in m ==> m[k] in lru && m[k].key == k
  }

  lemma WithoutAt<T>(l: seq<T>, i: nat, j: nat)
    requires i < |l| && j < |l| - 1
    ensures Without(l, i)[j] == if j < i then l[j] else l[j + 1]
  {
  }

  lemma WithoutMember<T>(l: seq<T>, i: nat, x: T)
    requires i < |l|
    ensures x in Without(l, i) ==> x in l
    ensures x in l ==> x == l[i] || x in Without(l, i)
  {
    if x in l && x != l[i] {
      var j :| 0 <= j < |l| && l[j] == x;
      if j < i {
        WithoutAt(l, i, j);
      } else {
        WithoutAt(l, i, j - 1);
      }
    }
  }

  lemma LinkedWithout(lru: seq<Element>, m: map<Key, Element>, i: nat)
    requires Linked(lru, m) && i < |lru|
    ensures Linked(Without(lru, i), m - {lru[i].key})
  {
    hide Without;
    var l := Without(lru, i);
    assert lru[i] in lru;
    forall a, b | 0 <= a < b < |l|
      ensures l[a].key != l[b].key
    {
      WithoutAt(lru, i, a);
      WithoutAt(lru, i, b);
    }
    forall el | el in l
      ensures el in lru && el.key != lru[i].key
    {
      var j :| 0 <= j < |l| && l[j] == el;
      WithoutAt(lru, i, j);
    }
    forall k | k in m && k != lru[i].key
      ensures m[k] in l
    {
      WithoutMember(lru, i, m[k]);
    }
  }

  lemma LinkedPushed(lru: seq<Element>, m: map<Key, Element>, el: Element)
    requires Linked(lru, m) && el.key !in m
    ensures Linked([el] + lru, m[el.key := el])
  {
  }

  lemma LinkedMoved(lru: seq<Element>, m: map<Key, Element>, i: nat)
    requires Linked(lru, m) && i < |lru|
    ensures Linked([lru[i]] + Without(lru, i), m)
  {
    hide Linked, Without;
    LinkedWithout(lru, m, i);
    LinkedAt(lru, m, i);
    LinkedPushed(Without(lru, i), m - {lru[i].key}, lru[i]);
    assert (m - {lru[i].key})[lru[i].key := lru[i]] == m;
  }

  lemma LinkedAt(lru: seq<Element>, m: map<Key, Element>, i: nat)
    requires Linked(lru, m) && i < |lru|
    ensures lru[i].key in m && m[lru[i].key] == lru[i]
  {
    assert lru[i] in lru;
  }

  ghost function ItemsOf(lru: seq<Element>): (l: Recency)
    reads lru
    ensures |l| == |lru| && forall i :: 0 <= i < |l| ==> l[i] == Item(lru[i].key, lru[i].val)
  {
    seq(|lru|, i requires 0 <= i < |lru| reads lru => Item(lru[i].key, lru[i].val))
  }

  lemma ItemsWithout(lru: seq<Element>, i: nat)
    requires i < |lru|
    ensures ItemsOf(Without(lru, i)) == Without(ItemsOf(lru), i)
  {
  }

  lemma FindElement(lru: seq<Element>, m: map<Key, Element>, i: nat)
    requires Linked(lru, m) && i < |lru|
    ensures Find(ItemsOf(lru), lru[i].key) == Some(i)
  {
    hide Find;
    var r := Find(ItemsOf(lru), lru[i].key);
  }

  lemma FindNothing(lru: seq<Element>, m: map<Key, Element>, k: Key)
    requires Linked(lru, m) && k !in m
    ensures Find(ItemsOf(lru), k) == None
  {
    hide Find;
    var r := Find(ItemsOf(lru), k);
    if r.Some? {
      LinkedAt(lru, m, r.value);
    }
  }

  /** A capacity of zero stands for the disabled cache. */
  class Cache {
    var lru: seq<Element>
    var m: map<Key, Element>
    const cap: nat

    ghost predicate Valid()
      reads this
    {
      |lru| <= cap && Linked(lru, m)
    }

    ghost function Contents(): Recency
      reads this, lru
    {
      ItemsOf(lru)
    }

    constructor (cap: nat)
      ensures Valid() && Contents() == [] && this.cap == cap
    {
      lru := [];
      m := map[];
      this.cap := cap;
    }

    /** The place of an element in the list. */
    method Locate(el: Element) returns (i: nat)
      requires el in lru
      ensures i < |lru| && lru[i] == el
    {
      i := 0;
      while lru[i] != el
        invariant 0 <= i < |lru| && el in lru[i..]
        decreases |lru| - i
      {
        assert lru[i..] == [lru[i]] + lru[i + 1..];
        i := i + 1;
      }
    }

    method RemoveAt(i: nat)
      requires Valid() && i < |lru|
      modifies this
      ensures Valid() && Contents() == Without(old(Contents()), i)
    {
      hide Linked, ItemsOf;
      LinkedWithout(lru, m, i);
      ItemsWithout(lru, i);
      var k := lru[i].key;
      lru := lru[..i] + lru[i + 1..];
      m := m - {k};
    }

    method MoveToFront(i: nat)
      requires Valid() && i < |lru|
      modifies this
      ensures Valid() && m == old(m) && Contents() == [old(Contents())[i]] + Without(old(Contents()), i)
    {
      hide Linked;
      LinkedMoved(lru, m, i);
      ItemsWithout(lru, i);
      ghost var rest := Without(lru, i);
      lru := [lru[i]] + (lru[..i] + lru[i + 1..]);
      ItemsCons(old(lru)[i], rest);
    }

    method Get(k: Key, now: int) returns (hit: Option<Entry>)
      requires Valid()
      modifies this
      ensures Valid() && Got(Contents(), hit) == GetFrom(old(Contents()), k, now)
    {
      hide Find, Without;
      if k !in m {
        FindNothing(lru, m, k);
        return None;
      }
      var el := m[k];
      var i := Locate(el);
      FindElement(lru, m, i);
      if now >= el.val.expiresAt {
        RemoveAt(i);
        return None;
      }
      MoveToFront(i);
      return Some(el.val);
    }

    /** A new value in an existing element, which becomes the most recent. */
    method Refresh(k: Key, e: Entry)
      requires Valid() && k in m
      modifies this, m[k]
      ensures Valid() && Contents() == PutInto(old(Contents()), cap, k, e)
    {
      hide Find, Without;
      var el := m[k];
      var i := Locate(el);
      FindElement(lru, m, i);
      ghost var before := Contents();
      SetValue(el, i, e);
      MoveToFront(i);
      WithoutReplaced(before, i, Item(k, e));
    }

    method SetValue(el: Element, ghost i: nat, e: Entry)
      requires Valid() && i < |lru| && lru[i] == el
      modifies el
      ensures Valid() && Contents() == old(Contents())[i := Item(el.key, e)]
    {
      el.val := e;
    }

    method PushFront(k: Key, e: Entry)
      requires Linked(lru, m) && k !in m
      modifies this
      ensures Linked(lru, m) && Contents() == [Item(k, e)] + old(Contents())
    {
      hide Linked;
      var el := new Element(k, e);
      LinkedPushed(lru, m, el);
      ItemsCons(el, lru);
      lru := [el] + lru;
      m := m[k := el];
    }

    method DropBack()
      requires Linked(lru, m) && |lru| == cap + 1
      modifies this
      ensures Valid() && Contents() == old(Contents())[..cap]
    {
      hide Linked;
      LinkedWithout(lru, m, cap);
      ItemsWithout(lru, cap);
      var k := lru[|lru| - 1].key;
      assert Without(lru, cap) == lru[..cap];
      lru := lru[..|lru| - 1];
      m := m - {k};
    }

    method Put(k: Key, e: Entry)
      requires Valid()
      modifies this, set x | x in m && x == k :: m[x]
      ensures Valid() && (if cap == 0 then Contents() == [] else Contents() == PutInto(old(Contents()), cap, k, e))
    {
      hide Linked, Find, Without;
      if cap == 0 {
        return;
      }
      if k in m {
        Refresh(k, e);
        return;
      }
      FindNothing(lru, m, k);
      PushFront(k, e);
      if |lru| > cap {
        DropBack();
      }
    }

    method Clear()
      requires Valid()
      modifies this
      ensures Valid() && Contents() == []
    {
      lru := [];
      m := map[];
    }
  }

  lemma ItemsCons(el: Element, lru: seq<Element>)
    ensures ItemsOf([el] + lru) == [Item(el.key, el.val)] + ItemsOf(lru)
  {
  }

  lemma WithoutReplaced<T>(l: seq<T>, i: nat, x: T)
    requires i < |l|
    ensures Without(l[i := x], i) == Without(l, i)
  {
  }
}
