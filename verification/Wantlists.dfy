/**
 The wantlist: a map of entries by CID, and a memoized slice of the entries
 sorted by priority whose backing array is handed out to callers.
 */
module Wantlists {
  import opened Types

  datatype Entry = Entry(cid: Cid, priority: Int32, wantType: Int32)

  type WantMap = map<Cid, Entry>

  ghost predicate Keyed(m: WantMap) {
    forall c :: c in m ==> m[c].cid == c
  }

  /** A want-have never replaces an entry, a want-block is never replaced. */
  function AddTo(m: WantMap, c: Cid, priority: Int32, wantType: Int32): WantMap {
    if c in m && (m[c].wantType == WANT_BLOCK || wantType == WANT_HAVE) then m
    else m[c := Entry(c, priority, wantType)]
  }

  /** Removing a want-have does not remove a want-block. */
  predicate Removable(m: WantMap, c: Cid, wantType: Int32) {
    c in m && !(m[c].wantType == WANT_BLOCK && wantType == WANT_HAVE)
  }

  function RemoveTypeFrom(m: WantMap, c: Cid, wantType: Int32): WantMap {
    if Removable(m, c, wantType) then m - {c} else m
  }

  /** Every entry of `other` added to `m`; as the entries have different keys, the order does not matter. */
  ghost function Absorbed(m: WantMap, other: WantMap): WantMap {
    map c | c in m.Keys + other.Keys ::
      if c in other then AddTo(m, c, other[c].priority, other[c].wantType)[c] else m[c]
  }

  ghost predicate Descending(es: seq<Entry>) {
    forall i, j :: 0 <= i < j < |es| ==> es[i].priority >= es[j].priority
  }

  /** `es` lists the entries of `m`, each once. */
  ghost predicate ListsMap(es: seq<Entry>, m: WantMap) {
    && (forall i :: 0 <= i < |es| ==> es[i].cid in m && m[es[i].cid] == es[i])
    && CidsDistinct(es)
    && (forall c :: c in m ==> m[c] in es)
  }

  ghost predicate SortedListing(es: seq<Entry>, m: WantMap) {
    ListsMap(es, m) && Descending(es)
  }

  // ---------- sorting ----------

  function InsertSorted(es: seq<Entry>, e: Entry): (r: seq<Entry>)
    ensures |r| == |es| + 1
  {
    if es == [] || e.priority > es[0].priority then [e] + es
    else [es[0]] + InsertSorted(es[1..], e)
  }

  lemma {:induction false} InsertSortedElems(es: seq<Entry>, e: Entry)
    ensures forall x :: x in InsertSorted(es, e) <==> x == e || x in es
  {
    if !(es == [] || e.priority > es[0].priority) {
      InsertSortedElems(es[1..], e);
      assert es == [es[0]] + es[1..];
    }
  }

  lemma {:induction false} InsertSortedDescending(es: seq<Entry>, e: Entry)
    requires Descending(es)
    ensures Descending(InsertSorted(es, e))
  {
    if !(es == [] || e.priority > es[0].priority) {
      InsertSortedDescending(es[1..], e);
      InsertSortedElems(es[1..], e);
      var rest := InsertSorted(es[1..], e);
      forall j | 0 <= j < |rest|
        ensures es[0].priority >= rest[j].priority
      {
        assert rest[j] in rest;
        if rest[j] != e {
          var k :| 0 <= k < |es[1..]| && es[1..][k] == rest[j];
          assert es[k + 1] == rest[j];
        }
      }
    }
  }

  ghost predicate CidsDistinct(es: seq<Entry>) {
    forall i, j :: 0 <= i < j < |es| ==> es[i].cid != es[j].cid
  }

  lemma CidsDistinctCons(e: Entry, es: seq<Entry>)
    requires CidsDistinct(es) && forall x :: x in es ==> x.cid != e.cid
    ensures CidsDistinct([e] + es)
  {
    var r := [e] + es;
    forall i, j | 0 <= i < j < |r|
      ensures r[i].cid != r[j].cid
    {
      assert r[j] == es[j - 1] && es[j - 1] in es;
      if i > 0 {
        assert r[i] == es[i - 1];
      }
    }
  }

  lemma {:induction false} InsertSortedDistinct(es: seq<Entry>, e: Entry)
    requires CidsDistinct(es) && forall x :: x in es ==> x.cid != e.cid
    ensures CidsDistinct(InsertSorted(es, e))
  {
    if es == [] || e.priority > es[0].priority {
      CidsDistinctCons(e, es);
    } else {
      InsertSortedDistinct(es[1..], e);
      InsertSortedElems(es[1..], e);
      assert forall x :: x in es[1..] ==> x.cid != es[0].cid;
      CidsDistinctCons(es[0], InsertSorted(es[1..], e));
    }
  }

  lemma InsertKeepsListing(es: seq<Entry>, m: WantMap, e: Entry)
    requires SortedListing(es, m) && e.cid !in m
    ensures SortedListing(InsertSorted(es, e), m[e.cid := e])
  {
    hide InsertSorted, Descending;
    var r, m' := InsertSorted(es, e), m[e.cid := e];
    InsertSortedElems(es, e);
    InsertSortedDescending(es, e);
    InsertSortedDistinct(es, e);
    forall i | 0 <= i < |r|
      ensures r[i].cid in m' && m'[r[i].cid] == r[i]
    {
      assert r[i] in r;
    }
  }

  lemma ListsWithoutLast(es: seq<Entry>, m: WantMap)
    requires ListsMap(es, m) && Keyed(m) && es != []
    ensures var n := |es| - 1;
            && es[n].cid in m && m == (m - {es[n].cid})[es[n].cid := es[n]]
            && ListsMap(es[..n], m - {es[n].cid}) && Keyed(m - {es[n].cid})
  {
    var n := |es| - 1;
    var m' := m - {es[n].cid};
    forall c | c in m'
      ensures m'[c] in es[..n]
    {
      assert m[c] in es && m[c] != es[n];
    }
  }

  /** A listing is as long as the map, so a descending listing is a sorted permutation of the entries. */
  lemma {:induction false} ListingLength(es: seq<Entry>, m: WantMap)
    requires ListsMap(es, m) && Keyed(m)
    ensures |es| == |m|
  {
    if es == [] {
      assert m.Keys == {};
    } else {
      var last := es[|es| - 1];
      ListsWithoutLast(es, m);
      ListingLength(es[..|es| - 1], m - {last.cid});
      assert (m - {last.cid}).Keys == m.Keys - {last.cid};
    }
  }

  // ---------- the wantlist ----------

  class Wantlist {
    var wants: WantMap
    var cached: array?<Entry>

    ghost predicate Valid()
      reads this, cached
    {
      && Keyed(wants)
      && (cached != null ==> SortedListing(cached[..], wants))
    }

    constructor ()
      ensures wants == map[] && cached == null && Valid()
    {
      wants, cached := map[], null;
    }

    function Len(): nat
      reads this
    {
      |wants|
    }

    method Add(c: Cid, priority: Int32, wantType: Int32) returns (added: bool)
      requires Valid()
      modifies this
      ensures Valid() && wants == AddTo(old(wants), c, priority, wantType)
      ensures cached == null || cached == old(cached)
      ensures added <==> !(c in old(wants) && (old(wants)[c].wantType == WANT_BLOCK || wantType == WANT_HAVE))
      ensures wants == if added then old(wants)[c := Entry(c, priority, wantType)] else old(wants)
    {
      if c in wants && (wants[c].wantType == WANT_BLOCK || wantType == WANT_HAVE) {
        return false;
      }
      Put(c, Entry(c, priority, wantType));
      return true;
    }

    method Remove(c: Cid) returns (removed: bool)
      requires Valid()
      modifies this
      ensures Valid() && wants == old(wants) - {c}
      ensures cached == null || cached == old(cached)
      ensures removed <==> c in old(wants)
    {
      if c !in wants {
        assert wants - {c} == wants;
        return false;
      }
      Delete(c);
      return true;
    }

    method RemoveType(c: Cid, wantType: Int32) returns (removed: bool)
      requires Valid()
      modifies this
      ensures Valid() && wants == RemoveTypeFrom(old(wants), c, wantType)
      ensures removed <==> c in old(wants) && !(old(wants)[c].wantType == WANT_BLOCK && wantType == WANT_HAVE)
      ensures wants == if removed then old(wants) - {c} else old(wants)
      ensures cached == if removed then null else old(cached)
    {
      if c !in wants {
        return false;
      }
      if wants[c].wantType == WANT_BLOCK && wantType == WANT_HAVE {
        return false;
      }
      Delete(c);
      return true;
    }

    method Delete(c: Cid)
      requires Valid()
      modifies this
      ensures Valid() && wants == old(wants) - {c} && cached == null
    {
      wants := wants - {c};
      cached := null;
    }

    method Put(c: Cid, e: Entry)
      requires Valid() && e.cid == c
      modifies this
      ensures Valid() && wants == old(wants)[c := e] && cached == null
    {
      cached := null;
      wants := wants[c := e];
    }

    /** The entries sorted by priority. The array is remembered, and shared with the caller. */
    method Entries() returns (es: array<Entry>)
      requires Valid()
      modifies this`cached
      ensures Valid() && cached == es && SortedListing(es[..], wants)
      ensures if old(cached) != null then es == old(cached) else fresh(es)
    {
      if cached != null {
        return cached;
      }
      var sorted := SortedEntries(wants);
      es := new Entry[|sorted|](i requires 0 <= i < |sorted| => sorted[i]);
      assert es[..] == sorted;
      cached := es;
    }

    /** Adds every entry of another wantlist. */
    method Absorb(other: Wantlist)
      requires Valid() && other.Valid() && other != this
      requires cached != null ==> cached != other.cached
      modifies this, other`cached
      ensures Valid() && other.Valid() && other.wants == old(other.wants)
      ensures wants == Absorbed(old(wants), other.wants)
      ensures cached == null
      ensures if old(other.cached) != null then other.cached == old(other.cached) else fresh(other.cached)
    {
      hide Descending;
      cached := null;
      var es := other.Entries();
      ghost var listed := es[..];
      for i := 0 to es.Length
        invariant Valid() && cached == null && es[..] == listed
        invariant other.Valid() && other.wants == old(other.wants) && other.cached == es
        invariant wants == AbsorbedFrom(old(wants), listed[..i])
      {
        assert listed[..i + 1][..i] == listed[..i];
        var _ := Add(es[i].cid, es[i].priority, es[i].wantType);
      }
      assert listed[..es.Length] == listed;
      AbsorbOrderIrrelevant(old(wants), listed, other.wants);
    }
  }

  /** The entries of a map, sorted by priority; entries of equal priority come in any order. */
  method SortedEntries(wants: WantMap) returns (sorted: seq<Entry>)
    requires Keyed(wants)
    ensures SortedListing(sorted, wants)
  {
    hide InsertSorted;
    sorted := [];
    var todo := wants.Keys;
    ghost var done: WantMap := map[];
    while todo != {}
      invariant todo <= wants.Keys && done.Keys == wants.Keys - todo
      invariant forall c :: c in done ==> done[c] == wants[c]
      invariant SortedListing(sorted, done)
      decreases todo
    {
      var c :| c in todo;
      InsertKeepsListing(sorted, done, wants[c]);
      sorted := InsertSorted(sorted, wants[c]);
      done := done[c := wants[c]];
      todo := todo - {c};
    }
    assert done == wants;
  }

  /** Entries added one after the other. */
  ghost function AbsorbedFrom(m: WantMap, es: seq<Entry>): WantMap {
    if es == [] then m
    else
      var last := es[|es| - 1];
      AddTo(AbsorbedFrom(m, es[..|es| - 1]), last.cid, last.priority, last.wantType)
  }

  /**
   Of the wants added for a CID the first want-block is kept, or the first want-have if no
   want-block was added.
   */
  lemma {:induction false} FirstBlockWins(es: seq<Entry>, c: Cid) returns (i: nat)
    requires forall e :: e in es ==> e.wantType == WANT_BLOCK || e.wantType == WANT_HAVE
    requires exists k :: 0 <= k < |es| && es[k].cid == c
    ensures i < |es| && es[i].cid == c && c in AbsorbedFrom(map[], es) && AbsorbedFrom(map[], es)[c] == es[i]
    ensures forall k :: 0 <= k < i && es[k].cid == c ==> es[i].wantType == WANT_BLOCK && es[k].wantType == WANT_HAVE
    ensures es[i].wantType == WANT_HAVE ==> forall k :: 0 <= k < |es| && es[k].cid == c ==> es[k].wantType == WANT_HAVE
  {
    var n := |es| - 1;
    if exists k :: 0 <= k < n && es[..n][k].cid == c {
      assert forall e :: e in es[..n] ==> e in es;
      i := FirstBlockWins(es[..n], c);
      if es[n].cid == c && es[i].wantType == WANT_HAVE && es[n].wantType == WANT_BLOCK {
        i := n;
      }
    } else {
      NotAdded(es[..n], c);
      i := n;
    }
  }

  lemma {:induction false} NotAdded(es: seq<Entry>, c: Cid)
    requires forall k :: 0 <= k < |es| ==> es[k].cid != c
    ensures c !in AbsorbedFrom(map[], es)
  {
    if es != [] {
      NotAdded(es[..|es| - 1], c);
    }
  }

  lemma {:induction false} AbsorbOrderIrrelevant(m: WantMap, es: seq<Entry>, other: WantMap)
    requires ListsMap(es, other) && Keyed(other)
    ensures AbsorbedFrom(m, es) == Absorbed(m, other)
  {
    hide Absorbed, Keyed;
    if es == [] {
      assert other == map[];
      AbsorbNothing(m);
    } else {
      var last := es[|es| - 1];
      ListsWithoutLast(es, other);
      AbsorbOrderIrrelevant(m, es[..|es| - 1], other - {last.cid});
      AbsorbOneMore(m, other - {last.cid}, last);
    }
  }

  lemma AbsorbNothing(m: WantMap)
    ensures Absorbed(m, map[]) == m
  {
  }

  lemma AbsorbOneMore(m: WantMap, other: WantMap, e: Entry)
    requires e.cid !in other
    ensures AddTo(Absorbed(m, other), e.cid, e.priority, e.wantType) == Absorbed(m, other[e.cid := e])
  {
    var left, right := AddTo(Absorbed(m, other), e.cid, e.priority, e.wantType), Absorbed(m, other[e.cid := e]);
    assert left.Keys == right.Keys;
    assert forall c :: c in left ==> left[c] == right[c];
  }
}
