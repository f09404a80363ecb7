/**
 * FilteredDialogueStore<filter>: a read-only view over the ordered dialogue store that
 * presents only the records of one dialogue type, with a forward iterator that skips the
 * other records, a count, positional access and a lookup by id.
 *
 * The store is a sequence of records; an iterator position is an index into it, and the
 * store's end iterator is the index |store|.
 */
module DialogueStore {

  import opened Optional
  import opened Esm

  // ---------------------------------------------------------------------------------------
  // The view, as a value

  /** The records of `s` whose type is `f`, in store order: what the filtered store presents. */
  function Filtered(s: seq<Dialogue>, f: DialogueType): (r: seq<Dialogue>)
    ensures |r| <= |s|
  {
    if s == [] then []
    else Filtered(s[..|s| - 1], f) + (if s[|s| - 1].dialType == f then [s[|s| - 1]] else [])
  }

  /** The view holds exactly the store's records of the filtered type. */
  lemma {:induction false} FilteredMembership(s: seq<Dialogue>, f: DialogueType, d: Dialogue)
    ensures d in Filtered(s, f) <==> d in s && d.dialType == f
  {
    if s != [] {
      var init := s[..|s| - 1];
      FilteredMembership(init, f, d);
      assert s == init + [s[|s| - 1]];
    }
  }

  /** Filtering distributes over concatenation: the view keeps store order. */
  lemma {:induction false} FilteredAppend(a: seq<Dialogue>, b: seq<Dialogue>, f: DialogueType)
    ensures Filtered(a + b, f) == Filtered(a, f) + Filtered(b, f)
    decreases |b|
  {
    if b == [] {
      assert a + b == a;
    } else {
      var init := b[..|b| - 1];
      var last := b[|b| - 1];
      assert (a + b)[..|a + b| - 1] == a + init;
      assert (a + b)[|a + b| - 1] == last;
      FilteredAppend(a, init, f);
      var tail := if last.dialType == f then [last] else [];
      calc {
        Filtered(a + b, f);
        Filtered(a + init, f) + tail;
        (Filtered(a, f) + Filtered(init, f)) + tail;
        Filtered(a, f) + (Filtered(init, f) + tail);
        Filtered(a, f) + Filtered(b, f);
      }
    }
  }

  /** A stretch of the store with no record of type f adds nothing to the view. */
  lemma FilteredSkip(s: seq<Dialogue>, f: DialogueType, a: nat, b: nat)
    requires a <= b <= |s|
    requires forall k :: a <= k < b ==> s[k].dialType != f
    ensures Filtered(s[..b], f) == Filtered(s[..a], f)
  {
    assert s[..b] == s[..a] + s[a..b];
    FilteredAppend(s[..a], s[a..b], f);
    if Filtered(s[a..b], f) != [] {
      var d := Filtered(s[a..b], f)[0];
      FilteredMembership(s[a..b], f, d);
      assert false;
    }
  }

  /** Extending a store prefix by one record extends the view by that record if it matches. */
  lemma FilteredStep(s: seq<Dialogue>, f: DialogueType, p: nat)
    requires p < |s|
    ensures Filtered(s[..p + 1], f) == Filtered(s[..p], f) + (if s[p].dialType == f then [s[p]] else [])
  {
    assert s[..p + 1][..p] == s[..p];
  }

  /**
   * A matching record at store position p is the view's element number |Filtered(s[..p])|:
   * its rank is the number of matching records before it.
   */
  lemma FilteredAt(s: seq<Dialogue>, f: DialogueType, p: nat)
    requires p < |s| && s[p].dialType == f
    ensures |Filtered(s[..p], f)| < |Filtered(s, f)|
    ensures Filtered(s, f)[|Filtered(s[..p], f)|] == s[p]
  {
    FilteredStep(s, f, p);
    assert s == s[..p + 1] + s[p + 1..];
    FilteredAppend(s[..p + 1], s[p + 1..], f);
  }

  /** std::count_if over the store with the predicate "the type is f", front to back. */
  function CountIf(s: seq<Dialogue>, f: DialogueType): (r: nat)
    ensures r <= |s|
    ensures r == 0 <==> forall k :: 0 <= k < |s| ==> s[k].dialType != f
  {
    if s == [] then 0
    else
      assert forall k :: 1 <= k < |s| ==> s[k] == s[1..][k - 1];
      (if s[0].dialType == f then 1 else 0) + CountIf(s[1..], f)
  }

  /** Counting the matching records gives the length of the view. */
  lemma {:induction false} CountIfIsFilteredLength(s: seq<Dialogue>, f: DialogueType)
    ensures CountIf(s, f) == |Filtered(s, f)|
  {
    if s != [] {
      CountIfIsFilteredLength(s[1..], f);
      assert s == [s[0]] + s[1..];
      FilteredAppend([s[0]], s[1..], f);
      assert [s[0]][..0] == [];
    }
  }

  // ---------------------------------------------------------------------------------------
  // Iterator positions

  /** The first position in [i, e) holding a record of type f, or e when there is none. */
  function FirstMatchFrom(s: seq<Dialogue>, f: DialogueType, i: nat, e: nat): (r: nat)
    requires i <= e <= |s|
    ensures i <= r <= e
    ensures r < e ==> s[r].dialType == f
    ensures forall k :: i <= k < r ==> s[k].dialType != f
    decreases e - i
  {
    if i == e || s[i].dialType == f then i else FirstMatchFrom(s, f, i + 1, e)
  }

  /** Any position with the defining properties of FirstMatchFrom is FirstMatchFrom. */
  lemma FirstMatchUnique(s: seq<Dialogue>, f: DialogueType, i: nat, e: nat, r: nat)
    requires i <= r <= e <= |s|
    requires r < e ==> s[r].dialType == f
    requires forall k :: i <= k < r ==> s[k].dialType != f
    ensures r == FirstMatchFrom(s, f, i, e)
  {
  }

  /**
   * Where `++` moves an iterator at position i with end e: nowhere when it is at the end,
   * otherwise past i to the next record of type f, or to the end.
   */
  function Next(s: seq<Dialogue>, f: DialogueType, i: nat, e: nat): (r: nat)
    requires i <= e <= |s|
    ensures i <= r <= e
    ensures i == e ==> r == e
    ensures i < e ==> i < r
    ensures r < e ==> s[r].dialType == f
    ensures forall k :: i < k < r ==> s[k].dialType != f
  {
    if i == e then e else FirstMatchFrom(s, f, i + 1, e)
  }

  /**
   * Where `+= n` moves an iterator at position i with end e: n steps of `++`, stopping
   * early at the end; a non-positive n leaves it where it is.
   */
  function Advance(s: seq<Dialogue>, f: DialogueType, i: nat, e: nat, n: int): (r: nat)
    requires i <= e <= |s|
    ensures i <= r <= e
    ensures n <= 0 ==> r == i
    ensures i == e ==> r == e
    decreases if n < 0 then 0 else n
  {
    if n <= 0 || i == e then i else Advance(s, f, Next(s, f, i, e), e, n - 1)
  }

  /** Advancing by m and then by n is advancing by m + n. */
  lemma {:induction false} AdvanceAdditive(s: seq<Dialogue>, f: DialogueType, i: nat, e: nat, m: nat, n: nat)
    requires i <= e <= |s|
    ensures Advance(s, f, Advance(s, f, i, e, m), e, n) == Advance(s, f, i, e, m + n)
    decreases m
  {
    if m > 0 && i != e {
      AdvanceAdditive(s, f, Next(s, f, i, e), e, m - 1, n);
    }
  }

  /** The position of begin(): the first record of type f, or the end. */
  function BeginPosition(s: seq<Dialogue>, f: DialogueType): (r: nat)
    ensures r <= |s|
    ensures r < |s| ==> s[r].dialType == f
    ensures r == |s| <==> Filtered(s, f) == []
    ensures forall k :: 0 <= k < r ==> s[k].dialType != f
  {
    var r := FirstMatchFrom(s, f, 0, |s|);
    FilteredSkip(s, f, 0, r);
    assert s[..0] == [];
    AlignedRank(s, f, r);
    r
  }

  /** A position an iterator of the view can stand on: a record of type f, or the end. */
  ghost predicate Aligned(s: seq<Dialogue>, f: DialogueType, p: nat)
  {
    p <= |s| && (p < |s| ==> s[p].dialType == f)
  }

  /** An aligned position is the end exactly when every record of the view lies before it. */
  lemma AlignedRank(s: seq<Dialogue>, f: DialogueType, p: nat)
    requires Aligned(s, f, p)
    ensures |Filtered(s[..p], f)| <= |Filtered(s, f)|
    ensures p == |s| <==> |Filtered(s[..p], f)| == |Filtered(s, f)|
  {
    if p < |s| {
      FilteredAt(s, f, p);
    } else {
      assert s[..p] == s;
    }
  }

  /**
   * From an aligned position of rank c (c matching records before it), k steps reach the
   * matching record of rank c + k, or the end when the view has no such record.
   */
  lemma {:induction false} AdvanceRank(s: seq<Dialogue>, f: DialogueType, p: nat, k: nat)
    requires Aligned(s, f, p)
    ensures Aligned(s, f, Advance(s, f, p, |s|, k))
    ensures Advance(s, f, p, |s|, k) < |s| <==> |Filtered(s[..p], f)| + k < |Filtered(s, f)|
    ensures Advance(s, f, p, |s|, k) < |s| ==>
              |Filtered(s[..Advance(s, f, p, |s|, k)], f)| == |Filtered(s[..p], f)| + k
    decreases k
  {
    AlignedRank(s, f, p);
    if k > 0 && p < |s| {
      var q := Next(s, f, p, |s|);
      FilteredStep(s, f, p);
      FilteredSkip(s, f, p + 1, q);
      assert |Filtered(s[..q], f)| == |Filtered(s[..p], f)| + 1;
      AdvanceRank(s, f, q, k - 1);
      assert Advance(s, f, p, |s|, k) == Advance(s, f, q, |s|, k - 1);
      assert |Filtered(s[..p], f)| + k == |Filtered(s[..q], f)| + (k - 1);
    }
  }

  /**
   * Advancing begin() by k reaches the view's element number k, or the end exactly when the
   * view has at most k elements.
   */
  lemma AdvanceFromBegin(s: seq<Dialogue>, f: DialogueType, k: nat)
    ensures Advance(s, f, BeginPosition(s, f), |s|, k) < |s| <==> k < |Filtered(s, f)|
    ensures Advance(s, f, BeginPosition(s, f), |s|, k) < |s| ==>
              s[Advance(s, f, BeginPosition(s, f), |s|, k)] == Filtered(s, f)[k]
  {
    var b := BeginPosition(s, f);
    FilteredSkip(s, f, 0, b);
    assert s[..0] == [];
    AdvanceRank(s, f, b, k);
    var q := Advance(s, f, b, |s|, k);
    if q < |s| {
      FilteredAt(s, f, q);
    }
  }

  /** The ids of the underlying store are unique: MWWorld::Store keys its records by id. */
  ghost predicate UniqueIds(s: seq<Dialogue>)
  {
    forall i, j :: 0 <= i < |s| && 0 <= j < |s| && s[i].id == s[j].id ==> i == j
  }

  /** MWWorld::Store<ESM::Dialogue>::search: the record with the given id, if any. */
  function StoreSearch(s: seq<Dialogue>, id: RefId): (r: Option<Dialogue>)
    ensures r.Some? <==> exists i :: 0 <= i < |s| && s[i].id == id
    ensures r.Some? ==> r.value in s && r.value.id == id
  {
    if s == [] then None
    else if s[0].id == id then Some(s[0])
    else
      var r := StoreSearch(s[1..], id);
      assert forall i :: 1 <= i < |s| ==> s[i] == s[1..][i - 1];
      r
  }

  // ---------------------------------------------------------------------------------------
  // The iterator

  /** FilteredDialogueIterator: a store position and the end position it never passes. */
  class FilteredDialogueIterator {
    const store: seq<Dialogue>
    const filter: DialogueType
    var iter: nat
    var endIter: nat

    ghost predicate Valid()
      reads this
    {
      iter <= endIter <= |store|
    }

    constructor (store: seq<Dialogue>, filter: DialogueType, pointing: nat, end: nat)
      requires pointing <= end <= |store|
      ensures Valid()
      ensures this.store == store && this.filter == filter
      ensures iter == pointing && endIter == end
    {
      this.store := store;
      this.filter := filter;
      iter := pointing;
      endIter := end;
    }

    /** operator==: iterators compare by position only. */
    predicate Equals(x: FilteredDialogueIterator): (r: bool)
      reads this, x
      ensures r <==> iter == x.iter
    {
      iter == x.iter
    }

    /** operator*: the record the iterator stands on. */
    function Current(): (r: Dialogue)
      reads this
      requires Valid() && iter < endIter
      ensures r in store && r == store[iter]
    {
      store[iter]
    }

    /** Prefix operator++. */
    method Increment()
      requires Valid()
      modifies this
      ensures Valid() && endIter == old(endIter)
      ensures iter == Next(store, filter, old(iter), endIter)
    {
      if iter == endIter {
        return;
      }
      ghost var start := iter;
      iter := iter + 1;
      while iter != endIter && store[iter].dialType != filter
        invariant start < iter <= endIter <= |store| && endIter == old(endIter)
        invariant forall k :: start < k < iter ==> store[k].dialType != filter
        decreases endIter - iter
      {
        iter := iter + 1;
      }
      FirstMatchUnique(store, filter, start + 1, endIter, iter);
    }

    /** Postfix operator++: a copy of the iterator as it was, then this one advanced. */
    method PostIncrement() returns (previous: FilteredDialogueIterator)
      requires Valid()
      modifies this
      ensures fresh(previous) && previous.Valid()
      ensures previous.store == store && previous.filter == filter
      ensures previous.iter == old(iter) && previous.endIter == old(endIter)
      ensures Valid() && endIter == old(endIter)
      ensures iter == Next(store, filter, old(iter), endIter)
    {
      previous := new FilteredDialogueIterator(store, filter, iter, endIter);
      Increment();
    }

    /** operator+=: up to `advance` steps of `++`, stopping at the end. */
    method AdvanceBy(advance: int)
      requires Valid()
      modifies this
      ensures Valid() && endIter == old(endIter)
      ensures iter == Advance(store, filter, old(iter), endIter, advance)
    {
      var left := advance;
      while left > 0 && iter != endIter
        invariant Valid() && endIter == old(endIter)
        invariant Advance(store, filter, iter, endIter, left) == Advance(store, filter, old(iter), endIter, advance)
        decreases if left < 0 then 0 else left
      {
        Increment();
        left := left - 1;
      }
    }
  }

  // ---------------------------------------------------------------------------------------
  // The store

  /** FilteredDialogueStore<filter> over the given dialogue store. */
  class FilteredDialogueStore {
    const records: seq<Dialogue>
    const filter: DialogueType

    ghost predicate Valid()
    {
      UniqueIds(records)
    }

    constructor (records: seq<Dialogue>, filter: DialogueType)
      requires UniqueIds(records)
      ensures Valid() && this.records == records && this.filter == filter
    {
      this.records := records;
      this.filter := filter;
    }

    /** foundDialogueFilteredOut: a found record passes only when its type is the filter. */
    function FoundDialogueFilteredOut(possibleResult: Option<Dialogue>): (r: Option<Dialogue>)
      ensures r.Some? <==> possibleResult.Some? && possibleResult.value.dialType == filter
      ensures r.Some? ==> r == possibleResult
    {
      if possibleResult.Some? && possibleResult.value.dialType == filter then possibleResult else None
    }

    /** search(id): the record with that id when it exists and has the filtered type. */
    function Search(id: RefId): (r: Option<Dialogue>)
      requires Valid()
      ensures r.Some? <==> exists i :: 0 <= i < |records| && records[i].id == id && records[i].dialType == filter
      ensures r.Some? ==> r.value in records && r.value.id == id && r.value.dialType == filter
    {
      FoundDialogueFilteredOut(StoreSearch(records, id))
    }

    /** getSize(): the number of records of the filtered type. */
    function GetSize(): (r: nat)
      ensures r == |Filtered(records, filter)|
      ensures r <= |records|
    {
      CountIfIsFilteredLength(records, filter);
      CountIf(records, filter)
    }

    /** end(): the iterator at the end of the store. */
    method End() returns (result: FilteredDialogueIterator)
      ensures fresh(result) && result.Valid()
      ensures result.store == records && result.filter == filter
      ensures result.iter == |records| && result.endIter == |records|
    {
      result := new FilteredDialogueIterator(records, filter, |records|, |records|);
    }

    /** begin(): the iterator at the first record of the filtered type, or end(). */
    method Begin() returns (result: FilteredDialogueIterator)
      ensures fresh(result) && result.Valid()
      ensures result.store == records && result.filter == filter && result.endIter == |records|
      ensures result.iter == BeginPosition(records, filter)
    {
      result := new FilteredDialogueIterator(records, filter, 0, |records|);
      var e := End();
      while !result.Equals(e) && result.Current().dialType != filter
        invariant fresh(result) && result.Valid() && e.iter == |records|
        invariant result.store == records && result.filter == filter && result.endIter == |records|
        invariant forall k :: 0 <= k < result.iter ==> records[k].dialType != filter
        decreases |records| - result.iter
      {
        result.Increment();
      }
      FirstMatchUnique(records, filter, 0, |records|, result.iter);
    }

    /** at(index): the view's record number `index` (from 0), or nothing past the view's end. */
    method At(index: nat) returns (r: Option<Dialogue>)
      ensures index < |Filtered(records, filter)| ==> r == Some(Filtered(records, filter)[index])
      ensures index >= |Filtered(records, filter)| ==> r == None
    {
      var result := Begin();
      result.AdvanceBy(index);
      var e := End();
      AdvanceFromBegin(records, filter, index);
      if result.Equals(e) {
        r := None;
      } else {
        r := Some(result.Current());
      }
    }
  }
}
