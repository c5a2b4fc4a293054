/**
 * The `limit`/`offset` query handling shared by the `/` and `/epochs` routes:
 * both arguments default when absent, a negative one is refused, and the
 * answer is the Python slice `items[offset:offset+limit]`.
 */
module Pagination {
  import opened Base
  import opened StateVectors

  /** `2**31 - 1`, the limit used when the request names none. */
  const DefaultLimit: int := 0x7fff_ffff

  /** Both routes answer a negative limit or offset with the same error. */
  datatype PageError = NegativeArgument

  function Min(a: int, b: int): int {
    if a <= b then a else b
  }

  /**
   * Python's `items[lo:hi]` for `0 <= lo` and `0 <= hi`: bounds past the
   * end are clamped to the length, and a slice that starts at or after its
   * end is empty.
   */
  function PySlice<T>(items: seq<T>, lo: nat, hi: nat): (r: seq<T>)
    ensures |r| == if Min(lo, |items|) <= Min(hi, |items|) then Min(hi, |items|) - Min(lo, |items|) else 0
    ensures forall k :: 0 <= k < |r| ==> lo + k < |items| && r[k] == items[lo + k]
  {
    var a, b := Min(lo, |items|), Min(hi, |items|);
    if a <= b then items[a..b] else []
  }

  /**
   * The argument checks and the slice: `limit` is read (defaulting to
   * 2**31 - 1) and checked, then `offset` (defaulting to 0).
   */
  function Paginate<T>(items: seq<T>, limit: Option<int>, offset: Option<int>): (r: Result<seq<T>, PageError>)
    ensures r.Err? <==> (limit.Some? && limit.value < 0) || (offset.Some? && offset.value < 0)
    ensures r.Ok? ==> var o := if offset.Some? then offset.value else 0;
      forall k :: 0 <= k < |r.value| ==> o + k < |items| && r.value[k] == items[o + k]
    ensures r.Ok? ==>
      var l := if limit.Some? then limit.value else DefaultLimit;
      var o := if offset.Some? then offset.value else 0;
      |r.value| == (if o >= |items| then 0 else Min(l, |items| - o))
  {
    var l := if limit.Some? then limit.value else DefaultLimit;
    var o := if offset.Some? then offset.value else 0;
    if l < 0 || o < 0 then Err(NegativeArgument)
    else Ok(PySlice(items, o, o + l))
  }

  /**
   * An accepted page is the run of at most `limit` consecutive items that
   * starts at `offset`, cut short by the end of the list; it is empty when
   * the offset is at or past the end.
   */
  lemma PaginateContents<T>(items: seq<T>, l: nat, o: nat)
    ensures var r := Paginate(items, Some(l), Some(o));
      && r.Ok?
      && |r.value| == (if o >= |items| then 0 else Min(l, |items| - o))
      && (forall k :: 0 <= k < |r.value| ==> r.value[k] == items[o + k])
      && (o >= |items| ==> r.value == [])
      && (o + l <= |items| ==> r.value == items[o..o + l])
  {
  }

  /** With neither argument the whole list comes back, as long as it has at most 2**31 - 1 records. */
  lemma PaginateDefaults<T>(items: seq<T>)
    requires |items| <= DefaultLimit
    ensures Paginate(items, None, None) == Ok(items)
  {
    assert items[0..|items|] == items;
  }

  /** Two consecutive pages give the page that spans both. */
  lemma {:induction false} PagesConcatenate<T>(items: seq<T>, o: nat, l1: nat, l2: nat)
    ensures Paginate(items, Some(l1), Some(o)).value + Paginate(items, Some(l2), Some(o + l1)).value
         == Paginate(items, Some(l1 + l2), Some(o)).value
  {
    var n := |items|;
    var a, b, c := Min(o, n), Min(o + l1, n), Min(o + l1 + l2, n);
    PageIs(items, l1, o);
    PageIs(items, l2, o + l1);
    PageIs(items, l1 + l2, o);
    SlicesJoin(items, a, b, c);
  }

  /** An accepted page as one slice expression. */
  lemma PageIs<T>(items: seq<T>, l: nat, o: nat)
    ensures Paginate(items, Some(l), Some(o)) == Ok(items[Min(o, |items|)..Min(o + l, |items|)])
  {
  }

  lemma SlicesJoin<T>(items: seq<T>, a: nat, b: nat, c: nat)
    requires a <= b <= c <= |items|
    ensures items[a..b] + items[b..c] == items[a..c]
  {
  }

  /** `GET /`: a page of the stored state vectors. */
  function GetData(data: seq<StateVector>, limit: Option<int>, offset: Option<int>): (r: Result<seq<StateVector>, PageError>)
    ensures r.Ok? ==> forall k :: 0 <= k < |r.value| ==> r.value[k] in data
  {
    Paginate(data, limit, offset)
  }

  /** The epoch of every record, in list order. */
  function Epochs(data: seq<StateVector>): (es: seq<int>)
    ensures |es| == |data|
    ensures forall k :: 0 <= k < |data| ==> es[k] == data[k].epoch
  {
    seq(|data|, k requires 0 <= k < |data| => data[k].epoch)
  }

  /**
   * `GET /epochs`: a page of the list of epochs. Listing the epochs and then
   * paging gives the epochs of the same page of records: both routes refuse
   * the same arguments and return matching pages.
   */
  function GetEpochs(data: seq<StateVector>, limit: Option<int>, offset: Option<int>): (r: Result<seq<int>, PageError>)
    ensures r.Err? <==> GetData(data, limit, offset).Err?
    ensures r.Ok? ==> r.value == Epochs(GetData(data, limit, offset).value)
  {
    Paginate(Epochs(data), limit, offset)
  }
}
