/**
 * `get_closest_epoch`, the binary search over the stored records by epoch,
 * and the exact-epoch lookup of `get_state_vectors` built on it. Epochs are
 * whole seconds; the time searched for is a real, as Python's float.
 */
module EpochIndex {
  import opened Base
  import opened StateVectors

  // ---------------------------------------------------------------------------
  // math.isclose

  function Abs(a: real): real {
    if a < 0.0 then -a else a
  }

  /**
   * `math.isclose(a, b)` with its defaults, relative tolerance 1e-9 and
   * absolute tolerance 0: the difference is within 1e-9 of the larger
   * magnitude, that is, of one of the two.
   */
  predicate IsClose(a: real, b: real)
    ensures a == b ==> IsClose(a, b)
    ensures IsClose(a, b) ==> (a == 0.0 <==> b == 0.0)
    ensures IsClose(a, b) ==> (a < 0.0 <==> b < 0.0)
  {
    Abs(a - b) <= 0.000000001 * Abs(a) || Abs(a - b) <= 0.000000001 * Abs(b)
  }

  /** isclose is reflexive and symmetric. */
  lemma IsCloseBasics(a: real, b: real)
    ensures IsClose(a, a)
    ensures IsClose(a, b) <==> IsClose(b, a)
  {
  }

  /**
   * Far stays far: once a value below `t` is not close to it, nothing
   * further below is (and likewise above).
   */
  lemma NotCloseBelow(x: real, y: real, t: real)
    requires x <= y < t && !IsClose(y, t)
    ensures !IsClose(x, t)
  {
    assert Abs(x) <= Abs(y) + (y - x);
  }

  lemma NotCloseAbove(x: real, y: real, t: real)
    requires t < y <= x && !IsClose(y, t)
    ensures !IsClose(x, t)
  {
    assert Abs(x) <= Abs(y) + (x - y);
  }

  // ---------------------------------------------------------------------------
  // get_closest_epoch

  /** The epochs never decrease along the list, the order the search assumes. */
  predicate Sorted(data: seq<StateVector>) {
    forall i, j {:trigger NotLater(data[i], data[j])} :: 0 <= i <= j < |data| ==> NotLater(data[i], data[j])
  }

  /** `a`'s epoch is not after `b`'s. */
  predicate NotLater(a: StateVector, b: StateVector) {
    a.epoch <= b.epoch
  }

  /** Python's `data[i]` index for `-len(data) <= i`: a negative index counts from the end. */
  function PyIndex(i: int, n: nat): (k: nat)
    requires 0 <= n + i && i < n
    ensures k < n
    ensures i >= 0 ==> k == i
    ensures i < 0 ==> k == n + i
  {
    if i < 0 then n + i else i
  }

  /** The search target: a requested time of 0 stands for the clock's present time. */
  function Target(currentTime: real, clock: real): (t: real)
    ensures currentTime != 0.0 ==> t == currentTime
    ensures currentTime == 0.0 ==> t == clock
  {
    if currentTime == 0.0 then clock else currentTime
  }

  /**
   * The index the search reads last, from the bracket `left`, `right`.
   * `(left + right) // 2` floors; Dafny's `/` by 2 does too. The bracket
   * (0, -1) gives mid -1, which reads the last record.
   */
  function SearchFrom(data: seq<StateVector>, target: real, left: int, right: int): (i: nat)
    requires data != [] && 0 <= left <= right + 1 && right < |data|
    ensures i < |data|
    decreases right - left + 1
  {
    var mid := (left + right) / 2;
    var i := PyIndex(mid, |data|);
    var epoch := data[i].epoch as real;
    if IsClose(epoch, target) || !(left < right) then i
    else if epoch < target then SearchFrom(data, target, mid + 1, right)
    else SearchFrom(data, target, left, mid - 1)
  }

  /** What get_closest_epoch returns: "" on no data, else a record and its delay. */
  datatype Closest = NoData | Found(record: StateVector, delay: real)

  function ClosestEpoch(data: seq<StateVector>, target: real): Closest {
    if data == [] then NoData
    else
      var i := SearchFrom(data, target, 0, |data| - 1);
      Found(data[i], data[i].epoch as real - target)
  }

  /**
   * One probe of the search at mid: it ends there when that record is close
   * or the bracket has at most one record; otherwise it goes on in the half
   * on the target's side (an epoch equal to the target is always close).
   */
  lemma SearchStep(data: seq<StateVector>, target: real, left: int, right: int)
    requires data != [] && 0 <= left <= right + 1 && right < |data|
    ensures var mid := (left + right) / 2;
      var i := PyIndex(mid, |data|);
      var epoch := data[i].epoch as real;
      && (IsClose(epoch, target) || !(left < right) ==> SearchFrom(data, target, left, right) == i)
      && (!IsClose(epoch, target) && left < right ==>
            && i == mid && epoch != target
            && SearchFrom(data, target, left, right) ==
                 if epoch < target then SearchFrom(data, target, mid + 1, right)
                 else SearchFrom(data, target, left, mid - 1))
  {
    IsCloseBasics(target, target);
  }

  /**
   * get_closest_epoch(current_time) over the record list `data`; `clock`
   * stands for time.time().
   */
  method GetClosestEpoch(data: seq<StateVector>, currentTime: real, clock: real) returns (c: Closest)
    ensures c == ClosestEpoch(data, Target(currentTime, clock))
  {
    if |data| == 0 {
      return NoData;
    }
    var target := if currentTime == 0.0 then clock else currentTime;
    var left, right := 0, |data| - 1;
    var mid := (left + right) / 2;
    ghost var goal := SearchFrom(data, target, left, right);
    while 0 <= left && right < |data|
      invariant 0 <= left <= right + 1 && right < |data|
      invariant mid == (left + right) / 2
      invariant SearchFrom(data, target, left, right) == goal
      decreases right - left + 1
    {
      var i := PyIndex(mid, |data|);
      var epoch := data[i].epoch as real;
      SearchStep(data, target, left, right);
      if IsClose(epoch, target) {
        return Found(data[i], epoch - target);
      } else if !(left < right) {
        return Found(data[i], epoch - target);
      } else if epoch < target {
        left := mid + 1;
      } else if epoch > target {
        right := mid - 1;
      } else {
        // the "missed edge case" branch: an epoch equal to the target is close to it
        assert false;
      }
      mid := (left + right) / 2;
    }
    // the bracket stays inside the list, so the loop only ends by returning
    assert false;
  }

  /**
   * The answer is a stored record, read from a real index, and the delay is
   * its epoch minus the target; there is no answer only without data.
   */
  lemma ClosestIsStored(data: seq<StateVector>, target: real)
    ensures ClosestEpoch(data, target).NoData? <==> data == []
    ensures ClosestEpoch(data, target).Found? ==>
      && ClosestEpoch(data, target).record in data
      && ClosestEpoch(data, target).delay == ClosestEpoch(data, target).record.epoch as real - target
  {
  }

  /** A record below the target that is not close to it has no close record at or before it. */
  lemma CloseIsAfter(data: seq<StateVector>, target: real, mid: nat, j: nat)
    requires Sorted(data) && mid < |data| && j < |data|
    requires data[mid].epoch as real < target && !IsClose(data[mid].epoch as real, target)
    requires IsClose(data[j].epoch as real, target)
    ensures mid < j
  {
    if j <= mid {
      assert NotLater(data[j], data[mid]);
      NotCloseBelow(data[j].epoch as real, data[mid].epoch as real, target);
    }
  }

  /** A record not below the target that is not close to it has no close record at or after it. */
  lemma CloseIsBefore(data: seq<StateVector>, target: real, mid: nat, j: nat)
    requires Sorted(data) && mid < |data| && j < |data|
    requires !(data[mid].epoch as real < target) && !IsClose(data[mid].epoch as real, target)
    requires IsClose(data[j].epoch as real, target)
    ensures j < mid
  {
    IsCloseBasics(target, target);
    if mid <= j {
      assert NotLater(data[mid], data[j]);
      NotCloseAbove(data[j].epoch as real, data[mid].epoch as real, target);
    }
  }

  /**
   * On sorted data, if some record is close to the target, the search ends
   * at one that is: no record it skips could have been close.
   */
  lemma {:induction false} SearchFindsClose(data: seq<StateVector>, target: real, left: int, right: int, j: int)
    requires data != [] && 0 <= left <= j <= right < |data| && Sorted(data)
    requires IsClose(data[j].epoch as real, target)
    ensures IsClose(data[SearchFrom(data, target, left, right)].epoch as real, target)
    decreases right - left + 1
  {
    var mid := (left + right) / 2;
    var epoch := data[mid].epoch as real;
    var found := SearchFrom(data, target, left, right);
    SearchStep(data, target, left, right);
    if IsClose(epoch, target) {
      assert found == mid;
    } else {
      // a one-record bracket holds the close record j, so it is still wider
      assert left < right;
      if epoch < target {
        CloseIsAfter(data, target, mid, j);
        SearchFindsClose(data, target, mid + 1, right, j);
        assert found == SearchFrom(data, target, mid + 1, right);
      } else {
        CloseIsBefore(data, target, mid, j);
        SearchFindsClose(data, target, left, mid - 1, j);
        assert found == SearchFrom(data, target, left, mid - 1);
      }
    }
  }

  lemma ClosestFindsClose(data: seq<StateVector>, target: real, j: nat)
    requires Sorted(data) && j < |data| && IsClose(data[j].epoch as real, target)
    ensures ClosestEpoch(data, target).Found?
    ensures IsClose(ClosestEpoch(data, target).record.epoch as real, target)
  {
    SearchFindsClose(data, target, 0, |data| - 1, j);
  }

  /**
   * A stored epoch equal to the target is found exactly, with delay 0, when
   * no other epoch is within isclose's tolerance of the target.
   */
  lemma ClosestFindsPresent(data: seq<StateVector>, target: real, j: nat)
    requires Sorted(data) && j < |data| && data[j].epoch as real == target
    requires forall k :: 0 <= k < |data| && IsClose(data[k].epoch as real, target) ==> data[k].epoch == data[j].epoch
    ensures ClosestEpoch(data, target).Found?
    ensures ClosestEpoch(data, target).record.epoch == data[j].epoch
    ensures ClosestEpoch(data, target).delay == 0.0
  {
    IsCloseBasics(target, target);
    ClosestFindsClose(data, target, j);
  }

  // ---------------------------------------------------------------------------
  // The exact-epoch lookup of get_state_vectors

  /** The route's 404 answer when the store holds no records. */
  datatype LookupError = NoDataFound

  /**
   * get_state_vectors(epoch): `requested` is the requested epoch in seconds,
   * None when the text is not a valid timestamp (a ValueError, answered with
   * an empty list). The record found is returned only if its epoch is close
   * to the one requested.
   */
  function StateVectorsAt(data: seq<StateVector>, requested: Option<int>, clock: real): Result<seq<StateVector>, LookupError> {
    if data == [] then Err(NoDataFound)
    else if requested.None? then Ok([])
    else
      var seconds := requested.value as real;
      var c := ClosestEpoch(data, Target(seconds, clock));
      if IsClose(c.record.epoch as real, seconds) then Ok([c.record]) else Ok([])
  }

  /** The route itself; StateVectorsAt above is its specification. */
  method GetStateVectors(data: seq<StateVector>, requested: Option<int>, clock: real)
    returns (r: Result<seq<StateVector>, LookupError>)
    ensures r == StateVectorsAt(data, requested, clock)
  {
    if |data| == 0 {
      return Err(NoDataFound);
    }
    if requested.None? {
      return Ok([]);
    }
    var seconds := requested.value as real;
    var c := GetClosestEpoch(data, seconds, clock);
    ClosestIsStored(data, Target(seconds, clock));
    if IsClose(c.record.epoch as real, seconds) {
      return Ok([c.record]);
    }
    return Ok([]);
  }

  /**
   * The lookup answers an error exactly when there is no data, and otherwise
   * either nothing or one stored record whose epoch is close to the request.
   */
  lemma StateVectorsAtShape(data: seq<StateVector>, requested: Option<int>, clock: real)
    ensures StateVectorsAt(data, requested, clock).Err? <==> data == []
    ensures var r := StateVectorsAt(data, requested, clock);
      r.Ok? ==> (r.value == [] ||
        (|r.value| == 1 && r.value[0] in data && requested.Some? && IsClose(r.value[0].epoch as real, requested.value as real)))
  {
    if data != [] && requested.Some? {
      ClosestIsStored(data, Target(requested.value as real, clock));
    }
  }

  /**
   * A requested epoch that is stored in sorted data is answered with a
   * record, unless the request is 0 seconds, which get_closest_epoch takes
   * to mean "now".
   */
  lemma StateVectorsAtPresent(data: seq<StateVector>, e: int, clock: real, j: nat)
    requires Sorted(data) && j < |data| && data[j].epoch == e && e != 0
    ensures var r := StateVectorsAt(data, Some(e), clock);
      r.Ok? && |r.value| == 1 && r.value[0] in data && IsClose(r.value[0].epoch as real, e as real)
  {
    IsCloseBasics(e as real, e as real);
    ClosestFindsClose(data, e as real, j);
    ClosestIsStored(data, e as real);
  }

  // ---------------------------------------------------------------------------
  // The search is not a nearest-epoch search

  function At(epoch: int): StateVector {
    StateVector(epoch, 0.0, 0.0, 0.0, 0.0, 0.0, 0.0)
  }

  /**
   * With epochs 10, 20, 30 and target 19 the search narrows to the first
   * record and returns epoch 10, although 20 is nearer.
   */
  lemma SearchMissesNearest()
    ensures var data := [At(10), At(20), At(30)];
      && ClosestEpoch(data, 19.0) == Found(At(10), -9.0)
      && Abs(20.0 - 19.0) < Abs(10.0 - 19.0)
  {
    var data := [At(10), At(20), At(30)];
    assert !IsClose(20.0, 19.0);
    assert SearchFrom(data, 19.0, 0, 2) == SearchFrom(data, 19.0, 0, 0);
    assert !IsClose(10.0, 19.0);
  }

  /**
   * With epochs 10, 20 and target 5 the bracket becomes (0, -1), mid is -1
   * and the search returns the LAST record, 20, the farther of the two.
   */
  lemma SearchWrapsToLast()
    ensures var data := [At(10), At(20)];
      && ClosestEpoch(data, 5.0) == Found(At(20), 15.0)
      && Abs(10.0 - 5.0) < Abs(20.0 - 5.0)
  {
    var data := [At(10), At(20)];
    assert !IsClose(10.0, 5.0);
    assert SearchFrom(data, 5.0, 0, 1) == SearchFrom(data, 5.0, 0, -1);
    assert (0 + -1) / 2 == -1;
  }

  // ---------------------------------------------------------------------------
  // A nearest-epoch search

  /** Distance from a record's epoch to the target. */
  function Distance(v: StateVector, target: real): real {
    Abs(v.epoch as real - target)
  }

  /**
   * The search the documentation describes: on sorted data, a record whose
   * epoch is nearest to the target. It finds where the target would be
   * inserted, then takes the nearer of the two neighbours.
   */
  method NearestEpoch(data: seq<StateVector>, target: real) returns (c: Closest)
    requires Sorted(data)
    ensures c.NoData? <==> data == []
    ensures c.Found? ==> c.record in data && c.delay == c.record.epoch as real - target
    ensures c.Found? ==> forall j :: 0 <= j < |data| ==> Distance(c.record, target) <= Distance(data[j], target)
  {
    if |data| == 0 {
      return NoData;
    }
    var lo, hi := 0, |data|;
    while lo < hi
      invariant 0 <= lo <= hi <= |data|
      invariant forall k :: 0 <= k < lo ==> data[k].epoch as real < target
      invariant forall k :: hi <= k < |data| ==> data[k].epoch as real >= target
      decreases hi - lo
    {
      var m := (lo + hi) / 2;
      if data[m].epoch as real < target {
        forall k | 0 <= k <= m ensures data[k].epoch as real < target {
          assert NotLater(data[k], data[m]);
        }
        lo := m + 1;
      } else {
        forall k | m <= k < |data| ensures data[k].epoch as real >= target {
          assert NotLater(data[m], data[k]);
        }
        hi := m;
      }
    }
    var i: nat;
    if lo == 0 {
      i := 0;
    } else if lo == |data| {
      i := |data| - 1;
    } else if target - data[lo - 1].epoch as real <= data[lo].epoch as real - target {
      i := lo - 1;
    } else {
      i := lo;
    }
    forall j | 0 <= j < |data| ensures Distance(data[i], target) <= Distance(data[j], target) {
      if j < lo {
        assert NotLater(data[j], data[lo - 1]);
      } else {
        assert NotLater(data[lo], data[j]);
      }
    }
    return Found(data[i], data[i].epoch as real - target);
  }
}
