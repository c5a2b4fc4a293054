/**
 * The tracker's in-memory store, the global `data = {"data": [...], "units": ...}`,
 * and the three routes that change it: PUT /convert, DELETE /delete-data and
 * POST /post-data.
 */
module Tracker {
  import opened Base
  import opened StateVectors
  import opened Loader

  /** KM_TO_M: miles per kilometre. */
  const KmToMiles: real := 0.6213711922

  /** What a store route answers: a success message or an error payload with code 404. */
  datatype Reply =
    | AlreadyIn(units: string)   // the data is already in the requested units
    | Converted(units: string)   // the data has been converted
    | MissingUnits               // no "units" query parameter
    | UnsupportedUnits           // units other than "SI" and "USCS"
    | Deleted
    | Restored
    | ReloadFailed               // post_data's except branch

  /** A new list holding the records s. */
  method NewList(s: seq<StateVector>) returns (a: array<StateVector>)
    ensures fresh(a) && a[..] == s
  {
    a := new StateVector[|s|](i requires 0 <= i < |s| => s[i]);
  }

  class Store {
    /** data["data"]: the state vectors, converted in place by PUT /convert. */
    var records: array<StateVector>
    /** data["units"]: "SI" after loading, "USCS" after converting, "" after deleting. */
    var units: string
    /** The records as loaded, in SI units (kilometres, kilometres per second). */
    ghost var baseline: seq<StateVector>

    /**
     * The records are always the loaded ones expressed in the current units,
     * and a store without units holds no records.
     */
    ghost predicate Valid()
      reads this, records
    {
      && (units == "" || units == "SI" || units == "USCS")
      && (units == "" ==> records.Length == 0 && baseline == [])
      && (units == "SI" ==> records[..] == baseline)
      && (units == "USCS" ==> records[..] == ScaleAll(baseline, KmToMiles))
    }

    /** The store at start-up: the loaded records, in SI units. */
    constructor(loaded: seq<StateVector>)
      ensures Valid()
      ensures units == "SI" && records[..] == loaded && baseline == loaded
      ensures fresh(records)
    {
      var a := NewList(loaded);
      records := a;
      units := "SI";
      baseline := loaded;
    }

    /**
     * PUT /convert?units=desired: the units already held are refused with a
     * message, "SI" and "USCS" scale the six motion fields of every record in
     * place, and anything else is an error that changes nothing.
     */
    method ConvertIssData(desired: string) returns (reply: Reply)
      requires Valid()
      modifies this, records
      ensures Valid()
      ensures records == old(records) && baseline == old(baseline)
      ensures desired == old(units) ==>
        reply == AlreadyIn(desired) && units == old(units) && records[..] == old(records[..])
      ensures desired != old(units) && desired == "SI" ==>
        reply == Converted("SI") && units == "SI" && records[..] == ScaleAll(old(records[..]), 1.0 / KmToMiles)
      ensures desired != old(units) && desired == "USCS" ==>
        reply == Converted("USCS") && units == "USCS" && records[..] == ScaleAll(old(records[..]), KmToMiles)
      ensures desired != old(units) && desired == "" ==>
        reply == MissingUnits && units == old(units) && records[..] == old(records[..])
      ensures desired != old(units) && desired != "SI" && desired != "USCS" && desired != "" ==>
        reply == UnsupportedUnits && units == old(units) && records[..] == old(records[..])
    {
      if desired == units {
        return AlreadyIn(desired);
      } else if desired == "SI" {
        ghost var before := records[..];
        var failure := ConvertData(records, [Entry(1.0 / KmToMiles, MotionFields)]);
        ConvertMotion(before, 1.0 / KmToMiles);
        if units == "USCS" {
          ScaleRoundTrip(baseline, KmToMiles);
        }
        units := "SI";
        return Converted("SI");
      } else if desired == "USCS" {
        ghost var before := records[..];
        var failure := ConvertData(records, [Entry(KmToMiles, MotionFields)]);
        ConvertMotion(before, KmToMiles);
        units := "USCS";
        return Converted("USCS");
      } else if desired == "" {
        return MissingUnits;
      } else {
        return UnsupportedUnits;
      }
    }

    /** DELETE /delete-data: the units are cleared and so is the list. */
    method DeleteData() returns (reply: Reply)
      modifies this
      ensures Valid()
      ensures reply == Deleted && units == "" && records.Length == 0 && baseline == []
    {
      units := "";
      records := new StateVector[0];
      baseline := [];
      return Deleted;
    }

    /**
     * POST /post-data: the feed is downloaded and loaded again, and the store
     * becomes that data in SI units. `feed` is the downloaded text, or None
     * when the request raised; when either step raises, the store is left as
     * it was.
     */
    method PostData(feed: Option<string>, num: Numbers) returns (reply: Reply)
      requires Valid()
      modifies this
      ensures Valid()
      ensures feed.Some? && LoadFeed(feed.value, num).Ok? ==>
        && reply == Restored && units == "SI" && fresh(records)
        && records[..] == LoadFeed(feed.value, num).value && baseline == records[..]
      ensures feed.None? || LoadFeed(feed.value, num).Err? ==>
        reply == ReloadFailed && units == old(units) && records == old(records)
        && records[..] == old(records[..]) && baseline == old(baseline)
    {
      if feed.None? {
        return ReloadFailed;
      }
      var loaded := LoadData(feed.value, num);
      if loaded.Err? {
        return ReloadFailed;
      }
      records := NewList(loaded.value);
      units := "SI";
      baseline := loaded.value;
      return Restored;
    }
  }

  /** Converting to USCS and back to SI gives the loaded records again. */
  lemma UnitsRoundTrip(s: seq<StateVector>)
    ensures ScaleAll(ScaleAll(s, KmToMiles), 1.0 / KmToMiles) == s
  {
    ScaleRoundTrip(s, KmToMiles);
  }
}
