/**
 * The ISS state vector record and `convert_data`, which multiplies the
 * fields named under each conversion factor of every record, in place and
 * in the order the records, the factors and the field names are listed.
 */
module StateVectors {
  import opened Base

  /**
   * One record of the ephemeris: the epoch (as seconds) and the position
   * and velocity components. Python floats are modelled as reals.
   */
  datatype StateVector = StateVector(epoch: int, x: real, y: real, z: real, xDot: real, yDot: real, zDot: real)

  /** The six numeric fields of a record. */
  datatype Field = X | Y | Z | XDot | YDot | ZDot

  /** Their names as dictionary keys, in the feed's column order. */
  const MotionFields: seq<string> := ["X", "Y", "Z", "X_Dot", "Y_Dot", "Z_Dot"]

  /** The field names load_data gives txt_to_dict. */
  const FeedKeys: seq<string> := ["epoch"] + MotionFields

  function Name(f: Field): string {
    match f
    case X => "X"
    case Y => "Y"
    case Z => "Z"
    case XDot => "X_Dot"
    case YDot => "Y_Dot"
    case ZDot => "Z_Dot"
  }

  /** The numeric field a dictionary key names, if any. */
  function FieldNamed(key: string): Option<Field> {
    if key == "X" then Some(X)
    else if key == "Y" then Some(Y)
    else if key == "Z" then Some(Z)
    else if key == "X_Dot" then Some(XDot)
    else if key == "Y_Dot" then Some(YDot)
    else if key == "Z_Dot" then Some(ZDot)
    else None
  }

  /** Names and fields correspond one to one, and the named keys are exactly MotionFields. */
  lemma FieldNames(f: Field, key: string)
    ensures FieldNamed(Name(f)) == Some(f)
    ensures FieldNamed(key).Some? ==> Name(FieldNamed(key).value) == key
    ensures FieldNamed(key).Some? <==> key in MotionFields
  {
  }

  function Get(v: StateVector, f: Field): real {
    match f
    case X => v.x
    case Y => v.y
    case Z => v.z
    case XDot => v.xDot
    case YDot => v.yDot
    case ZDot => v.zDot
  }

  /** item[field] = a: this field changes and nothing else does. */
  function Set(v: StateVector, f: Field, a: real): (w: StateVector)
    ensures w.epoch == v.epoch
  {
    StateVector(v.epoch,
      if f == X then a else v.x, if f == Y then a else v.y, if f == Z then a else v.z,
      if f == XDot then a else v.xDot, if f == YDot then a else v.yDot, if f == ZDot then a else v.zDot)
  }

  /** Set changes the field it names and nothing else. */
  lemma GetSet(v: StateVector, f: Field, a: real, g: Field)
    ensures Get(Set(v, f, a), g) == if g == f then a else Get(v, g)
  {
  }

  /** Every motion field multiplied by k; the reference for a unit change. */
  function Scale(v: StateVector, k: real): StateVector {
    StateVector(v.epoch, v.x * k, v.y * k, v.z * k, v.xDot * k, v.yDot * k, v.zDot * k)
  }

  function ScaleAll(s: seq<StateVector>, k: real): (r: seq<StateVector>)
    ensures |r| == |s|
    ensures forall i :: 0 <= i < |s| ==> r[i] == Scale(s[i], k)
  {
    seq(|s|, i requires 0 <= i < |s| => Scale(s[i], k))
  }

  lemma MulInverse(a: real, k: real)
    requires k != 0.0
    ensures a * k * (1.0 / k) == a
  {
    calc {
      a * k * (1.0 / k);
      a * (k * (1.0 / k));
      { assert k * (1.0 / k) == 1.0; }
      a;
    }
  }

  /** Scaling by k and then by 1/k gives the records back (exact on reals). */
  lemma ScaleRoundTrip(s: seq<StateVector>, k: real)
    requires k != 0.0
    ensures ScaleAll(ScaleAll(s, k), 1.0 / k) == s
  {
    var r := ScaleAll(ScaleAll(s, k), 1.0 / k);
    forall i | 0 <= i < |s|
      ensures r[i] == s[i]
    {
      var v := s[i];
      MulInverse(v.x, k);
      MulInverse(v.y, k);
      MulInverse(v.z, k);
      MulInverse(v.xDot, k);
      MulInverse(v.yDot, k);
      MulInverse(v.zDot, k);
    }
  }

  // ---------------------------------------------------------------------------
  // convert_data

  /**
   * Why multiplying a named field fails: the epoch is ISO text, so float()
   * raises ValueError; any other name is absent (KeyError).
   */
  datatype ConvertError = NotNumeric(key: string) | MissingKey(key: string)

  /** One entry of the convert map: a factor and the names it applies to. */
  datatype Entry = Entry(factor: real, keys: seq<string>)

  /** The convert map in its dict's iteration order. */
  type ConvertMap = seq<Entry>

  /** One multiplication the inner loop performs. */
  datatype Step = Step(factor: real, key: string)

  /** One record after its steps: the record and the error that stopped them, if any. */
  datatype Outcome = Outcome(record: StateVector, failure: Option<ConvertError>)

  /** All records after convert_data: the list and the error raised, if any. */
  datatype Conversion = Conversion(records: seq<StateVector>, failure: Option<ConvertError>)

  function KeyFailure(key: string): ConvertError {
    if key == "epoch" then NotNumeric(key) else MissingKey(key)
  }

  /** A field's value times the factor, on reals rather than floats. */
  function Mul(a: real, b: real): real {
    a * b
  }

  /** The steps for one factor: each listed name, in order. */
  function Pairs(factor: real, keys: seq<string>): (r: seq<Step>)
    ensures |r| == |keys|
    ensures forall i :: 0 <= i < |keys| ==> r[i] == Step(factor, keys[i])
  {
    seq(|keys|, i requires 0 <= i < |keys| => Step(factor, keys[i]))
  }

  lemma PairsTail(factor: real, keys: seq<string>, k: nat, after: seq<Step>)
    requires k < |keys|
    ensures Pairs(factor, keys[k..]) + after == [Step(factor, keys[k])] + (Pairs(factor, keys[k+1..]) + after)
  {
    assert Pairs(factor, keys[k..]) == [Step(factor, keys[k])] + Pairs(factor, keys[k+1..]);
  }

  /** All the steps for one record, factor by factor. */
  function Steps(cmap: ConvertMap): seq<Step> {
    if cmap == [] then [] else Pairs(cmap[0].factor, cmap[0].keys) + Steps(cmap[1..])
  }

  /**
   * The steps applied to one record until the first one that raises; the
   * fields already multiplied stay multiplied.
   */
  function ApplySteps(v: StateVector, steps: seq<Step>): (r: Outcome)
    ensures r.record.epoch == v.epoch
    decreases |steps|
  {
    if steps == [] then Outcome(v, None)
    else
      var field := FieldNamed(steps[0].key);
      if field.None? then Outcome(v, Some(KeyFailure(steps[0].key)))
      else ApplySteps(Set(v, field.value, Mul(Get(v, field.value), steps[0].factor)), steps[1..])
  }

  function Cons(v: StateVector, r: Conversion): Conversion {
    Conversion([v] + r.records, r.failure)
  }

  /**
   * convert_data on the records s: each record in turn; after a failure the
   * exception leaves the later records as they were.
   */
  function ConvertRecords(s: seq<StateVector>, cmap: ConvertMap): (r: Conversion)
    ensures |r.records| == |s|
  {
    if s == [] then Conversion([], None)
    else
      var o := ApplySteps(s[0], Steps(cmap));
      if o.failure.Some? then Conversion([o.record] + s[1..], o.failure)
      else Cons(o.record, ConvertRecords(s[1..], cmap))
  }

  function Prefixed(done: seq<StateVector>, c: Conversion): Conversion {
    Conversion(done + c.records, c.failure)
  }

  /**
   * The outer-loop invariant of convert_data: `cur` is the list after the
   * first `i` records have been converted, and converting the rest of the
   * original list finishes the job.
   */
  ghost predicate Converting(s0: seq<StateVector>, cur: seq<StateVector>, i: nat, cmap: ConvertMap)
  {
    |cur| == |s0| && i <= |s0| && cur[i..] == s0[i..]
    && ConvertRecords(s0, cmap) == Prefixed(cur[..i], ConvertRecords(s0[i..], cmap))
  }

  lemma ConvertStarts(s0: seq<StateVector>, cmap: ConvertMap)
    ensures Converting(s0, s0, 0, cmap)
  {
    assert s0[0..] == s0 && s0[..0] == [];
  }

  /** One outer-loop step of convert_data on a record that converts cleanly. */
  lemma ConvertContinues(s0: seq<StateVector>, cur: seq<StateVector>, i: nat, cmap: ConvertMap, o: Outcome)
    requires Converting(s0, cur, i, cmap) && i < |s0|
    requires o == ApplySteps(cur[i], Steps(cmap)) && o.failure.None?
    ensures Converting(s0, cur[i := o.record], i + 1, cmap)
  {
    var s := s0[i..];
    assert s[0] == cur[i];
    assert s[1..] == s0[i+1..];
    var next := cur[i := o.record];
    assert next[..i+1] == cur[..i] + [o.record];
    assert next[i+1..] == cur[i+1..];
    assert cur[i+1..] == cur[i..][1..];
  }

  /** The last outer-loop step of a failing convert_data: record i raises, the rest stay. */
  lemma ConvertStops(s0: seq<StateVector>, cur: seq<StateVector>, i: nat, cmap: ConvertMap, o: Outcome)
    requires Converting(s0, cur, i, cmap) && i < |s0|
    requires o == ApplySteps(cur[i], Steps(cmap)) && o.failure.Some?
    ensures ConvertRecords(s0, cmap) == Conversion(cur[i := o.record], o.failure)
  {
    var s := s0[i..];
    assert s[0] == cur[i];
    assert s[1..] == s0[i+1..];
    assert cur[i := o.record] == cur[..i] + [o.record] + s0[i+1..];
  }

  /** A finished outer loop: every record converted. */
  lemma ConvertEnds(s0: seq<StateVector>, cur: seq<StateVector>, cmap: ConvertMap)
    requires Converting(s0, cur, |s0|, cmap)
    ensures ConvertRecords(s0, cmap) == Conversion(cur, None)
  {
    assert s0[|s0|..] == [];
    assert cur[..|s0|] == cur;
  }

  /**
   * The two inner loops of convert_data on one record: every factor, every
   * name listed under it, until a name cannot be converted.
   */
  method ConvertItem(item: StateVector, cmap: ConvertMap) returns (o: Outcome)
    ensures o == ApplySteps(item, Steps(cmap))
  {
    var v := item;
    assert cmap[0..] == cmap;
    for j := 0 to |cmap|
      invariant ApplySteps(item, Steps(cmap)) == ApplySteps(v, Steps(cmap[j..]))
    {
      var factor, keys := cmap[j].factor, cmap[j].keys;
      assert cmap[j..][1..] == cmap[j+1..];
      assert Steps(cmap[j..]) == Pairs(factor, keys) + Steps(cmap[j+1..]);
      assert keys[0..] == keys;
      for k := 0 to |keys|
        invariant ApplySteps(item, Steps(cmap)) == ApplySteps(v, Pairs(factor, keys[k..]) + Steps(cmap[j+1..]))
      {
        var key := keys[k];
        PairsTail(factor, keys, k, Steps(cmap[j+1..]));
        var field := FieldNamed(key);
        if field.None? {
          return Outcome(v, Some(KeyFailure(key)));
        }
        ApplyStepsCons(v, Pairs(factor, keys[k..]) + Steps(cmap[j+1..]), field.value);
        v := Set(v, field.value, Mul(Get(v, field.value), factor));
      }
      assert Pairs(factor, keys[|keys|..]) + Steps(cmap[j+1..]) == Steps(cmap[j+1..]);
    }
    assert cmap[|cmap|..] == [];
    return Outcome(v, None);
  }

  /**
   * The in-place conversion: each record in turn, stopping at the first
   * failure with the records converted so far left converted and the
   * failing one converted up to the failing name.
   */
  method ConvertData(items: array<StateVector>, cmap: ConvertMap) returns (failure: Option<ConvertError>)
    modifies items
    ensures Conversion(items[..], failure) == ConvertRecords(old(items[..]), cmap)
  {
    ghost var s0 := items[..];
    ConvertStarts(s0, cmap);
    for i := 0 to items.Length
      invariant Converting(s0, items[..], i, cmap)
    {
      ghost var cur := items[..];
      var o := ConvertItem(items[i], cmap);
      items[i] := o.record;
      assert items[..] == cur[i := o.record];
      if o.failure.Some? {
        ConvertStops(s0, cur, i, cmap, o);
        return o.failure;
      }
      ConvertContinues(s0, cur, i, cmap, o);
    }
    ConvertEnds(s0, items[..], cmap);
    return None;
  }

  // ---------------------------------------------------------------------------
  // What a conversion does to a record

  predicate AllMotion(steps: seq<Step>) {
    forall i :: 0 <= i < |steps| ==> FieldNamed(steps[i].key).Some?
  }

  lemma AllMotionTail(steps: seq<Step>)
    requires steps != []
    ensures AllMotion(steps) <==> FieldNamed(steps[0].key).Some? && AllMotion(steps[1..])
  {
    if FieldNamed(steps[0].key).Some? && AllMotion(steps[1..]) {
      forall i | 0 <= i < |steps| ensures FieldNamed(steps[i].key).Some? {
        if i > 0 { assert steps[i] == steps[1..][i - 1]; }
      }
    }
    if AllMotion(steps) {
      forall i | 0 <= i < |steps[1..]| ensures FieldNamed(steps[1..][i].key).Some? {
        assert steps[1..][i] == steps[i + 1];
      }
    }
  }

  /** A record converts without error exactly when every listed name is a motion field. */
  lemma {:induction false} ApplyStepsOk(v: StateVector, steps: seq<Step>)
    ensures ApplySteps(v, steps).failure.None? <==> AllMotion(steps)
    decreases |steps|
  {
    if steps != [] {
      AllMotionTail(steps);
      match FieldNamed(steps[0].key) {
        case None =>
        case Some(f) =>
          ApplyStepsCons(v, steps, f);
          ApplyStepsOk(Set(v, f, Mul(Get(v, f), steps[0].factor)), steps[1..]);
      }
    }
  }

  lemma ApplyStepsCons(v: StateVector, steps: seq<Step>, f: Field)
    requires steps != [] && FieldNamed(steps[0].key) == Some(f)
    ensures ApplySteps(v, steps) == ApplySteps(Set(v, f, Mul(Get(v, f), steps[0].factor)), steps[1..])
  {
  }

  /**
   * x after the steps that name field f, multiplied by their factors in
   * order (a field listed under two factors is multiplied by both).
   */
  function Scaled(x: real, steps: seq<Step>, f: Field): real
    decreases |steps|
  {
    if steps == [] then x
    else Scaled(if FieldNamed(steps[0].key) == Some(f) then Mul(x, steps[0].factor) else x, steps[1..], f)
  }

  /** A field no step names keeps its value. */
  lemma {:induction false} ScaledUnnamed(x: real, steps: seq<Step>, f: Field)
    requires forall i :: 0 <= i < |steps| ==> FieldNamed(steps[i].key) != Some(f)
    ensures Scaled(x, steps, f) == x
    decreases |steps|
  {
    if steps != [] {
      assert FieldNamed(steps[0].key) != Some(f);
      forall i | 0 <= i < |steps[1..]| ensures FieldNamed(steps[1..][i].key) != Some(f) {
        assert steps[1..][i] == steps[i + 1];
      }
      ScaledUnnamed(x, steps[1..], f);
    }
  }

  lemma {:induction false} ApplyStepsScales(v: StateVector, steps: seq<Step>, f: Field)
    requires AllMotion(steps)
    ensures ApplySteps(v, steps).record.epoch == v.epoch
    ensures Get(ApplySteps(v, steps).record, f) == Scaled(Get(v, f), steps, f)
    decreases |steps|
  {
    if steps != [] {
      AllMotionTail(steps);
      var g := FieldNamed(steps[0].key).value;
      var u := Set(v, g, Mul(Get(v, g), steps[0].factor));
      ApplyStepsCons(v, steps, g);
      ApplyStepsScales(u, steps[1..], f);
      GetSet(v, g, Mul(Get(v, g), steps[0].factor), f);
    }
  }

  /**
   * A failing record reports the first name that is not a motion field, and
   * keeps the multiplications done before it (no rollback).
   */
  lemma {:induction false} ApplyStepsFailure(v: StateVector, steps: seq<Step>, i: nat)
    requires i < |steps| && FieldNamed(steps[i].key).None?
    requires forall l :: 0 <= l < i ==> FieldNamed(steps[l].key).Some?
    ensures ApplySteps(v, steps) == Outcome(ApplySteps(v, steps[..i]).record, Some(KeyFailure(steps[i].key)))
    decreases i
  {
    if i == 0 {
      assert steps[..0] == [];
    } else {
      assert FieldNamed(steps[0].key).Some?;
      var g := FieldNamed(steps[0].key).value;
      var u := Set(v, g, Mul(Get(v, g), steps[0].factor));
      ApplyStepsCons(v, steps, g);
      assert steps[..i][0] == steps[0];
      ApplyStepsCons(v, steps[..i], g);
      forall l | 0 <= l < i - 1 ensures FieldNamed(steps[1..][l].key).Some? {
        assert steps[1..][l] == steps[l + 1];
      }
      assert steps[1..][i - 1] == steps[i];
      ApplyStepsFailure(u, steps[1..], i - 1);
      assert steps[..i][0] == steps[0];
      assert steps[..i][1..] == steps[1..][..i - 1];
    }
  }

  /** Whether a record fails depends only on the names, not on its values. */
  lemma {:induction false} FailureUniform(v: StateVector, u: StateVector, steps: seq<Step>)
    ensures ApplySteps(v, steps).failure == ApplySteps(u, steps).failure
    decreases |steps|
  {
    if steps != [] {
      match FieldNamed(steps[0].key) {
        case None =>
        case Some(f) =>
          ApplyStepsCons(v, steps, f);
          ApplyStepsCons(u, steps, f);
          FailureUniform(Set(v, f, Mul(Get(v, f), steps[0].factor)), Set(u, f, Mul(Get(u, f), steps[0].factor)), steps[1..]);
      }
    }
  }

  /**
   * convert_data succeeds on every record or fails on the first one (all
   * records have the same fields); on success each record is converted,
   * on failure only the first is touched, partially.
   */
  lemma {:induction false} ConvertRecordsOutcome(s: seq<StateVector>, cmap: ConvertMap)
    requires s != []
    ensures var c := ConvertRecords(s, cmap);
      var o := ApplySteps(s[0], Steps(cmap));
      c.failure == o.failure &&
      (c.failure.None? ==> forall i :: 0 <= i < |s| ==> c.records[i] == ApplySteps(s[i], Steps(cmap)).record) &&
      (c.failure.Some? ==> c.records == [o.record] + s[1..])
    decreases |s|
  {
    var o := ApplySteps(s[0], Steps(cmap));
    if o.failure.None? && |s| > 1 {
      ConvertRecordsOutcome(s[1..], cmap);
      FailureUniform(s[0], s[1], Steps(cmap));
      var r := ConvertRecords(s, cmap).records;
      forall i | 0 <= i < |s| ensures r[i] == ApplySteps(s[i], Steps(cmap)).record {
        if i > 0 { assert s[i] == s[1..][i - 1]; }
      }
    }
  }

  /** The steps of the store's conversion map: each motion field once, by k. */
  lemma MotionSteps(k: real)
    ensures Steps([Entry(k, MotionFields)]) == Pairs(k, MotionFields)
  {
    assert [Entry(k, MotionFields)][1..] == [];
  }

  lemma MotionStepsNamed(k: real)
    ensures AllMotion(Pairs(k, MotionFields))
  {
    var steps := Pairs(k, MotionFields);
    forall i | 0 <= i < |steps| ensures FieldNamed(steps[i].key).Some? {
      FieldNames(X, steps[i].key);
    }
  }

  /** Each motion field is named exactly once in the store's steps, so it is multiplied by k once. */
  lemma {:induction false} MotionScaled(x: real, k: real, f: Field)
    ensures Scaled(x, Pairs(k, MotionFields), f) == x * k
  {
    var steps := Pairs(k, MotionFields);
    var i := match f case X => 0 case Y => 1 case Z => 2 case XDot => 3 case YDot => 4 case ZDot => 5;
    assert FieldNamed(steps[i].key) == Some(f);
    forall l | 0 <= l < |steps| && l != i ensures FieldNamed(steps[l].key) != Some(f) {
      FieldNames(f, steps[l].key);
    }
    ScaledPrefix(x, steps, f, i);
    var tail := steps[i+1..];
    forall l | 0 <= l < |tail| ensures FieldNamed(tail[l].key) != Some(f) {
      assert tail[l] == steps[i + 1 + l];
    }
    ScaledUnnamed(Mul(x, k), tail, f);
  }

  /** When step i is the first to name f, the value before it is untouched. */
  lemma {:induction false} ScaledPrefix(x: real, steps: seq<Step>, f: Field, i: nat)
    requires i < |steps| && FieldNamed(steps[i].key) == Some(f)
    requires forall l :: 0 <= l < i ==> FieldNamed(steps[l].key) != Some(f)
    ensures Scaled(x, steps, f) == Scaled(Mul(x, steps[i].factor), steps[i+1..], f)
    decreases i
  {
    if i > 0 {
      forall l | 0 <= l < i - 1 ensures FieldNamed(steps[1..][l].key) != Some(f) {
        assert steps[1..][l] == steps[l + 1];
      }
      assert steps[1..][i - 1] == steps[i];
      assert steps[1..][i..] == steps[i+1..];
      ScaledPrefix(x, steps[1..], f, i - 1);
    }
  }

  lemma ScaleField(v: StateVector, k: real, f: Field)
    ensures Get(ApplySteps(v, Pairs(k, MotionFields)).record, f) == Get(v, f) * k
  {
    MotionStepsNamed(k);
    ApplyStepsScales(v, Pairs(k, MotionFields), f);
    MotionScaled(Get(v, f), k, f);
  }

  lemma {:induction false} ScaleStep(v: StateVector, k: real)
    ensures ApplySteps(v, Steps([Entry(k, MotionFields)])) == Outcome(Scale(v, k), None)
  {
    MotionSteps(k);
    var steps := Pairs(k, MotionFields);
    MotionStepsNamed(k);
    ApplyStepsOk(v, steps);
    ApplyStepsScales(v, steps, X);
    var w := ApplySteps(v, steps).record;
    ScaleField(v, k, X);
    ScaleField(v, k, Y);
    ScaleField(v, k, Z);
    ScaleField(v, k, XDot);
    ScaleField(v, k, YDot);
    ScaleField(v, k, ZDot);
    assert w == StateVector(w.epoch, Get(w, X), Get(w, Y), Get(w, Z), Get(w, XDot), Get(w, YDot), Get(w, ZDot));
  }

  /**
   * The store's conversion map {k: [the six motion fields]} never fails and
   * scales every record by k.
   */
  lemma {:induction false} ConvertMotion(s: seq<StateVector>, k: real)
    ensures ConvertRecords(s, [Entry(k, MotionFields)]) == Conversion(ScaleAll(s, k), None)
    decreases |s|
  {
    if s != [] {
      ScaleStep(s[0], k);
      ConvertMotion(s[1..], k);
      assert ScaleAll(s, k) == [Scale(s[0], k)] + ScaleAll(s[1..], k);
    }
  }
}
