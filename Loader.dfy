/**
 * load_data: the ephemeris text is cut into rows by txt_to_dict, and each
 * row's six position and velocity fields are read as numbers. The download
 * itself is not modelled: the feed's text is a parameter.
 */
module Loader {
  import opened Base
  import opened PyStrings
  import opened FeedParser
  import opened StateVectors

  const LineSep: string := "\r\n"
  const FieldSep: string := " "
  /** The feed line after which the state vectors begin. */
  const StartMarker: string := "COMMENT End sequence of events"

  datatype LoadError =
    | Parse(cause: ParseError)              // raised by txt_to_dict
    | BadNumber(key: string, text: string)  // float() refuses a field: ValueError
    | MissingField(key: string)             // item[key] on a row without the key: KeyError

  /**
   * The conversions the Python code borrows from its runtime: `float()` on a
   * field's text, and the epoch text's conversion to seconds since the Unix
   * epoch (strptime and mktime, which get_closest_epoch applies).
   */
  datatype Numbers = Numbers(toFloat: string -> Option<real>, toSeconds: string -> int)

  /** A row txt_to_dict built with the feed's keys holds every one of them. */
  predicate Filled(row: Row) {
    "epoch" in row && forall f :: Name(f) in row
  }

  /** The feed column a field is read from. */
  function Column(f: Field): (i: nat)
    ensures 1 <= i < |FeedKeys| && FeedKeys[i] == Name(f)
  {
    match f
    case X => 1
    case Y => 2
    case Z => 3
    case XDot => 4
    case YDot => 5
    case ZDot => 6
  }

  /** Every key of the feed but "epoch" names a field, in column order. */
  lemma FieldColumns(k: nat)
    requires 1 <= k < |FeedKeys|
    ensures FeedKeys[k] != "epoch"
    ensures FieldNamed(FeedKeys[k]).Some? && Column(FieldNamed(FeedKeys[k]).value) == k
  {
  }

  /** A record before its fields are read. */
  const Blank: StateVector := StateVector(0, 0.0, 0.0, 0.0, 0.0, 0.0, 0.0)

  /**
   * The inner loop of load_data from key k on: every key but "epoch" is read
   * with float() and stored, until one of them cannot be read. The epoch's
   * text is turned into seconds here rather than at each search.
   */
  function Fill(v: StateVector, row: Row, k: nat, num: Numbers): (r: Result<StateVector, LoadError>)
    requires k <= |FeedKeys|
    ensures r.Err? ==> r.error.MissingField? || r.error.BadNumber?
    ensures r.Ok? && 0 < k ==> r.value.epoch == v.epoch
    decreases |FeedKeys| - k
  {
    if k == |FeedKeys| then Ok(v)
    else
      var key := FeedKeys[k];
      if key !in row then Err(MissingField(key))
      else if key == "epoch" then Fill(v.(epoch := num.toSeconds(row[key])), row, k + 1, num)
      else
        FieldColumns(k);
        match num.toFloat(row[key])
        case None => Err(BadNumber(key, row[key]))
        case Some(a) => Fill(Set(v, FieldNamed(key).value, a), row, k + 1, num)
  }

  /** With every key present, the record fails only when a number cannot be read. */
  lemma FillError(v: StateVector, row: Row, k: nat, num: Numbers)
    requires Filled(row) && k <= |FeedKeys|
    ensures Fill(v, row, k, num).Err? ==> Fill(v, row, k, num).error.BadNumber?
    decreases |FeedKeys| - k
  {
    if k < |FeedKeys| {
      if k > 0 {
        FieldColumns(k);
      }
      var key := FeedKeys[k];
      if key == "epoch" {
        FillError(v.(epoch := num.toSeconds(row[key])), row, k + 1, num);
      } else if num.toFloat(row[key]).Some? {
        FillError(Set(v, FieldNamed(key).value, num.toFloat(row[key]).value), row, k + 1, num);
      }
    }
  }

  /** One loaded record. */
  function VectorOf(row: Row, num: Numbers): (r: Result<StateVector, LoadError>)
    ensures r.Err? ==> r.error.MissingField? || r.error.BadNumber?
  {
    Fill(Blank, row, 0, num)
  }

  /** Every field read from column k on can be read as a number. */
  predicate ReadableFrom(row: Row, k: nat, num: Numbers)
    requires Filled(row)
  {
    forall f :: k <= Column(f) ==> num.toFloat(row[Name(f)]).Some?
  }

  /**
   * Fill from key k succeeds exactly when every field of a later column is
   * readable; then those fields hold their numbers and the others, and the
   * epoch, are left as they were.
   */
  lemma {:induction false} FillFields(v: StateVector, row: Row, k: nat, num: Numbers)
    requires Filled(row) && k <= |FeedKeys|
    ensures Fill(v, row, k, num).Ok? <==> ReadableFrom(row, k, num)
    ensures Fill(v, row, k, num).Ok? ==>
      && Fill(v, row, k, num).value.epoch == (if k == 0 then num.toSeconds(row["epoch"]) else v.epoch)
      && forall f :: Get(Fill(v, row, k, num).value, f) ==
           if k <= Column(f) then num.toFloat(row[Name(f)]).value else Get(v, f)
    decreases |FeedKeys| - k
  {
    if k == 0 {
      FillFields(v.(epoch := num.toSeconds(row["epoch"])), row, 1, num);
    } else if k < |FeedKeys| {
      FieldColumns(k);
      var key := FeedKeys[k];
      var g := FieldNamed(key).value;
      match num.toFloat(row[key])
      case None =>
        assert Column(g) == k && Name(g) == key;
        assert !ReadableFrom(row, k, num);
      case Some(a) =>
        var w := Set(v, g, a);
        FillFields(w, row, k + 1, num);
        assert Name(g) == key;
        assert ReadableFrom(row, k, num) <==> ReadableFrom(row, k + 1, num);
        forall f ensures Get(w, f) == if f == g then a else Get(v, f) {
          GetSet(v, g, a, f);
        }
    }
  }

  /**
   * When the field of column j is the first that cannot be read, Fill raises
   * for it.
   */
  lemma {:induction false} FillFails(v: StateVector, row: Row, k: nat, num: Numbers, g: Field)
    requires Filled(row) && k <= Column(g)
    requires num.toFloat(row[Name(g)]).None?
    requires forall f :: k <= Column(f) < Column(g) ==> num.toFloat(row[Name(f)]).Some?
    ensures Fill(v, row, k, num) == Err(BadNumber(Name(g), row[Name(g)]))
    decreases |FeedKeys| - k
  {
    if k == 0 {
      FillFails(v.(epoch := num.toSeconds(row["epoch"])), row, 1, num, g);
    } else {
      FieldColumns(k);
      var key := FeedKeys[k];
      var h := FieldNamed(key).value;
      if k < Column(g) {
        assert Column(h) == k && Name(h) == key;
        FillFails(Set(v, h, num.toFloat(row[key]).value), row, k + 1, num, g);
      } else {
        assert h == g by { FieldNames(g, key); }
      }
    }
  }

  /** A record loads exactly when its six fields are numbers, and then holds them. */
  lemma VectorOfFields(row: Row, num: Numbers)
    requires Filled(row)
    ensures VectorOf(row, num).Ok? <==> forall f :: num.toFloat(row[Name(f)]).Some?
    ensures VectorOf(row, num).Ok? ==>
      && VectorOf(row, num).value.epoch == num.toSeconds(row["epoch"])
      && forall f :: Get(VectorOf(row, num).value, f) == num.toFloat(row[Name(f)]).value
  {
    FillFields(Blank, row, 0, num);
  }

  /** The loaded records, or the error of the first row that does not load. */
  function LoadRows(rows: seq<Row>, num: Numbers): (r: Result<seq<StateVector>, LoadError>)
    ensures r.Ok? ==> |r.value| == |rows|
    ensures r.Ok? ==> forall j :: 0 <= j < |rows| ==> VectorOf(rows[j], num) == Ok(r.value[j])
    decreases |rows|
  {
    if rows == [] then Ok([])
    else
      match VectorOf(rows[0], num)
      case Err(e) => Err(e)
      case Ok(v) =>
        match LoadRows(rows[1..], num)
        case Err(e) => Err(e)
        case Ok(vs) =>
          assert forall j :: 1 <= j < |rows| ==> rows[j] == rows[1..][j - 1];
          Ok([v] + vs)
  }

  /** Rows holding every key fail to load only on a number. */
  lemma {:induction false} LoadRowsError(rows: seq<Row>, num: Numbers)
    requires forall j :: 0 <= j < |rows| ==> Filled(rows[j])
    ensures LoadRows(rows, num).Err? ==> LoadRows(rows, num).error.BadNumber?
    decreases |rows|
  {
    if rows != [] {
      FillError(Blank, rows[0], 0, num);
      if VectorOf(rows[0], num).Ok? {
        assert forall j :: 0 <= j < |rows| - 1 ==> rows[1..][j] == rows[j + 1];
        LoadRowsError(rows[1..], num);
      }
    }
  }

  /** The rows txt_to_dict gives for the feed, when it gives any. */
  function FeedRows(feed: string): Result<seq<Row>, ParseError> {
    RowsOf(Body(Split(feed, LineSep), StartMarker), FeedKeys, FieldSep)
  }

  /** A row that maps exactly the feed's keys holds every one of them. */
  lemma KeysFilled(row: Row)
    requires forall k :: k in row <==> k in FeedKeys
    ensures Filled(row)
  {
    assert FeedKeys[0] == "epoch";
    forall f ensures Name(f) in row {
      assert FeedKeys[Column(f)] == Name(f);
    }
  }

  /** Rows built with the feed's keys hold every key. */
  lemma FeedRowsFilled(feed: string)
    ensures FeedRows(feed).Ok? ==> forall j :: 0 <= j < |FeedRows(feed).value| ==> Filled(FeedRows(feed).value[j])
  {
    var body := Body(Split(feed, LineSep), StartMarker);
    var r := RowsOf(body, FeedKeys, FieldSep);
    if r.Ok? {
      forall j | 0 <= j < |r.value| ensures Filled(r.value[j]) {
        KeysFilled(ZipKeys(FeedKeys, Split(body[j], FieldSep)));
      }
    }
  }

  /** load_data on the feed's text: parse errors first, then number errors. */
  function LoadFeed(feed: string, num: Numbers): (r: Result<seq<StateVector>, LoadError>)
    ensures FeedRows(feed).Err? ==> r == Err(Parse(FeedRows(feed).error))
    ensures r.Ok? ==> FeedRows(feed).Ok? && |r.value| == |FeedRows(feed).value|
  {
    match FeedRows(feed)
    case Err(e) => Err(Parse(e))
    case Ok(rows) => LoadRows(rows, num)
  }

  /** Records built so far, followed by the outcome for the remaining rows. */
  function Joined(done: seq<StateVector>, r: Result<seq<StateVector>, LoadError>): Result<seq<StateVector>, LoadError> {
    match r
    case Ok(vs) => Ok(done + vs)
    case Err(e) => Err(e)
  }

  /** One step of the outer loop of load_data. */
  lemma LoadRowsCons(done: seq<StateVector>, rows: seq<Row>, i: nat, num: Numbers)
    requires i < |rows|
    ensures VectorOf(rows[i], num).Err? ==>
      Joined(done, LoadRows(rows[i..], num)) == Err(VectorOf(rows[i], num).error)
    ensures VectorOf(rows[i], num).Ok? ==>
      Joined(done, LoadRows(rows[i..], num)) ==
        Joined(done + [VectorOf(rows[i], num).value], LoadRows(rows[i + 1..], num))
  {
    TailFrom(rows, i);
    if VectorOf(rows[i], num).Ok? {
      match LoadRows(rows[i + 1..], num)
      case Ok(vs) => AppendAssoc(done, [VectorOf(rows[i], num).value], vs);
      case Err(_) =>
    }
  }

  /** The inner loop of load_data on one row. */
  method ReadRecord(row: Row, num: Numbers) returns (r: Result<StateVector, LoadError>)
    ensures r == VectorOf(row, num)
  {
    var v := Blank;
    for k := 0 to |FeedKeys|
      invariant VectorOf(row, num) == Fill(v, row, k, num)
    {
      var key := FeedKeys[k];
      if key !in row {
        return Err(MissingField(key));
      } else if key == "epoch" {
        v := v.(epoch := num.toSeconds(row[key]));
      } else {
        FieldColumns(k);
        var a := num.toFloat(row[key]);
        if a.None? {
          return Err(BadNumber(key, row[key]));
        }
        v := Set(v, FieldNamed(key).value, a.value);
      }
    }
    return Ok(v);
  }

  // ---------------------------------------------------------------------------
  // What load_data reads from the feed

  /** The body lines txt_to_dict turns into rows. */
  function FeedBody(feed: string): seq<string> {
    Body(Split(feed, LineSep), StartMarker)
  }

  /** The fields of a feed line that loads: seven or more, the six after the epoch numbers. */
  predicate Loadable(cols: seq<string>, num: Numbers) {
    |FeedKeys| <= |cols| && forall f :: num.toFloat(cols[Column(f)]).Some?
  }

  /** The record a loadable line stands for, read column by column. */
  function LineRecord(cols: seq<string>, num: Numbers): (v: StateVector)
    requires Loadable(cols, num)
    ensures v.epoch == num.toSeconds(cols[0])
    ensures forall f :: Get(v, f) == num.toFloat(cols[Column(f)]).value
  {
    assert num.toFloat(cols[Column(X)]).Some? && num.toFloat(cols[Column(Y)]).Some?;
    assert num.toFloat(cols[Column(Z)]).Some? && num.toFloat(cols[Column(XDot)]).Some?;
    assert num.toFloat(cols[Column(YDot)]).Some? && num.toFloat(cols[Column(ZDot)]).Some?;
    StateVector(num.toSeconds(cols[0]),
      num.toFloat(cols[1]).value, num.toFloat(cols[2]).value, num.toFloat(cols[3]).value,
      num.toFloat(cols[4]).value, num.toFloat(cols[5]).value, num.toFloat(cols[6]).value)
  }

  /** Records agree when their epochs and all six fields do. */
  lemma SameRecord(v: StateVector, w: StateVector)
    requires v.epoch == w.epoch && forall f :: Get(v, f) == Get(w, f)
    ensures v == w
  {
    assert Get(v, X) == Get(w, X) && Get(v, Y) == Get(w, Y) && Get(v, Z) == Get(w, Z);
    assert Get(v, XDot) == Get(w, XDot) && Get(v, YDot) == Get(w, YDot) && Get(v, ZDot) == Get(w, ZDot);
  }

  /** No key is listed twice in the feed's keys. */
  lemma FeedKeysDistinct(i: nat)
    requires i < |FeedKeys|
    ensures LastOccurrence(FeedKeys, i)
  {
    assert FeedKeys == ["epoch", "X", "Y", "Z", "X_Dot", "Y_Dot", "Z_Dot"];
    forall j | i < j < |FeedKeys| ensures FeedKeys[j] != FeedKeys[i] {
      if |FeedKeys[j]| == |FeedKeys[i]| {
        assert FeedKeys[j][0] != FeedKeys[i][0];
      }
    }
  }

  /** So each key keeps the value of its own column. */
  lemma RowValues(cols: seq<string>)
    requires |FeedKeys| <= |cols|
    ensures var row := ZipKeys(FeedKeys, cols);
      && Filled(row) && row["epoch"] == cols[0]
      && forall f :: row[Name(f)] == cols[Column(f)]
  {
    var row := ZipKeys(FeedKeys, cols);
    KeysFilled(row);
    FeedKeysDistinct(0);
    assert row[FeedKeys[0]] == cols[0];
    forall f ensures row[Name(f)] == cols[Column(f)] {
      FeedKeysDistinct(Column(f));
    }
  }

  /** A row loads exactly when each earlier row does and it does too. */
  lemma {:induction false} LoadRowsOk(rows: seq<Row>, num: Numbers)
    ensures LoadRows(rows, num).Ok? <==> forall j :: 0 <= j < |rows| ==> VectorOf(rows[j], num).Ok?
    decreases |rows|
  {
    if rows != [] {
      LoadRowsOk(rows[1..], num);
      assert forall j :: 1 <= j < |rows| ==> rows[j] == rows[1..][j - 1];
    }
  }

  /** One body line with seven fields: its row loads as LineRecord says. */
  lemma LineLoads(cols: seq<string>, num: Numbers)
    requires |FeedKeys| <= |cols|
    ensures var row := ZipKeys(FeedKeys, cols);
      && (VectorOf(row, num).Ok? <==> Loadable(cols, num))
      && (VectorOf(row, num).Ok? ==> VectorOf(row, num).value == LineRecord(cols, num))
  {
    var row := ZipKeys(FeedKeys, cols);
    RowValues(cols);
    VectorOfFields(row, num);
    if VectorOf(row, num).Ok? {
      SameRecord(VectorOf(row, num).value, LineRecord(cols, num));
    }
  }

  /**
   * The whole of load_data in the feed's terms: it succeeds exactly when every
   * body line has at least seven fields and the six after the epoch are
   * numbers (extra fields are ignored), and then it gives
   * one record per body line, read column by column. A row is never missing
   * a key.
   */
  lemma FeedLoads(feed: string, num: Numbers)
    ensures var body := FeedBody(feed);
      && (LoadFeed(feed, num).Ok? <==> forall j :: 0 <= j < |body| ==> Loadable(Split(body[j], FieldSep), num))
      && (LoadFeed(feed, num).Ok? ==>
            && |LoadFeed(feed, num).value| == |body|
            && forall j :: 0 <= j < |body| ==>
                 LoadFeed(feed, num).value[j] == LineRecord(Split(body[j], FieldSep), num))
      && (FeedRows(feed).Ok? ==> LoadFeed(feed, num).Err? ==> LoadFeed(feed, num).error.BadNumber?)
  {
    var body := FeedBody(feed);
    var rows := FeedRows(feed);
    if forall j :: 0 <= j < |body| ==> Loadable(Split(body[j], FieldSep), num) {
      assert rows.Ok?;
    }
    if rows.Ok? {
      LoadRowsOk(rows.value, num);
      FeedRowsFilled(feed);
      forall j | 0 <= j < |body|
        ensures VectorOf(rows.value[j], num).Ok? <==> Loadable(Split(body[j], FieldSep), num)
        ensures VectorOf(rows.value[j], num).Ok? ==>
          VectorOf(rows.value[j], num).value == LineRecord(Split(body[j], FieldSep), num)
      {
        LineLoads(Split(body[j], FieldSep), num);
      }
      if LoadFeed(feed, num).Err? {
        LoadRowsError(rows.value, num);
      }
    }
  }

  /**
   * load_data(), with the feed's text as a parameter: txt_to_dict, then
   * float() on every key but "epoch" of every row.
   */
  method LoadData(feed: string, num: Numbers) returns (r: Result<seq<StateVector>, LoadError>)
    ensures r == LoadFeed(feed, num)
  {
    var parsed := TxtToDict(feed, FeedKeys, LineSep, FieldSep, StartMarker);
    if parsed.Err? {
      return Err(Parse(parsed.error));
    }
    var rows := parsed.value;
    var data: seq<StateVector> := [];
    assert rows[0..] == rows;
    match LoadRows(rows, num) {
      case Ok(vs) => AppendEmpty(vs);
      case Err(_) =>
    }
    for i := 0 to |rows|
      invariant LoadRows(rows, num) == Joined(data, LoadRows(rows[i..], num))
    {
      var v := ReadRecord(rows[i], num);
      LoadRowsCons(data, rows, i, num);
      if v.Err? {
        return Err(v.error);
      }
      data := data + [v.value];
    }
    assert rows[|rows|..] == [];
    AppendEmpty(data);
    return Ok(data);
  }
}
