/**
 * The two text parsers of the tracker: `txt_to_dict`, which turns the
 * ephemeris lines into one field-name -> text row per line, and
 * `get_data_info`, which reads the header, metadata or comment region of the
 * feed into a dictionary or a list.
 */
module FeedParser {
  import opened Base
  import opened PyStrings

  /** One parsed feed line: field name -> raw text, as the Python dict. */
  type Row = map<string, string>

  datatype ParseError =
    | EmptySeparator                        // str.split("") raises ValueError
    | FieldCountMismatch(line: string)      // fewer values than keys: the IndexError is re-raised
    | MissingDelimiter(line: string)        // item[1] of a line without the delimiter: IndexError
    | UnsupportedInfoType(infoType: string) // info_type neither "dictionary" nor "list": ValueError

  // ---------------------------------------------------------------------------
  // txt_to_dict

  /** No later key repeats keys[i], so keys[i] keeps values[i] in the row. */
  predicate LastOccurrence(keys: seq<string>, i: nat)
    requires i < |keys|
  {
    forall j :: i < j < |keys| ==> keys[j] != keys[i]
  }

  /** `row` maps exactly the names in `keys`, each last-listed name to its value. */
  ghost predicate Zipped(keys: seq<string>, values: seq<string>, row: Row)
    requires |keys| <= |values|
  {
    && (forall k :: k in row <==> k in keys)
    && (forall i :: 0 <= i < |keys| && LastOccurrence(keys, i) ==> row[keys[i]] == values[i])
  }

  /** Storing the last key of `keys` on top of the row for the keys before it. */
  lemma ZipStep(keys: seq<string>, values: seq<string>, prev: Row)
    requires 0 < |keys| <= |values|
    requires Zipped(keys[..|keys| - 1], values, prev)
    ensures Zipped(keys, values, prev[keys[|keys| - 1] := values[|keys| - 1]])
  {
    var n := |keys| - 1;
    var row := prev[keys[n] := values[n]];
    assert keys == keys[..n] + [keys[n]];
    forall i | 0 <= i < n && LastOccurrence(keys, i) ensures row[keys[i]] == values[i] {
      assert keys[i] != keys[n];
      assert LastOccurrence(keys[..n], i) by {
        forall j | i < j < n ensures keys[..n][j] != keys[..n][i] {
          assert keys[..n][j] == keys[j];
        }
      }
    }
  }

  /**
   * The comprehension {keys[i]: values[i] for i in range(len(keys))}: a key
   * listed twice keeps its last value, and values past len(keys) are ignored.
   */
  function ZipKeys(keys: seq<string>, values: seq<string>): (row: Row)
    requires |keys| <= |values|
    ensures forall k :: k in row <==> k in keys
    ensures forall i :: 0 <= i < |keys| && LastOccurrence(keys, i) ==> row[keys[i]] == values[i]
    decreases |keys|
  {
    if keys == [] then map[]
    else
      var n := |keys| - 1;
      var prev := ZipKeys(keys[..n], values);
      ZipStep(keys, values, prev);
      prev[keys[n] := values[n]]
  }

  /** Index of the first line whose stripped text equals the stripped marker. */
  function FirstMatch(lines: seq<string>, marker: string): (r: Option<nat>)
    ensures r.Some? ==> r.value < |lines| && Strip(lines[r.value]) == Strip(marker)
    ensures r.Some? ==> forall j :: 0 <= j < r.value ==> Strip(lines[j]) != Strip(marker)
    ensures r.None? ==> forall j :: 0 <= j < |lines| ==> Strip(lines[j]) != Strip(marker)
    decreases |lines|
  {
    if lines == [] then None
    else if Strip(lines[0]) == Strip(marker) then Some(0)
    else match FirstMatch(lines[1..], marker)
      case None => None
      case Some(i) => Some(i + 1)
  }

  /** The non-empty lines, in order. */
  function NonEmpty(lines: seq<string>): (r: seq<string>)
    ensures |r| <= |lines|
    ensures forall l :: l in r <==> l in lines && l != []
    decreases |lines|
  {
    if lines == [] then []
    else (if lines[0] != [] then [lines[0]] else []) + NonEmpty(lines[1..])
  }

  /** Filtering a concatenation filters each part: the kept lines stay in input order. */
  lemma {:induction false} NonEmptyConcat(a: seq<string>, b: seq<string>)
    ensures NonEmpty(a + b) == NonEmpty(a) + NonEmpty(b)
    decreases |a|
  {
    if a == [] {
      assert a + b == b;
    } else {
      assert (a + b)[0] == a[0];
      assert (a + b)[1..] == a[1..] + b;
      NonEmptyConcat(a[1..], b);
      AppendAssoc(if a[0] != [] then [a[0]] else [], NonEmpty(a[1..]), NonEmpty(b));
    }
  }

  /** The non-empty lines after the first line matching `start` (none when no line matches). */
  function AfterMarker(lines: seq<string>, start: string): seq<string> {
    match FirstMatch(lines, start)
    case None => []
    case Some(m) => NonEmpty(lines[m + 1..])
  }

  /**
   * The lines that txt_to_dict turns into records: every non-empty line when
   * the start marker is empty, otherwise every non-empty line after the first
   * marker line (the marker line itself is never a record, later marker lines are).
   */
  function Body(lines: seq<string>, start: string): seq<string> {
    if start == [] then NonEmpty(lines) else AfterMarker(lines, start)
  }

  /** What RowsOf promises about its outcome `r`. */
  ghost predicate RowsSpec(body: seq<string>, keys: seq<string>, sep: string, r: Result<seq<Row>, ParseError>) {
    && (sep == [] ==> (r.Ok? <==> body == []))
    && (sep != [] ==> (r.Ok? <==> forall j :: 0 <= j < |body| ==> |keys| <= |Split(body[j], sep)|))
    && (sep != [] && r.Ok? ==> |r.value| == |body|)
    && (sep != [] && r.Ok? ==>
          forall j :: 0 <= j < |body| ==> r.value[j] == ZipKeys(keys, Split(body[j], sep)))
  }

  /** A first line with enough values, then the outcome for the other lines. */
  lemma RowsStep(body: seq<string>, keys: seq<string>, sep: string, rest: Result<seq<Row>, ParseError>)
    requires body != [] && sep != [] && |keys| <= |Split(body[0], sep)|
    requires RowsSpec(body[1..], keys, sep, rest)
    ensures RowsSpec(body, keys, sep,
      match rest
      case Err(e) => Err(e)
      case Ok(rows) => Ok([ZipKeys(keys, Split(body[0], sep))] + rows))
  {
    assert forall j :: 1 <= j < |body| ==> body[j] == body[1..][j - 1];
  }

  /** One row per body line, or the error of the first line that cannot become one. */
  function RowsOf(body: seq<string>, keys: seq<string>, sep: string): (r: Result<seq<Row>, ParseError>)
    ensures sep == [] ==> (r.Ok? <==> body == [])
    ensures sep != [] ==> (r.Ok? <==> forall j :: 0 <= j < |body| ==> |keys| <= |Split(body[j], sep)|)
    ensures sep != [] && r.Ok? ==> |r.value| == |body|
    ensures sep != [] && r.Ok? ==>
      forall j :: 0 <= j < |body| ==> r.value[j] == ZipKeys(keys, Split(body[j], sep))
    decreases |body|
  {
    if body == [] then Ok([])
    else if sep == [] then Err(EmptySeparator)
    else
      var values := Split(body[0], sep);
      if |values| < |keys| then Err(FieldCountMismatch(body[0]))
      else
        var rest := RowsOf(body[1..], keys, sep);
        RowsStep(body, keys, sep, rest);
        match rest
        case Err(e) => Err(e)
        case Ok(rows) => Ok([ZipKeys(keys, values)] + rows)
  }

  /**
   * A failed parse names its culprit: with an empty separator the split itself
   * fails; otherwise the first body line with fewer values than keys.
   */
  lemma {:induction false} RowsOfError(body: seq<string>, keys: seq<string>, sep: string, k: nat)
    requires k < |body|
    requires sep == [] || |Split(body[k], sep)| < |keys|
    requires sep != [] ==> forall i :: 0 <= i < k ==> |keys| <= |Split(body[i], sep)|
    ensures RowsOf(body, keys, sep) ==
      if sep == [] then Err(EmptySeparator) else Err(FieldCountMismatch(body[k]))
    decreases k
  {
    if k > 0 && sep != [] {
      assert forall i :: 0 <= i < k - 1 ==> body[1..][i] == body[i + 1];
      RowsOfError(body[1..], keys, sep, k - 1);
    }
  }

  /** Rows already built, followed by the outcome for the remaining lines. */
  function Prepend(done: seq<Row>, r: Result<seq<Row>, ParseError>): Result<seq<Row>, ParseError> {
    match r
    case Ok(rows) => Ok(done + rows)
    case Err(e) => Err(e)
  }

  /** How RowsOf treats the first of the remaining body lines. */
  lemma RowsOfCons(done: seq<Row>, line: string, rest: seq<string>, keys: seq<string>, sep: string)
    ensures sep == [] ==> Prepend(done, RowsOf([line] + rest, keys, sep)) == Err(EmptySeparator)
    ensures sep != [] && |Split(line, sep)| < |keys| ==>
      Prepend(done, RowsOf([line] + rest, keys, sep)) == Err(FieldCountMismatch(line))
    ensures sep != [] && |keys| <= |Split(line, sep)| ==>
      Prepend(done, RowsOf([line] + rest, keys, sep)) ==
        Prepend(done + [ZipKeys(keys, Split(line, sep))], RowsOf(rest, keys, sep))
  {
    ConsParts(line, rest);
    if sep != [] && |keys| <= |Split(line, sep)| {
      match RowsOf(rest, keys, sep)
      case Ok(rows) => AppendAssoc(done, [ZipKeys(keys, Split(line, sep))], rows);
      case Err(_) =>
    }
  }

  /** The body lines still ahead of a scan at `lines`, with the parse flag `parse`. */
  function PendingBody(lines: seq<string>, start: string, parse: bool): seq<string> {
    if parse then NonEmpty(lines) else AfterMarker(lines, start)
  }

  /** One line of the txt_to_dict loop: the parse check runs before the marker check. */
  lemma PendingBodyStep(lines: seq<string>, start: string, parse: bool)
    requires lines != []
    ensures var parse' := parse || Strip(lines[0]) == Strip(start);
      PendingBody(lines, start, parse) ==
        (if parse && lines[0] != [] then [lines[0]] else []) + PendingBody(lines[1..], start, parse')
  {
    if !parse && Strip(lines[0]) != Strip(start) {
      match FirstMatch(lines[1..], start)
      case None =>
      case Some(m) => assert lines[m + 2..] == lines[1..][m + 1..];
    }
  }

  /**
   * txt_to_dict(txt, keys, lineSep, sep, start): split the text into lines,
   * and turn every line of Body into a row of keys -> split values.
   */
  method TxtToDict(txt: string, keys: seq<string>, lineSep: string, sep: string, start: string)
    returns (r: Result<seq<Row>, ParseError>)
    ensures r == if lineSep == [] then Err(EmptySeparator)
                 else RowsOf(Body(Split(txt, lineSep), start), keys, sep)
  {
    if lineSep == [] {
      return Err(EmptySeparator);
    }
    var lines := Split(txt, lineSep);
    var data: seq<Row> := [];
    var parse := start == [];
    ghost var goal := RowsOf(Body(lines, start), keys, sep);
    assert lines[0..] == lines;
    match goal {
      case Ok(rows) => AppendEmpty(rows);
      case Err(_) =>
    }
    for i := 0 to |lines|
      invariant goal == Prepend(data, RowsOf(PendingBody(lines[i..], start, parse), keys, sep))
    {
      var line := lines[i];
      PendingBodyStep(lines[i..], start, parse);
      TailFrom(lines, i);
      var rest := PendingBody(lines[i + 1..], start, parse || Strip(line) == Strip(start));
      if parse && line != [] {
        RowsOfCons(data, line, rest, keys, sep);
        if sep == [] {
          return Err(EmptySeparator);
        }
        var values := Split(line, sep);
        if |values| < |keys| {
          return Err(FieldCountMismatch(line));
        }
        data := data + [ZipKeys(keys, values)];
      } else {
        AppendEmpty(rest);
      }
      if Strip(line) == Strip(start) {
        parse := true;
      }
    }
    AppendEmpty(data);
    r := Ok(data);
  }

  // ---------------------------------------------------------------------------
  // get_data_info

  /** The result of get_data_info: a dictionary, or a list of strings. */
  datatype Info = Dict(entries: map<string, string>) | Items(items: seq<string>)

  /** What `info_type` selects: the comparisons with DictKind and ListKind. */
  datatype InfoKind = DictKind | ListKind | OtherKind(name: string)

  function KindOf(infoType: string): (kind: InfoKind)
    ensures kind == DictKind <==> infoType == "dictionary"
    ensures kind == ListKind <==> infoType == "list"
    ensures kind.OtherKind? ==> kind.name == infoType
  {
    if infoType == "dictionary" then DictKind
    else if infoType == "list" then ListKind
    else OtherKind(infoType)
  }

  /** The empty accumulator: a dictionary in dictionary mode, a list otherwise. */
  function InitInfo(kind: InfoKind): (info: Info)
    ensures info.Dict? <==> kind == DictKind
    ensures info == Dict(map[]) || info == Items([])
  {
    if kind == DictKind then Dict(map[]) else Items([])
  }

  /** The accumulator has the shape that `info_type` selected. */
  predicate Shaped(info: Info, kind: InfoKind) {
    info.Dict? <==> kind == DictKind
  }

  /** One parsed line: split once at the delimiter, then stored as a pair or appended as an item. */
  function InfoStep(info: Info, line: string, delimiter: string, kind: InfoKind): (r: Result<Info, ParseError>)
    requires Shaped(info, kind)
    ensures r.Ok? ==> Shaped(r.value, kind)
  {
    if delimiter == [] then Err(EmptySeparator)
    else
      var item := SplitOnce(line, delimiter);
      match kind
      case DictKind =>
        if item.None? then Err(MissingDelimiter(line))
        else Ok(Dict(info.entries[Strip(item.value.0) := Strip(item.value.1)]))
      case ListKind =>
        if item.None? then Err(MissingDelimiter(line))
        else if Strip(item.value.1) != [] then Ok(Items(info.items + [item.value.1]))
        else Ok(info)
      case OtherKind(name) => Err(UnsupportedInfoType(name))
  }

  /** InfoStep over the parsed lines in order; the first failing line ends it. */
  function FoldInfo(lines: seq<string>, delimiter: string, kind: InfoKind, info: Info): (r: Result<Info, ParseError>)
    requires Shaped(info, kind)
    ensures r.Ok? ==> Shaped(r.value, kind)
    ensures lines == [] ==> r == Ok(info)
    ensures lines != [] && delimiter == [] ==> r == Err(EmptySeparator)
    ensures lines != [] && delimiter != [] && kind.OtherKind? ==> r == Err(UnsupportedInfoType(kind.name))
    decreases |lines|
  {
    if lines == [] then Ok(info)
    else match InfoStep(info, lines[0], delimiter, kind)
      case Err(e) => Err(e)
      case Ok(next) => FoldInfo(lines[1..], delimiter, kind, next)
  }

  /** Index of the first stop line, or the number of lines when there is none. */
  function StopIndex(lines: seq<string>, stop: string): (k: nat)
    ensures k <= |lines|
  {
    match FirstMatch(lines, stop)
    case None => |lines|
    case Some(k) => k
  }

  /** The non-empty lines that are not start lines. */
  function Keep(lines: seq<string>, start: string): seq<string>
    decreases |lines|
  {
    if lines == [] then []
    else (if lines[0] != [] && Strip(lines[0]) != Strip(start) then [lines[0]] else [])
         + Keep(lines[1..], start)
  }

  /**
   * The lines a get_data_info scan with the flag `parse` still parses: only
   * lines before the first stop line count (stop is checked first); start
   * lines and empty lines are skipped; unless `parse` is already on, only the
   * lines after the first start line of that region.
   */
  function PendingInfo(lines: seq<string>, stop: string, start: string, parse: bool): seq<string> {
    var region := lines[..StopIndex(lines, stop)];
    if parse then Keep(region, start)
    else match FirstMatch(region, start)
      case None => []
      case Some(m) => Keep(region[m + 1..], start)
  }

  /** The lines get_data_info parses: parsing is on from the start when `start` is "". */
  function Parsed(lines: seq<string>, stop: string, start: string): seq<string> {
    PendingInfo(lines, stop, start, start == [])
  }

  lemma RegionStep(lines: seq<string>, stop: string)
    requires lines != [] && Strip(lines[0]) != Strip(stop)
    ensures StopIndex(lines, stop) == StopIndex(lines[1..], stop) + 1
    ensures lines[..StopIndex(lines, stop)] == [lines[0]] + lines[1..][..StopIndex(lines[1..], stop)]
  {
  }

  lemma KeepCons(l: string, rest: seq<string>, start: string)
    ensures Keep([l] + rest, start) ==
      (if l != [] && Strip(l) != Strip(start) then [l] else []) + Keep(rest, start)
  {
    ConsParts(l, rest);
  }

  /** One line of the get_data_info loop. */
  lemma PendingInfoStep(lines: seq<string>, stop: string, start: string, parse: bool)
    requires lines != []
    ensures Strip(lines[0]) == Strip(stop) ==> PendingInfo(lines, stop, start, parse) == []
    ensures Strip(lines[0]) != Strip(stop) && Strip(lines[0]) == Strip(start) ==>
      PendingInfo(lines, stop, start, parse) == PendingInfo(lines[1..], stop, start, true)
    ensures Strip(lines[0]) != Strip(stop) && Strip(lines[0]) != Strip(start) ==>
      PendingInfo(lines, stop, start, parse) ==
        (if parse && lines[0] != [] then [lines[0]] else []) + PendingInfo(lines[1..], stop, start, parse)
  {
    var l := lines[0];
    if Strip(l) != Strip(stop) {
      RegionStep(lines, stop);
      var region' := lines[1..][..StopIndex(lines[1..], stop)];
      KeepCons(l, region', start);
      assert ([l] + region')[1..] == region';
      if !parse && Strip(l) != Strip(start) {
        match FirstMatch(region', start)
        case None =>
        case Some(m) => assert ([l] + region')[m + 2..] == region'[m + 1..];
      }
    }
  }

  /**
   * get_data_info(txt, delimiter, stop, start, info_type) over the lines of
   * `txt.splitlines()`.
   */
  method GetDataInfo(txt: string, delimiter: string, stop: string, start: string, infoType: string)
    returns (r: Result<Info, ParseError>)
    ensures r == FoldInfo(Parsed(SplitLines(txt), stop, start), delimiter, KindOf(infoType), InitInfo(KindOf(infoType)))
  {
    var lines := SplitLines(txt);
    var kind := KindOf(infoType);
    var info := InitInfo(kind);
    var parse := start == [];
    ghost var goal := FoldInfo(Parsed(lines, stop, start), delimiter, kind, info);
    for i := 0 to |lines|
      invariant Shaped(info, kind)
      invariant goal == FoldInfo(PendingInfo(lines[i..], stop, start, parse), delimiter, kind, info)
    {
      var line := lines[i];
      PendingInfoStep(lines[i..], stop, start, parse);
      TailFrom(lines, i);
      if Strip(line) == Strip(stop) {
        break;
      } else if Strip(line) == Strip(start) {
        parse := true;
        continue;
      }
      var rest := PendingInfo(lines[i + 1..], stop, start, parse);
      if line != [] && parse {
        ConsParts(line, rest);
        var step := InfoStep(info, line, delimiter, kind);
        if step.Err? {
          return step;
        }
        info := step.value;
      } else {
        AppendEmpty(rest);
      }
    }
    r := Ok(info);
  }

  // ---------------------------------------------------------------------------
  // What get_data_info computes from the parsed lines

  /** Every line carries the delimiter, so `line.split(delimiter, 1)` has two items. */
  predicate AllDelimited(lines: seq<string>, delimiter: string) {
    delimiter != [] && forall k :: 0 <= k < |lines| ==> SplitOnce(lines[k], delimiter).Some?
  }

  /** The dictionary key of a line: the stripped text before the first delimiter. */
  function KeyOf(line: string, delimiter: string): string
    requires delimiter != [] && SplitOnce(line, delimiter).Some?
  {
    Strip(SplitOnce(line, delimiter).value.0)
  }

  /** The dictionary value of a line: the stripped text after the first delimiter. */
  function ValueOf(line: string, delimiter: string): string
    requires delimiter != [] && SplitOnce(line, delimiter).Some?
  {
    Strip(SplitOnce(line, delimiter).value.1)
  }

  /** No later line has the same key as lines[k]. */
  predicate LastKey(lines: seq<string>, delimiter: string, k: nat)
    requires AllDelimited(lines, delimiter) && k < |lines|
  {
    forall j :: k < j < |lines| ==> KeyOf(lines[j], delimiter) != KeyOf(lines[k], delimiter)
  }

  lemma AllDelimitedTail(lines: seq<string>, delimiter: string)
    requires lines != [] && AllDelimited(lines, delimiter)
    ensures AllDelimited(lines[1..], delimiter)
  {
    assert forall k :: 0 <= k < |lines[1..]| ==> lines[1..][k] == lines[k + 1];
  }

  /** A delimited line in dictionary mode stores its stripped key and value. */
  lemma DictStep(acc: map<string, string>, line: string, delimiter: string)
    requires delimiter != [] && SplitOnce(line, delimiter).Some?
    ensures InfoStep(Dict(acc), line, delimiter, DictKind) ==
      Ok(Dict(acc[KeyOf(line, delimiter) := ValueOf(line, delimiter)]))
  {
  }

  /** FoldInfo past a first line that parses. */
  lemma FoldStep(lines: seq<string>, delimiter: string, kind: InfoKind, info: Info, next: Info)
    requires Shaped(info, kind) && lines != []
    requires InfoStep(info, lines[0], delimiter, kind) == Ok(next)
    ensures Shaped(next, kind)
    ensures FoldInfo(lines, delimiter, kind, info) == FoldInfo(lines[1..], delimiter, kind, next)
  {
  }

  /** Dictionary mode: the keys are exactly those of the parsed lines, plus the ones already present. */
  lemma {:induction false} DictKeys(lines: seq<string>, delimiter: string, acc: map<string, string>)
    requires AllDelimited(lines, delimiter)
    ensures FoldInfo(lines, delimiter, DictKind, Dict(acc)).Ok?
    ensures var m := FoldInfo(lines, delimiter, DictKind, Dict(acc)).value.entries;
      forall key :: key in m <==> key in acc || exists k :: 0 <= k < |lines| && KeyOf(lines[k], delimiter) == key
    decreases |lines|
  {
    if lines != [] {
      var l, rest := lines[0], lines[1..];
      var acc' := acc[KeyOf(l, delimiter) := ValueOf(l, delimiter)];
      DictStep(acc, l, delimiter);
      FoldStep(lines, delimiter, DictKind, Dict(acc), Dict(acc'));
      AllDelimitedTail(lines, delimiter);
      DictKeys(rest, delimiter, acc');
      var m := FoldInfo(rest, delimiter, DictKind, Dict(acc')).value.entries;
      forall key ensures key in m <==> key in acc || exists k :: 0 <= k < |lines| && KeyOf(lines[k], delimiter) == key {
        if exists k :: 0 <= k < |rest| && KeyOf(rest[k], delimiter) == key {
          var k :| 0 <= k < |rest| && KeyOf(rest[k], delimiter) == key;
          assert rest[k] == lines[k + 1];
        }
        if exists k :: 0 <= k < |lines| && KeyOf(lines[k], delimiter) == key {
          var k :| 0 <= k < |lines| && KeyOf(lines[k], delimiter) == key;
          if k > 0 { assert rest[k - 1] == lines[k]; }
        }
      }
    }
  }

  /** Dictionary mode: each key holds the value of its LAST line. */
  lemma {:induction false} DictLastValues(lines: seq<string>, delimiter: string, acc: map<string, string>)
    requires AllDelimited(lines, delimiter)
    ensures FoldInfo(lines, delimiter, DictKind, Dict(acc)).Ok?
    ensures var m := FoldInfo(lines, delimiter, DictKind, Dict(acc)).value.entries;
      forall k :: 0 <= k < |lines| && LastKey(lines, delimiter, k) ==>
        KeyOf(lines[k], delimiter) in m && m[KeyOf(lines[k], delimiter)] == ValueOf(lines[k], delimiter)
    decreases |lines|
  {
    if lines != [] {
      var l, rest := lines[0], lines[1..];
      var acc' := acc[KeyOf(l, delimiter) := ValueOf(l, delimiter)];
      DictStep(acc, l, delimiter);
      FoldStep(lines, delimiter, DictKind, Dict(acc), Dict(acc'));
      AllDelimitedTail(lines, delimiter);
      DictLastValues(rest, delimiter, acc');
      DictUntouched(rest, delimiter, acc');
      var m := FoldInfo(rest, delimiter, DictKind, Dict(acc')).value.entries;
      forall k | 0 <= k < |lines| && LastKey(lines, delimiter, k)
        ensures KeyOf(lines[k], delimiter) in m && m[KeyOf(lines[k], delimiter)] == ValueOf(lines[k], delimiter)
      {
        if k > 0 {
          assert rest[k - 1] == lines[k];
          assert LastKey(rest, delimiter, k - 1) by {
            forall j | k - 1 < j < |rest| ensures KeyOf(rest[j], delimiter) != KeyOf(rest[k - 1], delimiter) {
              assert rest[j] == lines[j + 1];
            }
          }
        } else {
          forall j | 0 <= j < |rest| ensures KeyOf(rest[j], delimiter) != KeyOf(l, delimiter) {
            assert rest[j] == lines[j + 1];
          }
        }
      }
    }
  }

  /** Dictionary mode: entries that no line mentions are untouched. */
  lemma {:induction false} DictUntouched(lines: seq<string>, delimiter: string, acc: map<string, string>)
    requires AllDelimited(lines, delimiter)
    ensures FoldInfo(lines, delimiter, DictKind, Dict(acc)).Ok?
    ensures var m := FoldInfo(lines, delimiter, DictKind, Dict(acc)).value.entries;
      forall key :: key in acc && (forall k :: 0 <= k < |lines| ==> KeyOf(lines[k], delimiter) != key) ==>
        key in m && m[key] == acc[key]
    decreases |lines|
  {
    if lines != [] {
      var l, rest := lines[0], lines[1..];
      var acc' := acc[KeyOf(l, delimiter) := ValueOf(l, delimiter)];
      DictStep(acc, l, delimiter);
      FoldStep(lines, delimiter, DictKind, Dict(acc), Dict(acc'));
      AllDelimitedTail(lines, delimiter);
      DictUntouched(rest, delimiter, acc');
      forall key | key in acc && (forall k :: 0 <= k < |lines| ==> KeyOf(lines[k], delimiter) != key)
        ensures key in acc' && acc'[key] == acc[key]
        ensures forall k :: 0 <= k < |rest| ==> KeyOf(rest[k], delimiter) != key
      {
        assert KeyOf(lines[0], delimiter) != key;
        forall k | 0 <= k < |rest| ensures KeyOf(rest[k], delimiter) != key {
          assert rest[k] == lines[k + 1];
        }
      }
    }
  }

  /**
   * Dictionary mode: the keys are exactly those of the parsed lines (plus the
   * ones already present), each key holds the value of its LAST line, and
   * earlier entries that no line mentions are untouched.
   */
  lemma DictEntries(lines: seq<string>, delimiter: string, acc: map<string, string>)
    requires AllDelimited(lines, delimiter)
    ensures FoldInfo(lines, delimiter, DictKind, Dict(acc)).Ok?
    ensures var m := FoldInfo(lines, delimiter, DictKind, Dict(acc)).value.entries;
      && (forall key :: key in m <==>
            key in acc || exists k :: 0 <= k < |lines| && KeyOf(lines[k], delimiter) == key)
      && (forall k :: 0 <= k < |lines| && LastKey(lines, delimiter, k) ==>
            m[KeyOf(lines[k], delimiter)] == ValueOf(lines[k], delimiter))
      && (forall key :: key in acc && (forall k :: 0 <= k < |lines| ==> KeyOf(lines[k], delimiter) != key) ==>
            m[key] == acc[key])
  {
    DictKeys(lines, delimiter, acc);
    DictLastValues(lines, delimiter, acc);
    DictUntouched(lines, delimiter, acc);
  }

  /** Dictionary mode with distinct, new keys: one entry per parsed line. */
  lemma {:induction false} DictSize(lines: seq<string>, delimiter: string, acc: map<string, string>)
    requires AllDelimited(lines, delimiter)
    requires forall i, j :: 0 <= i < j < |lines| ==> KeyOf(lines[i], delimiter) != KeyOf(lines[j], delimiter)
    requires forall k :: 0 <= k < |lines| ==> KeyOf(lines[k], delimiter) !in acc
    ensures FoldInfo(lines, delimiter, DictKind, Dict(acc)).Ok?
    ensures |FoldInfo(lines, delimiter, DictKind, Dict(acc)).value.entries| == |acc| + |lines|
    decreases |lines|
  {
    if lines != [] {
      var l, rest := lines[0], lines[1..];
      var acc' := acc[KeyOf(l, delimiter) := ValueOf(l, delimiter)];
      DictStep(acc, l, delimiter);
      FoldStep(lines, delimiter, DictKind, Dict(acc), Dict(acc'));
      AllDelimitedTail(lines, delimiter);
      assert forall k :: 0 <= k < |rest| ==> rest[k] == lines[k + 1];
      forall i, j | 0 <= i < j < |rest| ensures KeyOf(rest[i], delimiter) != KeyOf(rest[j], delimiter) {
        assert KeyOf(rest[i], delimiter) == KeyOf(lines[i + 1], delimiter);
        assert KeyOf(rest[j], delimiter) == KeyOf(lines[j + 1], delimiter);
      }
      forall k | 0 <= k < |rest| ensures KeyOf(rest[k], delimiter) !in acc' {
        assert KeyOf(rest[k], delimiter) == KeyOf(lines[k + 1], delimiter);
        assert KeyOf(lines[0], delimiter) != KeyOf(lines[k + 1], delimiter);
      }
      DictSize(rest, delimiter, acc');
      assert |acc'| == |acc| + 1;
    }
  }

  /** What list mode keeps of one line: the untrimmed text after the delimiter, unless it is blank. */
  function Remainder(line: string, delimiter: string): (kept: seq<string>)
    requires delimiter != [] && SplitOnce(line, delimiter).Some?
    ensures |kept| <= 1
    ensures forall i :: 0 <= i < |kept| ==> Strip(kept[i]) != []
  {
    var after := SplitOnce(line, delimiter).value.1;
    if Strip(after) != [] then [after] else []
  }

  /** List mode keeps the remainders of the parsed lines, in line order. */
  function Remainders(lines: seq<string>, delimiter: string): (items: seq<string>)
    requires AllDelimited(lines, delimiter)
    ensures |items| <= |lines|
    ensures forall i :: 0 <= i < |items| ==> Strip(items[i]) != []
    decreases |lines|
  {
    if lines == [] then []
    else
      AllDelimitedTail(lines, delimiter);
      var head := Remainder(lines[0], delimiter);
      var rest := Remainders(lines[1..], delimiter);
      assert forall i :: 0 <= i < |rest| ==> (head + rest)[|head| + i] == rest[i];
      head + rest
  }

  /** A delimited line in list mode appends its remainder. */
  lemma ListStep(acc: seq<string>, line: string, delimiter: string)
    requires delimiter != [] && SplitOnce(line, delimiter).Some?
    ensures InfoStep(Items(acc), line, delimiter, ListKind) == Ok(Items(acc + Remainder(line, delimiter)))
  {
    AppendEmpty(acc);
  }

  /** The inductive step of ListItems, given its claim for the lines after the first. */
  lemma ListItemsStep(lines: seq<string>, delimiter: string, acc: seq<string>)
    requires lines != [] && AllDelimited(lines, delimiter) && AllDelimited(lines[1..], delimiter)
    requires var acc' := acc + Remainder(lines[0], delimiter);
      FoldInfo(lines[1..], delimiter, ListKind, Items(acc')) ==
        Ok(Items(acc' + Remainders(lines[1..], delimiter)))
    ensures FoldInfo(lines, delimiter, ListKind, Items(acc)) == Ok(Items(acc + Remainders(lines, delimiter)))
  {
    var head := Remainder(lines[0], delimiter);
    var rest := Remainders(lines[1..], delimiter);
    assert Remainders(lines, delimiter) == head + rest;
    ListStep(acc, lines[0], delimiter);
    FoldStep(lines, delimiter, ListKind, Items(acc), Items(acc + head));
    AppendAssoc(acc, head, rest);
  }

  /** List mode: the list is the earlier items followed by the non-blank remainders, in line order. */
  lemma {:induction false} ListItems(lines: seq<string>, delimiter: string, acc: seq<string>)
    requires AllDelimited(lines, delimiter)
    ensures FoldInfo(lines, delimiter, ListKind, Items(acc)) == Ok(Items(acc + Remainders(lines, delimiter)))
    decreases |lines|
  {
    if lines == [] {
      AppendEmpty(acc);
    } else {
      AllDelimitedTail(lines, delimiter);
      ListItems(lines[1..], delimiter, acc + Remainder(lines[0], delimiter));
      ListItemsStep(lines, delimiter, acc);
    }
  }

  /** A parsed line without the delimiter fails the whole call, after the lines before it were stored. */
  lemma {:induction false} MissingDelimiterFails(lines: seq<string>, delimiter: string, kind: InfoKind, info: Info, k: nat)
    requires kind == DictKind || kind == ListKind
    requires Shaped(info, kind) && k < |lines|
    requires AllDelimited(lines[..k], delimiter) && SplitOnce(lines[k], delimiter).None?
    ensures FoldInfo(lines, delimiter, kind, info) == Err(MissingDelimiter(lines[k]))
    decreases k
  {
    if k > 0 {
      assert lines[..k][0] == lines[0];
      match InfoStep(info, lines[0], delimiter, kind)
      case Ok(next) =>
        assert lines[1..][..k - 1] == lines[..k][1..];
        AllDelimitedTail(lines[..k], delimiter);
        MissingDelimiterFails(lines[1..], delimiter, kind, next, k - 1);
    }
  }
}
