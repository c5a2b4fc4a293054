/**
 * The pieces of Python's `str` that the feed parsers rely on: `split(sep)`,
 * `split(sep, 1)`, `strip()` and `splitlines()`, with their own semantics
 * (left-to-right non-overlapping matching, empty fields kept, Python's
 * whitespace and line-boundary character sets).
 */
module PyStrings {
  import opened Base

  /** `sep` occurs in `s` at index `i`. */
  predicate OccursAt(s: string, sep: string, i: nat) {
    i + |sep| <= |s| && s[i..i + |sep|] == sep
  }

  /** Leftmost occurrence of a non-empty `sep` in `s` at or after `from`. */
  function FindFrom(s: string, sep: string, from: nat): (r: Option<nat>)
    requires sep != [] && from <= |s|
    ensures r.Some? ==> from <= r.value && r.value + |sep| <= |s|
    decreases |s| - from
  {
    if from + |sep| > |s| then None
    else if OccursAt(s, sep, from) then Some(from)
    else FindFrom(s, sep, from + 1)
  }

  lemma {:induction false} FindFromSpec(s: string, sep: string, from: nat)
    requires sep != [] && from <= |s|
    ensures var r := FindFrom(s, sep, from);
      && (r.Some? ==> OccursAt(s, sep, r.value))
      && (r.Some? ==> forall j: nat :: from <= j < r.value ==> !OccursAt(s, sep, j))
      && (r.None? ==> forall j: nat :: from <= j ==> !OccursAt(s, sep, j))
    decreases |s| - from
  {
    if from + |sep| <= |s| && !OccursAt(s, sep, from) {
      FindFromSpec(s, sep, from + 1);
    }
  }

  /** Leftmost occurrence of a non-empty `sep` in `s`, as `str.find`. */
  function Find(s: string, sep: string): (r: Option<nat>)
    requires sep != []
    ensures r.Some? ==> r.value + |sep| <= |s|
  {
    FindFrom(s, sep, 0)
  }

  /** Find returns the first index at which `sep` occurs, and None only when it occurs nowhere. */
  lemma FindSpec(s: string, sep: string)
    requires sep != []
    ensures Find(s, sep).Some? ==> OccursAt(s, sep, Find(s, sep).value)
    ensures Find(s, sep).Some? ==> forall j: nat :: j < Find(s, sep).value ==> !OccursAt(s, sep, j)
    ensures Find(s, sep).None? ==> forall j: nat :: !OccursAt(s, sep, j)
  {
    FindFromSpec(s, sep, 0);
  }

  /** Python's `s.split(sep)` for a non-empty separator: every field, empty ones included. */
  function Split(s: string, sep: string): (parts: seq<string>)
    requires sep != []
    ensures |parts| >= 1
    decreases |s|
  {
    match Find(s, sep)
    case None => [s]
    case Some(i) => [s[..i]] + Split(s[i + |sep|..], sep)
  }

  /** Python's `sep.join(parts)`. */
  function Join(parts: seq<string>, sep: string): string
    decreases |parts|
  {
    if parts == [] then []
    else if |parts| == 1 then parts[0]
    else parts[0] + sep + Join(parts[1..], sep)
  }

  /** A found separator is really there. */
  lemma FoundOccurs(s: string, sep: string)
    requires sep != []
    ensures Find(s, sep).Some? ==> OccursAt(s, sep, Find(s, sep).value)
  {
    FindFromSpec(s, sep, 0);
  }

  /** The text around a found separator. */
  lemma AroundFound(s: string, sep: string, i: nat)
    requires sep != [] && Find(s, sep) == Some(i)
    ensures s == s[..i] + sep + s[i + |sep|..]
  {
    FoundOccurs(s, sep);
    assert s == s[..i] + s[i..i + |sep|] + s[i + |sep|..];
  }

  /** Splitting loses nothing: joining the fields with the separator gives the text back. */
  lemma {:induction false} JoinSplit(s: string, sep: string)
    requires sep != []
    ensures Join(Split(s, sep), sep) == s
    decreases |s|
  {
    match Find(s, sep)
    case None =>
    case Some(i) =>
      var rest := s[i + |sep|..];
      var tail := Split(rest, sep);
      JoinSplit(rest, sep);
      AroundFound(s, sep, i);
      var parts := [s[..i]] + tail;
      assert parts[1..] == tail;
      assert Join(parts, sep) == s[..i] + sep + Join(tail, sep);
  }

  /** No field of a split contains the separator. */
  lemma {:induction false} SplitFieldsFree(s: string, sep: string)
    requires sep != []
    ensures forall k: nat, j: nat :: k < |Split(s, sep)| ==> !OccursAt(Split(s, sep)[k], sep, j)
    decreases |s|
  {
    FindSpec(s, sep);
    match Find(s, sep)
    case None =>
    case Some(i) =>
      var rest := s[i + |sep|..];
      SplitFieldsFree(rest, sep);
      forall j: nat ensures !OccursAt(s[..i], sep, j) {
        if OccursAt(s[..i], sep, j) {
          assert s[..i][j..j + |sep|] == s[j..j + |sep|];
          assert OccursAt(s, sep, j);
        }
      }
  }

  /**
   * Python's `s.split(sep, 1)`: Some((before, after)) when `sep` occurs,
   * None when the result is the one-item list [s].
   */
  function SplitOnce(s: string, sep: string): Option<(string, string)>
    requires sep != []
  {
    match Find(s, sep)
    case None => None
    case Some(i) => Some((s[..i], s[i + |sep|..]))
  }

  /** split(sep, 1) agrees with split(sep): the first field, then the rest joined back. */
  lemma SplitOnceSpec(s: string, sep: string)
    requires sep != []
    ensures SplitOnce(s, sep).None? <==> |Split(s, sep)| == 1
    ensures SplitOnce(s, sep).Some? ==> SplitOnce(s, sep).value.0 == Split(s, sep)[0]
    ensures SplitOnce(s, sep).Some? ==> SplitOnce(s, sep).value.1 == Join(Split(s, sep)[1..], sep)
    ensures SplitOnce(s, sep).Some? ==> s == SplitOnce(s, sep).value.0 + sep + SplitOnce(s, sep).value.1
  {
    match Find(s, sep)
    case None =>
    case Some(i) =>
      var after := s[i + |sep|..];
      var tail := Split(after, sep);
      JoinSplit(after, sep);
      AroundFound(s, sep, i);
      assert Split(s, sep) == [s[..i]] + tail;
      assert ([s[..i]] + tail)[1..] == tail;
  }

  /** The characters Python's `str.isspace` accepts, which `strip()` removes. */
  predicate IsSpace(c: char) {
    c == ' ' || ('\t' <= c <= '\r') || ('\U{1C}' <= c <= '\U{1F}')
    || c == '\U{85}' || c == '\U{A0}' || c == '\U{1680}'
    || ('\U{2000}' <= c <= '\U{200A}') || c == '\U{2028}' || c == '\U{2029}'
    || c == '\U{202F}' || c == '\U{205F}' || c == '\U{3000}'
  }

  predicate AllSpace(s: string) {
    forall i :: 0 <= i < |s| ==> IsSpace(s[i])
  }

  function TrimStart(s: string): string
    decreases |s|
  {
    if s != [] && IsSpace(s[0]) then TrimStart(s[1..]) else s
  }

  function TrimEnd(s: string): string
    decreases |s|
  {
    if s != [] && IsSpace(s[|s| - 1]) then TrimEnd(s[..|s| - 1]) else s
  }

  /** Python's `s.strip()`: surrounding whitespace removed. */
  function Strip(s: string): string {
    TrimEnd(TrimStart(s))
  }

  lemma {:induction false} TrimStartSpec(s: string)
    ensures var r := TrimStart(s);
      |r| <= |s| && r == s[|s| - |r|..] && AllSpace(s[..|s| - |r|]) && (r == [] || !IsSpace(r[0]))
    decreases |s|
  {
    if s != [] && IsSpace(s[0]) {
      TrimStartSpec(s[1..]);
      var r := TrimStart(s[1..]);
      assert s[..|s| - |r|] == [s[0]] + s[1..][..|s[1..]| - |r|];
    }
  }

  lemma {:induction false} TrimEndSpec(s: string)
    ensures var r := TrimEnd(s);
      |r| <= |s| && r == s[..|r|] && AllSpace(s[|r|..]) && (r == [] || !IsSpace(r[|r| - 1]))
    decreases |s|
  {
    if s != [] && IsSpace(s[|s| - 1]) {
      TrimEndSpec(s[..|s| - 1]);
      var r := TrimEnd(s[..|s| - 1]);
      assert s[|r|..] == s[..|s| - 1][|r|..] + [s[|s| - 1]];
    }
  }

  /**
   * strip() removes exactly the surrounding whitespace: the result is a
   * slice of `s` with whitespace on both sides and none at its own ends.
   */
  lemma StripSpec(s: string)
    ensures var r := Strip(s);
      r == [] || (!IsSpace(r[0]) && !IsSpace(r[|r| - 1]))
    ensures Strip(s) == [] <==> AllSpace(s)
    ensures exists i, j :: 0 <= i <= j <= |s| && Strip(s) == s[i..j] && AllSpace(s[..i]) && AllSpace(s[j..])
  {
    TrimStartSpec(s);
    var t := TrimStart(s);
    TrimEndSpec(t);
    var r := TrimEnd(t);
    var i := |s| - |t|;
    assert r != [] ==> r[0] == t[0];
    assert s == s[..i] + t;
    assert t[|r|..] == s[i + |r|..];
    assert r == s[i..i + |r|];
    if r == [] {
      assert AllSpace(t);
      assert t == [];
      assert s[..i] == s;
    }
  }

  /** The characters at which Python's `str.splitlines` breaks a line. */
  predicate IsLineBreak(c: char) {
    c == '\n' || c == '\r' || c == '\U{0B}' || c == '\U{0C}' || ('\U{1C}' <= c <= '\U{1E}')
    || c == '\U{85}' || c == '\U{2028}' || c == '\U{2029}'
  }

  predicate NoLineBreak(s: string) {
    forall i :: 0 <= i < |s| ==> !IsLineBreak(s[i])
  }

  /** Python's `s.splitlines()`: "\r\n" is one boundary, and a final boundary opens no empty line. */
  function SplitLines(s: string): (lines: seq<string>)
    ensures forall k :: 0 <= k < |lines| ==> NoLineBreak(lines[k])
    decreases |s|
  {
    if s == [] then []
    else if IsLineBreak(s[0]) then
      [""] + SplitLines(if s[0] == '\r' && |s| > 1 && s[1] == '\n' then s[2..] else s[1..])
    else
      var rest := SplitLines(s[1..]);
      if rest == [] then [[s[0]]] else [[s[0]] + rest[0]] + rest[1..]
  }

  /** Each line followed by "\n", as a text file holding `lines` would be written. */
  function Terminated(lines: seq<string>): string
    decreases |lines|
  {
    if lines == [] then [] else lines[0] + "\n" + Terminated(lines[1..])
  }

  lemma {:induction false} SplitLinesHead(line: string, tail: string)
    requires NoLineBreak(line)
    ensures SplitLines(line + "\n" + tail) == [line] + SplitLines(tail)
    decreases |line|
  {
    if line == [] {
      assert line + "\n" + tail == "\n" + tail;
      assert ("\n" + tail)[1..] == tail;
    } else {
      SplitLinesHead(line[1..], tail);
      assert (line + "\n" + tail)[1..] == line[1..] + "\n" + tail;
      assert [line[0]] + line[1..] == line;
    }
  }

  /** splitlines recovers the lines of a newline-terminated text exactly. */
  lemma {:induction false} SplitLinesTerminated(lines: seq<string>)
    requires forall k :: 0 <= k < |lines| ==> NoLineBreak(lines[k])
    ensures SplitLines(Terminated(lines)) == lines
    decreases |lines|
  {
    if lines != [] {
      SplitLinesTerminated(lines[1..]);
      SplitLinesHead(lines[0], Terminated(lines[1..]));
    }
  }
}
