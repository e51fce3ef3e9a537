/**
 * `RequestHeaderInfo.init(data:)`: the header block (everything before the
 * blank line) split into the request line and field lines, a simplified
 * reading of sections 3 and 5 of RFC 9112.
 *
 * The same initializer exists twice in the repository; the two copies differ
 * only in the separator used to cut a field line into name and value, so both
 * are one function, `ParseHead`, applied to that separator.
 */
module RequestHeaders {
  import opened Base
  import opened Text
  import opened HttpHeaderKeys

  const CRLF: string := "\r\n"
  const RequestLineSeparator: string := " "
  const HeaderKeyValueSeparator: string := ": "

  /** `HttpMethod`: the method token, kept verbatim. */
  datatype HttpMethod = HttpMethod(rawValue: string)

  datatype RequestHeaderInfo = RequestHeaderInfo(
    requestMethod: HttpMethod,
    path: string,
    protocol: string,
    headers: map<HttpHeaderKey, string>)

  datatype HeaderError = NotValidRequestLine

  /** A field line cut on `fieldSeparator`; anything but exactly two pieces is dropped. */
  function FieldLine(line: string, fieldSeparator: string): Option<(HttpHeaderKey, string)>
    requires |fieldSeparator| > 0
  {
    var pieces := Split(line, fieldSeparator);
    if |pieces| == 2 then Some((FromRawValue(pieces[0]), pieces[1])) else None
  }

  /** The `forEach` over the field lines, as a left fold: each kept line overwrites its key. */
  function Headers(lines: seq<string>, fieldSeparator: string): map<HttpHeaderKey, string>
    requires |fieldSeparator| > 0
    decreases |lines|
  {
    if lines == [] then map[]
    else
      var earlier := Headers(lines[..|lines| - 1], fieldSeparator);
      match FieldLine(lines[|lines| - 1], fieldSeparator)
      case None => earlier
      case Some(entry) => earlier[entry.0 := entry.1]
  }

  /** The lines of the decoded header block. */
  function Lines(data: seq<byte>): (lines: seq<string>)
    ensures |lines| >= 1
  {
    Split(Decode(data), CRLF)
  }

  /**
   * The shared body of both initializers. `Lines` never returns an empty list,
   * so the `headerLines.first` guard of the source cannot fail. The request line
   * is accepted exactly when it holds exactly two spaces, so an empty line, a
   * doubled space or a trailing space beside two others all fail, and field
   * lines play no part in failing; on success the method, path and protocol are
   * the request line's space-free tokens, in order.
   */
  function ParseHead(data: seq<byte>, fieldSeparator: string): (r: Result<RequestHeaderInfo, HeaderError>)
    requires |fieldSeparator| > 0
    ensures r.Ok? <==> Count(Lines(data)[0], ' ') == 2
    ensures r.Ok? ==>
      && Lines(data)[0] == r.value.requestMethod.rawValue + " " + r.value.path + " " + r.value.protocol
      && ' ' !in r.value.requestMethod.rawValue && ' ' !in r.value.path && ' ' !in r.value.protocol
  {
    var lines := Lines(data);
    var parts := Split(lines[0], RequestLineSeparator);
    SplitOnElementCount(lines[0], ' ');
    if |parts| != 3 then Err(NotValidRequestLine)
    else
      ThreeTokens(lines[0]);
      Ok(RequestHeaderInfo(HttpMethod(parts[0]), parts[1], parts[2],
                           Headers(lines[1..], fieldSeparator)))
  }

  /**
   * `RequestHeaderInfo.init(data:)` in Http/RequestHeaderInfo.swift: the header
   * map is the left-to-right fold of the field lines cut on `": "`.
   */
  function Parse(data: seq<byte>): (r: Result<RequestHeaderInfo, HeaderError>)
    ensures r.Ok? ==> r.value.headers == MapOf(Entries(Lines(data)[1..], HeaderKeyValueSeparator))
  {
    HeadersAsEntries(Lines(data)[1..], HeaderKeyValueSeparator);
    ParseHead(data, HeaderKeyValueSeparator)
  }

  /**
   * The older copy in StreamHandling.swift, which cuts field lines on CRLF.
   * Every line produced by cutting on CRLF is itself CRLF-free, so cutting it
   * again gives one piece, and no line is ever recorded: the map is always empty.
   */
  function LegacyParse(data: seq<byte>): (r: Result<RequestHeaderInfo, HeaderError>)
    ensures r.Ok? ==> r.value.headers == map[]
  {
    var lines := Lines(data);
    assert forall i | 0 <= i < |lines[1..]| :: !Contains(lines[1..][i], CRLF) by {
      forall i | 0 <= i < |lines[1..]| ensures !Contains(lines[1..][i], CRLF) {
        SplitPiecesFree(Decode(data), CRLF, i + 1);
      }
    }
    LegacyHeadersOfFreeLines(lines[1..]);
    ParseHead(data, CRLF)
  }

  // ---------------------------------------------------------------------------
  // The request line

  /** The request line is the decoded text up to the first CRLF, or all of it. */
  lemma RequestLineIsFirstLine(data: seq<byte>)
    ensures var text, line := Decode(data), Lines(data)[0];
      && !Contains(line, CRLF)
      && line <= text
      && (|line| < |text| ==> line + CRLF <= text)
  {
    var text := Decode(data);
    SplitPiecesFree(text, CRLF, 0);
    match IndexOf(text, CRLF)
    case None =>
    case Some(i) =>
      assert text[i..i + 2] == CRLF;
      assert text[..i] + CRLF == text[..i + 2];
  }

  /** A line that splits into three pieces on spaces is those pieces joined by single spaces. */
  lemma ThreeTokens(line: string)
    requires |Split(line, RequestLineSeparator)| == 3
    ensures var parts := Split(line, RequestLineSeparator);
      && line == parts[0] + " " + parts[1] + " " + parts[2]
      && ' ' !in parts[0] && ' ' !in parts[1] && ' ' !in parts[2]
  {
    var parts := Split(line, RequestLineSeparator);
    SplitJoin(line, RequestLineSeparator);
    JoinThree(parts, RequestLineSeparator);
    SplitPiecesFree(line, " ", 0);
    SplitPiecesFree(line, " ", 1);
    SplitPiecesFree(line, " ", 2);
    ContainsSingle(parts[0], ' ');
    ContainsSingle(parts[1], ' ');
    ContainsSingle(parts[2], ' ');
  }

  // ---------------------------------------------------------------------------
  // Field lines

  /** `": "` cannot overlap itself, so it cannot occur across a boundary it is glued to. */
  lemma FieldSeparatorFirst(name: string, value: string)
    requires !Contains(name, HeaderKeyValueSeparator)
    ensures IndexOf(name + HeaderKeyValueSeparator + value, HeaderKeyValueSeparator) == Some(|name|)
  {
    var sep := HeaderKeyValueSeparator;
    var line := name + sep + value;
    assert line[|name|..|name| + 2] == sep;
    forall j | 0 <= j < |name| ensures !OccursAt(line, sep, j) {
      if j + 2 <= |name| {
        assert line[j..j + 2] == name[j..j + 2];
        assert !OccursAt(name, sep, j);
      } else {
        assert line[j + 1] == ':';
      }
    }
    IndexOfIsFirst(line, sep, |name|);
  }

  /** A line `name: value` with no further separator in either part is kept, name lowercased. */
  lemma FieldLineOfParts(name: string, value: string)
    requires !Contains(name, HeaderKeyValueSeparator) && !Contains(value, HeaderKeyValueSeparator)
    ensures FieldLine(name + HeaderKeyValueSeparator + value, HeaderKeyValueSeparator)
            == Some((FromRawValue(name), value))
  {
    FieldSeparatorFirst(name, value);
    SplitAtFirst(name, HeaderKeyValueSeparator, value);
    SplitSingle(value, HeaderKeyValueSeparator);
  }

  /** A kept line is `name: value` for a separator-free name and value. */
  lemma FieldLineParts(line: string)
    requires FieldLine(line, HeaderKeyValueSeparator).Some?
    ensures var pieces := Split(line, HeaderKeyValueSeparator);
      && line == pieces[0] + HeaderKeyValueSeparator + pieces[1]
      && !Contains(pieces[0], HeaderKeyValueSeparator)
      && !Contains(pieces[1], HeaderKeyValueSeparator)
      && FieldLine(line, HeaderKeyValueSeparator) == Some((FromRawValue(pieces[0]), pieces[1]))
  {
    var pieces := Split(line, HeaderKeyValueSeparator);
    SplitJoin(line, HeaderKeyValueSeparator);
    assert pieces[1..] == [pieces[1]];
    SplitPiecesFree(line, HeaderKeyValueSeparator, 0);
    SplitPiecesFree(line, HeaderKeyValueSeparator, 1);
  }

  /** A value that itself holds `": "` makes the whole line be skipped. */
  lemma FieldLineValueWithSeparatorSkipped(name: string, value: string)
    requires !Contains(name, HeaderKeyValueSeparator) && Contains(value, HeaderKeyValueSeparator)
    ensures FieldLine(name + HeaderKeyValueSeparator + value, HeaderKeyValueSeparator).None?
  {
    var sep := HeaderKeyValueSeparator;
    FieldSeparatorFirst(name, value);
    SplitAtFirst(name, sep, value);
    SplitSingle(value, sep);
  }

  /** A line without `": "`, the empty line among them, is skipped. */
  lemma FieldLineWithoutSeparatorSkipped(line: string)
    requires !Contains(line, HeaderKeyValueSeparator)
    ensures FieldLine(line, HeaderKeyValueSeparator).None?
  {
    SplitSingle(line, HeaderKeyValueSeparator);
  }

  /** Line `line` is kept and records key `k`. */
  predicate Names(line: string, fieldSeparator: string, k: HttpHeaderKey)
    requires |fieldSeparator| > 0
  {
    FieldLine(line, fieldSeparator).Some? && FieldLine(line, fieldSeparator).value.0 == k
  }

  type Entry = Option<(HttpHeaderKey, string)>

  /** The map built by folding entries from left to right, each kept entry overwriting its key. */
  function MapOf(entries: seq<Entry>): map<HttpHeaderKey, string>
    decreases |entries|
  {
    if entries == [] then map[]
    else
      var earlier := MapOf(entries[..|entries| - 1]);
      match entries[|entries| - 1]
      case None => earlier
      case Some(entry) => earlier[entry.0 := entry.1]
  }

  /** Entry `e` is kept and records key `k`. */
  predicate EntryNames(e: Entry, k: HttpHeaderKey) {
    e.Some? && e.value.0 == k
  }

  /** The folded map holds a key exactly when some entry names it. */
  lemma {:induction false} MapOfKeys(entries: seq<Entry>, k: HttpHeaderKey)
    ensures k in MapOf(entries) <==> exists i :: 0 <= i < |entries| && EntryNames(entries[i], k)
    decreases |entries|
  {
    if entries != [] {
      var n := |entries| - 1;
      var init := entries[..n];
      MapOfKeys(init, k);
      if exists i :: 0 <= i < |entries| && EntryNames(entries[i], k) {
        var i :| 0 <= i < |entries| && EntryNames(entries[i], k);
        if i < n {
          assert init[i] == entries[i];
        }
      }
      if k in MapOf(init) {
        var i :| 0 <= i < n && EntryNames(init[i], k);
        assert init[i] == entries[i];
      }
    }
  }

  /** A key's value in the folded map is that of the last entry naming it. */
  lemma {:induction false} MapOfLastWins(entries: seq<Entry>, k: HttpHeaderKey)
    requires k in MapOf(entries)
    ensures exists i :: (0 <= i < |entries|
      && entries[i] == Some((k, MapOf(entries)[k]))
      && forall j :: i < j < |entries| ==> !EntryNames(entries[j], k))
    decreases |entries|
  {
    var n := |entries| - 1;
    var init := entries[..n];
    var m := MapOf(entries);
    if EntryNames(entries[n], k) {
      assert entries[n] == Some((k, m[k]));
    } else {
      assert k in MapOf(init) && m[k] == MapOf(init)[k];
      MapOfLastWins(init, k);
      var i :| 0 <= i < n && init[i] == Some((k, m[k]))
        && forall j :: i < j < n ==> !EntryNames(init[j], k);
      assert init[i] == entries[i];
      forall j | i < j < |entries| ensures !EntryNames(entries[j], k) {
        if j < n { assert init[j] == entries[j]; }
      }
    }
  }

  /** The field lines, each cut into an entry. */
  function Entries(lines: seq<string>, fieldSeparator: string): (entries: seq<Entry>)
    requires |fieldSeparator| > 0
    ensures |entries| == |lines|
    ensures forall i :: 0 <= i < |lines| ==> entries[i] == FieldLine(lines[i], fieldSeparator)
  {
    seq(|lines|, i requires 0 <= i < |lines| => FieldLine(lines[i], fieldSeparator))
  }

  /** The `forEach` over the field lines is the fold over their entries. */
  lemma {:induction false} HeadersAsEntries(lines: seq<string>, fieldSeparator: string)
    requires |fieldSeparator| > 0
    ensures Headers(lines, fieldSeparator) == MapOf(Entries(lines, fieldSeparator))
    decreases |lines|
  {
    if lines != [] {
      var n := |lines| - 1;
      HeadersAsEntries(lines[..n], fieldSeparator);
      assert Entries(lines, fieldSeparator)[..n] == Entries(lines[..n], fieldSeparator);
    }
  }

  /** The header map holds a key exactly when some kept line names it. */
  lemma HeadersKeys(lines: seq<string>, fieldSeparator: string, k: HttpHeaderKey)
    requires |fieldSeparator| > 0
    ensures k in Headers(lines, fieldSeparator) <==>
      exists i :: 0 <= i < |lines| && Names(lines[i], fieldSeparator, k)
  {
    var entries := Entries(lines, fieldSeparator);
    HeadersAsEntries(lines, fieldSeparator);
    MapOfKeys(entries, k);
    assert forall i :: 0 <= i < |lines| ==> (Names(lines[i], fieldSeparator, k) <==> EntryNames(entries[i], k));
  }

  /**
   * A recorded value is that of the LAST line naming the key: later duplicates
   * overwrite earlier ones.
   */
  lemma HeadersLastWins(lines: seq<string>, fieldSeparator: string, k: HttpHeaderKey)
    requires |fieldSeparator| > 0
    requires k in Headers(lines, fieldSeparator)
    ensures exists i :: (0 <= i < |lines|
      && FieldLine(lines[i], fieldSeparator) == Some((k, Headers(lines, fieldSeparator)[k]))
      && forall j :: i < j < |lines| ==> !Names(lines[j], fieldSeparator, k))
  {
    var entries := Entries(lines, fieldSeparator);
    HeadersAsEntries(lines, fieldSeparator);
    MapOfLastWins(entries, k);
    var i :| 0 <= i < |entries| && entries[i] == Some((k, MapOf(entries)[k]))
      && forall j :: i < j < |entries| ==> !EntryNames(entries[j], k);
    assert forall j :: i < j < |lines| ==> (Names(lines[j], fieldSeparator, k) <==> EntryNames(entries[j], k));
  }

  // ---------------------------------------------------------------------------
  // The older copy

  /** Lines that are CRLF-free each give one piece when cut on CRLF, so none is recorded. */
  lemma {:induction false} LegacyHeadersOfFreeLines(lines: seq<string>)
    requires forall i :: 0 <= i < |lines| ==> !Contains(lines[i], CRLF)
    ensures Headers(lines, CRLF) == map[]
    decreases |lines|
  {
    if lines != [] {
      LegacyHeadersOfFreeLines(lines[..|lines| - 1]);
      SplitSingle(lines[|lines| - 1], CRLF);
    }
  }

  /** The two copies agree on everything except the header map. */
  lemma LegacyAgreesOnRequestLine(data: seq<byte>)
    ensures LegacyParse(data).Ok? <==> Parse(data).Ok?
    ensures LegacyParse(data).Ok? ==>
      LegacyParse(data).value == Parse(data).value.(headers := map[])
  {
  }

  /** A line holding one `": "` is kept by the current copy and dropped by the older one. */
  lemma LegacyDropsWellFormedField(data: seq<byte>, name: string, value: string)
    requires Parse(data).Ok?
    requires !Contains(name, HeaderKeyValueSeparator) && !Contains(value, HeaderKeyValueSeparator)
    requires |Lines(data)| == 2 && Lines(data)[1] == name + HeaderKeyValueSeparator + value
    ensures Parse(data).value.headers == map[FromRawValue(name) := value]
    ensures LegacyParse(data).value.headers == map[]
  {
    var lines := Lines(data);
    FieldLineOfParts(name, value);
    assert lines[1..] == [lines[1]];
    assert lines[1..][..0] == [];
    assert Headers(lines[1..], HeaderKeyValueSeparator) == map[][FromRawValue(name) := value];
    LegacyAgreesOnRequestLine(data);
  }
}
