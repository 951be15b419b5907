/** The manifest parser of `Session.load_collection` (cgls_land.py:84-123): the
    text of a collection's manifest is cut into lines, every line becomes one
    observation record, and the table is re-sorted after every append. */
module Manifest {
  import opened Wrappers
  import opened Text
  import opened Dates

  /** One row of the observation table. `rt` is the value of the `rt` column:
      a tag for a real-time product, None (NaN in the table) otherwise. `date`
      is a date key from the Dates module. */
  datatype Record = Record(
    name: string,
    intPath: string,
    fileName: string,
    url: string,
    sensor: string,
    version: string,
    rt: Option<string>,
    date: int)

  /** Why a line aborts the construction of the table. */
  datatype ParseError =
    | NoPathSegments  // the line holds no '/': os.path.join() is called with no argument
    | NoSensorToken   // the product name holds no '_': name_components[-2] is out of range
    | NoDateFound     // re.search found nothing: r[0] on None
    | InvalidDate     // pd.to_datetime refuses the matched text

  const RealTimeMarker: string := "-RT"

  /** The segments that `os.path.join(*exploded[-8:-1])` receives: up to seven
      segments, the last of them the product name. */
  function PathSegments(exploded: seq<string>): seq<string>
    requires |exploded| >= 2
  {
    exploded[if |exploded| >= 8 then |exploded| - 8 else 0 .. |exploded| - 1]
  }

  /** A line whose product name (its second-to-last '/'-segment) holds at least one '_'. */
  predicate Shaped(line: string)
  {
    var exploded := Split(line, '/');
    |exploded| >= 2 && |Split(exploded[|exploded| - 2], '_')| >= 2
  }

  /** `name_components[-2]`: the sensor is the second-to-last '_'-token of the product name. */
  function SensorOf(name: string): (sensor: string)
    requires |Split(name, '_')| >= 2
    ensures '_' !in sensor
  {
    var tokens := Split(name, '_');
    tokens[|tokens| - 2]
  }

  /** `name_components[-1][-5:]`: the version is the last (up to) five
      characters of the name, all inside its last '_'-token. */
  function VersionOf(name: string): (version: string)
    requires |Split(name, '_')| >= 2
    ensures |version| <= 5
  {
    var tokens := Split(name, '_');
    Suffix(tokens[|tokens| - 1], 5)
  }

  /** The `rt` column: `name_components[0][-3:]` for a name holding "-RT", NaN otherwise. */
  function TagOf(name: string): (rt: Option<string>)
    requires |Split(name, '_')| >= 2
    ensures rt.Some? <==> Contains(name, RealTimeMarker)
    ensures rt.Some? ==> '_' !in rt.value && |rt.value| <= 3 && EndsWith(Split(name, '_')[0], rt.value)
  {
    var first := Split(name, '_')[0];
    if Contains(name, RealTimeMarker) then
      assert forall c :: c in Suffix(first, 3) ==> c in first;
      Some(Suffix(first, 3))
    else None
  }

  /** The record built from the segments of a shaped line and its date. */
  function RecordOf(line: string, date: int): Record
    requires Shaped(line)
  {
    var exploded := Split(line, '/');
    var n := |exploded|;
    var name := exploded[n - 2];
    Record(name, PosixJoin(PathSegments(exploded)), exploded[n - 1], line,
           SensorOf(name), VersionOf(name), TagOf(name), date)
  }

  /** The body of the loop at cgls_land.py:88-102 for one manifest line. */
  function ParseLine(line: string): (r: Result<Record, ParseError>)
    ensures FindDate(line).None? ==> r.Err?
    ensures r.Ok? <==> Shaped(line) && FindDate(line).Some? && DateValue(line, FindDate(line).value).Some?
    ensures r.Ok? ==> r.value.url == line
    ensures r.Ok? ==> (r.value.rt.Some? <==> Contains(r.value.name, RealTimeMarker))
  {
    var exploded := Split(line, '/');
    if |exploded| < 2 then Err(NoPathSegments)
    else if |Split(exploded[|exploded| - 2], '_')| < 2 then Err(NoSensorToken)
    else
      match FindDate(line)
      case None => Err(NoDateFound)
      case Some(i) =>
        match DateValue(line, i)
        case None => Err(InvalidDate)
        case Some(date) => Ok(RecordOf(line, date))
  }

  /** A date match puts two '/' in the line, so it splits into at least three segments. */
  lemma {:induction false} DateGivesThreeSegments(line: string, i: nat)
    requires DateAt(line, i)
    ensures |Split(line, '/')| >= 3
  {
    SplitCount(line, '/');
    var a, b := line[..i + 5], line[i + 5..];
    assert line == a + b;
    assert a[i + 4] == '/' && b[2] == '/';
    assert multiset(line) == multiset(a) + multiset(b);
  }

  lemma {:induction false} EndsWithTrans(s: string, t: string, u: string)
    requires EndsWith(s, t) && EndsWith(t, u)
    ensures EndsWith(s, u)
  {
    assert s[|s| - |u|..] == t[|t| - |u|..];
  }

  /** The file name and the product name are the last two '/'-segments of the line. */
  lemma {:induction false} LastTwoSegments(line: string)
    requires |Split(line, '/')| >= 3
    ensures var exploded := Split(line, '/');
      EndsWith(line, "/" + exploded[|exploded| - 2] + "/" + exploded[|exploded| - 1])
  {
    var exploded := Split(line, '/');
    var n := |exploded|;
    SplitJoin(line, '/');
    JoinEndsWithRun(exploded, '/', n - 2);
    assert exploded[n - 2..n - 1] == [exploded[n - 2]];
  }

  /** The version is the last (up to) five characters of the last '_'-token. */
  lemma {:induction false} VersionOfName(name: string)
    requires |Split(name, '_')| >= 2
    ensures var v := VersionOf(name);
      '_' !in v && |v| <= 5 && EndsWith(name, v) && (|v| < 5 ==> EndsWith(name, "_" + v))
  {
    var tokens := Split(name, '_');
    var last := tokens[|tokens| - 1];
    var v := Suffix(last, 5);
    assert v == VersionOf(name);
    SplitJoin(name, '_');
    JoinEndsWithLast(tokens, '_');
    EndsWithTrans(name, last, v);
    assert forall c :: c in v ==> c in last;
    if |v| < 5 {
      assert v == last;
    }
  }

  /** The record of a line that parses is built from its segments and the date written at its first date match. */
  lemma {:induction false} ParsedRecord(line: string)
    requires ParseLine(line).Ok?
    ensures Shaped(line) && |Split(line, '/')| >= 3 && FindDate(line).Some?
    ensures DateValue(line, FindDate(line).value) == Some(ParseLine(line).value.date)
    ensures ParseLine(line).value == RecordOf(line, ParseLine(line).value.date)
  {
    DateGivesThreeSegments(line, FindDate(line).value);
  }

  /** A shaped line whose first date match converts is accepted, and its record
      carries the converted date. */
  lemma {:induction false} ParseLineOk(line: string)
    requires Shaped(line) && FindDate(line).Some? && DateValue(line, FindDate(line).value).Some?
    ensures ParseLine(line) == Ok(RecordOf(line, DateValue(line, FindDate(line).value).value))
  {
  }

  /** The file name and the product name are the last two '/'-segments of the
      line, and the local sub-path ends with the product name. */
  lemma {:induction false} ParseLinePath(line: string)
    requires ParseLine(line).Ok?
    ensures var rec := ParseLine(line).value;
      && '/' !in rec.name && '/' !in rec.fileName
      && EndsWith(line, "/" + rec.name + "/" + rec.fileName)
      && EndsWith(rec.intPath, rec.name)
  {
    ParsedRecord(line);
    var exploded := Split(line, '/');
    LastTwoSegments(line);
    PosixJoinEndsWithLast(PathSegments(exploded));
  }

  /** The sensor is the second-to-last '_'-token of the name, the version the
      last (up to) five characters of the last '_'-token, the real-time tag the
      last (up to) three characters of the first '_'-token, and the date is the
      one written at the first date match of the line. */
  lemma {:induction false} ParseLineFields(line: string)
    requires ParseLine(line).Ok?
    ensures var rec := ParseLine(line).value;
      var tokens := Split(rec.name, '_');
      && |tokens| >= 2 && rec.sensor == tokens[|tokens| - 2] && '_' !in rec.sensor
      && '_' !in rec.version && |rec.version| <= 5 && EndsWith(rec.name, rec.version)
      && (|rec.version| < 5 ==> EndsWith(rec.name, "_" + rec.version))
      && (rec.rt.Some? ==> '_' !in rec.rt.value && EndsWith(tokens[0], rec.rt.value) &&
                           |rec.rt.value| == if |tokens[0]| < 3 then |tokens[0]| else 3)
  {
    ParsedRecord(line);
    var date := ParseLine(line).value.date;
    RecordOfFields(line, date);
  }

  /** The name-derived fields of the record of a shaped line. */
  lemma {:induction false} RecordOfFields(line: string, date: int)
    requires Shaped(line)
    ensures var rec := RecordOf(line, date);
      var tokens := Split(rec.name, '_');
      && |tokens| >= 2 && rec.sensor == tokens[|tokens| - 2] && '_' !in rec.sensor
      && '_' !in rec.version && |rec.version| <= 5 && EndsWith(rec.name, rec.version)
      && (|rec.version| < 5 ==> EndsWith(rec.name, "_" + rec.version))
      && (rec.rt.Some? ==> '_' !in rec.rt.value && EndsWith(tokens[0], rec.rt.value) &&
                           |rec.rt.value| == if |tokens[0]| < 3 then |tokens[0]| else 3)
  {
    var exploded := Split(line, '/');
    NameFields(exploded[|exploded| - 2]);
  }

  lemma {:induction false} NameFields(name: string)
    requires |Split(name, '_')| >= 2
    ensures var tokens := Split(name, '_');
      var version := VersionOf(name);
      && SensorOf(name) == tokens[|tokens| - 2] && '_' !in SensorOf(name)
      && '_' !in version && |version| <= 5 && EndsWith(name, version)
      && (|version| < 5 ==> EndsWith(name, "_" + version))
      && (TagOf(name).Some? ==> '_' !in TagOf(name).value && EndsWith(tokens[0], TagOf(name).value) &&
                                |TagOf(name).value| == if |tokens[0]| < 3 then |tokens[0]| else 3)
  {
    VersionOfName(name);
    if TagOf(name).Some? {
      assert TagOf(name).value == Suffix(Split(name, '_')[0], 3);
    }
  }

  /** int_path is the seven '/'-segments of the URL that precede the file name,
      as they stand in the URL, whenever those segments are non-empty. */
  lemma {:induction false} IntPathSegments(line: string)
    requires ParseLine(line).Ok?
    requires |Split(line, '/')| >= 9
    requires forall i :: |Split(line, '/')| - 8 <= i < |Split(line, '/')| - 1 ==> |Split(line, '/')[i]| > 0
    ensures var e := Split(line, '/');
      ParseLine(line).value.intPath == JoinWith(e[|e| - 8..|e| - 1], '/')
    ensures var rec := ParseLine(line).value;
      EndsWith(line, "/" + rec.intPath + "/" + rec.fileName)
  {
    ParsedRecord(line);
    RecordOfIntPath(line, ParseLine(line).value.date);
  }

  /** The sub-path of the record of a shaped line is the seven '/'-segments
      before the file name, joined with '/', and stands in the line right before
      the file name. */
  lemma {:induction false} RecordOfIntPath(line: string, date: int)
    requires Shaped(line)
    requires |Split(line, '/')| >= 9
    requires forall i :: |Split(line, '/')| - 8 <= i < |Split(line, '/')| - 1 ==> |Split(line, '/')[i]| > 0
    ensures var e := Split(line, '/');
      RecordOf(line, date).intPath == JoinWith(e[|e| - 8..|e| - 1], '/')
    ensures var rec := RecordOf(line, date);
      EndsWith(line, "/" + rec.intPath + "/" + rec.fileName)
  {
    var e := Split(line, '/');
    assert PathSegments(e) == e[|e| - 8..|e| - 1];
    PosixJoinPlain(PathSegments(e));
    SegmentsBeforeLast(line);
  }

  lemma {:induction false} SegmentsBeforeLast(line: string)
    requires |Split(line, '/')| >= 9
    requires forall i :: |Split(line, '/')| - 8 <= i < |Split(line, '/')| - 1 ==> |Split(line, '/')[i]| > 0
    ensures var exploded := Split(line, '/');
      EndsWith(line, "/" + PosixJoin(PathSegments(exploded)) + "/" + exploded[|exploded| - 1])
  {
    SplitJoin(line, '/');
    RunBeforeLast(line, Split(line, '/'));
  }

  /** In a '/'-join of pieces, the seven pieces before the last, joined by
      `os.path.join`, stand right before the last piece. */
  lemma {:induction false} RunBeforeLast(line: string, parts: seq<string>)
    requires JoinWith(parts, '/') == line && |parts| >= 9
    requires forall i :: 0 <= i < |parts| ==> '/' !in parts[i]
    requires forall i :: |parts| - 8 <= i < |parts| - 1 ==> |parts[i]| > 0
    ensures EndsWith(line, "/" + PosixJoin(PathSegments(parts)) + "/" + parts[|parts| - 1])
  {
    var n := |parts|;
    var segs := PathSegments(parts);
    assert segs == parts[n - 8..n - 1];
    PosixJoinPlain(segs);
    JoinEndsWithRun(parts, '/', n - 8);
  }

  // ---------------------------------------------------------------------------
  // Lines

  /** `text.split('\n')[:-1]`: the lines the loop visits; the last piece is dropped. */
  function Lines(text: string): (r: seq<string>)
    ensures forall i :: 0 <= i < |r| ==> '\n' !in r[i]
  {
    var pieces := Split(text, '\n');
    pieces[..|pieces| - 1]
  }

  /** There is one line per newline character of the text. */
  lemma {:induction false} LinesCount(text: string)
    ensures |Lines(text)| == multiset(text)['\n']
  {
    SplitCount(text, '\n');
  }

  /** A text ending in a newline yields exactly its newline-separated lines. */
  lemma {:induction false} LinesOfTerminatedText(text: string)
    requires |text| > 0 && text[|text| - 1] == '\n'
    ensures Lines(text) == Split(text[..|text| - 1], '\n')
  {
    var body := text[..|text| - 1];
    assert text == body + ['\n'];
    SplitTerminated(body, '\n');
  }

  // ---------------------------------------------------------------------------
  // All lines

  /** The outcome of every line, in manifest order. */
  function Outcomes(lines: seq<string>): (r: seq<Result<Record, ParseError>>)
    ensures |r| == |lines|
  {
    if |lines| == 0 then [] else Outcomes(lines[..|lines| - 1]) + [ParseLine(lines[|lines| - 1])]
  }

  /** The outcome at position `i` is the parse of line `i`. */
  lemma {:induction false} OutcomeAt(lines: seq<string>, i: nat)
    requires i < |lines|
    ensures Outcomes(lines)[i] == ParseLine(lines[i])
    decreases |lines|
  {
    if i < |lines| - 1 {
      OutcomeAt(lines[..|lines| - 1], i);
    }
  }

  /** The records of all outcomes in order, or the error of the first failing one. */
  function Gather(outcomes: seq<Result<Record, ParseError>>): (r: Result<seq<Record>, ParseError>)
    ensures r.Ok? ==> |r.value| == |outcomes|
  {
    if |outcomes| == 0 then Ok([])
    else
      var init := outcomes[..|outcomes| - 1];
      match Gather(init)
      case Err(e) => Err(e)
      case Ok(rs) =>
        match outcomes[|outcomes| - 1]
        case Err(e) => Err(e)
        case Ok(x) => Ok(rs + [x])
  }

  /** The table's records in manifest order, or the error of the first line that fails. */
  function ParseAll(lines: seq<string>): Result<seq<Record>, ParseError>
  {
    Gather(Outcomes(lines))
  }

  /** Gathering succeeds exactly when every outcome is a record, and then
      yields those records in order. */
  lemma {:induction false} GatherAllOk(outcomes: seq<Result<Record, ParseError>>)
    ensures Gather(outcomes).Ok? <==> forall i :: 0 <= i < |outcomes| ==> outcomes[i].Ok?
    ensures Gather(outcomes).Ok? ==> forall i :: 0 <= i < |outcomes| ==> Gather(outcomes).value[i] == outcomes[i].value
  {
    if |outcomes| > 0 {
      var n := |outcomes| - 1;
      var init := outcomes[..n];
      GatherAllOk(init);
      assert forall i :: 0 <= i < n ==> init[i] == outcomes[i];
    }
  }

  /** A line that fails after lines that all parse decides the error of the whole manifest. */
  lemma {:induction false} GatherFirstError(outcomes: seq<Result<Record, ParseError>>, k: nat)
    requires k < |outcomes| && outcomes[k].Err?
    requires forall i :: 0 <= i < k ==> outcomes[i].Ok?
    ensures Gather(outcomes) == Err(outcomes[k].error)
  {
    var n := |outcomes| - 1;
    var init := outcomes[..n];
    assert forall i :: 0 <= i < n ==> init[i] == outcomes[i];
    if k == n {
      GatherAllOk(init);
    } else {
      GatherFirstError(init, k);
    }
  }

  /** A failed gathering carries the error of an outcome that follows only records. */
  lemma {:induction false} GatherError(outcomes: seq<Result<Record, ParseError>>)
    requires Gather(outcomes).Err?
    ensures exists k :: 0 <= k < |outcomes| && outcomes[k] == Err(Gather(outcomes).error) &&
                        forall i :: 0 <= i < k ==> outcomes[i].Ok?
  {
    var n := |outcomes| - 1;
    var init := outcomes[..n];
    assert forall i :: 0 <= i < n ==> init[i] == outcomes[i];
    if Gather(init).Err? {
      GatherError(init);
      var k :| 0 <= k < n && init[k] == Err(Gather(init).error) && forall i :: 0 <= i < k ==> init[i].Ok?;
      assert outcomes[k] == Err(Gather(outcomes).error);
    } else {
      GatherAllOk(init);
      assert outcomes[n] == Err(Gather(outcomes).error);
    }
  }

  /** A line without a date aborts the whole manifest: no table is built. */
  lemma {:induction false} MissingDateAborts(lines: seq<string>, k: nat)
    requires k < |lines| && FindDate(lines[k]).None?
    ensures ParseAll(lines).Err?
  {
    OutcomeAt(lines, k);
    GatherAllOk(Outcomes(lines));
  }

  // ---------------------------------------------------------------------------
  // Order of the table

  /** `sort_values(by=['date'])` or `sort_values(by=['date', 'rt'])`. */
  datatype SortKey = ByDate | ByDateRt

  /** Order of the `rt` column: tags ascending as strings, NaN (no tag) last. */
  predicate RtLe(a: Option<string>, b: Option<string>)
  {
    match a
    case None => b.None?
    case Some(x) => b.None? || StrLe(x, b.value)
  }

  predicate KeyLe(x: Record, y: Record, key: SortKey)
  {
    x.date < y.date || (x.date == y.date && (key == ByDate || RtLe(x.rt, y.rt)))
  }

  predicate SortedBy(t: seq<Record>, key: SortKey)
  {
    forall i, j :: 0 <= i < j < |t| ==> KeyLe(t[i], t[j], key)
  }

  lemma {:induction false} KeyLeTotal(x: Record, y: Record, key: SortKey)
    ensures KeyLe(x, y, key) || KeyLe(y, x, key)
  {
    if x.rt.Some? && y.rt.Some? {
      StrLeTotal(x.rt.value, y.rt.value);
    }
  }

  lemma {:induction false} KeyLeTrans(x: Record, y: Record, z: Record, key: SortKey)
    requires KeyLe(x, y, key) && KeyLe(y, z, key)
    ensures KeyLe(x, z, key)
  {
    if x.rt.Some? && y.rt.Some? && z.rt.Some? {
      if StrLe(x.rt.value, y.rt.value) && StrLe(y.rt.value, z.rt.value) {
        StrLeTrans(x.rt.value, y.rt.value, z.rt.value);
      }
    }
  }

  /** Sorted by (date, rt) is in particular sorted by date. */
  lemma {:induction false} SortedByDateRtByDate(t: seq<Record>)
    requires SortedBy(t, ByDateRt)
    ensures SortedBy(t, ByDate)
  {
  }

  /** `x` placed before the first row it is not greater than. */
  function Insert(x: Record, t: seq<Record>, key: SortKey): (r: seq<Record>)
    ensures |r| == |t| + 1
  {
    if |t| == 0 || KeyLe(x, t[0], key) then [x] + t
    else [t[0]] + Insert(x, t[1..], key)
  }

  /** The sort the model uses in place of pandas' `sort_values`: an insertion sort. */
  function SortBy(t: seq<Record>, key: SortKey): (r: seq<Record>)
    ensures |r| == |t|
  {
    if |t| == 0 then []
    else Insert(t[0], SortBy(t[1..], key), key)
  }

  lemma {:induction false} InsertPermutation(x: Record, t: seq<Record>, key: SortKey)
    ensures |Insert(x, t, key)| == |t| + 1
    ensures multiset(Insert(x, t, key)) == multiset(t) + multiset{x}
    decreases |t|
  {
    if |t| > 0 && !KeyLe(x, t[0], key) {
      InsertPermutation(x, t[1..], key);
      assert t == [t[0]] + t[1..];
    }
  }

  /** Sorting keeps every row: the result is a permutation of the input. */
  lemma {:induction false} SortByPermutation(t: seq<Record>, key: SortKey)
    ensures |SortBy(t, key)| == |t|
    ensures multiset(SortBy(t, key)) == multiset(t)
    decreases |t|
  {
    if |t| > 0 {
      var rest := SortBy(t[1..], key);
      SortByPermutation(t[1..], key);
      InsertPermutation(t[0], rest, key);
      assert SortBy(t, key) == Insert(t[0], rest, key);
      assert t == [t[0]] + t[1..];
      assert multiset(t) == multiset(t[1..]) + multiset{t[0]};
    }
  }

  lemma {:induction false} InsertSorted(x: Record, t: seq<Record>, key: SortKey)
    requires SortedBy(t, key)
    ensures SortedBy(Insert(x, t, key), key)
    decreases |t|
  {
    if |t| == 0 {
    } else if KeyLe(x, t[0], key) {
      forall j | 0 <= j < |t|
        ensures KeyLe(x, t[j], key)
      {
        if j > 0 {
          KeyLeTrans(x, t[0], t[j], key);
        }
      }
    } else {
      KeyLeTotal(x, t[0], key);
      InsertSorted(x, t[1..], key);
      InsertPermutation(x, t[1..], key);
      var rest := Insert(x, t[1..], key);
      forall j | 0 <= j < |rest|
        ensures KeyLe(t[0], rest[j], key)
      {
        assert rest[j] in multiset(rest);
        if rest[j] != x {
          assert rest[j] in multiset(t[1..]);
          assert rest[j] in t[1..];
        }
      }
    }
  }

  lemma {:induction false} SortBySorted(t: seq<Record>, key: SortKey)
    ensures SortedBy(SortBy(t, key), key)
    decreases |t|
  {
    if |t| > 0 {
      SortBySorted(t[1..], key);
      InsertSorted(t[0], SortBy(t[1..], key), key);
    }
  }

  // ---------------------------------------------------------------------------
  // Building the table

  /** The key of the sort that follows the append of `rec`: by (date, rt)
      when the appended record is real-time, by date otherwise. */
  function KeyAfter(rec: Record): SortKey
  {
    if rec.rt.Some? then ByDateRt else ByDate
  }

  /** The table after appending the records one by one, re-sorting after each append. */
  function Table(records: seq<Record>): (r: seq<Record>)
    ensures |r| == |records|
  {
    if |records| == 0 then []
    else
      var last := records[|records| - 1];
      SortBy(Table(records[..|records| - 1]) + [last], KeyAfter(last))
  }

  /** The table holds exactly the appended records: one row per record, none lost or duplicated. */
  lemma {:induction false} TablePermutation(records: seq<Record>)
    ensures |Table(records)| == |records|
    ensures multiset(Table(records)) == multiset(records)
  {
    if |records| > 0 {
      var n := |records|;
      TablePermutation(records[..n - 1]);
      SortByPermutation(Table(records[..n - 1]) + [records[n - 1]], KeyAfter(records[n - 1]));
      assert records == records[..n - 1] + [records[n - 1]];
    }
  }

  /** The table is sorted by date, and by (date, rt) when the last appended record is real-time. */
  lemma {:induction false} TableSorted(records: seq<Record>)
    ensures SortedBy(Table(records), ByDate)
    ensures |records| > 0 && records[|records| - 1].rt.Some? ==> SortedBy(Table(records), ByDateRt)
  {
    if |records| > 0 {
      var n := |records|;
      var last := records[n - 1];
      SortBySorted(Table(records[..n - 1]) + [last], KeyAfter(last));
      if last.rt.Some? {
        SortedByDateRtByDate(Table(records));
      }
    }
  }

  /** `'-RT' in name` for the line: the line parses and describes a real-time product. */
  predicate RealTimeLine(line: string)
  {
    ParseLine(line).Ok? && ParseLine(line).value.rt.Some?
  }

  /** The loop of `load_collection`: every line is parsed and appended, and the
      table is re-sorted after each append. The result is the table of the
      records of all lines, or the error of the first line that fails. */
  method BuildTable(text: string) returns (r: Result<seq<Record>, ParseError>)
    ensures r.Ok? <==> ParseAll(Lines(text)).Ok?
    ensures r.Err? ==> r.error == ParseAll(Lines(text)).error
    ensures r.Ok? ==> r.value == Table(ParseAll(Lines(text)).value)
  {
    var lines := Lines(text);
    ghost var outcomes := Outcomes(lines);
    assert ParseAll(lines) == Gather(outcomes);
    var table: seq<Record> := [];
    ghost var done: seq<Record> := [];
    var i := 0;
    while i < |lines|
      invariant 0 <= i <= |lines|
      invariant Gather(outcomes[..i]) == Ok(done)
      invariant table == Table(done)
    {
      var parsed := ParseLine(lines[i]);
      OutcomeAt(lines, i);
      match parsed
      case Err(e) =>
        GatherErrorAfterOk(outcomes, i);
        return Err(e);
      case Ok(rec) =>
        GatherStep(outcomes, i);
        TableStep(done, rec);
        done := done + [rec];
        if rec.rt.Some? {
          table := SortBy(table + [rec], ByDateRt);
        } else {
          table := SortBy(table + [rec], ByDate);
        }
        i := i + 1;
    }
    assert outcomes[..i] == outcomes;
    r := Ok(table);
  }

  /** One more record: appended to the table, then the table is re-sorted. */
  lemma {:induction false} TableStep(records: seq<Record>, rec: Record)
    ensures Table(records + [rec]) == SortBy(Table(records) + [rec], KeyAfter(rec))
  {
    assert (records + [rec])[..|records|] == records;
  }

  /** A failing outcome after a prefix that gathers decides the error. */
  lemma {:induction false} GatherErrorAfterOk(outcomes: seq<Result<Record, ParseError>>, k: nat)
    requires k < |outcomes| && outcomes[k].Err? && Gather(outcomes[..k]).Ok?
    ensures Gather(outcomes) == Err(outcomes[k].error)
  {
    GatherAllOk(outcomes[..k]);
    assert forall i :: 0 <= i < k ==> outcomes[..k][i] == outcomes[i];
    GatherFirstError(outcomes, k);
  }

  /** One more line that parses appends its record to the gathered ones. */
  lemma {:induction false} GatherStep(outcomes: seq<Result<Record, ParseError>>, i: nat)
    requires i < |outcomes| && Gather(outcomes[..i]).Ok? && outcomes[i].Ok?
    ensures Gather(outcomes[..i + 1]) == Ok(Gather(outcomes[..i]).value + [outcomes[i].value])
  {
    assert outcomes[..i + 1][..i] == outcomes[..i];
  }

  /** What `load_collection` builds from a manifest: one row per line, the
      records of the lines up to order, sorted by date, and by (date, rt) when
      the last line is real-time. */
  lemma {:induction false} TableOfManifest(text: string)
    requires ParseAll(Lines(text)).Ok?
    ensures var t := Table(ParseAll(Lines(text)).value);
      var lines := Lines(text);
      && |t| == |lines| == multiset(text)['\n']
      && multiset(t) == multiset(ParseAll(lines).value)
      && SortedBy(t, ByDate)
      && (|lines| > 0 && RealTimeLine(lines[|lines| - 1]) ==> SortedBy(t, ByDateRt))
  {
    var lines := Lines(text);
    var records := ParseAll(lines).value;
    LinesCount(text);
    TablePermutation(records);
    TableSorted(records);
  }
}
