/** The dependency-free record model and store used by the plain command-line
    front end. Fields hold whatever JSON value the file had; construction only
    insists on `company` and `role` being present. */
module SimpleCli {
  import opened Wrappers
  import opened Seqs
  import opened Naming
  import opened JsonValues
  import Storage

  /** The sixteen attributes of a record, which `to_dict` writes as keys. */
  const FieldKeys: set<string> := {
    "company", "role", "timestamp", "recruiter_name", "recruiter_contact",
    "job_description", "resume_text", "cover_letter_text", "notes",
    "next_steps", "company_link", "source", "active", "interest_level",
    "status", "interactions"}

  /** One value per attribute. */
  type Attributes = m: map<string, Json> | m.Keys == FieldKeys
    witness map k | k in FieldKeys :: JNull

  /** A record: every attribute holds whatever JSON value it was given. */
  datatype SimpleOpportunity = SimpleOpportunity(attrs: Attributes) {
    function Company(): Json { attrs["company"] }
    function Role(): Json { attrs["role"] }
    function Timestamp(): Json { attrs["timestamp"] }
    function Active(): Json { attrs["active"] }
    function InterestLevel(): Json { attrs["interest_level"] }
  }

  /** The value a missing keyword argument gets. */
  function Default(k: string, now: string): Json {
    if k == "timestamp" then JStr(now)
    else if k == "active" then JBool(true)
    else if k == "interest_level" then JInt(3)
    else if k == "interactions" then JArr([])
    else JNull
  }

  /** `to_dict()` */
  function ToDict(o: SimpleOpportunity): (r: map<string, Json>)
    ensures r.Keys == FieldKeys
    ensures r["company"] == o.Company() && r["role"] == o.Role() && r["timestamp"] == o.Timestamp()
  {
    o.attrs
  }

  /** Why `cls(**data)` raises. */
  datatype ConstructError =
    | MissingArgument   // `company` or `role` absent
    | SelfTwice         // a `self` key clashes with the bound instance

  /** `from_dict(data)`, i.e. `SimpleJobOpportunity(**data)`; unknown keys are
      swallowed by `**kwargs`. `now` is the clock read for a missing timestamp. */
  function FromDict(d: map<string, Json>, now: string): (r: Result<SimpleOpportunity, ConstructError>)
    ensures r.Success? <==> "company" in d && "role" in d && "self" !in d
    ensures r.Success? ==> r.value.Company() == d["company"] && r.value.Role() == d["role"]
    ensures r.Success? ==> forall k :: k in FieldKeys && k in d ==> r.value.attrs[k] == d[k]
    ensures r.Success? ==> forall k :: k in FieldKeys && k !in d ==> r.value.attrs[k] == Default(k, now)
  {
    if "self" in d then Failure(SelfTwice)
    else if "company" !in d || "role" !in d then Failure(MissingArgument)
    else Success(SimpleOpportunity(map k | k in FieldKeys :: Get(d, k, Default(k, now))))
  }

  /** The documented defaults of a record built from an empty keyword set. */
  lemma Defaults(company: Json, role: Json, now: string)
    ensures var o := FromDict(map["company" := company, "role" := role], now).value;
      && o.Active() == JBool(true) && o.InterestLevel() == JInt(3)
      && o.attrs["interactions"] == JArr([]) && o.Timestamp() == JStr(now)
      && o.attrs["status"] == JNull && o.attrs["recruiter_name"] == JNull
  {
  }

  /** Reading back what was written gives the same record, whatever the clock. */
  lemma FromDictOfToDict(o: SimpleOpportunity, now: string)
    ensures FromDict(ToDict(o), now) == Success(o)
  {
    var d := ToDict(o);
    assert "self" !in FieldKeys;
    assert FromDict(d, now).value.attrs == o.attrs;
  }

  /** Writing a constructed record keeps every known key's value and fills the
      rest with the defaults. */
  lemma ToDictOfFromDict(d: map<string, Json>, now: string)
    requires FromDict(d, now).Success?
    ensures ToDict(FromDict(d, now).value).Keys == FieldKeys
    ensures forall k :: k in d && k in FieldKeys ==> ToDict(FromDict(d, now).value)[k] == d[k]
    ensures forall k :: k !in d && k in FieldKeys ==> ToDict(FromDict(d, now).value)[k] == Default(k, now)
  {
  }

  // ---------------------------------------------------------------------------
  // The store

  /** File name to decoded JSON content, or `None` when the file is not JSON. */
  type SimpleDir = map<string, Option<Json>>

  /** `load_opportunity`: the file holds a JSON object the constructor accepts. */
  function LoadSimple(dir: SimpleDir, name: string, now: string): (r: Option<SimpleOpportunity>)
    ensures r.Some? <==> (
      && name in dir && dir[name].Some? && dir[name].value.JObj?
      && FromDict(dir[name].value.fields, now).Success?)
    ensures r.Some? ==> r.value == FromDict(dir[name].value.fields, now).value
  {
    if name in dir && dir[name].Some? && dir[name].value.JObj? then
      match FromDict(dir[name].value.fields, now)
      case Success(o) => Some(o)
      case Failure(_) => None
    else None
  }

  datatype SaveError = NameNotText   // `.lower()` on a company or role that is not a string

  /** `save_opportunity(o)` at the minute `minute`: the name chosen and the
      directory afterwards. */
  function SaveSimple(dir: SimpleDir, o: SimpleOpportunity, minute: string): (r: Result<(string, SimpleDir), SaveError>)
    ensures r.Success? <==> o.Company().JStr? && o.Role().JStr?
    ensures r.Success? ==> r.value.0 !in dir
    ensures r.Success? ==> r.value.0 == ResolveName(dir.Keys, Stem(o.Company().s, o.Role().s, minute))
    ensures r.Success? ==> r.value.1.Keys == dir.Keys + {r.value.0}
    ensures r.Success? ==> forall n :: n in dir ==> r.value.1[n] == dir[n]
  {
    if !o.Company().JStr? || !o.Role().JStr? then Failure(NameNotText)
    else
      var name := ResolveName(dir.Keys, Stem(o.Company().s, o.Role().s, minute));
      Success((name, dir[name := Some(JObj(ToDict(o)))]))
  }

  /** A saved record loads back unchanged. */
  lemma SaveThenLoadSimple(dir: SimpleDir, o: SimpleOpportunity, minute: string, now: string)
    requires SaveSimple(dir, o, minute).Success?
    ensures var (name, dir') := SaveSimple(dir, o, minute).value;
      LoadSimple(dir', name, now) == Some(o)
  {
    FromDictOfToDict(o, now);
  }

  /** A listing row. */
  datatype Row = Row(filename: string, company: Json, role: Json, interestLevel: Json, active: Json, timestamp: Json)

  function RowOf(filename: string, o: SimpleOpportunity): Row {
    Row(filename, o.Company(), o.Role(), o.InterestLevel(), o.Active(), o.Timestamp())
  }

  /** A row the listing should show. */
  predicate ListedRow(dir: SimpleDir, now: string, row: Row) {
    && Storage.IsJsonName(row.filename)
    && LoadSimple(dir, row.filename, now).Some?
    && row == RowOf(row.filename, LoadSimple(dir, row.filename, now).value)
  }

  function Filenames(rows: seq<Row>): seq<string> {
    seq(|rows|, i requires 0 <= i < |rows| => rows[i].filename)
  }

  lemma ConsSubsequence(row: Row, rest: seq<Row>, order: seq<string>)
    requires |order| > 0 && row.filename == order[0]
    requires IsSubsequence(Filenames(rest), order[1..])
    ensures IsSubsequence(Filenames([row] + rest), order)
  {
    assert Filenames([row] + rest)[1..] == Filenames(rest);
  }

  /** The loadable `*.json` files in enumeration order. */
  function LoadedRows(dir: SimpleDir, order: seq<string>, now: string): (r: seq<Row>)
    ensures IsSubsequence(Filenames(r), order)
  {
    if |order| == 0 then []
    else
      var rest := LoadedRows(dir, order[1..], now);
      var here := LoadSimple(dir, order[0], now);
      if Storage.IsJsonName(order[0]) && here.Some? then
        ConsSubsequence(RowOf(order[0], here.value), rest, order);
        [RowOf(order[0], here.value)] + rest
      else
        SubsequenceOfTail(Filenames(rest), order);
        rest
  }

  /** Every row is a loadable `*.json` file as it loads. */
  lemma {:induction false} LoadedRowsListed(dir: SimpleDir, order: seq<string>, now: string)
    ensures forall i :: 0 <= i < |LoadedRows(dir, order, now)| ==> ListedRow(dir, now, LoadedRows(dir, order, now)[i])
  {
    if |order| > 0 {
      LoadedRowsListed(dir, order[1..], now);
    }
  }

  /** No loadable `*.json` file of the enumeration is missed. */
  lemma {:induction false} LoadedRowsCover(dir: SimpleDir, order: seq<string>, now: string)
    ensures forall n :: n in order && Storage.IsJsonName(n) && LoadSimple(dir, n, now).Some? ==>
      RowOf(n, LoadSimple(dir, n, now).value) in LoadedRows(dir, order, now)
  {
    if |order| > 0 {
      LoadedRowsCover(dir, order[1..], now);
      assert forall n :: n in order && n != order[0] ==> n in order[1..];
    }
  }

  /** A file enumerated once is listed at most once. */
  lemma LoadedRowsDistinct(dir: SimpleDir, order: seq<string>, now: string)
    requires NoDup(order)
    ensures var r := LoadedRows(dir, order, now);
      forall i, j :: 0 <= i < j < |r| ==> r[i].filename != r[j].filename
  {
    var r := LoadedRows(dir, order, now);
    SubsequenceNoDup(Filenames(r), order);
    assert forall i :: 0 <= i < |r| ==> Filenames(r)[i] == r[i].filename;
  }

  // Python's `<` on the timestamp values: strings compare by code points,
  // integers and booleans numerically; anything else raises.

  /** `a <= b` on strings: `a` is a prefix of `b` or smaller at the first difference. */
  predicate LexLe(a: string, b: string) {
    |a| == 0 || (|b| > 0 && (a[0] < b[0] || (a[0] == b[0] && LexLe(a[1..], b[1..]))))
  }

  lemma {:induction false} LexTotal(a: string, b: string)
    ensures LexLe(a, b) || LexLe(b, a)
  {
    if |a| > 0 && |b| > 0 && a[0] == b[0] {
      LexTotal(a[1..], b[1..]);
    }
  }

  lemma {:induction false} LexTransitive(a: string, b: string, c: string)
    requires LexLe(a, b) && LexLe(b, c)
    ensures LexLe(a, c)
  {
    if |a| > 0 && a[0] == b[0] && b[0] == c[0] {
      LexTransitive(a[1..], b[1..], c[1..]);
    }
  }

  function TextKey(r: Row): string {
    if r.timestamp.JStr? then r.timestamp.s else ""
  }

  function NumberKey(r: Row): int {
    NumberOf(r.timestamp)
  }

  predicate TextNewerOrSame(a: Row, b: Row) {
    LexLe(TextKey(b), TextKey(a))
  }

  predicate NumberNewerOrSame(a: Row, b: Row) {
    NumberKey(a) >= NumberKey(b)
  }

  lemma TextNewerOrSameIsPreorder()
    ensures TotalPreorder(TextNewerOrSame)
  {
    forall a: Row, b: Row ensures TextNewerOrSame(a, b) || TextNewerOrSame(b, a) {
      LexTotal(TextKey(a), TextKey(b));
    }
    forall a: Row, b: Row, c: Row | TextNewerOrSame(a, b) && TextNewerOrSame(b, c)
      ensures TextNewerOrSame(a, c)
    {
      LexTransitive(TextKey(c), TextKey(b), TextKey(a));
    }
  }

  lemma NumberNewerOrSameIsPreorder()
    ensures TotalPreorder(NumberNewerOrSame)
  {
  }

  /** Python compares and adds integers and booleans (`True` is 1) as numbers. */
  predicate IsNumber(j: Json) {
    j.JInt? || j.JBool?
  }

  /** The number a value stands for; `0` for values that are not numbers. */
  function NumberOf(j: Json): int {
    match j
    case JInt(i) => i
    case JBool(b) => if b then 1 else 0
    case _ => 0
  }

  predicate AllText(rows: seq<Row>) {
    forall i :: 0 <= i < |rows| ==> rows[i].timestamp.JStr?
  }

  predicate AllNumbers(rows: seq<Row>) {
    forall i :: 0 <= i < |rows| ==> IsNumber(rows[i].timestamp)
  }

  datatype ListError = Incomparable   // the sort compared timestamps of kinds Python cannot order

  /** `rows.sort(key=timestamp, reverse=True)` */
  function SortRows(rows: seq<Row>): (r: Result<seq<Row>, ListError>)
    ensures r.Failure? <==> |rows| >= 2 && !AllText(rows) && !AllNumbers(rows)
    ensures r.Success? ==> multiset(r.value) == multiset(rows)
    ensures r.Success? && AllText(rows) ==>
      forall i, j :: 0 <= i < j < |r.value| ==> TextNewerOrSame(r.value[i], r.value[j])
    ensures r.Success? && AllNumbers(rows) ==>
      forall i, j :: 0 <= i < j < |r.value| ==> NumberNewerOrSame(r.value[i], r.value[j])
  {
    if |rows| < 2 then
      Success(rows)
    else if AllText(rows) then
      TextNewerOrSameIsPreorder();
      SortDescSorted(rows, TextNewerOrSame);
      Success(SortDesc(rows, TextNewerOrSame))
    else if AllNumbers(rows) then
      NumberNewerOrSameIsPreorder();
      SortDescSorted(rows, NumberNewerOrSame);
      Success(SortDesc(rows, NumberNewerOrSame))
    else Failure(Incomparable)
  }

  /** `list_opportunities()`: every loadable `*.json` file once, newest
      timestamp first. */
  function ListSimple(dir: SimpleDir, order: seq<string>, now: string): (r: Result<seq<Row>, ListError>)
    requires IsEnumeration(dir, order)
    ensures r.Failure? <==> (
      var rows := LoadedRows(dir, order, now);
      |rows| >= 2 && !AllText(rows) && !AllNumbers(rows))
    ensures r.Success? ==> forall i :: 0 <= i < |r.value| ==> ListedRow(dir, now, r.value[i])
    ensures r.Success? ==> forall i, j :: 0 <= i < j < |r.value| ==> r.value[i].filename != r.value[j].filename
    ensures r.Success? ==> forall n :: n in dir && Storage.IsJsonName(n) && LoadSimple(dir, n, now).Some? ==>
      RowOf(n, LoadSimple(dir, n, now).value) in r.value
    ensures r.Success? && AllText(r.value) ==>
      forall i, j :: 0 <= i < j < |r.value| ==> LexLe(r.value[j].timestamp.s, r.value[i].timestamp.s)
    ensures r.Success? && AllNumbers(r.value) ==>
      forall i, j :: 0 <= i < j < |r.value| ==> NumberKey(r.value[i]) >= NumberKey(r.value[j])
  {
    var rows := LoadedRows(dir, order, now);
    var r := SortRows(rows);
    if r.Success? then
      SortedListing(dir, order, now, rows, r.value);
      SortedDistinct(dir, order, now, rows, r.value);
      r
    else r
  }

  /** What a successful sort of the loaded rows gives `ListSimple`. */
  lemma SortedListing(dir: SimpleDir, order: seq<string>, now: string, rows: seq<Row>, sorted: seq<Row>)
    requires IsEnumeration(dir, order) && rows == LoadedRows(dir, order, now)
    requires SortRows(rows) == Success(sorted)
    ensures forall i :: 0 <= i < |sorted| ==> ListedRow(dir, now, sorted[i])
    ensures forall n :: n in dir && Storage.IsJsonName(n) && LoadSimple(dir, n, now).Some? ==>
      RowOf(n, LoadSimple(dir, n, now).value) in sorted
    ensures AllText(sorted) ==>
      forall i, j :: 0 <= i < j < |sorted| ==> LexLe(sorted[j].timestamp.s, sorted[i].timestamp.s)
    ensures AllNumbers(sorted) ==>
      forall i, j :: 0 <= i < j < |sorted| ==> NumberKey(sorted[i]) >= NumberKey(sorted[j])
  {
    RowsMembers(dir, order, now, rows, sorted);
    if AllText(sorted) {
      forall i, j | 0 <= i < j < |sorted|
        ensures LexLe(sorted[j].timestamp.s, sorted[i].timestamp.s)
      {
        assert TextNewerOrSame(sorted[i], sorted[j]);
      }
    }
  }

  /** A listed row is determined by its file name, so a reordering of the
      distinct loaded rows keeps the names distinct. */
  lemma SortedDistinct(dir: SimpleDir, order: seq<string>, now: string, rows: seq<Row>, sorted: seq<Row>)
    requires IsEnumeration(dir, order) && rows == LoadedRows(dir, order, now)
    requires multiset(sorted) == multiset(rows)
    requires forall i :: 0 <= i < |sorted| ==> ListedRow(dir, now, sorted[i])
    ensures forall i, j :: 0 <= i < j < |sorted| ==> sorted[i].filename != sorted[j].filename
  {
    LoadedRowsDistinct(dir, order, now);
    assert NoDup(rows);
    NoDupPermutation(rows, sorted);
    forall i, j | 0 <= i < j < |sorted|
      ensures sorted[i].filename != sorted[j].filename
    {
      assert ListedRow(dir, now, sorted[i]) && ListedRow(dir, now, sorted[j]);
    }
  }

  lemma RowsMembers(dir: SimpleDir, order: seq<string>, now: string, rows: seq<Row>, sorted: seq<Row>)
    requires IsEnumeration(dir, order) && rows == LoadedRows(dir, order, now)
    requires multiset(sorted) == multiset(rows)
    ensures forall i :: 0 <= i < |sorted| ==> ListedRow(dir, now, sorted[i])
    ensures forall n :: n in dir && Storage.IsJsonName(n) && LoadSimple(dir, n, now).Some? ==>
      RowOf(n, LoadSimple(dir, n, now).value) in sorted
    ensures AllText(sorted) ==> AllText(rows)
    ensures AllNumbers(sorted) ==> AllNumbers(rows)
  {
    PermutationMembers(rows, sorted);
    LoadedRowsListed(dir, order, now);
    forall i | 0 <= i < |sorted|
      ensures ListedRow(dir, now, sorted[i])
    {
      var k :| 0 <= k < |rows| && rows[k] == sorted[i];
    }
    forall i | 0 <= i < |rows|
      ensures AllText(sorted) ==> rows[i].timestamp.JStr?
      ensures AllNumbers(sorted) ==> IsNumber(rows[i].timestamp)
    {
      var k :| 0 <= k < |sorted| && sorted[k] == rows[i];
    }
    LoadedRowsCover(dir, order, now);
    forall n | n in dir && Storage.IsJsonName(n) && LoadSimple(dir, n, now).Some?
      ensures RowOf(n, LoadSimple(dir, n, now).value) in sorted
    {
      var row := RowOf(n, LoadSimple(dir, n, now).value);
      assert row in rows;
      var m :| 0 <= m < |rows| && rows[m] == row;
    }
  }

  /** What `show_stats()` reports: the counts and the sum of the interest
      levels (whose average it prints), or why it reports none. */
  datatype SimpleStats = SimpleStats(total: nat, active: nat, inactive: int, interestSum: int)

  datatype StatsReport =
    | NoOpportunities        // the listing is empty
    | InterestNotNumber      // `sum` over the interest levels raises TypeError
    | Report(stats: SimpleStats)

  predicate RowActive(r: Row) {
    Truthy(r.active)
  }

  predicate RowInactive(r: Row) {
    !Truthy(r.active)
  }

  predicate InterestIsNumber(r: Row) {
    IsNumber(r.interestLevel)
  }

  /** `sum(opp['interest_level'] for opp in rows)`, counting values that are
      not numbers as `0`. */
  function InterestSum(rows: seq<Row>): int {
    if |rows| == 0 then 0 else NumberOf(rows[0].interestLevel) + InterestSum(rows[1..])
  }

  /** Interest levels within `lo..hi` keep the sum within `lo` and `hi` times
      the row count, so the printed average lies within `lo..hi`. */
  lemma {:induction false} InterestSumBounds(rows: seq<Row>, lo: int, hi: int)
    requires forall i :: 0 <= i < |rows| ==> rows[i].interestLevel.JInt? && lo <= rows[i].interestLevel.i <= hi
    ensures lo * |rows| <= InterestSum(rows) <= hi * |rows|
  {
    if |rows| > 0 {
      InterestSumBounds(rows[1..], lo, hi);
      assert lo * |rows| == lo + lo * |rows[1..]|;
      assert hi * |rows| == hi + hi * |rows[1..]|;
    }
  }

  /** `show_stats()` over a listing. */
  function ShowStats(rows: seq<Row>): (r: StatsReport)
    ensures r.NoOpportunities? <==> |rows| == 0
    ensures r.InterestNotNumber? <==> |rows| > 0 && exists i :: 0 <= i < |rows| && !IsNumber(rows[i].interestLevel)
    ensures r.Report? ==> forall i :: 0 <= i < |rows| ==> IsNumber(rows[i].interestLevel)
    ensures r.Report? ==> r.stats.total == |rows| && r.stats.active <= r.stats.total
    ensures r.Report? ==> r.stats.active == Count(rows, RowActive)
    ensures r.Report? ==> r.stats.inactive == r.stats.total - r.stats.active == Count(rows, RowInactive)
    ensures r.Report? ==> r.stats.interestSum == InterestSum(rows)
  {
    if |rows| == 0 then NoOpportunities
    else
      CountAll(rows, InterestIsNumber);
      if Count(rows, InterestIsNumber) < |rows| then InterestNotNumber
      else
        var active := Count(rows, RowActive);
        CountComplement(rows, RowActive, RowInactive);
        Report(SimpleStats(|rows|, active, |rows| - active, InterestSum(rows)))
  }
}
