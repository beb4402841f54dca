/** The record store: one JSON file per opportunity in a data directory.
    The directory is a finite map from file name to its content, `None`
    standing for a file that cannot be parsed; the order in which the
    file system enumerates the directory is a parameter. */
module Storage {
  import opened Wrappers
  import opened Text
  import opened Seqs
  import opened Models
  import opened Naming

  type Directory = map<string, Option<Opportunity>>

  /** `load_opportunity`: the file parses and the record passes construction-time
      validation, or loading raises (`None`). */
  function Load(dir: Directory, name: string): (r: Option<Opportunity>)
    ensures r.Some? ==> name in dir && dir[name] == r && Valid(r.value)
    ensures name in dir && dir[name].Some? && Valid(dir[name].value) ==> r == dir[name]
  {
    if name in dir && dir[name].Some? && Valid(dir[name].value) then dir[name] else None
  }

  /** `glob("*.json")` matches the name. */
  predicate IsJsonName(name: string) {
    |name| >= 5 && name[|name| - 5..] == ".json"
  }

  /** A listing row: the file name and the record it holds. */
  datatype Entry = Entry(filename: string, opp: Opportunity)

  /** A record the listing should show. */
  predicate Listed(dir: Directory, e: Entry) {
    IsJsonName(e.filename) && Load(dir, e.filename) == Some(e.opp)
  }

  /** The file names of a listing, in listing order. */
  function EntryNames(l: seq<Entry>): (names: seq<string>)
    ensures |names| == |l| && forall i :: 0 <= i < |l| ==> names[i] == l[i].filename
  {
    seq(|l|, i requires 0 <= i < |l| => l[i].filename)
  }

  /** The loadable `*.json` files in enumeration order. */
  function Loaded(dir: Directory, order: seq<string>): (r: seq<Entry>)
    ensures forall i :: 0 <= i < |r| ==> Listed(dir, r[i]) && r[i].filename in order
    ensures forall i :: 0 <= i < |order| && IsJsonName(order[i]) && Load(dir, order[i]).Some? ==>
      Entry(order[i], Load(dir, order[i]).value) in r
    ensures (forall i, j :: 0 <= i < j < |order| ==> order[i] != order[j]) ==>
      forall i, j :: 0 <= i < j < |r| ==> r[i].filename != r[j].filename
  {
    if |order| == 0 then []
    else
      var rest := Loaded(dir, order[1..]);
      if IsJsonName(order[0]) && Load(dir, order[0]).Some? then
        [Entry(order[0], Load(dir, order[0]).value)] + rest
      else rest
  }

  /** The loaded files keep the enumeration order. */
  lemma {:induction false} LoadedInOrder(dir: Directory, order: seq<string>)
    ensures IsSubsequence(EntryNames(Loaded(dir, order)), order)
  {
    if |order| > 0 {
      var rest := Loaded(dir, order[1..]);
      LoadedInOrder(dir, order[1..]);
      if IsJsonName(order[0]) && Load(dir, order[0]).Some? {
        assert EntryNames(Loaded(dir, order))[1..] == EntryNames(rest);
      } else {
        SubsequenceOfTail(EntryNames(rest), order);
      }
    }
  }

  /** Sort key of the listing: creation timestamp, newest first. */
  function NewerOrSame(a: Entry, b: Entry): bool {
    a.opp.timestamp >= b.opp.timestamp
  }

  lemma NewerOrSameIsPreorder()
    ensures TotalPreorder(NewerOrSame)
  {
  }

  /** `list_opportunities`: every loadable `*.json` file once, unloadable
      files skipped, newest first. */
  function ListOpportunities(dir: Directory, order: seq<string>): (r: seq<Entry>)
    requires IsEnumeration(dir, order)
    ensures forall i :: 0 <= i < |r| ==> Listed(dir, r[i])
    ensures forall name :: name in dir && IsJsonName(name) && Load(dir, name).Some? ==>
      Entry(name, Load(dir, name).value) in r
    ensures forall i, j :: 0 <= i < j < |r| ==> r[i].filename != r[j].filename
    ensures forall i, j :: 0 <= i < j < |r| ==> r[i].opp.timestamp >= r[j].opp.timestamp
  {
    var loaded := Loaded(dir, order);
    var r := SortDesc(loaded, NewerOrSame);
    ListingSorted(loaded);
    ListingMembers(dir, order, loaded, r);
    ListingDistinct(dir, loaded, r);
    r
  }

  lemma ListingSorted(loaded: seq<Entry>)
    ensures forall i, j :: 0 <= i < j < |SortDesc(loaded, NewerOrSame)| ==>
      SortDesc(loaded, NewerOrSame)[i].opp.timestamp >= SortDesc(loaded, NewerOrSame)[j].opp.timestamp
  {
    NewerOrSameIsPreorder();
    SortDescSorted(loaded, NewerOrSame);
  }

  lemma ListingMembers(dir: Directory, order: seq<string>, loaded: seq<Entry>, r: seq<Entry>)
    requires IsEnumeration(dir, order) && loaded == Loaded(dir, order)
    requires multiset(r) == multiset(loaded)
    ensures forall i :: 0 <= i < |r| ==> Listed(dir, r[i])
    ensures forall name :: name in dir && IsJsonName(name) && Load(dir, name).Some? ==>
      Entry(name, Load(dir, name).value) in r
  {
    PermutationMembers(loaded, r);
    forall i | 0 <= i < |r| ensures Listed(dir, r[i]) {
      var k :| 0 <= k < |loaded| && loaded[k] == r[i];
    }
    forall name | name in dir && IsJsonName(name) && Load(dir, name).Some?
      ensures Entry(name, Load(dir, name).value) in r
    {
      var k :| 0 <= k < |order| && order[k] == name;
      var e := Entry(name, Load(dir, name).value);
      assert e in loaded;
      var m :| 0 <= m < |loaded| && loaded[m] == e;
    }
  }

  lemma ListingDistinct(dir: Directory, loaded: seq<Entry>, r: seq<Entry>)
    requires forall i, j :: 0 <= i < j < |loaded| ==> loaded[i].filename != loaded[j].filename
    requires multiset(r) == multiset(loaded)
    requires forall i :: 0 <= i < |r| ==> Listed(dir, r[i])
    ensures forall i, j :: 0 <= i < j < |r| ==> r[i].filename != r[j].filename
  {
    NoDupPermutation(loaded, r);
  }

  /** `save_opportunity(o)` at the minute `minute`: a fresh name is chosen and
      nothing already present is overwritten. */
  function Save(dir: Directory, o: Opportunity, minute: string): (r: (string, Directory))
    ensures r.0 !in dir
    ensures r.1.Keys == dir.Keys + {r.0}
    ensures r.1[r.0] == Some(o)
    ensures forall n :: n in dir ==> r.1[n] == dir[n]
    ensures r.0 == Candidate(Stem(o.company, o.role, minute), 0) || Candidate(Stem(o.company, o.role, minute), 0) in dir
    ensures r.0 == ResolveName(dir.Keys, Stem(o.company, o.role, minute))
  {
    var name := ResolveName(dir.Keys, Stem(o.company, o.role, minute));
    (name, dir[name := Some(o)])
  }

  /** A saved valid record loads back unchanged under the returned name. */
  lemma SaveThenLoad(dir: Directory, o: Opportunity, minute: string)
    requires Valid(o)
    ensures Load(Save(dir, o, minute).1, Save(dir, o, minute).0) == Some(o)
    ensures IsJsonName(Save(dir, o, minute).0)
  {
    var name := Save(dir, o, minute).0;
    var stem := Stem(o.company, o.role, minute);
    if name != stem + ".json" {
      var k: nat :| k >= 1 && name == stem + "_" + Decimal(k) + ".json";
      assert name[|name| - 5..] == ".json";
    } else {
      assert name[|name| - 5..] == ".json";
    }
  }

  /** `update_opportunity(path, o)`: overwrites (or creates) that one file. */
  function Update(dir: Directory, name: string, o: Opportunity): (r: Directory)
    ensures r.Keys == dir.Keys + {name}
    ensures r[name] == Some(o)
    ensures forall n :: n in dir && n != name ==> r[n] == dir[n]
  {
    dir[name := Some(o)]
  }

  /** `delete_opportunity(path)`: reports whether the file existed; only that
      file goes. */
  function Delete(dir: Directory, name: string): (r: (bool, Directory))
    ensures r.0 <==> name in dir
    ensures r.1.Keys == dir.Keys - {name}
    ensures forall n :: n in r.1 ==> r.1[n] == dir[n]
  {
    (name in dir, dir - {name})
  }

  /** Loading any other file is unaffected by a delete. */
  lemma LoadAfterDelete(dir: Directory, name: string, other: string)
    requires other != name
    ensures Load(Delete(dir, name).1, other) == Load(dir, other)
  {
  }

  /** After a delete, the listing is the old listing without that file. */
  lemma ListAfterDelete(dir: Directory, order: seq<string>, name: string, order': seq<string>)
    requires IsEnumeration(dir, order)
    requires IsEnumeration(Delete(dir, name).1, order')
    ensures forall e :: e in ListOpportunities(Delete(dir, name).1, order') ==>
      e in ListOpportunities(dir, order) && e.filename != name
    ensures forall e :: e in ListOpportunities(dir, order) && e.filename != name ==>
      e in ListOpportunities(Delete(dir, name).1, order')
  {
    ListedAfterDelete(dir, order, name, order');
    KeptAfterDelete(dir, order, name, order');
  }

  lemma ListedAfterDelete(dir: Directory, order: seq<string>, name: string, order': seq<string>)
    requires IsEnumeration(dir, order)
    requires IsEnumeration(Delete(dir, name).1, order')
    ensures forall e :: e in ListOpportunities(Delete(dir, name).1, order') ==>
      e in ListOpportunities(dir, order) && e.filename != name
  {
    var dir' := Delete(dir, name).1;
    var after := ListOpportunities(dir', order');
    forall e | e in after
      ensures e in ListOpportunities(dir, order) && e.filename != name
    {
      var i :| 0 <= i < |after| && after[i] == e;
      assert Listed(dir', e);
      LoadAfterDelete(dir, name, e.filename);
    }
  }

  lemma KeptAfterDelete(dir: Directory, order: seq<string>, name: string, order': seq<string>)
    requires IsEnumeration(dir, order)
    requires IsEnumeration(Delete(dir, name).1, order')
    ensures forall e :: e in ListOpportunities(dir, order) && e.filename != name ==>
      e in ListOpportunities(Delete(dir, name).1, order')
  {
    var before := ListOpportunities(dir, order);
    forall e | e in before && e.filename != name
      ensures e in ListOpportunities(Delete(dir, name).1, order')
    {
      var i :| 0 <= i < |before| && before[i] == e;
      assert Listed(dir, e);
      LoadAfterDelete(dir, name, e.filename);
    }
  }

  /** The criteria `search_opportunities` accepts. */
  datatype Criteria = Criteria(
    company: Option<string>,
    role: Option<string>,
    recruiter: Option<string>,
    activeOnly: bool,
    minInterest: Option<int>,
    maxInterest: Option<int>)

  /** Python truthiness of an optional integer: present and non-zero. */
  predicate Truthy(b: Option<int>) {
    b.Some? && b.value != 0
  }

  /** The record passes every criterion that is set. A recruiter criterion
      only rejects records that name a recruiter; zero bounds count as unset. */
  predicate Matches(c: Criteria, o: Opportunity) {
    && (!Filled(c.company) || ContainsIgnoringCase(o.company, c.company.value))
    && (!Filled(c.role) || ContainsIgnoringCase(o.role, c.role.value))
    && (!Filled(c.recruiter) || !Filled(o.recruiterName)
        || ContainsIgnoringCase(o.recruiterName.value, c.recruiter.value))
    && (!c.activeOnly || o.active)
    && (!Truthy(c.minInterest) || o.interestLevel >= c.minInterest.value)
    && (!Truthy(c.maxInterest) || o.interestLevel <= c.maxInterest.value)
  }

  /** `search_opportunities`: the listed records meeting the criteria, in
      listing order. */
  function SearchOpportunities(dir: Directory, order: seq<string>, c: Criteria): (r: seq<Entry>)
    requires IsEnumeration(dir, order)
    ensures IsSubsequence(r, ListOpportunities(dir, order))
    ensures forall i :: 0 <= i < |r| ==> Matches(c, r[i].opp) && r[i] in ListOpportunities(dir, order)
    ensures forall i :: 0 <= i < |ListOpportunities(dir, order)| && Matches(c, ListOpportunities(dir, order)[i].opp) ==>
      ListOpportunities(dir, order)[i] in r
  {
    var all := ListOpportunities(dir, order);
    var p := (e: Entry) => Matches(c, e.opp);
    FilterIsSubsequence(all, p);
    Filter(all, p)
  }

  /** A record without a recruiter name is never excluded by the recruiter
      criterion. */
  lemma RecruiterCriterionSkipsUnnamed(c: Criteria, o: Opportunity)
    requires !Filled(o.recruiterName)
    ensures Matches(c, o) == Matches(c.(recruiter := None), o)
  {
  }

  /** Interest bounds are inclusive; a zero bound behaves as no bound. */
  lemma InterestBounds(c: Criteria, o: Opportunity)
    ensures c.minInterest == Some(o.interestLevel) && o.interestLevel != 0 ==>
      Matches(c, o) == Matches(c.(minInterest := None), o)
    ensures c.maxInterest == Some(o.interestLevel) && o.interestLevel != 0 ==>
      Matches(c, o) == Matches(c.(maxInterest := None), o)
    ensures c.minInterest == Some(0) ==> Matches(c, o) == Matches(c.(minInterest := None), o)
    ensures c.maxInterest == Some(0) ==> Matches(c, o) == Matches(c.(maxInterest := None), o)
  {
  }

  /** `get_overdue_followups(threshold)` at time `now`. */
  function OverdueFollowups(dir: Directory, order: seq<string>, now: int, threshold: int): (r: seq<Entry>)
    requires IsEnumeration(dir, order)
    ensures IsSubsequence(r, ListOpportunities(dir, order))
    ensures forall i :: 0 <= i < |r| ==>
      r[i].opp.active && |r[i].opp.interactions| > 0 && IsOverdueFollowup(r[i].opp, now, threshold)
    ensures forall i ::
      (0 <= i < |ListOpportunities(dir, order)| && IsOverdueFollowup(ListOpportunities(dir, order)[i].opp, now, threshold))
      ==> ListOpportunities(dir, order)[i] in r
  {
    var all := ListOpportunities(dir, order);
    var p := (e: Entry) => IsOverdueFollowup(e.opp, now, threshold);
    FilterIsSubsequence(all, p);
    Filter(all, p)
  }

  /** Aggregate counts; `interestSum / total` is the source's average. */
  datatype Stats = Stats(
    total: nat,
    active: nat,
    inactive: nat,
    interestSum: int,
    byStatus: map<string, nat>,
    bySource: map<string, nat>)

  /** `status or 'unknown'` */
  function StatusKey(o: Opportunity): string {
    if Filled(o.status) then o.status.value else "unknown"
  }

  /** `source or 'unknown'` */
  function SourceKey(o: Opportunity): string {
    if Filled(o.source) then o.source.value else "unknown"
  }

  /** `sum(opp.interest_level for opp in opportunities)` */
  function InterestSum(l: seq<Entry>): int {
    if |l| == 0 then 0 else l[0].opp.interestLevel + InterestSum(l[1..])
  }

  /** Interest levels in `1..5` keep the sum within the count and five times
      the count, so the average `get_statistics` reports lies in `1..5`. */
  lemma {:induction false} InterestSumInRange(l: seq<Entry>)
    requires forall i :: 0 <= i < |l| ==> InterestInRange(l[i].opp.interestLevel)
    ensures |l| <= InterestSum(l) <= 5 * |l|
  {
    if |l| > 0 {
      InterestSumInRange(l[1..]);
    }
  }

  /** Occurrences of `k` in `ks`. */
  function Occurrences(ks: seq<string>, k: string): (n: nat)
    ensures k !in ks ==> n == 0
  {
    if |ks| == 0 then 0 else Occurrences(ks[..|ks| - 1], k) + (if ks[|ks| - 1] == k then 1 else 0)
  }

  /** `d[k] = d.get(k, 0) + 1` for every `k` in turn. */
  function Tally(ks: seq<string>): (m: map<string, nat>)
    ensures forall k :: k in m <==> k in ks
    ensures forall k :: k in m ==> m[k] == Occurrences(ks, k)
  {
    if |ks| == 0 then map[]
    else
      var m := Tally(ks[..|ks| - 1]);
      var k := ks[|ks| - 1];
      assert forall x :: x in ks <==> x in ks[..|ks| - 1] || x == k;
      Bump(m, k)
  }

  /** `d[k] = d.get(k, 0) + 1` */
  function Bump(m: map<string, nat>, k: string): (r: map<string, nat>)
    ensures r.Keys == m.Keys + {k}
    ensures r[k] == (if k in m then m[k] else 0) + 1
    ensures forall x :: x in m && x != k ==> r[x] == m[x]
  {
    m[k := (if k in m then m[k] else 0) + 1]
  }

  ghost function Pick(m: map<string, nat>): string
    requires |m| > 0
  {
    var k :| k in m; k
  }

  /** The sum of the counts in a tally. */
  ghost function MapSum(m: map<string, nat>): nat
    decreases |m|
  {
    if |m| == 0 then 0
    else
      var k := Pick(m);
      assert (m - {k}).Keys == m.Keys - {k};
      m[k] + MapSum(m - {k})
  }

  lemma RemoveCommutes(m: map<string, nat>, a: string, b: string)
    ensures m - {a} - {b} == m - {b} - {a}
  {
    assert (m - {a} - {b}).Keys == (m - {b} - {a}).Keys;
  }

  lemma {:induction false} MapSumRemove(m: map<string, nat>, x: string)
    requires x in m
    ensures MapSum(m) == m[x] + MapSum(m - {x})
    decreases |m|
  {
    var k := Pick(m);
    if k != x {
      assert (m - {k}).Keys == m.Keys - {k};
      assert (m - {x}).Keys == m.Keys - {x};
      MapSumRemove(m - {k}, x);
      MapSumRemove(m - {x}, k);
      RemoveCommutes(m, k, x);
    }
  }

  /** Apart from `k`, bumping `k` changes nothing. */
  lemma BumpRemove(m: map<string, nat>, k: string)
    ensures Bump(m, k) - {k} == m - {k}
  {
    var a, b := Bump(m, k) - {k}, m - {k};
    assert a.Keys == b.Keys;
    assert forall x :: x in a ==> a[x] == b[x];
  }

  /** Counting one more `k` adds one to the sum. */
  lemma MapSumIncrement(m: map<string, nat>, k: string)
    ensures MapSum(Bump(m, k)) == MapSum(m) + 1
  {
    var m' := Bump(m, k);
    MapSumRemove(m', k);
    BumpRemove(m, k);
    if k in m {
      MapSumRemove(m, k);
    } else {
      assert m - {k} == m;
    }
  }

  /** The counts of a tally add up to the number of keys tallied. */
  lemma {:induction false} TallySum(ks: seq<string>)
    ensures MapSum(Tally(ks)) == |ks|
  {
    if |ks| > 0 {
      var m := Tally(ks[..|ks| - 1]);
      var k := ks[|ks| - 1];
      TallySum(ks[..|ks| - 1]);
      MapSumIncrement(m, k);
    }
  }

  /** The grouping key of every entry, in listing order. */
  function KeysOf(l: seq<Entry>, key: Opportunity -> string): (ks: seq<string>)
    ensures |ks| == |l| && forall i :: 0 <= i < |l| ==> ks[i] == key(l[i].opp)
  {
    if |l| == 0 then [] else [key(l[0].opp)] + KeysOf(l[1..], key)
  }

  /** A key is tallied iff some entry has it. */
  lemma TallyKeys(l: seq<Entry>, key: Opportunity -> string)
    ensures forall k :: k in Tally(KeysOf(l, key)) <==> exists i :: 0 <= i < |l| && key(l[i].opp) == k
  {
    var ks := KeysOf(l, key);
    forall k | k in Tally(ks)
      ensures exists i :: 0 <= i < |l| && key(l[i].opp) == k
    {
      var i :| 0 <= i < |ks| && ks[i] == k;
    }
    forall k | exists i :: 0 <= i < |l| && key(l[i].opp) == k
      ensures k in Tally(ks)
    {
      var i :| 0 <= i < |l| && key(l[i].opp) == k;
      assert ks[i] == k;
    }
  }

  /** The statistics of a listing. */
  function StatsOf(l: seq<Entry>): (r: Stats)
    ensures |l| == 0 ==> r == Stats(0, 0, 0, 0, map[], map[])
    ensures r.total == |l| && r.active + r.inactive == r.total
    ensures r.active == Count(l, (e: Entry) => e.opp.active)
    ensures MapSum(r.byStatus) == r.total && MapSum(r.bySource) == r.total
    ensures forall k :: k in r.byStatus <==> exists i :: 0 <= i < |l| && StatusKey(l[i].opp) == k
    ensures forall k :: k in r.bySource <==> exists i :: 0 <= i < |l| && SourceKey(l[i].opp) == k
    ensures forall k :: k in r.byStatus ==> r.byStatus[k] == Occurrences(KeysOf(l, StatusKey), k)
    ensures forall k :: k in r.bySource ==> r.bySource[k] == Occurrences(KeysOf(l, SourceKey), k)
  {
    if |l| == 0 then Stats(0, 0, 0, 0, map[], map[])
    else
      var isActive := (e: Entry) => e.opp.active;
      var isInactive := (e: Entry) => !e.opp.active;
      CountComplement(l, isActive, isInactive);
      TallySum(KeysOf(l, StatusKey));
      TallySum(KeysOf(l, SourceKey));
      TallyKeys(l, StatusKey);
      TallyKeys(l, SourceKey);
      Stats(|l|, Count(l, isActive), Count(l, isInactive), InterestSum(l),
        Tally(KeysOf(l, StatusKey)), Tally(KeysOf(l, SourceKey)))
  }

  /** Listed records passed validation, so their interest levels are in range. */
  lemma ListedInRange(dir: Directory, l: seq<Entry>)
    requires forall i :: 0 <= i < |l| ==> Listed(dir, l[i])
    ensures forall i :: 0 <= i < |l| ==> InterestInRange(l[i].opp.interestLevel)
  {
  }

  /** `get_statistics` */
  function Statistics(dir: Directory, order: seq<string>): (r: Stats)
    requires IsEnumeration(dir, order)
    ensures r.total == |ListOpportunities(dir, order)|
    ensures r.active + r.inactive == r.total
    ensures r.active == Count(ListOpportunities(dir, order), (e: Entry) => e.opp.active)
    ensures MapSum(r.byStatus) == r.total && MapSum(r.bySource) == r.total
    ensures forall k :: k in r.byStatus <==>
      exists i :: 0 <= i < |ListOpportunities(dir, order)| && StatusKey(ListOpportunities(dir, order)[i].opp) == k
    ensures forall k :: k in r.bySource <==>
      exists i :: 0 <= i < |ListOpportunities(dir, order)| && SourceKey(ListOpportunities(dir, order)[i].opp) == k
    ensures forall k :: k in r.byStatus ==>
      r.byStatus[k] == Occurrences(KeysOf(ListOpportunities(dir, order), StatusKey), k)
    ensures forall k :: k in r.bySource ==>
      r.bySource[k] == Occurrences(KeysOf(ListOpportunities(dir, order), SourceKey), k)
    ensures r.total <= r.interestSum <= 5 * r.total
  {
    ListedInRange(dir, ListOpportunities(dir, order));
    InterestSumInRange(ListOpportunities(dir, order));
    StatsOf(ListOpportunities(dir, order))
  }
}
