/** The filename scheme shared by the record store, the dependency-free store
    and the legacy migration: `{company}_{role}_{minute}.json`, made unique
    with a numeric suffix on the original stem. The minute stamp (the clock
    formatted as `%Y-%m-%dT%H-%M`) is an opaque string parameter. */
module Naming {
  import opened Text

  /** `s.lower().replace(' ', '-').replace('/', '-')` */
  function Normalize(s: string): (r: string)
    ensures |r| == |s|
    ensures forall i :: 0 <= i < |s| ==>
      r[i] == (if s[i] == ' ' || s[i] == '/' then '-' else LowerChar(s[i]))
    ensures ' ' !in r && '/' !in r && NoUpper(r)
  {
    ReplaceChar(ReplaceChar(Lower(s), ' ', '-'), '/', '-')
  }

  /** The file stem before any collision suffix. */
  function Stem(company: string, role: string, minute: string): string {
    Normalize(company) + "_" + Normalize(role) + "_" + minute
  }

  /** The `k`-th name tried: the base name, then `{stem}_{k}.json`. */
  function Candidate(stem: string, k: nat): (r: string)
    ensures k == 0 ==> r == stem + ".json"
    ensures k > 0 ==> r == stem + "_" + Decimal(k) + ".json"
  {
    if k == 0 then stem + ".json" else stem + "_" + Decimal(k) + ".json"
  }

  /** Different attempts never produce the same name. */
  lemma CandidateInjective(stem: string, a: nat, b: nat)
    requires Candidate(stem, a) == Candidate(stem, b)
    ensures a == b
  {
    var ca, cb := Candidate(stem, a), Candidate(stem, b);
    if a > 0 && b > 0 {
      var da, db := Decimal(a), Decimal(b);
      assert |da| == |db|;
      assert da == ca[|stem| + 1..|stem| + 1 + |da|];
      assert db == cb[|stem| + 1..|stem| + 1 + |db|];
      DecimalInjective(a, b);
    }
  }

  /** The names already tried before attempt `k`. */
  ghost function Tried(stem: string, k: nat): set<string> {
    set j | 0 <= j < k :: Candidate(stem, j)
  }

  lemma TriedGrows(names: set<string>, stem: string, k: nat)
    requires Candidate(stem, k) in names
    ensures names - Tried(stem, k + 1) < names - Tried(stem, k)
  {
    var c := Candidate(stem, k);
    if c in Tried(stem, k) {
      var j :| 0 <= j < k && Candidate(stem, j) == c;
      CandidateInjective(stem, j, k);
    }
    assert c in names - Tried(stem, k);
    assert Tried(stem, k + 1) == Tried(stem, k) + {c};
  }

  /** The least attempt at or after `k` whose name is free. */
  function FreeFrom(names: set<string>, stem: string, k: nat): (n: nat)
    requires forall j :: 0 <= j < k ==> Candidate(stem, j) in names
    ensures k <= n && Candidate(stem, n) !in names
    ensures forall j :: 0 <= j < n ==> Candidate(stem, j) in names
    decreases names - Tried(stem, k)
  {
    if Candidate(stem, k) !in names then k
    else
      TriedGrows(names, stem, k);
      FreeFrom(names, stem, k + 1)
  }

  /** The name a save picks: the least free attempt. */
  function ResolveName(names: set<string>, stem: string): (r: string)
    ensures r !in names
    ensures stem + ".json" !in names ==> r == stem + ".json"
    ensures stem + ".json" in names ==>
      exists k: nat :: k >= 1 && r == stem + "_" + Decimal(k) + ".json"
        && forall j :: 1 <= j < k ==> stem + "_" + Decimal(j) + ".json" in names
  {
    var n := FreeFrom(names, stem, 0);
    assert Candidate(stem, 0) == stem + ".json";
    assert forall j :: 1 <= j < n ==> Candidate(stem, j) == stem + "_" + Decimal(j) + ".json";
    Candidate(stem, n)
  }

  /** The `while filepath.exists()` loop of the savers, run over the set of
      names present in the directory. */
  method UniqueName(names: set<string>, stem: string) returns (path: string)
    ensures path !in names
    ensures path == ResolveName(names, stem)
  {
    var counter: nat := 1;
    path := stem + ".json";
    while path in names
      invariant counter >= 1
      invariant path == Candidate(stem, counter - 1)
      invariant forall j :: 0 <= j < counter - 1 ==> Candidate(stem, j) in names
      decreases names - Tried(stem, counter - 1)
    {
      TriedGrows(names, stem, counter - 1);
      path := stem + "_" + Decimal(counter) + ".json";
      counter := counter + 1;
    }
  }
}
