/** The one-off migration of record files from the legacy layout: a
    dictionary-to-dictionary conversion with defaults, and the copy loop that
    names each converted record like the store does. The clock enters as two
    strings: `now` (an ISO timestamp) and `minute` (the filename stamp). */
module Migrate {
  import opened Wrappers
  import opened Naming
  import opened JsonValues
  import opened Seqs

  /** The keys of a record written from the legacy layout. */
  const RecordKeys: set<string> := {
    "timestamp", "company", "role", "recruiter_name", "recruiter_contact",
    "job_description", "resume_text", "cover_letter_text", "notes",
    "next_steps", "company_link", "source", "active", "interest_level",
    "status", "interactions"}

  /** The keys the conversion guarantees in the current layout. */
  const RequiredKeys: set<string> := {"timestamp", "interactions", "active", "interest_level"}

  /** The legacy layout keeps one interaction in flat fields. */
  predicate IsLegacy(d: map<string, Json>) {
    "interaction_date" in d && "interaction_type" in d
  }

  /** The interaction list of a legacy record. */
  function LegacyInteractions(d: map<string, Json>): (r: Json)
    ensures r.JArr?
    ensures |r.items| == 1 <==> Truthy(Get(d, "interaction_date", JNull)) && Truthy(Get(d, "interaction_type", JNull))
    ensures |r.items| == 1 ==> r.items[0] == JObj(map[
      "date" := d["interaction_date"], "type" := d["interaction_type"],
      "method" := Get(d, "interaction_method", JNull), "notes" := Get(d, "interaction_notes", JNull)])
    ensures |r.items| != 1 ==> r.items == []
  {
    if Truthy(Get(d, "interaction_date", JNull)) && Truthy(Get(d, "interaction_type", JNull)) then
      JArr([JObj(map[
        "date" := d["interaction_date"], "type" := d["interaction_type"],
        "method" := Get(d, "interaction_method", JNull), "notes" := Get(d, "interaction_notes", JNull)])])
    else JArr([])
  }

  /** The default a legacy record gets for a missing key. */
  function LegacyDefault(k: string, now: string): Json {
    if k == "timestamp" then JStr(now)
    else if k == "company" || k == "role" then JStr("")
    else if k == "active" then JBool(true)
    else if k == "interest_level" then JInt(3)
    else JNull
  }

  /** The legacy branch: the record keys read with their defaults, and the flat
      interaction fields folded into the interaction list. */
  function FromLegacy(d: map<string, Json>, now: string): (r: map<string, Json>)
    ensures r.Keys == RecordKeys
    ensures r["interactions"] == LegacyInteractions(d)
    ensures forall k :: k in RecordKeys && k != "interactions" ==> r[k] == Get(d, k, LegacyDefault(k, now))
  {
    map k | k in RecordKeys :: if k == "interactions" then LegacyInteractions(d) else Get(d, k, LegacyDefault(k, now))
  }

  /** The other branch: a copy with the missing required keys added. */
  function WithDefaults(d: map<string, Json>, now: string): (r: map<string, Json>)
    ensures r.Keys == d.Keys + RequiredKeys
    ensures forall k :: k in d ==> r[k] == d[k]
    ensures "timestamp" !in d ==> r["timestamp"] == JStr(now)
    ensures "interactions" !in d ==> r["interactions"] == JArr([])
    ensures "active" !in d ==> r["active"] == JBool(true)
    ensures "interest_level" !in d ==> r["interest_level"] == JInt(3)
  {
    var t := if "timestamp" in d then d else d["timestamp" := JStr(now)];
    var i := if "interactions" in t then t else t["interactions" := JArr([])];
    var a := if "active" in i then i else i["active" := JBool(true)];
    if "interest_level" in a then a else a["interest_level" := JInt(3)]
  }

  /** `convert_opportunity_format(d)` */
  function ConvertFormat(d: map<string, Json>, now: string): (r: map<string, Json>)
    ensures IsLegacy(d) ==> r == FromLegacy(d, now)
    ensures !IsLegacy(d) ==> r == WithDefaults(d, now)
    ensures "interaction_date" !in r || "interaction_type" !in r
    ensures RequiredKeys <= r.Keys
  {
    if IsLegacy(d) then
      assert "interaction_date" !in RecordKeys && RequiredKeys <= RecordKeys;
      FromLegacy(d, now)
    else
      assert "interaction_date" !in RequiredKeys && "interaction_type" !in RequiredKeys;
      WithDefaults(d, now)
  }

  /** Converting a converted record changes nothing, whatever the clock says. */
  lemma ConvertIdempotent(d: map<string, Json>, now: string, later: string)
    ensures ConvertFormat(ConvertFormat(d, now), later) == ConvertFormat(d, now)
  {
    var r := ConvertFormat(d, now);
    assert !IsLegacy(r);
  }

  /** Why migrating one file can fail. */
  datatype MigrateError =
    | Unreadable    // the file is not JSON
    | NotAnObject   // the JSON value is not a dictionary
    | BadName       // `company` or `role` is not a string

  /** `new_data.get(k, 'unknown')` as the string a file name is built from. */
  function NamePart(d: map<string, Json>, k: string): (r: Option<string>)
    ensures k !in d ==> r == Some("unknown")
    ensures k in d ==> (r.Some? <==> d[k].JStr?)
    ensures k in d && d[k].JStr? ==> r == Some(d[k].s)
  {
    match Get(d, k, JStr("unknown"))
    case JStr(s) => Some(s)
    case _ => None
  }

  /** The old files the migration converts: JSON objects whose converted
      `company` and `role` are strings. Which names are taken plays no part. */
  predicate Migratable(file: Option<Json>, now: string) {
    && file.Some? && file.value.JObj?
    && NamePart(ConvertFormat(file.value.fields, now), "company").Some?
    && NamePart(ConvertFormat(file.value.fields, now), "role").Some?
  }

  /** `Migratable` with the clock fixed, as a test to count with. */
  function MigratableAt(now: string): (p: Option<Json> -> bool)
    ensures forall f :: p(f) == Migratable(f, now)
  {
    f => Migratable(f, now)
  }

  /** One iteration of the migration loop: the new file's name and content. */
  function MigrateOne(existing: set<string>, file: Option<Json>, now: string, minute: string)
    : (r: Result<(string, Json), MigrateError>)
    ensures file.None? ==> r == Failure(Unreadable)
    ensures r.Success? ==> r.value.0 !in existing
    ensures r.Success? ==> file.Some? && file.value.JObj? && r.value.1 == JObj(ConvertFormat(file.value.fields, now))
    ensures r.Success? <==> Migratable(file, now)
    ensures r.Success? ==> r.value.0 == ResolveName(existing, Stem(
      NamePart(ConvertFormat(file.value.fields, now), "company").value,
      NamePart(ConvertFormat(file.value.fields, now), "role").value, minute))
  {
    if file.None? then Failure(Unreadable)
    else if !file.value.JObj? then Failure(NotAnObject)
    else
      var converted := ConvertFormat(file.value.fields, now);
      var company := NamePart(converted, "company");
      var role := NamePart(converted, "role");
      if company.None? || role.None? then Failure(BadName)
      else
        var name := ResolveName(existing, Stem(company.value, role.value, minute));
        Success((name, JObj(converted)))
  }

  // The copy loop is generic in what one step does, so that its invariants
  // never unfold the conversion.

  /** Witnesses of the copy after the first `i` files: `origin` names the file
      each new name came from, and `nameOf` the name each copied file got. */
  ghost predicate Witnessed<F, V>(target: map<string, V>, result: map<string, V>, files: seq<F>, i: nat,
    ok: F -> bool, content: F -> V, origin: map<string, nat>, nameOf: map<nat, string>)
    requires i <= |files|
  {
    && (forall n :: n in result && n !in target ==>
      n in origin && origin[n] < i && ok(files[origin[n]]) && result[n] == content(files[origin[n]]))
    && (forall j :: 0 <= j < i && ok(files[j]) ==>
      j in nameOf && nameOf[j] in result && nameOf[j] !in target && result[nameOf[j]] == content(files[j]))
  }

  /** Copying file `i` under a name nobody has yet keeps the witnesses. */
  lemma WitnessedCopy<F, V>(target: map<string, V>, result: map<string, V>, files: seq<F>, i: nat,
    ok: F -> bool, content: F -> V, origin: map<string, nat>, nameOf: map<nat, string>, name: string)
    requires i < |files| && ok(files[i])
    requires target.Keys <= result.Keys && name !in result
    requires Witnessed(target, result, files, i, ok, content, origin, nameOf)
    ensures Witnessed(target, result[name := content(files[i])], files, i + 1, ok, content,
      origin[name := i], nameOf[i := name])
  {
  }

  /** Skipping a file `ok` rejects keeps the witnesses. */
  lemma WitnessedSkip<F, V>(target: map<string, V>, result: map<string, V>, files: seq<F>, i: nat,
    ok: F -> bool, content: F -> V, origin: map<string, nat>, nameOf: map<nat, string>)
    requires i < |files| && !ok(files[i])
    requires Witnessed(target, result, files, i, ok, content, origin, nameOf)
    ensures Witnessed(target, result, files, i + 1, ok, content, origin, nameOf)
  {
  }

  /** After the last file every new name holds a copied file. */
  lemma WitnessedSources<F, V>(target: map<string, V>, result: map<string, V>, files: seq<F>,
    ok: F -> bool, content: F -> V, origin: map<string, nat>, nameOf: map<nat, string>)
    requires Witnessed(target, result, files, |files|, ok, content, origin, nameOf)
    ensures forall n :: n in result && n !in target ==>
      exists i :: 0 <= i < |files| && ok(files[i]) && result[n] == content(files[i])
  {
    forall n | n in result && n !in target
      ensures exists k :: 0 <= k < |files| && ok(files[k]) && result[n] == content(files[k])
    {
      assert ok(files[origin[n]]);
    }
  }

  /** After the last file every file `ok` accepts is copied under a new name. */
  lemma WitnessedCopies<F, V>(target: map<string, V>, result: map<string, V>, files: seq<F>,
    ok: F -> bool, content: F -> V, origin: map<string, nat>, nameOf: map<nat, string>)
    requires Witnessed(target, result, files, |files|, ok, content, origin, nameOf)
    ensures forall i :: 0 <= i < |files| && ok(files[i]) ==>
      exists n :: n in result && n !in target && result[n] == content(files[i])
  {
    forall k | 0 <= k < |files| && ok(files[k])
      ensures exists n :: n in result && n !in target && result[n] == content(files[k])
    {
      assert nameOf[k] in result;
    }
  }

  /** The state of the copy after the first `i` files, `migrated` of them copied. */
  ghost predicate CopyState<F, V>(target: map<string, V>, result: map<string, V>, files: seq<F>, i: nat,
    ok: F -> bool, content: F -> V, origin: map<string, nat>, nameOf: map<nat, string>, migrated: nat)
    requires i <= |files|
  {
    && migrated == Count(files[..i], ok)
    && Kept(target, result, migrated)
    && Witnessed(target, result, files, i, ok, content, origin, nameOf)
  }

  /** `result` extends `target` by `migrated` new names. */
  ghost predicate Kept<V>(target: map<string, V>, result: map<string, V>, migrated: nat) {
    && target.Keys <= result.Keys
    && (forall n :: n in target ==> result[n] == target[n])
    && |result.Keys| == |target.Keys| + migrated
  }

  /** Writing under a fresh name adds one new name and keeps the rest. */
  lemma KeptCopy<V>(target: map<string, V>, result: map<string, V>, migrated: nat, name: string, v: V)
    requires Kept(target, result, migrated) && name !in result
    ensures Kept(target, result[name := v], migrated + 1)
  {
    assert result[name := v].Keys == result.Keys + {name};
  }

  /** The count of the first `i + 1` files. */
  lemma CountPrefix<F>(files: seq<F>, i: nat, ok: F -> bool)
    requires i < |files|
    ensures Count(files[..i + 1], ok) == Count(files[..i], ok) + (if ok(files[i]) then 1 else 0)
  {
    assert files[..i + 1] == files[..i] + [files[i]];
    CountSnoc(files[..i], files[i], ok);
  }

  /** Copying file `i` under a fresh name advances the state. */
  lemma CopyStateCopy<F, V>(target: map<string, V>, result: map<string, V>, files: seq<F>, i: nat,
    ok: F -> bool, content: F -> V, origin: map<string, nat>, nameOf: map<nat, string>, migrated: nat, name: string)
    requires i < |files| && ok(files[i]) && name !in result
    requires CopyState(target, result, files, i, ok, content, origin, nameOf, migrated)
    ensures CopyState(target, result[name := content(files[i])], files, i + 1, ok, content,
      origin[name := i], nameOf[i := name], migrated + 1)
  {
    CountPrefix(files, i, ok);
    KeptCopy(target, result, migrated, name, content(files[i]));
    WitnessedCopy(target, result, files, i, ok, content, origin, nameOf, name);
  }

  /** Skipping a file `ok` rejects advances the state. */
  lemma CopyStateSkip<F, V>(target: map<string, V>, result: map<string, V>, files: seq<F>, i: nat,
    ok: F -> bool, content: F -> V, origin: map<string, nat>, nameOf: map<nat, string>, migrated: nat)
    requires i < |files| && !ok(files[i])
    requires CopyState(target, result, files, i, ok, content, origin, nameOf, migrated)
    ensures CopyState(target, result, files, i + 1, ok, content, origin, nameOf, migrated)
  {
    CountPrefix(files, i, ok);
    WitnessedSkip(target, result, files, i, ok, content, origin, nameOf);
  }

  /** The loop of `migrate_opportunities()`: `step` gives the new file's name
      and content for one old file, given the names taken so far, or an error.
      `ok` says which files it succeeds on and `content` what it writes for
      them; neither depends on the names taken. */
  method CopyAll<F, V, E>(target: map<string, V>, files: seq<F>,
    step: (set<string>, F) -> Result<(string, V), E>, ok: F -> bool, content: F -> V)
    returns (result: map<string, V>, migrated: nat, errors: nat)
    requires forall taken, f :: step(taken, f).Success? <==> ok(f)
    requires forall taken, f :: step(taken, f).Success? ==>
      step(taken, f).value.0 !in taken && step(taken, f).value.1 == content(f)
    ensures migrated + errors == |files|
    ensures migrated == Count(files, ok)
    ensures target.Keys <= result.Keys
    ensures forall n :: n in target ==> result[n] == target[n]
    ensures |result.Keys| == |target.Keys| + migrated
    ensures forall n :: n in result && n !in target ==>
      exists i :: 0 <= i < |files| && ok(files[i]) && result[n] == content(files[i])
    ensures forall i :: 0 <= i < |files| && ok(files[i]) ==>
      exists n :: n in result && n !in target && result[n] == content(files[i])
  {
    result, migrated, errors := target, 0, 0;
    ghost var origin: map<string, nat> := map[];
    ghost var nameOf: map<nat, string> := map[];
    var i := 0;
    while i < |files|
      invariant 0 <= i <= |files|
      invariant migrated + errors == i
      invariant CopyState(target, result, files, i, ok, content, origin, nameOf, migrated)
    {
      var s := step(result.Keys, files[i]);
      if s.Success? {
        var (name, c) := s.value;
        CopyStateCopy(target, result, files, i, ok, content, origin, nameOf, migrated, name);
        result := result[name := c];
        origin := origin[name := i];
        nameOf := nameOf[i := name];
        migrated := migrated + 1;
      } else {
        CopyStateSkip(target, result, files, i, ok, content, origin, nameOf, migrated);
        errors := errors + 1;
      }
      i := i + 1;
    }
    assert files[..i] == files;
    WitnessedSources(target, result, files, ok, content, origin, nameOf);
    WitnessedCopies(target, result, files, ok, content, origin, nameOf);
  }

  /** What migrating an old file writes when it succeeds. */
  function Converted(file: Option<Json>, now: string): (r: Json)
    ensures file.Some? && file.value.JObj? ==> r == JObj(ConvertFormat(file.value.fields, now))
  {
    if file.Some? && file.value.JObj? then JObj(ConvertFormat(file.value.fields, now)) else JNull
  }

  /** `migrate_opportunities()` over the old files in enumeration order: the
      target directory afterwards and the success and error counts. */
  method MigrateAll(target: map<string, Json>, files: seq<Option<Json>>, now: string, minute: string)
    returns (result: map<string, Json>, migrated: nat, errors: nat)
    ensures migrated + errors == |files|
    ensures migrated == Count(files, MigratableAt(now))
    ensures target.Keys <= result.Keys
    ensures forall n :: n in target ==> result[n] == target[n]
    ensures |result.Keys| == |target.Keys| + migrated
    ensures forall n :: n in result && n !in target ==>
      exists i :: 0 <= i < |files| && Migratable(files[i], now) && result[n] == Converted(files[i], now)
    ensures forall i :: 0 <= i < |files| && Migratable(files[i], now) ==>
      exists n :: n in result && n !in target && result[n] == Converted(files[i], now)
  {
    result, migrated, errors := CopyAll(target, files,
      (taken, f) => MigrateOne(taken, f, now, minute), MigratableAt(now), f => Converted(f, now));
  }
}
