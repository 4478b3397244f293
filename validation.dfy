/**
 * The schema validator of the catalog: per-record structural checks and
 * the pass over a whole collection that adds duplicate-id detection, the
 * pass/fail verdict and the coverage counts.
 */
module Validation {
  import opened Json

  // ---------------------------------------------------------------------
  // Field tables and closed enumerations
  // ---------------------------------------------------------------------

  /** The Python types the field tables name. */
  datatype PyType = StrType | DictType | IntType | StrOrNoneType

  /** `isinstance(value, t)`; a JSON boolean is not counted as an int here. */
  predicate IsInstance(v: Json, t: PyType) {
    match t
    case StrType => v.JString?
    case DictType => v.JObject?
    case IntType => v.JInt?
    case StrOrNoneType => v.JString? || v.JNull?
  }

  const RequiredTopLevel: seq<(string, PyType)> :=
    [("repo_id", StrType), ("metadata", DictType), ("tracking", DictType)]

  const RequiredMetadata: seq<(string, PyType)> :=
    [("name", StrType), ("url", StrType), ("stars", IntType), ("last_updated", StrOrNoneType)]

  const RequiredTracking: seq<(string, PyType)> := [("first_tracked", StrType)]

  /** Declared by the validator but never consulted by any check. */
  const OptionalFields: seq<(string, PyType)> :=
    [("classification", DictType), ("domain_specific", DictType), ("academic", DictType)]

  const ValidCategories: seq<Json> :=
    [JString("Infrastructure"), JString("Core Methods"), JString("Applications"), JNull]

  /** Declared by the validator but never consulted by any check. */
  const ValidLayers: seq<Json> :=
    [JString("Layer 1: Infrastructure"), JString("Layer 2: Core Methods"),
     JString("Layer 3: Applications"), JNull]

  const ValidGpuRequirements: seq<Json> :=
    [JString("CPU-only"), JString("<8GB"), JString("8-24GB"), JString(">24GB"),
     JString("Multi-GPU"), JNull]

  const ValidExpressionSystems: seq<Json> :=
    [JString("E.coli"), JString("HEK293"), JString("Yeast"), JString("Cell-free"),
     JString("Insect"), JString("CHO")]

  const GitHubPrefix: string := "https://github.com/"

  // ---------------------------------------------------------------------
  // Errors
  // ---------------------------------------------------------------------

  /** The kinds of message; the text built from Python type names is not modelled. */
  datatype Message =
    | MissingRequiredField
    | WrongType(expected: PyType)
    | CannotBeNegative
    | MustBeGitHubUrl
    | InvalidValue(value: Json)
    | Duplicate

  /** The record an error names: its `repo_id` value, or `repo_index_<i>` when it has none. */
  datatype RepoRef = RepoId(id: Json) | RepoIndex(index: nat)

  datatype ValidationError = ValidationError(repo: RepoRef, field: string, message: Message)

  /** `check_type`: `None` passes when allowed, otherwise the value must be an instance. */
  function CheckType(value: Json, expected: PyType, allowNone: bool): bool {
    if allowNone && value == JNull then true else IsInstance(value, expected)
  }

  // ---------------------------------------------------------------------
  // What one record's check reports
  // ---------------------------------------------------------------------

  function RefOf(repo: Record, index: nat): RepoRef {
    if "repo_id" in repo then RepoId(repo["repo_id"]) else RepoIndex(index)
  }

  /** `repo.get('classification')` is truthy: the classification part looks at it. */
  predicate ClassificationPresent(repo: Record) {
    "classification" in repo && Truthy(repo["classification"])
  }

  predicate DomainPresent(repo: Record) {
    "domain_specific" in repo && Truthy(repo["domain_specific"])
  }

  /** A truthy classification that is a dictionary, the only kind whose fields are read. */
  predicate ClassificationObject(repo: Record) {
    ClassificationPresent(repo) && repo["classification"].JObject?
  }

  predicate DomainObject(repo: Record) {
    DomainPresent(repo) && repo["domain_specific"].JObject?
  }

  /**
   * The shapes the checks use without raising. A truthy `url` is read as a
   * string. A truthy `classification` or `domain_specific` is asked
   * `key in value`, which needs a dictionary, a string or a list, and is
   * indexed by the key when that test succeeds, which needs a dictionary: a
   * string or a list passes when it does not hold the key (as a substring,
   * or as an element), and then nothing is reported on it. Truthy
   * `expression_systems` is iterated: a list, or a string character by
   * character; a dictionary would be iterated by its keys, in an order a
   * map does not keep, and is not modelled.
   */
  predicate Checkable(repo: Record) {
    && (MetadataObject(repo) ==>
          var meta := repo["metadata"].fields;
          "url" in meta && Truthy(meta["url"]) ==> meta["url"].JString?)
    && (ClassificationPresent(repo) ==>
          var classification := repo["classification"];
          Container(classification) && (KeyIn("category", classification) ==> classification.JObject?))
    && (DomainPresent(repo) ==>
          var domain := repo["domain_specific"];
          && Container(domain)
          && (KeyIn("gpu_requirement", domain) ==> domain.JObject?)
          && (KeyIn("expression_systems", domain) ==> domain.JObject?)
          && (domain.JObject? && "expression_systems" in domain.fields && Truthy(domain.fields["expression_systems"]) ==>
                Iterable(domain.fields["expression_systems"])))
  }

  /** On a value `key in value` may be asked of, and indexed by when it succeeds, the test is a dictionary's key test. */
  lemma KeyInObject(key: string, v: Json)
    requires Container(v) && (KeyIn(key, v) ==> v.JObject?)
    ensures KeyIn(key, v) <==> v.JObject? && key in v.fields
  {
  }

  /** What the check of one table entry appends: presence, then (optionally) the type. */
  function FieldError(ref: RepoRef, prefix: string, obj: map<string, Json>,
                      entry: (string, PyType), allowNone: bool, checkTypes: bool): seq<ValidationError>
  {
    if entry.0 !in obj then [ValidationError(ref, prefix + entry.0, MissingRequiredField)]
    else if checkTypes && !CheckType(obj[entry.0], entry.1, allowNone) then
      [ValidationError(ref, prefix + entry.0, WrongType(entry.1))]
    else []
  }

  /** What the loop over a field table appends, entry by entry. */
  function TableErrors(ref: RepoRef, prefix: string, obj: map<string, Json>,
                       table: seq<(string, PyType)>, allowNone: bool, checkTypes: bool): seq<ValidationError>
    decreases |table|
  {
    if table == [] then []
    else TableErrors(ref, prefix, obj, table[..|table| - 1], allowNone, checkTypes)
         + FieldError(ref, prefix, obj, table[|table| - 1], allowNone, checkTypes)
  }

  function StarsErrors(ref: RepoRef, meta: map<string, Json>): seq<ValidationError> {
    if "stars" in meta && meta["stars"].JInt? && meta["stars"].i < 0 then
      [ValidationError(ref, "metadata.stars", CannotBeNegative)]
    else []
  }

  function UrlErrors(ref: RepoRef, meta: map<string, Json>): seq<ValidationError>
    requires "url" in meta && Truthy(meta["url"]) ==> meta["url"].JString?
  {
    if "url" in meta && Truthy(meta["url"]) && !(GitHubPrefix <= meta["url"].s) then
      [ValidationError(ref, "metadata.url", MustBeGitHubUrl)]
    else []
  }

  function TopLevelErrors(repo: Record, ref: RepoRef): seq<ValidationError> {
    TableErrors(ref, "", repo, RequiredTopLevel, false, true)
  }

  function MetadataErrors(repo: Record, ref: RepoRef): seq<ValidationError>
    requires Checkable(repo)
  {
    if MetadataObject(repo) then
      var meta := repo["metadata"].fields;
      TableErrors(ref, "metadata.", meta, RequiredMetadata, true, true)
      + StarsErrors(ref, meta) + UrlErrors(ref, meta)
    else []
  }

  function TrackingErrors(repo: Record, ref: RepoRef): seq<ValidationError> {
    if TrackingObject(repo) then
      TableErrors(ref, "tracking.", repo["tracking"].fields, RequiredTracking, false, false)
    else []
  }

  function ClassificationErrors(repo: Record, ref: RepoRef): seq<ValidationError>
    requires Checkable(repo)
  {
    if ClassificationObject(repo) && "category" in repo["classification"].fields then
      var category := repo["classification"].fields["category"];
      if category !in ValidCategories then
        [ValidationError(ref, "classification.category", InvalidValue(category))]
      else []
    else []
  }

  function GpuErrors(ref: RepoRef, domain: map<string, Json>): seq<ValidationError> {
    if "gpu_requirement" in domain && Truthy(domain["gpu_requirement"])
       && domain["gpu_requirement"] !in ValidGpuRequirements then
      [ValidationError(ref, "domain_specific.gpu_requirement", InvalidValue(domain["gpu_requirement"]))]
    else []
  }

  /** What the loop over `expression_systems` appends, element by element. */
  function ExpressionErrors(ref: RepoRef, systems: seq<Json>): seq<ValidationError>
    decreases |systems|
  {
    if systems == [] then []
    else
      var system := systems[|systems| - 1];
      ExpressionErrors(ref, systems[..|systems| - 1])
      + (if system !in ValidExpressionSystems then
           [ValidationError(ref, "domain_specific.expression_systems", InvalidValue(system))]
         else [])
  }

  function DomainErrors(repo: Record, ref: RepoRef): seq<ValidationError>
    requires Checkable(repo)
  {
    if DomainObject(repo) then
      var domain := repo["domain_specific"].fields;
      GpuErrors(ref, domain)
      + (if "expression_systems" in domain && Truthy(domain["expression_systems"]) then
           ExpressionErrors(ref, Iterated(domain["expression_systems"]))
         else [])
    else []
  }

  /** Everything `validate_repo` reports for one record, in order. */
  function RepoErrors(repo: Record, index: nat): seq<ValidationError>
    requires Checkable(repo)
  {
    var ref := RefOf(repo, index);
    TopLevelErrors(repo, ref) + MetadataErrors(repo, ref) + TrackingErrors(repo, ref)
    + ClassificationErrors(repo, ref) + DomainErrors(repo, ref)
  }

  // ---------------------------------------------------------------------
  // validate_repo
  // ---------------------------------------------------------------------

  /** One `for field, field_type in TABLE.items()` loop of `validate_repo`. */
  method CheckTable(ref: RepoRef, prefix: string, obj: map<string, Json>,
                    table: seq<(string, PyType)>, allowNone: bool, checkTypes: bool)
    returns (errors: seq<ValidationError>)
    ensures errors == TableErrors(ref, prefix, obj, table, allowNone, checkTypes)
  {
    errors := [];
    var k := 0;
    while k < |table|
      invariant 0 <= k <= |table|
      invariant errors == TableErrors(ref, prefix, obj, table[..k], allowNone, checkTypes)
    {
      assert table[..k + 1][..k] == table[..k];
      var (field, fieldType) := table[k];
      if field !in obj {
        errors := errors + [ValidationError(ref, prefix + field, MissingRequiredField)];
      } else if checkTypes && !CheckType(obj[field], fieldType, allowNone) {
        errors := errors + [ValidationError(ref, prefix + field, WrongType(fieldType))];
      }
      k := k + 1;
    }
    assert table[..k] == table;
  }

  /** The `for system in domain['expression_systems']` loop of `validate_repo`. */
  method CheckExpressionSystems(ref: RepoRef, systems: seq<Json>) returns (errors: seq<ValidationError>)
    ensures errors == ExpressionErrors(ref, systems)
  {
    errors := [];
    var j := 0;
    while j < |systems|
      invariant 0 <= j <= |systems|
      invariant errors == ExpressionErrors(ref, systems[..j])
    {
      assert systems[..j + 1][..j] == systems[..j];
      var system := systems[j];
      if system !in ValidExpressionSystems {
        errors := errors + [ValidationError(ref, "domain_specific.expression_systems", InvalidValue(system))];
      }
      j := j + 1;
    }
    assert systems[..j] == systems;
  }

  /** The metadata part of `validate_repo`: subfields, stars sign and URL prefix. */
  method CheckMetadata(repo: Record, ref: RepoRef) returns (errors: seq<ValidationError>)
    requires Checkable(repo)
    ensures errors == MetadataErrors(repo, ref)
  {
    errors := [];
    if "metadata" in repo && repo["metadata"].JObject? {
      var metadata := repo["metadata"].fields;
      errors := CheckTable(ref, "metadata.", metadata, RequiredMetadata, true, true);
      if "stars" in metadata && metadata["stars"].JInt? {
        if metadata["stars"].i < 0 {
          errors := errors + [ValidationError(ref, "metadata.stars", CannotBeNegative)];
        }
      }
      if "url" in metadata && Truthy(metadata["url"]) {
        if !(GitHubPrefix <= metadata["url"].s) {
          errors := errors + [ValidationError(ref, "metadata.url", MustBeGitHubUrl)];
        }
      }
    }
  }

  /** The classification part of `validate_repo`: the category, only when classification is truthy. */
  method CheckClassification(repo: Record, ref: RepoRef) returns (errors: seq<ValidationError>)
    requires Checkable(repo)
    ensures errors == ClassificationErrors(repo, ref)
  {
    errors := [];
    if "classification" in repo && Truthy(repo["classification"]) {
      var classification := repo["classification"];
      KeyInObject("category", classification);
      if KeyIn("category", classification) {
        if classification.fields["category"] !in ValidCategories {
          errors := [ValidationError(ref, "classification.category", InvalidValue(classification.fields["category"]))];
        }
      }
    }
  }

  /** The domain-specific part of `validate_repo`: each enum only when truthy. */
  method CheckDomain(repo: Record, ref: RepoRef) returns (errors: seq<ValidationError>)
    requires Checkable(repo)
    ensures errors == DomainErrors(repo, ref)
  {
    errors := [];
    if "domain_specific" in repo && Truthy(repo["domain_specific"]) {
      var domain := repo["domain_specific"];
      KeyInObject("gpu_requirement", domain);
      KeyInObject("expression_systems", domain);
      if KeyIn("gpu_requirement", domain) && Truthy(domain.fields["gpu_requirement"]) {
        if domain.fields["gpu_requirement"] !in ValidGpuRequirements {
          errors := [ValidationError(ref, "domain_specific.gpu_requirement", InvalidValue(domain.fields["gpu_requirement"]))];
        }
      }
      if KeyIn("expression_systems", domain) && Truthy(domain.fields["expression_systems"]) {
        var systemErrors := CheckExpressionSystems(ref, Iterated(domain.fields["expression_systems"]));
        errors := errors + systemErrors;
      }
    }
  }

  /** `validate_repo`: the checks of one record, appended in the order the code runs them. */
  method ValidateRepo(repo: Record, index: nat) returns (errors: seq<ValidationError>)
    requires Checkable(repo)
    ensures errors == RepoErrors(repo, index)
  {
    var ref := if "repo_id" in repo then RepoId(repo["repo_id"]) else RepoIndex(index);
    assert ref == RefOf(repo, index);
    var topLevelErrors := CheckTable(ref, "", repo, RequiredTopLevel, false, true);
    var metadataErrors := CheckMetadata(repo, ref);
    var trackingErrors := [];
    if "tracking" in repo && repo["tracking"].JObject? {
      trackingErrors := CheckTable(ref, "tracking.", repo["tracking"].fields, RequiredTracking, false, false);
    }
    assert trackingErrors == TrackingErrors(repo, ref);
    var classificationErrors := CheckClassification(repo, ref);
    var domainErrors := CheckDomain(repo, ref);
    errors := topLevelErrors + metadataErrors + trackingErrors + classificationErrors + domainErrors;
  }

  // ---------------------------------------------------------------------
  // The collection pass of validate_json_file
  // ---------------------------------------------------------------------

  /** `repo.get('repo_id')`. */
  function IdOf(repo: Record): Json {
    Get(repo, "repo_id", JNull)
  }

  /** The set `repo_ids` once the loop has visited `repos`: every truthy id seen. */
  function SeenIds(repos: seq<Record>): set<Json>
    decreases |repos|
  {
    if repos == [] then {}
    else
      var id := IdOf(repos[|repos| - 1]);
      SeenIds(repos[..|repos| - 1]) + (if Truthy(id) then {id} else {})
  }

  /** The duplicate error the loop appends for `repo` after visiting `seen`. */
  function DuplicateErrors(seen: seq<Record>, repo: Record): seq<ValidationError> {
    var id := IdOf(repo);
    if Truthy(id) && id in SeenIds(seen) then [ValidationError(RepoId(id), "repo_id", Duplicate)] else []
  }

  predicate AllCheckable(repos: seq<Record>) {
    forall k :: 0 <= k < |repos| ==> Checkable(repos[k])
  }

  /** `repo_id in repo_ids` needs a hashable id; a list or dictionary id makes Python raise. */
  predicate IdsHashable(repos: seq<Record>) {
    forall k :: 0 <= k < |repos| ==> Truthy(IdOf(repos[k])) ==> Hashable(IdOf(repos[k]))
  }

  /** `all_errors` after the loop: per record, its duplicate error and then its own errors. */
  function CollectionErrors(repos: seq<Record>): seq<ValidationError>
    requires AllCheckable(repos)
    decreases |repos|
  {
    if repos == [] then []
    else
      var n := |repos| - 1;
      CollectionErrors(repos[..n]) + DuplicateErrors(repos[..n], repos[n]) + RepoErrors(repos[n], n)
  }

  /** Visiting record `i` adds its id to the seen set and its errors to the collected ones. */
  lemma CollectionStep(repos: seq<Record>, i: nat)
    requires AllCheckable(repos) && i < |repos|
    ensures AllCheckable(repos[..i]) && AllCheckable(repos[..i + 1])
    ensures SeenIds(repos[..i + 1]) == SeenIds(repos[..i]) + (if Truthy(IdOf(repos[i])) then {IdOf(repos[i])} else {})
    ensures CollectionErrors(repos[..i + 1])
            == CollectionErrors(repos[..i]) + DuplicateErrors(repos[..i], repos[i]) + RepoErrors(repos[i], i)
  {
    var visited := repos[..i + 1];
    assert visited[..i] == repos[..i] && visited[i] == repos[i] && |visited| == i + 1;
    assert forall k :: 0 <= k < i ==> repos[..i][k] == repos[k];
    assert forall k :: 0 <= k <= i ==> visited[k] == repos[k];
  }

  datatype Coverage = Coverage(categorized: nat, withGpu: nat, withExpressionSystems: nat)

  /** `r.get(key, {}).get(sub)` is truthy, a value of `key` that is not a dictionary counting as empty. */
  predicate HasTruthy(r: Record, key: string, sub: string) {
    key in r && r[key].JObject? && sub in r[key].fields && Truthy(r[key].fields[sub])
  }

  /** `sum(1 for r in repos if r.get(key, {}).get(sub))`. */
  function CountHaving(repos: seq<Record>, key: string, sub: string): (n: nat)
    ensures n <= |repos|
    ensures n == 0 <==> forall k :: 0 <= k < |repos| ==> !HasTruthy(repos[k], key, sub)
    decreases |repos|
  {
    if repos == [] then 0
    else CountHaving(repos[1..], key, sub) + (if HasTruthy(repos[0], key, sub) then 1 else 0)
  }

  /** The three coverage counts, each bounded by the number of records. */
  function CoverageOf(repos: seq<Record>): (c: Coverage)
    ensures c.categorized <= |repos| && c.withGpu <= |repos| && c.withExpressionSystems <= |repos|
  {
    Coverage(CountHaving(repos, "classification", "category"),
             CountHaving(repos, "domain_specific", "gpu_requirement"),
             CountHaving(repos, "domain_specific", "expression_systems"))
  }

  /** `r.get(key, {})` returns a value that is not a dictionary, so the second `.get` raises. */
  predicate GetRaises(r: Record, key: string) {
    key in r && !r[key].JObject?
  }

  /** The coverage sum as written: None when the second `.get` raises on some record. */
  function CountAsWritten(repos: seq<Record>, key: string, sub: string): (r: Option<nat>)
    ensures r.Some? <==> forall k :: 0 <= k < |repos| ==> !GetRaises(repos[k], key)
    ensures r.Some? ==> r.value == CountHaving(repos, key, sub)
    decreases |repos|
  {
    if repos == [] then Some(0)
    else if GetRaises(repos[0], key) then None
    else
      match CountAsWritten(repos[1..], key, sub)
      case None => None
      case Some(n) => Some(n + (if HasTruthy(repos[0], key, sub) then 1 else 0))
  }

  /** The coverage statistics exactly as written: None stands for the AttributeError. */
  function CoverageAsWritten(repos: seq<Record>): (r: Option<Coverage>)
    ensures r.Some? <==> forall k :: 0 <= k < |repos| ==>
              !GetRaises(repos[k], "classification") && !GetRaises(repos[k], "domain_specific")
    ensures r.Some? ==> r.value == CoverageOf(repos)
  {
    match (CountAsWritten(repos, "classification", "category"),
           CountAsWritten(repos, "domain_specific", "gpu_requirement"),
           CountAsWritten(repos, "domain_specific", "expression_systems"))
    case (Some(a), Some(b), Some(c)) => Some(Coverage(a, b, c))
    case _ => None
  }

  /**
   * The collection part of `validate_json_file`: an empty collection is valid;
   * otherwise the verdict is whether the loop collected no error, and
   * coverage is computed only for a valid, non-empty collection.
   */
  method ValidateRecords(repos: seq<Record>) returns (valid: bool, errors: seq<ValidationError>, coverage: Option<Coverage>)
    requires AllCheckable(repos)
    requires IdsHashable(repos)
    ensures errors == CollectionErrors(repos)
    ensures valid <==> errors == []
    ensures repos == [] ==> valid
    ensures coverage == if valid && repos != [] then Some(CoverageOf(repos)) else None
  {
    if |repos| == 0 {
      return true, [], None;
    }
    errors := [];
    var repoIds: set<Json> := {};
    var i := 0;
    while i < |repos|
      invariant 0 <= i <= |repos|
      invariant repoIds == SeenIds(repos[..i])
      invariant errors == CollectionErrors(repos[..i])
    {
      CollectionStep(repos, i);
      var repoId := Get(repos[i], "repo_id", JNull);
      var duplicate: seq<ValidationError> := [];
      if Truthy(repoId) {
        if repoId in repoIds {
          duplicate := [ValidationError(RepoId(repoId), "repo_id", Duplicate)];
        }
        repoIds := repoIds + {repoId};
      }
      var repoErrors := ValidateRepo(repos[i], i);
      errors := errors + duplicate + repoErrors;
      i := i + 1;
    }
    assert repos[..i] == repos;
    if errors != [] {
      valid, coverage := false, None;
    } else {
      valid, coverage := true, Some(CoverageOf(repos));
    }
  }
}
