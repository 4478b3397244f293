/**
 * What the validator promises, proved about the functions that specify
 * `validate_repo` and the collection pass: which errors each field can
 * draw, duplicate detection, and the verdict.
 */
module ValidationProperties {
  import opened Json
  import opened Validation

  // ---------------------------------------------------------------------
  // Errors on one field
  // ---------------------------------------------------------------------

  /** The errors of `errors` reported on `field`, in order. */
  function ErrorsOn(errors: seq<ValidationError>, field: string): seq<ValidationError>
    decreases |errors|
  {
    if errors == [] then []
    else (if errors[0].field == field then [errors[0]] else []) + ErrorsOn(errors[1..], field)
  }

  lemma {:induction false} ErrorsOnConcat(a: seq<ValidationError>, b: seq<ValidationError>, field: string)
    ensures ErrorsOn(a + b, field) == ErrorsOn(a, field) + ErrorsOn(b, field)
    decreases |a|
  {
    if a == [] {
      assert a + b == b;
    } else {
      var head := if a[0].field == field then [a[0]] else [];
      var rest, tail := ErrorsOn(a[1..], field), ErrorsOn(b, field);
      assert (a + b)[0] == a[0] && (a + b)[1..] == a[1..] + b;
      assert ErrorsOn(a + b, field) == head + ErrorsOn(a[1..] + b, field);
      ErrorsOnConcat(a[1..], b, field);
      assert head + (rest + tail) == (head + rest) + tail;
    }
  }

  /** Every error of `errors` is on a field whose name starts with `prefix`. */
  ghost predicate AllUnder(errors: seq<ValidationError>, prefix: string) {
    forall e :: e in errors ==> prefix <= e.field
  }

  lemma {:induction false} ErrorsOnNone(errors: seq<ValidationError>, field: string)
    requires forall e :: e in errors ==> e.field != field
    ensures ErrorsOn(errors, field) == []
    decreases |errors|
  {
    if errors != [] {
      var head, rest := errors[0], errors[1..];
      assert head in errors;
      assert forall e :: e in rest ==> e in errors;
      ErrorsOnNone(rest, field);
      assert ErrorsOn(errors, field) == [] + ErrorsOn(rest, field);
    }
  }

  lemma ErrorsOnOutside(errors: seq<ValidationError>, prefix: string, field: string)
    requires AllUnder(errors, prefix) && !(prefix <= field)
    ensures ErrorsOn(errors, field) == []
  {
    ErrorsOnNone(errors, field);
  }

  lemma {:induction false} ErrorsOnAllOn(errors: seq<ValidationError>, field: string)
    requires forall e :: e in errors ==> e.field == field
    ensures ErrorsOn(errors, field) == errors
    decreases |errors|
  {
    if errors != [] {
      var head, rest := errors[0], errors[1..];
      assert head in errors;
      assert forall e :: e in rest ==> e in errors;
      ErrorsOnAllOn(rest, field);
      assert ErrorsOn(errors, field) == [head] + rest;
      assert [head] + rest == errors;
    }
  }

  lemma PrefixedDiffer(prefix: string, a: string, b: string)
    requires a != b
    ensures prefix + a != prefix + b
  {
    assert (prefix + a)[|prefix|..] == a;
    assert (prefix + b)[|prefix|..] == b;
  }

  // ---------------------------------------------------------------------
  // The table loops
  // ---------------------------------------------------------------------

  lemma {:induction false} TableErrorsFields(ref: RepoRef, prefix: string, obj: map<string, Json>,
                                             table: seq<(string, PyType)>, allowNone: bool, checkTypes: bool)
    ensures forall e :: e in TableErrors(ref, prefix, obj, table, allowNone, checkTypes) ==>
              exists i :: 0 <= i < |table| && e.field == prefix + table[i].0
    decreases |table|
  {
    if table != [] {
      var n := |table| - 1;
      TableErrorsFields(ref, prefix, obj, table[..n], allowNone, checkTypes);
      forall e | e in TableErrors(ref, prefix, obj, table, allowNone, checkTypes)
        ensures exists i :: 0 <= i < |table| && e.field == prefix + table[i].0
      {
        if e in TableErrors(ref, prefix, obj, table[..n], allowNone, checkTypes) {
          var i :| 0 <= i < n && e.field == prefix + table[..n][i].0;
          assert table[..n][i] == table[i];
        } else {
          assert e.field == prefix + table[n].0;
        }
      }
    }
  }

  lemma TableErrorsUnder(ref: RepoRef, prefix: string, obj: map<string, Json>,
                         table: seq<(string, PyType)>, allowNone: bool, checkTypes: bool)
    ensures AllUnder(TableErrors(ref, prefix, obj, table, allowNone, checkTypes), prefix)
  {
    TableErrorsFields(ref, prefix, obj, table, allowNone, checkTypes);
    forall e | e in TableErrors(ref, prefix, obj, table, allowNone, checkTypes)
      ensures prefix <= e.field
    {
      var i :| 0 <= i < |table| && e.field == prefix + table[i].0;
      assert e.field[..|prefix|] == prefix;
    }
  }

  lemma TableErrorsOnOther(ref: RepoRef, prefix: string, obj: map<string, Json>,
                           table: seq<(string, PyType)>, allowNone: bool, checkTypes: bool, field: string)
    requires forall i :: 0 <= i < |table| ==> prefix + table[i].0 != field
    ensures ErrorsOn(TableErrors(ref, prefix, obj, table, allowNone, checkTypes), field) == []
  {
    TableErrorsFields(ref, prefix, obj, table, allowNone, checkTypes);
    ErrorsOnNone(TableErrors(ref, prefix, obj, table, allowNone, checkTypes), field);
  }

  ghost predicate DistinctNames(table: seq<(string, PyType)>) {
    forall i, j :: 0 <= i < j < |table| ==> table[i].0 != table[j].0
  }

  lemma DistinctNamesPrefix(table: seq<(string, PyType)>, n: nat)
    requires DistinctNames(table) && n <= |table|
    ensures DistinctNames(table[..n])
  {
    assert forall i :: 0 <= i < n ==> table[..n][i] == table[i];
  }

  /** The entry check for the last entry, when no earlier entry shares its name. */
  lemma TableErrorsOnLast(ref: RepoRef, prefix: string, obj: map<string, Json>,
                          table: seq<(string, PyType)>, allowNone: bool, checkTypes: bool)
    requires |table| > 0 && DistinctNames(table)
    ensures ErrorsOn(TableErrors(ref, prefix, obj, table, allowNone, checkTypes), prefix + table[|table| - 1].0)
            == FieldError(ref, prefix, obj, table[|table| - 1], allowNone, checkTypes)
  {
    var n := |table| - 1;
    var init := table[..n];
    var field := prefix + table[n].0;
    var last := FieldError(ref, prefix, obj, table[n], allowNone, checkTypes);
    ErrorsOnConcat(TableErrors(ref, prefix, obj, init, allowNone, checkTypes), last, field);
    forall i | 0 <= i < |init|
      ensures prefix + init[i].0 != field
    {
      assert init[i] == table[i];
      PrefixedDiffer(prefix, init[i].0, table[n].0);
    }
    TableErrorsOnOther(ref, prefix, obj, init, allowNone, checkTypes, field);
    ErrorsOnAllOn(last, field);
  }

  /** In a table of distinct names, the errors on one entry's field are exactly that entry's check. */
  lemma {:induction false} TableErrorsOnEntry(ref: RepoRef, prefix: string, obj: map<string, Json>,
                                              table: seq<(string, PyType)>, allowNone: bool, checkTypes: bool, k: nat)
    requires k < |table| && DistinctNames(table)
    ensures ErrorsOn(TableErrors(ref, prefix, obj, table, allowNone, checkTypes), prefix + table[k].0)
            == FieldError(ref, prefix, obj, table[k], allowNone, checkTypes)
    decreases |table|
  {
    var n := |table| - 1;
    if k == n {
      TableErrorsOnLast(ref, prefix, obj, table, allowNone, checkTypes);
    } else {
      var init := table[..n];
      var field := prefix + table[k].0;
      var last := FieldError(ref, prefix, obj, table[n], allowNone, checkTypes);
      ErrorsOnConcat(TableErrors(ref, prefix, obj, init, allowNone, checkTypes), last, field);
      assert init[k] == table[k];
      DistinctNamesPrefix(table, n);
      TableErrorsOnEntry(ref, prefix, obj, init, allowNone, checkTypes, k);
      PrefixedDiffer(prefix, table[n].0, table[k].0);
      ErrorsOnNone(last, field);
    }
  }

  lemma MetadataNamesDistinct()
    ensures DistinctNames(RequiredMetadata)
  {
    assert forall i :: 0 <= i < 4 ==> |RequiredMetadata[i].0| == [4, 3, 5, 12][i];
  }

  lemma TopLevelNamesDistinct()
    ensures DistinctNames(RequiredTopLevel)
  {
    assert forall i :: 0 <= i < 3 ==> RequiredTopLevel[i].0[0] == ['r', 'm', 't'][i];
  }

  // ---------------------------------------------------------------------
  // Which fields each part of validate_repo reports on
  // ---------------------------------------------------------------------

  lemma MetadataUnder(repo: Record, ref: RepoRef)
    requires Checkable(repo)
    ensures AllUnder(MetadataErrors(repo, ref), "metadata.")
  {
    if MetadataObject(repo) {
      TableErrorsUnder(ref, "metadata.", repo["metadata"].fields, RequiredMetadata, true, true);
    }
  }

  lemma TrackingUnder(repo: Record, ref: RepoRef)
    ensures AllUnder(TrackingErrors(repo, ref), "tracking.")
  {
    if TrackingObject(repo) {
      TableErrorsUnder(ref, "tracking.", repo["tracking"].fields, RequiredTracking, false, false);
    }
  }

  lemma {:induction false} ExpressionErrorsFields(ref: RepoRef, systems: seq<Json>)
    ensures forall e :: e in ExpressionErrors(ref, systems) ==>
              e.field == "domain_specific.expression_systems" && e.repo == ref
    decreases |systems|
  {
    if systems != [] {
      ExpressionErrorsFields(ref, systems[..|systems| - 1]);
    }
  }

  lemma DomainFields(repo: Record, ref: RepoRef)
    requires Checkable(repo)
    ensures forall e :: e in DomainErrors(repo, ref) ==>
              e.field == "domain_specific.gpu_requirement" || e.field == "domain_specific.expression_systems"
  {
    if DomainObject(repo) {
      var domain := repo["domain_specific"].fields;
      if "expression_systems" in domain && Truthy(domain["expression_systems"]) {
        ExpressionErrorsFields(ref, Iterated(domain["expression_systems"]));
      }
    }
  }

  /** The errors on one field are those of each part of validate_repo on it, in order. */
  lemma RepoErrorsOn(repo: Record, index: nat, field: string)
    requires Checkable(repo)
    ensures var ref := RefOf(repo, index);
            ErrorsOn(RepoErrors(repo, index), field)
            == ErrorsOn(TopLevelErrors(repo, ref), field) + ErrorsOn(MetadataErrors(repo, ref), field)
               + ErrorsOn(TrackingErrors(repo, ref), field) + ErrorsOn(ClassificationErrors(repo, ref), field)
               + ErrorsOn(DomainErrors(repo, ref), field)
  {
    var ref := RefOf(repo, index);
    var t, m, tr, c, d := TopLevelErrors(repo, ref), MetadataErrors(repo, ref), TrackingErrors(repo, ref),
                          ClassificationErrors(repo, ref), DomainErrors(repo, ref);
    ErrorsOnConcat(t + m + tr + c, d, field);
    ErrorsOnConcat(t + m + tr, c, field);
    ErrorsOnConcat(t + m, tr, field);
    ErrorsOnConcat(t, m, field);
  }

  // ---------------------------------------------------------------------
  // Properties of validate_repo
  // ---------------------------------------------------------------------

  /**
   * A required top-level field draws exactly one "missing" error when absent,
   * exactly one "wrong type" error when present with the wrong type, and none
   * otherwise.
   */
  lemma TopLevelFieldErrors(repo: Record, index: nat, k: nat)
    requires Checkable(repo) && k < |RequiredTopLevel|
    ensures var (field, fieldType) := RequiredTopLevel[k];
            var ref := RefOf(repo, index);
            ErrorsOn(RepoErrors(repo, index), field)
            == if field !in repo then [ValidationError(ref, field, MissingRequiredField)]
               else if !IsInstance(repo[field], fieldType) then [ValidationError(ref, field, WrongType(fieldType))]
               else []
  {
    var ref := RefOf(repo, index);
    var field := RequiredTopLevel[k].0;
    TopLevelOnlyOn(repo, index, k);
    TopLevelEntryOn(repo, ref, k);
    assert "" + field == field;
  }

  /** Filtering five concatenated parts, the last four of which say nothing about `field`. */
  lemma FirstOn(t: seq<ValidationError>, m: seq<ValidationError>, tr: seq<ValidationError>,
                c: seq<ValidationError>, d: seq<ValidationError>, field: string)
    requires ErrorsOn(m, field) == [] && ErrorsOn(tr, field) == []
    requires ErrorsOn(c, field) == [] && ErrorsOn(d, field) == []
    ensures ErrorsOn(t + m + tr + c + d, field) == ErrorsOn(t, field)
  {
    ErrorsOnConcat(t + m + tr + c, d, field);
    ErrorsOnConcat(t + m + tr, c, field);
    ErrorsOnConcat(t + m, tr, field);
    ErrorsOnConcat(t, m, field);
    assert ErrorsOn(t + m + tr + c + d, field) == ErrorsOn(t, field) + [] + [] + [] + [];
    assert ErrorsOn(t, field) + [] + [] + [] + [] == ErrorsOn(t, field);
  }

  /** Only the top-level loop reports on a top-level field. */
  lemma TopLevelOnlyOn(repo: Record, index: nat, k: nat)
    requires Checkable(repo) && k < |RequiredTopLevel|
    ensures var ref := RefOf(repo, index);
            ErrorsOn(RepoErrors(repo, index), RequiredTopLevel[k].0)
            == ErrorsOn(TopLevelErrors(repo, ref), RequiredTopLevel[k].0)
  {
    var ref := RefOf(repo, index);
    var field := RequiredTopLevel[k].0;
    var t, m, tr, c, d := TopLevelErrors(repo, ref), MetadataErrors(repo, ref), TrackingErrors(repo, ref),
                          ClassificationErrors(repo, ref), DomainErrors(repo, ref);
    assert RepoErrors(repo, index) == t + m + tr + c + d;
    MetadataUnder(repo, ref);
    ErrorsOnOutside(m, "metadata.", field);
    TrackingUnder(repo, ref);
    ErrorsOnOutside(tr, "tracking.", field);
    ErrorsOnNone(c, field);
    DomainFields(repo, ref);
    ErrorsOnNone(d, field);
    FirstOn(t, m, tr, c, d, field);
  }

  /** The top-level loop reports on its `k`-th field that field's own check only. */
  lemma TopLevelEntryOn(repo: Record, ref: RepoRef, k: nat)
    requires k < |RequiredTopLevel|
    ensures ErrorsOn(TopLevelErrors(repo, ref), RequiredTopLevel[k].0)
            == FieldError(ref, "", repo, RequiredTopLevel[k], false, true)
  {
    assert "" + RequiredTopLevel[k].0 == RequiredTopLevel[k].0;
    TopLevelNamesDistinct();
    TableErrorsOnEntry(ref, "", repo, RequiredTopLevel, false, true, k);
  }

  lemma TopLevelOnOther(repo: Record, ref: RepoRef, field: string)
    requires field != "repo_id" && field != "metadata" && field != "tracking"
    ensures ErrorsOn(TopLevelErrors(repo, ref), field) == []
  {
    forall i | 0 <= i < |RequiredTopLevel|
      ensures "" + RequiredTopLevel[i].0 != field
    {
      assert "" + RequiredTopLevel[i].0 == RequiredTopLevel[i].0;
    }
    TableErrorsOnOther(ref, "", repo, RequiredTopLevel, false, true, field);
  }

  /** The errors of an object metadata, as `validate_repo` appends them. */
  function MetaErrors(ref: RepoRef, meta: map<string, Json>): seq<ValidationError>
    requires "url" in meta && Truthy(meta["url"]) ==> meta["url"].JString?
  {
    TableErrors(ref, "metadata.", meta, RequiredMetadata, true, true) + StarsErrors(ref, meta) + UrlErrors(ref, meta)
  }

  /**
   * What is reported on `metadata.name` or `metadata.last_updated` (`entry`)
   * of an object metadata: missing, or of the wrong type; `null` passes.
   */
  function PlainReport(ref: RepoRef, meta: map<string, Json>, entry: (string, PyType)): seq<ValidationError> {
    var field := "metadata." + entry.0;
    if entry.0 !in meta then [ValidationError(ref, field, MissingRequiredField)]
    else if meta[entry.0] == JNull || IsInstance(meta[entry.0], entry.1) then []
    else [ValidationError(ref, field, WrongType(entry.1))]
  }

  /** What is reported on `metadata.stars` of an object metadata: missing, not an integer, or negative; `null` passes. */
  function StarsReport(ref: RepoRef, meta: map<string, Json>): seq<ValidationError> {
    if "stars" !in meta then [ValidationError(ref, "metadata.stars", MissingRequiredField)]
    else match meta["stars"]
      case JNull => []
      case JInt(n) => if n < 0 then [ValidationError(ref, "metadata.stars", CannotBeNegative)] else []
      case _ => [ValidationError(ref, "metadata.stars", WrongType(IntType))]
  }

  /**
   * What is reported on `metadata.url` of an object metadata: missing, not a
   * string, or a non-empty string off GitHub; `null` and `""` pass.
   */
  function UrlReport(ref: RepoRef, meta: map<string, Json>): seq<ValidationError> {
    if "url" !in meta then [ValidationError(ref, "metadata.url", MissingRequiredField)]
    else match meta["url"]
      case JNull => []
      case JString(s) => if s != "" && !(GitHubPrefix <= s) then [ValidationError(ref, "metadata.url", MustBeGitHubUrl)] else []
      case _ => [ValidationError(ref, "metadata.url", WrongType(StrType))]
  }

  /** The metadata table reports on its `k`-th field that field's own check only. */
  lemma MetaTableOn(ref: RepoRef, meta: map<string, Json>, k: nat)
    requires k < |RequiredMetadata|
    ensures ErrorsOn(TableErrors(ref, "metadata.", meta, RequiredMetadata, true, true), "metadata." + RequiredMetadata[k].0)
            == FieldError(ref, "metadata.", meta, RequiredMetadata[k], true, true)
  {
    MetadataNamesDistinct();
    TableErrorsOnEntry(ref, "metadata.", meta, RequiredMetadata, true, true, k);
  }

  lemma MetaErrorsSplit(ref: RepoRef, meta: map<string, Json>, field: string)
    requires "url" in meta && Truthy(meta["url"]) ==> meta["url"].JString?
    ensures ErrorsOn(MetaErrors(ref, meta), field)
            == ErrorsOn(TableErrors(ref, "metadata.", meta, RequiredMetadata, true, true), field)
               + ErrorsOn(StarsErrors(ref, meta), field) + ErrorsOn(UrlErrors(ref, meta), field)
  {
    var table, stars, url := TableErrors(ref, "metadata.", meta, RequiredMetadata, true, true),
                             StarsErrors(ref, meta), UrlErrors(ref, meta);
    ErrorsOnConcat(table + stars, url, field);
    ErrorsOnConcat(table, stars, field);
  }

  lemma PlainOnMeta(ref: RepoRef, meta: map<string, Json>, k: nat)
    requires "url" in meta && Truthy(meta["url"]) ==> meta["url"].JString?
    requires k == 0 || k == 3
    ensures ErrorsOn(MetaErrors(ref, meta), "metadata." + RequiredMetadata[k].0) == PlainReport(ref, meta, RequiredMetadata[k])
  {
    var name := RequiredMetadata[k].0;
    var field := "metadata." + name;
    MetaErrorsSplit(ref, meta, field);
    MetaTableOn(ref, meta, k);
    PlainNotChecked(ref, meta, k);
    PlainReportParts(ref, meta, RequiredMetadata[k]);
    var own := FieldError(ref, "metadata.", meta, RequiredMetadata[k], true, true);
    assert own + [] + [] == own;
  }

  /** The stars and url checks say nothing about `name` or `last_updated`. */
  lemma PlainNotChecked(ref: RepoRef, meta: map<string, Json>, k: nat)
    requires "url" in meta && Truthy(meta["url"]) ==> meta["url"].JString?
    requires k == 0 || k == 3
    ensures ErrorsOn(StarsErrors(ref, meta), "metadata." + RequiredMetadata[k].0) == []
    ensures ErrorsOn(UrlErrors(ref, meta), "metadata." + RequiredMetadata[k].0) == []
  {
    var name := RequiredMetadata[k].0;
    var field := "metadata." + name;
    MetadataNamesDistinct();
    PrefixedDiffer("metadata.", name, RequiredMetadata[2].0);
    PrefixedDiffer("metadata.", name, RequiredMetadata[1].0);
    StarsFieldName();
    UrlFieldName();
    ErrorsOnNone(StarsErrors(ref, meta), field);
    ErrorsOnNone(UrlErrors(ref, meta), field);
  }

  /** The sign check reports on `metadata.stars` only, the prefix check on `metadata.url` only. */
  lemma SignAndPrefixChecksOn(ref: RepoRef, meta: map<string, Json>)
    requires "url" in meta && Truthy(meta["url"]) ==> meta["url"].JString?
    ensures ErrorsOn(StarsErrors(ref, meta), "metadata.stars") == StarsErrors(ref, meta)
    ensures ErrorsOn(StarsErrors(ref, meta), "metadata.url") == []
    ensures ErrorsOn(UrlErrors(ref, meta), "metadata.url") == UrlErrors(ref, meta)
    ensures ErrorsOn(UrlErrors(ref, meta), "metadata.stars") == []
  {
    assert "metadata.stars" != "metadata.url" by {
      assert |"metadata.stars"| == 14 && |"metadata.url"| == 12;
    }
    ErrorsOnAllOn(StarsErrors(ref, meta), "metadata.stars");
    ErrorsOnNone(StarsErrors(ref, meta), "metadata.url");
    ErrorsOnAllOn(UrlErrors(ref, meta), "metadata.url");
    ErrorsOnNone(UrlErrors(ref, meta), "metadata.stars");
  }

  /** The table's check of `name` or `last_updated` is the plain report. */
  lemma PlainReportParts(ref: RepoRef, meta: map<string, Json>, entry: (string, PyType))
    ensures FieldError(ref, "metadata.", meta, entry, true, true) == PlainReport(ref, meta, entry)
  {
  }

  lemma StarsOnMeta(ref: RepoRef, meta: map<string, Json>)
    requires "url" in meta && Truthy(meta["url"]) ==> meta["url"].JString?
    ensures ErrorsOn(MetaErrors(ref, meta), "metadata.stars") == StarsReport(ref, meta)
  {
    StarsOnMetaParts(ref, meta);
    StarsReportParts(ref, meta);
  }

  lemma StarsOnMetaParts(ref: RepoRef, meta: map<string, Json>)
    requires "url" in meta && Truthy(meta["url"]) ==> meta["url"].JString?
    ensures ErrorsOn(MetaErrors(ref, meta), "metadata.stars")
            == FieldError(ref, "metadata.", meta, RequiredMetadata[2], true, true) + StarsErrors(ref, meta)
  {
    StarsFieldName();
    MetaErrorsSplit(ref, meta, "metadata.stars");
    MetaTableOn(ref, meta, 2);
    var own := FieldError(ref, "metadata.", meta, RequiredMetadata[2], true, true);
    var stars := StarsErrors(ref, meta);
    SignAndPrefixChecksOn(ref, meta);
    assert own + stars + [] == own + stars;
  }

  /** The table's check of `stars` and the sign check together give the stars report. */
  lemma StarsReportParts(ref: RepoRef, meta: map<string, Json>)
    ensures FieldError(ref, "metadata.", meta, RequiredMetadata[2], true, true) + StarsErrors(ref, meta)
            == StarsReport(ref, meta)
  {
    var own := FieldError(ref, "metadata.", meta, RequiredMetadata[2], true, true);
    var stars := StarsErrors(ref, meta);
    StarsTableCheck(ref, meta);
    if "stars" in meta && meta["stars"].JInt? {
      assert own + stars == stars;
    } else {
      assert stars == [];
      assert own + stars == own;
    }
  }

  /** The table's own check of `stars`: present, and an integer or `null`. */
  lemma StarsTableCheck(ref: RepoRef, meta: map<string, Json>)
    ensures FieldError(ref, "metadata.", meta, RequiredMetadata[2], true, true)
            == if "stars" !in meta then [ValidationError(ref, "metadata.stars", MissingRequiredField)]
               else if meta["stars"].JNull? || meta["stars"].JInt? then []
               else [ValidationError(ref, "metadata.stars", WrongType(IntType))]
  {
    StarsFieldName();
  }

  lemma UrlOnMeta(ref: RepoRef, meta: map<string, Json>)
    requires "url" in meta && Truthy(meta["url"]) ==> meta["url"].JString?
    ensures ErrorsOn(MetaErrors(ref, meta), "metadata.url") == UrlReport(ref, meta)
  {
    UrlOnMetaParts(ref, meta);
    UrlReportParts(ref, meta);
  }

  lemma UrlOnMetaParts(ref: RepoRef, meta: map<string, Json>)
    requires "url" in meta && Truthy(meta["url"]) ==> meta["url"].JString?
    ensures ErrorsOn(MetaErrors(ref, meta), "metadata.url")
            == FieldError(ref, "metadata.", meta, RequiredMetadata[1], true, true) + UrlErrors(ref, meta)
  {
    UrlFieldName();
    MetaErrorsSplit(ref, meta, "metadata.url");
    MetaTableOn(ref, meta, 1);
    var own := FieldError(ref, "metadata.", meta, RequiredMetadata[1], true, true);
    var url := UrlErrors(ref, meta);
    SignAndPrefixChecksOn(ref, meta);
    assert own + [] + url == own + url;
  }

  /** The table's check of `url` and the prefix check together give the url report. */
  lemma UrlReportParts(ref: RepoRef, meta: map<string, Json>)
    requires "url" in meta && Truthy(meta["url"]) ==> meta["url"].JString?
    ensures FieldError(ref, "metadata.", meta, RequiredMetadata[1], true, true) + UrlErrors(ref, meta)
            == UrlReport(ref, meta)
  {
    var own := FieldError(ref, "metadata.", meta, RequiredMetadata[1], true, true);
    var url := UrlErrors(ref, meta);
    UrlTableCheck(ref, meta);
    if "url" in meta && meta["url"].JString? {
      assert own + url == url;
    } else {
      assert url == [];
      assert own + url == own;
    }
  }

  /** The table's own check of `url`: present, and a string or `null`. */
  lemma UrlTableCheck(ref: RepoRef, meta: map<string, Json>)
    ensures FieldError(ref, "metadata.", meta, RequiredMetadata[1], true, true)
            == if "url" !in meta then [ValidationError(ref, "metadata.url", MissingRequiredField)]
               else if meta["url"].JNull? || meta["url"].JString? then []
               else [ValidationError(ref, "metadata.url", WrongType(StrType))]
  {
    UrlFieldName();
  }

  /** The metadata part is the errors of the metadata object, or nothing when it is not one. */
  lemma MetadataErrorsOfObject(repo: Record, ref: RepoRef)
    requires Checkable(repo)
    ensures MetadataErrors(repo, ref) == if MetadataObject(repo) then MetaErrors(ref, repo["metadata"].fields) else []
  {
  }

  lemma ClassificationOnOther(repo: Record, ref: RepoRef, field: string)
    requires Checkable(repo) && field != "classification.category"
    ensures ErrorsOn(ClassificationErrors(repo, ref), field) == []
  {
    ErrorsOnNone(ClassificationErrors(repo, ref), field);
  }

  lemma DomainOnOther(repo: Record, ref: RepoRef, field: string)
    requires Checkable(repo)
    requires field != "domain_specific.gpu_requirement" && field != "domain_specific.expression_systems"
    ensures ErrorsOn(DomainErrors(repo, ref), field) == []
  {
    DomainFields(repo, ref);
    ErrorsOnNone(DomainErrors(repo, ref), field);
  }

  /** Filtering five concatenated parts, all but the second of which say nothing about `field`. */
  lemma SecondOn(t: seq<ValidationError>, m: seq<ValidationError>, tr: seq<ValidationError>,
                 c: seq<ValidationError>, d: seq<ValidationError>, field: string)
    requires ErrorsOn(t, field) == [] && ErrorsOn(tr, field) == []
    requires ErrorsOn(c, field) == [] && ErrorsOn(d, field) == []
    ensures ErrorsOn(t + m + tr + c + d, field) == ErrorsOn(m, field)
  {
    ErrorsOnConcat(t + m + tr + c, d, field);
    ErrorsOnConcat(t + m + tr, c, field);
    ErrorsOnConcat(t + m, tr, field);
    ErrorsOnConcat(t, m, field);
    assert ErrorsOn(t + m + tr + c + d, field) == [] + ErrorsOn(m, field) + [] + [] + [];
    assert [] + ErrorsOn(m, field) + [] + [] + [] == ErrorsOn(m, field);
  }

  /** The errors on a metadata subfield come from the metadata part alone. */
  lemma MetadataOnlyOn(repo: Record, index: nat, field: string)
    requires Checkable(repo) && "metadata." <= field && |field| > 9
    ensures ErrorsOn(RepoErrors(repo, index), field) == ErrorsOn(MetadataErrors(repo, RefOf(repo, index)), field)
  {
    var ref := RefOf(repo, index);
    var t, m, tr, c, d := TopLevelErrors(repo, ref), MetadataErrors(repo, ref), TrackingErrors(repo, ref),
                          ClassificationErrors(repo, ref), DomainErrors(repo, ref);
    assert RepoErrors(repo, index) == t + m + tr + c + d;
    assert field[0] == 'm' && field[8] == '.';
    assert field != "repo_id" && field != "metadata" && field != "tracking" by {
      assert "repo_id"[0] == 'r' && |"metadata"| == 8 && "tracking"[0] == 't';
    }
    TopLevelOnOther(repo, ref, field);
    assert !("tracking." <= field) by {
      assert "tracking."[0] == 't';
    }
    TrackingUnder(repo, ref);
    ErrorsOnOutside(tr, "tracking.", field);
    assert field != "classification.category" by {
      assert "classification.category"[0] == 'c';
    }
    ClassificationOnOther(repo, ref, field);
    assert field != "domain_specific.gpu_requirement" && field != "domain_specific.expression_systems" by {
      assert "domain_specific.gpu_requirement"[0] == 'd' && "domain_specific.expression_systems"[0] == 'd';
    }
    DomainOnOther(repo, ref, field);
    SecondOn(t, m, tr, c, d, field);
  }

  lemma StarsFieldName()
    ensures "metadata." + RequiredMetadata[2].0 == "metadata.stars"
  {
  }

  lemma UrlFieldName()
    ensures "metadata." + RequiredMetadata[1].0 == "metadata.url"
  {
  }

  lemma MetadataFieldName(k: nat)
    requires k < |RequiredMetadata|
    ensures var field := "metadata." + RequiredMetadata[k].0;
            "metadata." <= field && |field| > 9
  {
  }

  /** What the metadata part reports on `name` or `last_updated`. */
  lemma PlainFieldInMetadata(repo: Record, ref: RepoRef, k: nat)
    requires Checkable(repo) && (k == 0 || k == 3)
    ensures ErrorsOn(MetadataErrors(repo, ref), "metadata." + RequiredMetadata[k].0)
            == if MetadataObject(repo) then PlainReport(ref, repo["metadata"].fields, RequiredMetadata[k]) else []
  {
    MetadataErrorsOfObject(repo, ref);
    if MetadataObject(repo) {
      PlainOnMeta(ref, repo["metadata"].fields, k);
    }
  }

  /**
   * `metadata.name` and `metadata.last_updated` are checked only inside an
   * object metadata; absent draws one "missing" error, and `null` never
   * draws a type error.
   */
  lemma MetadataPlainFieldErrors(repo: Record, index: nat, k: nat)
    requires Checkable(repo) && (k == 0 || k == 3)
    ensures ErrorsOn(RepoErrors(repo, index), "metadata." + RequiredMetadata[k].0)
            == if MetadataObject(repo) then PlainReport(RefOf(repo, index), repo["metadata"].fields, RequiredMetadata[k])
               else []
  {
    MetadataFieldName(k);
    MetadataOnlyOn(repo, index, "metadata." + RequiredMetadata[k].0);
    PlainFieldInMetadata(repo, RefOf(repo, index), k);
  }

  /** What the metadata part reports on `stars`. */
  lemma StarsInMetadata(repo: Record, ref: RepoRef)
    requires Checkable(repo)
    ensures ErrorsOn(MetadataErrors(repo, ref), "metadata.stars")
            == if MetadataObject(repo) then StarsReport(ref, repo["metadata"].fields) else []
  {
    MetadataErrorsOfObject(repo, ref);
    if MetadataObject(repo) {
      StarsOnMeta(ref, repo["metadata"].fields);
    }
  }

  /**
   * `metadata.stars`: an integer below zero draws exactly one "cannot be
   * negative" error, one at or above zero none; `null` draws nothing.
   */
  lemma StarsErrorsExact(repo: Record, index: nat)
    requires Checkable(repo)
    ensures ErrorsOn(RepoErrors(repo, index), "metadata.stars")
            == if MetadataObject(repo) then StarsReport(RefOf(repo, index), repo["metadata"].fields) else []
  {
    MetadataOnlyOn(repo, index, "metadata.stars");
    StarsInMetadata(repo, RefOf(repo, index));
  }

  /** What the metadata part reports on `url`. */
  lemma UrlInMetadata(repo: Record, ref: RepoRef)
    requires Checkable(repo)
    ensures ErrorsOn(MetadataErrors(repo, ref), "metadata.url")
            == if MetadataObject(repo) then UrlReport(ref, repo["metadata"].fields) else []
  {
    MetadataErrorsOfObject(repo, ref);
    if MetadataObject(repo) {
      UrlOnMeta(ref, repo["metadata"].fields);
    }
  }

  /**
   * `metadata.url`: a non-empty string without the `https://github.com/`
   * prefix draws exactly one error; an empty string or `null` draws none.
   */
  lemma UrlErrorsExact(repo: Record, index: nat)
    requires Checkable(repo)
    ensures ErrorsOn(RepoErrors(repo, index), "metadata.url")
            == if MetadataObject(repo) then UrlReport(RefOf(repo, index), repo["metadata"].fields) else []
  {
    MetadataOnlyOn(repo, index, "metadata.url");
    UrlInMetadata(repo, RefOf(repo, index));
  }

  /** Filtering five concatenated parts, three of which say nothing about `field`. */
  lemma LastTwoOn(t: seq<ValidationError>, m: seq<ValidationError>, tr: seq<ValidationError>,
                  c: seq<ValidationError>, d: seq<ValidationError>, field: string)
    requires ErrorsOn(t, field) == [] && ErrorsOn(m, field) == [] && ErrorsOn(tr, field) == []
    ensures ErrorsOn(t + m + tr + c + d, field) == ErrorsOn(c, field) + ErrorsOn(d, field)
  {
    ErrorsOnConcat(t + m + tr + c, d, field);
    ErrorsOnConcat(t + m + tr, c, field);
    ErrorsOnConcat(t + m, tr, field);
    ErrorsOnConcat(t, m, field);
    assert ErrorsOn(t + m + tr, field) == [];
  }

  /** Errors on a field outside the top-level, metadata and tracking tables come from the last two parts only. */
  lemma {:induction false} LaterFieldOn(repo: Record, index: nat, field: string)
    requires Checkable(repo)
    requires |field| > 0 && (field[0] == 'c' || field[0] == 'd')
    ensures var ref := RefOf(repo, index);
            ErrorsOn(RepoErrors(repo, index), field)
            == ErrorsOn(ClassificationErrors(repo, ref), field) + ErrorsOn(DomainErrors(repo, ref), field)
  {
    var ref := RefOf(repo, index);
    var t, m, tr, c, d := TopLevelErrors(repo, ref), MetadataErrors(repo, ref), TrackingErrors(repo, ref),
                          ClassificationErrors(repo, ref), DomainErrors(repo, ref);
    assert RepoErrors(repo, index) == t + m + tr + c + d;
    assert field != "repo_id" && field != "metadata" && field != "tracking" by {
      assert "repo_id"[0] == 'r' && "metadata"[0] == 'm' && "tracking"[0] == 't';
    }
    TopLevelOnOther(repo, ref, field);
    assert !("metadata." <= field) && !("tracking." <= field) by {
      assert "metadata."[0] == 'm' && "tracking."[0] == 't';
    }
    MetadataUnder(repo, ref);
    ErrorsOnOutside(m, "metadata.", field);
    TrackingUnder(repo, ref);
    ErrorsOnOutside(tr, "tracking.", field);
    LastTwoOn(t, m, tr, c, d, field);
  }

  /**
   * `classification.category` is flagged exactly when classification is
   * truthy, holds `category`, and its value is outside the enumeration
   * (which includes `null`).
   */
  lemma CategoryErrorsExact(repo: Record, index: nat)
    requires Checkable(repo)
    ensures var ref := RefOf(repo, index);
            ErrorsOn(RepoErrors(repo, index), "classification.category")
            == if ClassificationObject(repo) && "category" in repo["classification"].fields
                  && repo["classification"].fields["category"] !in ValidCategories
               then [ValidationError(ref, "classification.category",
                                     InvalidValue(repo["classification"].fields["category"]))]
               else []
  {
    var ref := RefOf(repo, index);
    LaterFieldOn(repo, index, "classification.category");
    ErrorsOnAllOn(ClassificationErrors(repo, ref), "classification.category");
    DomainFields(repo, ref);
    ErrorsOnNone(DomainErrors(repo, ref), "classification.category");
  }

  /** No error is ever reported on `classification.layer`: the layer enumeration is never consulted. */
  lemma LayerNeverReported(repo: Record, index: nat)
    requires Checkable(repo)
    ensures ErrorsOn(RepoErrors(repo, index), "classification.layer") == []
  {
    var ref := RefOf(repo, index);
    LaterFieldOn(repo, index, "classification.layer");
    ErrorsOnNone(ClassificationErrors(repo, ref), "classification.layer");
    DomainFields(repo, ref);
    ErrorsOnNone(DomainErrors(repo, ref), "classification.layer");
  }

  /** `gpu_requirement` is checked only when truthy, against its enumeration. */
  lemma GpuErrorsExact(repo: Record, index: nat)
    requires Checkable(repo)
    ensures var ref := RefOf(repo, index);
            ErrorsOn(RepoErrors(repo, index), "domain_specific.gpu_requirement")
            == if DomainObject(repo) && "gpu_requirement" in repo["domain_specific"].fields
                  && Truthy(repo["domain_specific"].fields["gpu_requirement"])
                  && repo["domain_specific"].fields["gpu_requirement"] !in ValidGpuRequirements
               then [ValidationError(ref, "domain_specific.gpu_requirement",
                                     InvalidValue(repo["domain_specific"].fields["gpu_requirement"]))]
               else []
  {
    var ref := RefOf(repo, index);
    var field := "domain_specific.gpu_requirement";
    LaterFieldOn(repo, index, field);
    ErrorsOnNone(ClassificationErrors(repo, ref), field);
    if DomainObject(repo) {
      var domain := repo["domain_specific"].fields;
      if "expression_systems" in domain && Truthy(domain["expression_systems"]) {
        var systems := ExpressionErrors(ref, Iterated(domain["expression_systems"]));
        ExpressionErrorsFields(ref, Iterated(domain["expression_systems"]));
        ErrorsOnConcat(GpuErrors(ref, domain), systems, field);
        ErrorsOnNone(systems, field);
      } else {
        assert DomainErrors(repo, ref) == GpuErrors(ref, domain) + [];
      }
      ErrorsOnAllOn(GpuErrors(ref, domain), field);
    }
  }

  /** `expression_systems` is checked only when truthy; its errors are those of the element loop. */
  lemma ExpressionSystemsErrorsOn(repo: Record, index: nat)
    requires Checkable(repo)
    ensures var ref := RefOf(repo, index);
            ErrorsOn(RepoErrors(repo, index), "domain_specific.expression_systems")
            == if DomainObject(repo) && "expression_systems" in repo["domain_specific"].fields
                  && Truthy(repo["domain_specific"].fields["expression_systems"])
               then ExpressionErrors(ref, Iterated(repo["domain_specific"].fields["expression_systems"]))
               else []
  {
    var ref := RefOf(repo, index);
    var field := "domain_specific.expression_systems";
    LaterFieldOn(repo, index, field);
    ErrorsOnNone(ClassificationErrors(repo, ref), field);
    if DomainObject(repo) {
      var domain := repo["domain_specific"].fields;
      ErrorsOnNone(GpuErrors(ref, domain), field);
      if "expression_systems" in domain && Truthy(domain["expression_systems"]) {
        var systems := ExpressionErrors(ref, Iterated(domain["expression_systems"]));
        ExpressionErrorsFields(ref, Iterated(domain["expression_systems"]));
        ErrorsOnConcat(GpuErrors(ref, domain), systems, field);
        ErrorsOnAllOn(systems, field);
      } else {
        assert DomainErrors(repo, ref) == GpuErrors(ref, domain) + [];
      }
    }
  }

  /** `[s for s in systems if s not in VALID_EXPRESSION_SYSTEMS]`, in element order. */
  function InvalidSystems(systems: seq<Json>): seq<Json>
    decreases |systems|
  {
    if systems == [] then []
    else (if systems[0] !in ValidExpressionSystems then [systems[0]] else []) + InvalidSystems(systems[1..])
  }

  lemma {:induction false} InvalidSystemsMembers(systems: seq<Json>, v: Json)
    ensures v in InvalidSystems(systems) <==> v in systems && v !in ValidExpressionSystems
    decreases |systems|
  {
    if systems != [] {
      InvalidSystemsMembers(systems[1..], v);
      assert systems == [systems[0]] + systems[1..];
    }
  }

  lemma {:induction false} InvalidSystemsSnoc(systems: seq<Json>, v: Json)
    ensures InvalidSystems(systems + [v])
            == InvalidSystems(systems) + (if v !in ValidExpressionSystems then [v] else [])
    decreases |systems|
  {
    if systems == [] {
      assert systems + [v] == [v];
    } else {
      assert (systems + [v])[1..] == systems[1..] + [v];
      InvalidSystemsSnoc(systems[1..], v);
    }
  }

  /**
   * The element loop reports one error per element outside the six-value
   * enumeration, carrying that element, in element order.
   */
  lemma {:induction false} ExpressionErrorsInOrder(ref: RepoRef, systems: seq<Json>)
    ensures |ExpressionErrors(ref, systems)| == |InvalidSystems(systems)|
    ensures forall k :: 0 <= k < |InvalidSystems(systems)| ==>
              ExpressionErrors(ref, systems)[k]
              == ValidationError(ref, "domain_specific.expression_systems", InvalidValue(InvalidSystems(systems)[k]))
    decreases |systems|
  {
    if systems != [] {
      var n := |systems| - 1;
      ExpressionErrorsInOrder(ref, systems[..n]);
      InvalidSystemsSnoc(systems[..n], systems[n]);
      assert systems[..n] + [systems[n]] == systems;
    }
  }

  /** No one-character string is one of the six expression systems. */
  lemma {:induction false} CharactersAllInvalid(systems: seq<Json>)
    requires forall k :: 0 <= k < |systems| ==> systems[k].JString? && |systems[k].s| == 1
    ensures InvalidSystems(systems) == systems
    decreases |systems|
  {
    if systems != [] {
      assert systems[0] !in ValidExpressionSystems;
      CharactersAllInvalid(systems[1..]);
      assert systems == [systems[0]] + systems[1..];
    }
  }

  /**
   * An `expression_systems` string is walked character by character, and
   * every character is reported: `"E.coli"` draws six errors, although it
   * names a valid system.
   */
  lemma StringSystemsPerCharacter(ref: RepoRef, s: string)
    ensures var errors := ExpressionErrors(ref, Iterated(JString(s)));
            && |errors| == |s|
            && forall k :: 0 <= k < |s| ==>
                 errors[k] == ValidationError(ref, "domain_specific.expression_systems", InvalidValue(JString([s[k]])))
  {
    var chars := Iterated(JString(s));
    CharactersAllInvalid(chars);
    ExpressionErrorsInOrder(ref, chars);
  }

  /**
   * On a record whose `expression_systems` is a string, `validate_repo`
   * reports each character of it as an invalid system, in order; the
   * string `"E.coli"` draws six errors.
   */
  lemma StringSystemsReported(repo: Record, index: nat)
    requires Checkable(repo) && DomainObject(repo)
    requires "expression_systems" in repo["domain_specific"].fields
    requires repo["domain_specific"].fields["expression_systems"].JString?
    ensures var s := repo["domain_specific"].fields["expression_systems"].s;
            var errors := ErrorsOn(RepoErrors(repo, index), "domain_specific.expression_systems");
            && |errors| == |s|
            && forall k :: 0 <= k < |s| ==>
                 errors[k] == ValidationError(RefOf(repo, index), "domain_specific.expression_systems",
                                              InvalidValue(JString([s[k]])))
  {
    var s := repo["domain_specific"].fields["expression_systems"].s;
    ExpressionSystemsErrorsOn(repo, index);
    StringSystemsPerCharacter(RefOf(repo, index), s);
  }

  // ---------------------------------------------------------------------
  // When validate_repo reports nothing
  // ---------------------------------------------------------------------

  /** A metadata object the checks accept. */
  predicate GoodMetadata(meta: map<string, Json>)
    requires "url" in meta && Truthy(meta["url"]) ==> meta["url"].JString?
  {
    && "name" in meta && CheckType(meta["name"], StrType, true)
    && "url" in meta && CheckType(meta["url"], StrType, true)
    && "stars" in meta && CheckType(meta["stars"], IntType, true)
    && "last_updated" in meta && CheckType(meta["last_updated"], StrOrNoneType, true)
    && (meta["stars"].JInt? ==> meta["stars"].i >= 0)
    && (Truthy(meta["url"]) ==> GitHubPrefix <= meta["url"].s)
  }

  /** A record on which `validate_repo` reports no error, described field by field. */
  predicate GoodRecord(repo: Record)
    requires Checkable(repo)
  {
    && "repo_id" in repo && repo["repo_id"].JString?
    && MetadataObject(repo) && GoodMetadata(repo["metadata"].fields)
    && TrackingObject(repo) && "first_tracked" in repo["tracking"].fields
    && (ClassificationObject(repo) ==>
          var classification := repo["classification"].fields;
          "category" in classification ==> classification["category"] in ValidCategories)
    && (DomainObject(repo) ==>
          var domain := repo["domain_specific"].fields;
          && ("gpu_requirement" in domain && Truthy(domain["gpu_requirement"]) ==>
                domain["gpu_requirement"] in ValidGpuRequirements)
          && ("expression_systems" in domain && Truthy(domain["expression_systems"]) ==>
                forall s :: s in Iterated(domain["expression_systems"]) ==> s in ValidExpressionSystems))
  }

  lemma {:induction false} TableErrorsEmpty(ref: RepoRef, prefix: string, obj: map<string, Json>,
                                            table: seq<(string, PyType)>, allowNone: bool, checkTypes: bool)
    ensures TableErrors(ref, prefix, obj, table, allowNone, checkTypes) == []
            <==> forall i :: 0 <= i < |table| ==>
                   table[i].0 in obj && (checkTypes ==> CheckType(obj[table[i].0], table[i].1, allowNone))
    decreases |table|
  {
    if table != [] {
      var n := |table| - 1;
      TableErrorsEmpty(ref, prefix, obj, table[..n], allowNone, checkTypes);
      assert forall i :: 0 <= i < n ==> table[..n][i] == table[i];
    }
  }

  lemma {:induction false} ExpressionErrorsEmpty(ref: RepoRef, systems: seq<Json>)
    ensures ExpressionErrors(ref, systems) == [] <==> forall s :: s in systems ==> s in ValidExpressionSystems
    decreases |systems|
  {
    if systems != [] {
      var n := |systems| - 1;
      ExpressionErrorsEmpty(ref, systems[..n]);
      assert systems == systems[..n] + [systems[n]];
    }
  }

  lemma TopLevelEmpty(repo: Record, ref: RepoRef)
    ensures TopLevelErrors(repo, ref) == []
            <==> "repo_id" in repo && repo["repo_id"].JString? && MetadataObject(repo) && TrackingObject(repo)
  {
    TableErrorsEmpty(ref, "", repo, RequiredTopLevel, false, true);
    if TopLevelErrors(repo, ref) == [] {
      assert CheckType(repo[RequiredTopLevel[0].0], RequiredTopLevel[0].1, false);
      assert CheckType(repo[RequiredTopLevel[1].0], RequiredTopLevel[1].1, false);
      assert CheckType(repo[RequiredTopLevel[2].0], RequiredTopLevel[2].1, false);
    }
  }

  lemma MetadataEmpty(repo: Record, ref: RepoRef)
    requires Checkable(repo) && MetadataObject(repo)
    ensures MetadataErrors(repo, ref) == [] <==> GoodMetadata(repo["metadata"].fields)
  {
    var meta := repo["metadata"].fields;
    TableErrorsEmpty(ref, "metadata.", meta, RequiredMetadata, true, true);
    var table := TableErrors(ref, "metadata.", meta, RequiredMetadata, true, true);
    assert MetadataErrors(repo, ref) == table + StarsErrors(ref, meta) + UrlErrors(ref, meta);
    if table == [] {
      assert CheckType(meta[RequiredMetadata[0].0], RequiredMetadata[0].1, true);
      assert CheckType(meta[RequiredMetadata[1].0], RequiredMetadata[1].1, true);
      assert CheckType(meta[RequiredMetadata[2].0], RequiredMetadata[2].1, true);
      assert CheckType(meta[RequiredMetadata[3].0], RequiredMetadata[3].1, true);
    }
  }

  lemma TrackingEmpty(repo: Record, ref: RepoRef)
    requires TrackingObject(repo)
    ensures TrackingErrors(repo, ref) == [] <==> "first_tracked" in repo["tracking"].fields
  {
    TableErrorsEmpty(ref, "tracking.", repo["tracking"].fields, RequiredTracking, false, false);
    if TrackingErrors(repo, ref) == [] {
      assert RequiredTracking[0].0 in repo["tracking"].fields;
    }
  }

  lemma DomainEmpty(repo: Record, ref: RepoRef)
    requires Checkable(repo) && DomainObject(repo)
    ensures var domain := repo["domain_specific"].fields;
            DomainErrors(repo, ref) == []
            <==> && ("gpu_requirement" in domain && Truthy(domain["gpu_requirement"]) ==>
                       domain["gpu_requirement"] in ValidGpuRequirements)
                 && ("expression_systems" in domain && Truthy(domain["expression_systems"]) ==>
                       forall s :: s in Iterated(domain["expression_systems"]) ==> s in ValidExpressionSystems)
  {
    var domain := repo["domain_specific"].fields;
    if "expression_systems" in domain && Truthy(domain["expression_systems"]) {
      ExpressionErrorsEmpty(ref, Iterated(domain["expression_systems"]));
    }
  }

  /**
   * `validate_repo` returns no error exactly on the records GoodRecord
   * describes: all required fields present with their types, a
   * non-negative star count, a GitHub URL, and enumeration values
   * wherever the checks look.
   */
  lemma RepoErrorsEmptyIff(repo: Record, index: nat)
    requires Checkable(repo)
    ensures RepoErrors(repo, index) == [] <==> GoodRecord(repo)
  {
    var ref := RefOf(repo, index);
    TopLevelEmpty(repo, ref);
    if MetadataObject(repo) {
      MetadataEmpty(repo, ref);
    }
    if TrackingObject(repo) {
      TrackingEmpty(repo, ref);
    }
    if DomainObject(repo) {
      DomainEmpty(repo, ref);
    }
    assert RepoErrors(repo, index) == TopLevelErrors(repo, ref) + MetadataErrors(repo, ref)
      + TrackingErrors(repo, ref) + ClassificationErrors(repo, ref) + DomainErrors(repo, ref);
  }
}
