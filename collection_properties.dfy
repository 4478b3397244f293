/**
 * What the collection pass of the validator promises: which records draw
 * a duplicate error, how the error list is laid out, and when the whole
 * collection is declared valid.
 */
module CollectionProperties {
  import opened Json
  import opened Validation
  import opened Strings
  import ValidationProperties

  /** Record `k` carries the same truthy id as some earlier record. */
  ghost predicate RepeatsEarlierId(repos: seq<Record>, k: nat)
    requires k < |repos|
  {
    Truthy(IdOf(repos[k])) && exists j :: 0 <= j < k && IdOf(repos[j]) == IdOf(repos[k])
  }

  /** The set of seen ids holds exactly the truthy ids of the visited records. */
  lemma {:induction false} SeenIdsMembers(repos: seq<Record>, id: Json)
    ensures id in SeenIds(repos) <==> Truthy(id) && exists j :: 0 <= j < |repos| && IdOf(repos[j]) == id
    decreases |repos|
  {
    if repos != [] {
      var n := |repos| - 1;
      SeenIdsMembers(repos[..n], id);
      if id in SeenIds(repos[..n]) {
        var j :| 0 <= j < n && IdOf(repos[..n][j]) == id;
        assert IdOf(repos[j]) == id;
      }
      if Truthy(id) && exists j :: 0 <= j < |repos| && IdOf(repos[j]) == id {
        var j :| 0 <= j < |repos| && IdOf(repos[j]) == id;
        if j < n {
          assert IdOf(repos[..n][j]) == id;
        }
      }
    }
  }

  /**
   * Record `k` draws one duplicate error, naming its id, exactly when its
   * id is truthy and an earlier record has the same id; the first record
   * with a given id and every record with a falsy id draw none.
   */
  lemma {:induction false} DuplicateFlagging(repos: seq<Record>, k: nat)
    requires k < |repos|
    ensures DuplicateErrors(repos[..k], repos[k])
            == if RepeatsEarlierId(repos, k) then [ValidationError(RepoId(IdOf(repos[k])), "repo_id", Duplicate)]
               else []
  {
    var id := IdOf(repos[k]);
    SeenIdsMembers(repos[..k], id);
    if exists j :: 0 <= j < k && IdOf(repos[j]) == id {
      var j :| 0 <= j < k && IdOf(repos[j]) == id;
      assert IdOf(repos[..k][j]) == id;
    }
  }

  lemma AllCheckablePrefix(repos: seq<Record>, k: nat)
    requires AllCheckable(repos) && k <= |repos|
    ensures AllCheckable(repos[..k])
  {
    assert forall i :: 0 <= i < k ==> repos[..k][i] == repos[i];
  }

  /** Dropping the last record leaves a prefix of the errors. */
  lemma CollectionErrorsDropLast(repos: seq<Record>)
    requires AllCheckable(repos) && |repos| > 0
    ensures AllCheckable(repos[..|repos| - 1])
    ensures CollectionErrors(repos[..|repos| - 1]) <= CollectionErrors(repos)
  {
    var n := |repos| - 1;
    AllCheckablePrefix(repos, n);
    var earlier, duplicate, own := CollectionErrors(repos[..n]), DuplicateErrors(repos[..n], repos[n]), RepoErrors(repos[n], n);
    assert CollectionErrors(repos) == earlier + duplicate + own;
    ConcatPrefix(earlier, duplicate, own);
  }

  lemma ConcatPrefix(a: seq<ValidationError>, b: seq<ValidationError>, c: seq<ValidationError>)
    ensures a <= a + b + c
  {
    assert (a + b + c)[..|a|] == a;
  }

  lemma PrefixTransitive(a: seq<ValidationError>, b: seq<ValidationError>, c: seq<ValidationError>)
    requires a <= b && b <= c
    ensures a <= c
  {
    assert c[..|a|] == b[..|a|];
  }

  lemma PrefixOfPrefix<T>(s: seq<T>, n: nat, k: nat)
    requires k <= n <= |s|
    ensures s[..n][..k] == s[..k]
  {
  }

  /** The errors of the first `k` records are a prefix of the errors of all of them. */
  lemma {:induction false} CollectionErrorsPrefix(repos: seq<Record>, k: nat)
    requires AllCheckable(repos) && k <= |repos|
    ensures AllCheckable(repos[..k])
    ensures CollectionErrors(repos[..k]) <= CollectionErrors(repos)
    decreases |repos|
  {
    if k == |repos| {
      assert repos[..k] == repos;
    } else {
      var init := repos[..|repos| - 1];
      CollectionErrorsDropLast(repos);
      CollectionErrorsPrefix(init, k);
      PrefixOfPrefix(repos, |repos| - 1, k);
      var first, middle, all := CollectionErrors(repos[..k]), CollectionErrors(init), CollectionErrors(repos);
      PrefixTransitive(first, middle, all);
    }
  }

  /**
   * Appending a record appends its duplicate error (if any) and then the
   * errors `validate_repo` reports for it at its index.
   */
  lemma {:induction false} CollectionErrorsSnoc(repos: seq<Record>, r: Record)
    requires AllCheckable(repos) && Checkable(r)
    ensures AllCheckable(repos + [r])
    ensures CollectionErrors(repos + [r])
            == CollectionErrors(repos) + DuplicateErrors(repos, r) + RepoErrors(r, |repos|)
  {
    var all := repos + [r];
    assert forall k :: 0 <= k < |repos| ==> all[k] == repos[k];
    assert all[|repos|] == r;
    assert all[..|repos|] == repos;
  }

  /** No two records with a truthy id share it. */
  ghost predicate DistinctTruthyIds(repos: seq<Record>) {
    forall j, k :: 0 <= j < k < |repos| && Truthy(IdOf(repos[k])) ==> IdOf(repos[j]) != IdOf(repos[k])
  }

  /** Every record passes `validate_repo` at its own index. */
  ghost predicate AllClean(repos: seq<Record>)
    requires AllCheckable(repos)
  {
    forall k :: 0 <= k < |repos| ==> RepoErrors(repos[k], k) == []
  }

  lemma AllCleanStep(repos: seq<Record>)
    requires AllCheckable(repos) && |repos| > 0
    ensures AllCheckable(repos[..|repos| - 1])
    ensures AllClean(repos) <==> AllClean(repos[..|repos| - 1]) && RepoErrors(repos[|repos| - 1], |repos| - 1) == []
  {
    var n := |repos| - 1;
    AllCheckablePrefix(repos, n);
    assert forall k :: 0 <= k < n ==> repos[..n][k] == repos[k];
  }

  lemma DistinctStep(repos: seq<Record>)
    requires |repos| > 0
    ensures DistinctTruthyIds(repos)
            <==> DistinctTruthyIds(repos[..|repos| - 1]) && !RepeatsEarlierId(repos, |repos| - 1)
  {
    var n := |repos| - 1;
    var init := repos[..n];
    assert forall k :: 0 <= k < n ==> init[k] == repos[k];
    if DistinctTruthyIds(init) && !RepeatsEarlierId(repos, n) {
      forall j, k | 0 <= j < k < |repos| && Truthy(IdOf(repos[k]))
        ensures IdOf(repos[j]) != IdOf(repos[k])
      {
        if k < n {
          assert IdOf(init[j]) != IdOf(init[k]);
        }
      }
    }
  }

  /**
   * The verdict: the collection draws no error exactly when every record
   * passes `validate_repo` and no truthy id occurs twice.
   */
  lemma {:induction false} CollectionValidIff(repos: seq<Record>)
    requires AllCheckable(repos)
    ensures CollectionErrors(repos) == [] <==> AllClean(repos) && DistinctTruthyIds(repos)
    decreases |repos|
  {
    if repos != [] {
      var n := |repos| - 1;
      AllCleanStep(repos);
      DistinctStep(repos);
      CollectionValidIff(repos[..n]);
      DuplicateFlagging(repos, n);
    }
  }

  /**
   * Appending a clean record whose id repeats one already present adds
   * exactly one error, the duplicate; a valid collection so gets exactly one.
   */
  lemma {:induction false} AddDuplicate(repos: seq<Record>, r: Record, j: nat)
    requires AllCheckable(repos) && Checkable(r)
    requires j < |repos| && Truthy(IdOf(r)) && IdOf(repos[j]) == IdOf(r)
    requires RepoErrors(r, |repos|) == []
    ensures AllCheckable(repos + [r])
    ensures CollectionErrors(repos + [r]) == CollectionErrors(repos) + [ValidationError(RepoId(IdOf(r)), "repo_id", Duplicate)]
  {
    var all := repos + [r];
    CollectionErrorsSnoc(repos, r);
    assert all[|repos|] == r && all[..|repos|] == repos && all[j] == repos[j];
    DuplicateFlagging(all, |repos|);
    assert RepeatsEarlierId(all, |repos|);
  }

  /**
   * The verdict in terms of the records themselves: valid exactly when every
   * record is well formed field by field and no truthy id occurs twice.
   */
  lemma CollectionValidIffGood(repos: seq<Record>)
    requires AllCheckable(repos)
    ensures CollectionErrors(repos) == []
            <==> (forall k :: 0 <= k < |repos| ==> ValidationProperties.GoodRecord(repos[k]))
                 && DistinctTruthyIds(repos)
  {
    CollectionValidIff(repos);
    forall k | 0 <= k < |repos|
      ensures RepoErrors(repos[k], k) == [] <==> ValidationProperties.GoodRecord(repos[k])
    {
      ValidationProperties.RepoErrorsEmptyIff(repos[k], k);
    }
  }

  // ---------------------------------------------------------------------
  // The coverage counts
  // ---------------------------------------------------------------------

  /**
   * What makes one `.get(key, {}).get(...)` of the coverage counts raise on a
   * record `validate_repo` accepted: the value is present and falsy but not a
   * dictionary (null, false, 0, "" or []), or it is a string or list that
   * holds none of the keys `validate_repo` looks up in it.
   */
  predicate RaisingSection(r: Record, key: string, subs: seq<string>)
    requires key in r
  {
    var v := r[key];
    (!Truthy(v) && !v.JObject?)
    || ((v.JString? || v.JArray?) && forall i :: 0 <= i < |subs| ==> !KeyIn(subs[i], v))
  }

  /** On a checkable record, `GetRaises` is exactly a raising section. */
  lemma GetRaisesShape(r: Record)
    requires Checkable(r)
    ensures GetRaises(r, "classification") <==> "classification" in r && RaisingSection(r, "classification", ["category"])
    ensures GetRaises(r, "domain_specific")
            <==> "domain_specific" in r && RaisingSection(r, "domain_specific", ["gpu_requirement", "expression_systems"])
  {
    if "classification" in r && ClassificationPresent(r) {
      KeyInObject("category", r["classification"]);
    }
    if "domain_specific" in r && DomainPresent(r) {
      KeyInObject("gpu_requirement", r["domain_specific"]);
      KeyInObject("expression_systems", r["domain_specific"]);
    }
  }

  /**
   * On a valid collection the coverage counts as written fail exactly when
   * some record holds a raising `classification` or `domain_specific`
   * section: `validate_repo` skips a falsy one and only asks `in` of a
   * string or list, the second `.get` cannot be asked of either.
   */
  lemma CoverageAsWrittenFails(repos: seq<Record>)
    requires AllCheckable(repos)
    ensures CoverageAsWritten(repos).None?
            <==> exists k :: 0 <= k < |repos| &&
                   (("classification" in repos[k] && RaisingSection(repos[k], "classification", ["category"]))
                    || ("domain_specific" in repos[k]
                        && RaisingSection(repos[k], "domain_specific", ["gpu_requirement", "expression_systems"])))
  {
    forall k | 0 <= k < |repos| {
      GetRaisesShape(repos[k]);
    }
  }

  function SampleMetadata(): map<string, Json> {
    map["name" := JString("alphafold"),
        "url" := JString(GitHubPrefix + "deepmind/alphafold"),
        "stars" := JInt(12000),
        "last_updated" := JNull]
  }

  /** A valid record whose `classification` is null. */
  function NullClassificationRecord(): Record {
    map["repo_id" := JString("deepmind/alphafold"),
        "metadata" := JObject(SampleMetadata()),
        "tracking" := JObject(map["first_tracked" := JString("2024-01-15")]),
        "classification" := JNull]
  }

  lemma SampleMetadataGood()
    ensures "url" in SampleMetadata() && SampleMetadata()["url"].JString?
    ensures ValidationProperties.GoodMetadata(SampleMetadata())
  {
    var meta := SampleMetadata();
    assert GitHubPrefix <= meta["url"].s;
  }

  lemma NullClassificationShape()
    ensures var r := NullClassificationRecord();
            && "repo_id" in r && r["repo_id"].JString?
            && MetadataObject(r) && r["metadata"].fields == SampleMetadata()
            && TrackingObject(r) && "first_tracked" in r["tracking"].fields
            && !ClassificationPresent(r) && !DomainPresent(r)
            && "classification" in r && r["classification"] == JNull
  {
  }

  lemma NullClassificationRecordGood()
    ensures Checkable(NullClassificationRecord())
    ensures ValidationProperties.GoodRecord(NullClassificationRecord())
  {
    NullClassificationShape();
    SampleMetadataGood();
  }

  /** A collection of one well-formed record is valid. */
  lemma SingleGoodRecordValid(r: Record)
    requires Checkable(r) && ValidationProperties.GoodRecord(r)
    ensures AllCheckable([r])
    ensures CollectionErrors([r]) == []
  {
    ValidationProperties.RepoErrorsEmptyIff(r, 0);
    CollectionErrorsSnoc([], r);
    assert [] + [r] == [r];
    assert DuplicateErrors([], r) == [];
  }

  /** The validator accepts the one-record collection of NullClassificationRecord. */
  lemma NullClassificationAccepted()
    ensures AllCheckable([NullClassificationRecord()])
    ensures CollectionErrors([NullClassificationRecord()]) == []
  {
    NullClassificationRecordGood();
    SingleGoodRecordValid(NullClassificationRecord());
  }

  /**
   * The coverage counts as written raise on that collection; the counts
   * the model computes instead are all zero.
   */
  lemma NullClassificationCrashes()
    ensures CoverageAsWritten([NullClassificationRecord()]).None?
    ensures CoverageOf([NullClassificationRecord()]) == Coverage(0, 0, 0)
  {
    var r := NullClassificationRecord();
    NullClassificationShape();
    assert GetRaises([r][0], "classification");
    assert !HasTruthy(r, "classification", "category");
    assert !HasTruthy(r, "domain_specific", "gpu_requirement");
    assert !HasTruthy(r, "domain_specific", "expression_systems");
    assert forall k :: 0 <= k < 1 ==> [r][k] == r;
  }
  /** A record whose `classification` is a string rather than a dictionary. */
  function DraftClassificationRecord(): Record {
    map["repo_id" := JString("deepmind/alphafold"),
        "metadata" := JObject(SampleMetadata()),
        "tracking" := JObject(map["first_tracked" := JString("2024-01-15")]),
        "classification" := JString("draft")]
  }

  lemma DraftClassificationShape()
    ensures var r := DraftClassificationRecord();
            && "repo_id" in r && r["repo_id"].JString?
            && MetadataObject(r) && r["metadata"].fields == SampleMetadata()
            && TrackingObject(r) && "first_tracked" in r["tracking"].fields
            && ClassificationPresent(r) && !ClassificationObject(r) && !DomainPresent(r)
            && r["classification"] == JString("draft")
  {
  }

  /**
   * `'category' in "draft"` is a substring test that fails, so the validator
   * reports nothing about the string and accepts the collection.
   */
  lemma DraftClassificationAccepted()
    ensures AllCheckable([DraftClassificationRecord()])
    ensures CollectionErrors([DraftClassificationRecord()]) == []
  {
    var r := DraftClassificationRecord();
    DraftClassificationShape();
    SampleMetadataGood();
    ShorterLacks("draft", "category");
    assert Checkable(r);
    assert ValidationProperties.GoodRecord(r);
    SingleGoodRecordValid(r);
  }

  /** The coverage counts as written raise on that collection too. */
  lemma DraftClassificationCrashes()
    ensures CoverageAsWritten([DraftClassificationRecord()]).None?
  {
    DraftClassificationShape();
    assert GetRaises([DraftClassificationRecord()][0], "classification");
  }
}
