/**
 * The auto-categorizer: a manual override wins; otherwise the first
 * category, in the keyword map's order, one of whose keywords occurs in the
 * lower-cased search text of the record; otherwise no category. The pass
 * over all records writes the result into `classification.category`.
 *
 * Lower-casing is a parameter `lower`: the same function is applied to the
 * record's text and to every keyword.
 */
module Categorize {
  import opened Json
  import opened Strings

  /** `config['categories']['keywords']`: categories with their keywords, in dictionary order. */
  type KeywordMap = seq<(string, seq<string>)>

  /** `config['categories']['overrides']`: repo id to the category forced for it. */
  type Overrides = map<string, Json>

  // ---------------------------------------------------------------------
  // The search text
  // ---------------------------------------------------------------------

  /**
   * The metadata shapes the search text is built from without a check:
   * `name` absent or a string, `description` falsy or a string, `topics`
   * absent, a list of strings, or a string (which the comprehension walks
   * character by character). Python raises on a `name` or `description` of
   * another type and on a `topics` value that is not iterable or holds a
   * non-string; a dictionary of topics is iterated by its keys, in an order
   * a map does not keep, and is not modelled.
   */
  predicate Searchable(meta: map<string, Json>) {
    && ("name" in meta ==> meta["name"].JString?)
    && ("description" in meta && Truthy(meta["description"]) ==> meta["description"].JString?)
    && ("topics" in meta ==>
          Iterable(meta["topics"]) && forall t :: t in Iterated(meta["topics"]) ==> t.JString?)
  }

  /** `repo_id in overrides`; an id that is not a string is never a key of the override object. */
  predicate Overridden(repo: Record, overrides: Overrides)
    requires "repo_id" in repo
  {
    repo["repo_id"].JString? && repo["repo_id"].s in overrides
  }

  /** A record `categorize_repo` can run on without raising. */
  predicate Categorizable(repo: Record, overrides: Overrides) {
    && "repo_id" in repo && Hashable(repo["repo_id"])
    && (!Overridden(repo, overrides) ==> MetadataObject(repo) && Searchable(repo["metadata"].fields))
  }

  /** `metadata.get('name', '')`. */
  function NameOf(meta: map<string, Json>): string
    requires Searchable(meta)
  {
    if "name" in meta then meta["name"].s else ""
  }

  /** `metadata.get('description') or ''`. */
  function DescriptionOf(meta: map<string, Json>): string
    requires Searchable(meta)
  {
    if "description" in meta && Truthy(meta["description"]) then meta["description"].s else ""
  }

  /** The strings of a list of JSON strings. */
  function StringItems(items: seq<Json>): (r: seq<string>)
    requires forall t :: t in items ==> t.JString?
    ensures |r| == |items| && forall k :: 0 <= k < |items| ==> r[k] == items[k].s
    decreases |items|
  {
    if items == [] then [] else [items[0].s] + StringItems(items[1..])
  }

  /** `metadata.get('topics', [])`. */
  function TopicsOf(meta: map<string, Json>): seq<string>
    requires Searchable(meta)
  {
    if "topics" in meta then StringItems(Iterated(meta["topics"])) else []
  }

  /** A `topics` string is read as the list of its characters. */
  lemma StringTopicsAreCharacters(meta: map<string, Json>)
    requires Searchable(meta) && "topics" in meta && meta["topics"].JString?
    ensures var s := meta["topics"].s;
            |TopicsOf(meta)| == |s| && forall k :: 0 <= k < |s| ==> TopicsOf(meta)[k] == [s[k]]
  {
  }

  /** `[t.lower() for t in topics]`. */
  function LowerAll(lower: string -> string, words: seq<string>): (r: seq<string>)
    ensures |r| == |words| && forall k :: 0 <= k < |words| ==> r[k] == lower(words[k])
    decreases |words|
  {
    if words == [] then [] else [lower(words[0])] + LowerAll(lower, words[1..])
  }

  /** `f"{name} {desc} {' '.join(topics)}"`, every part lower-cased. */
  function SearchText(meta: map<string, Json>, lower: string -> string): string
    requires Searchable(meta)
  {
    lower(NameOf(meta)) + " " + lower(DescriptionOf(meta)) + " " + Join(" ", LowerAll(lower, TopicsOf(meta)))
  }

  /** The lower-cased name, description and every lower-cased topic all occur in the search text. */
  lemma SearchTextHoldsParts(meta: map<string, Json>, lower: string -> string)
    requires Searchable(meta)
    ensures IsSubstring(lower(NameOf(meta)), SearchText(meta, lower))
    ensures IsSubstring(lower(DescriptionOf(meta)), SearchText(meta, lower))
    ensures forall k :: 0 <= k < |TopicsOf(meta)| ==>
              IsSubstring(lower(TopicsOf(meta)[k]), SearchText(meta, lower))
  {
    var name, desc := lower(NameOf(meta)), lower(DescriptionOf(meta));
    var topics := LowerAll(lower, TopicsOf(meta));
    var joined := Join(" ", topics);
    var text := SearchText(meta, lower);
    assert text == name + (" " + desc + " " + joined);
    SubstringOfItself(name);
    SubstringInLeft(name, name, " " + desc + " " + joined);
    assert text == (name + " ") + (desc + (" " + joined));
    SubstringOfItself(desc);
    SubstringInLeft(desc, desc, " " + joined);
    SubstringInRight(desc, name + " ", desc + (" " + joined));
    forall k | 0 <= k < |TopicsOf(meta)|
      ensures IsSubstring(lower(TopicsOf(meta)[k]), text)
    {
      JoinContainsParts(" ", topics, k);
      assert text == (name + " " + desc + " ") + joined;
      SubstringInRight(topics[k], name + " " + desc + " ", joined);
    }
  }

  // ---------------------------------------------------------------------
  // The keyword search
  // ---------------------------------------------------------------------

  /** Some keyword of the list, lower-cased, occurs in the text. */
  ghost predicate Matches(keywords: seq<string>, text: string, lower: string -> string) {
    exists k :: 0 <= k < |keywords| && IsSubstring(lower(keywords[k]), text)
  }

  /** `for keyword in keywords: if keyword.lower() in searchable`. */
  function AnyKeywordIn(keywords: seq<string>, text: string, lower: string -> string): (found: bool)
    ensures found <==> Matches(keywords, text, lower)
    decreases |keywords|
  {
    if keywords == [] then false
    else
      ContainsIsSubstring(text, lower(keywords[0]));
      var rest := AnyKeywordIn(keywords[1..], text, lower);
      assert Matches(keywords[1..], text, lower) ==> Matches(keywords, text, lower) by {
        if Matches(keywords[1..], text, lower) {
          var k :| 0 <= k < |keywords| - 1 && IsSubstring(lower(keywords[1..][k]), text);
          assert IsSubstring(lower(keywords[k + 1]), text);
        }
      }
      assert Matches(keywords, text, lower) && !Contains(text, lower(keywords[0])) ==> Matches(keywords[1..], text, lower) by {
        if Matches(keywords, text, lower) && !Contains(text, lower(keywords[0])) {
          var k :| 0 <= k < |keywords| && IsSubstring(lower(keywords[k]), text);
          assert k != 0;
          assert IsSubstring(lower(keywords[1..][k - 1]), text);
        }
      }
      Contains(text, lower(keywords[0])) || rest
  }

  /**
   * The category loop: the first category in map order with a matching
   * keyword, no earlier category having one; None exactly when no
   * category matches.
   */
  function FirstMatch(kmap: KeywordMap, text: string, lower: string -> string): (r: Option<string>)
    ensures r.None? <==> forall i :: 0 <= i < |kmap| ==> !Matches(kmap[i].1, text, lower)
    ensures r.Some? ==> exists i :: 0 <= i < |kmap| && kmap[i].0 == r.value
                          && Matches(kmap[i].1, text, lower)
                          && forall j :: 0 <= j < i ==> !Matches(kmap[j].1, text, lower)
    decreases |kmap|
  {
    if kmap == [] then None
    else if AnyKeywordIn(kmap[0].1, text, lower) then Some(kmap[0].0)
    else
      var r := FirstMatch(kmap[1..], text, lower);
      assert forall i :: 1 <= i < |kmap| ==> kmap[1..][i - 1] == kmap[i];
      assert r.Some? ==> exists i :: 0 <= i < |kmap| && kmap[i].0 == r.value
                           && Matches(kmap[i].1, text, lower)
                           && forall j :: 0 <= j < i ==> !Matches(kmap[j].1, text, lower) by {
        if r.Some? {
          var i :| 0 <= i < |kmap| - 1 && kmap[1..][i].0 == r.value
                   && Matches(kmap[1..][i].1, text, lower)
                   && forall j :: 0 <= j < i ==> !Matches(kmap[1..][j].1, text, lower);
          forall j | 0 <= j < i + 1 ensures !Matches(kmap[j].1, text, lower) {
            if j > 0 {
              assert kmap[j] == kmap[1..][j - 1];
            }
          }
          assert kmap[i + 1] == kmap[1..][i];
        }
      }
      r
  }

  /** `categorize_repo`: the override, else the first matching category, else None. */
  function CategorizeRepo(repo: Record, kmap: KeywordMap, overrides: Overrides, lower: string -> string): (c: Json)
    requires Categorizable(repo, overrides)
    ensures Overridden(repo, overrides) ==> c == overrides[repo["repo_id"].s]
  {
    if Overridden(repo, overrides) then overrides[repo["repo_id"].s]
    else
      match FirstMatch(kmap, SearchText(repo["metadata"].fields, lower), lower)
      case Some(category) => JString(category)
      case None => JNull
  }

  /**
   * Without an override the result is None exactly when no category has a
   * keyword in the search text, and otherwise the first category, in map
   * order, that has one.
   */
  lemma KeywordCategory(repo: Record, kmap: KeywordMap, overrides: Overrides, lower: string -> string)
    requires Categorizable(repo, overrides) && !Overridden(repo, overrides)
    ensures var c := CategorizeRepo(repo, kmap, overrides, lower);
            var text := SearchText(repo["metadata"].fields, lower);
            && (c == JNull <==> forall i :: 0 <= i < |kmap| ==> !Matches(kmap[i].1, text, lower))
            && (c != JNull ==> exists i :: 0 <= i < |kmap| && c == JString(kmap[i].0)
                                 && Matches(kmap[i].1, text, lower)
                                 && forall j :: 0 <= j < i ==> !Matches(kmap[j].1, text, lower))
  {
    var r := FirstMatch(kmap, SearchText(repo["metadata"].fields, lower), lower);
    if r.Some? {
      var i :| 0 <= i < |kmap| && kmap[i].0 == r.value
               && Matches(kmap[i].1, SearchText(repo["metadata"].fields, lower), lower)
               && forall j :: 0 <= j < i ==> !Matches(kmap[j].1, SearchText(repo["metadata"].fields, lower), lower);
      assert CategorizeRepo(repo, kmap, overrides, lower) == JString(kmap[i].0);
    }
  }

  // ---------------------------------------------------------------------
  // Writing the category
  // ---------------------------------------------------------------------

  /** `repo['classification']['category'] = c`. */
  function SetCategory(repo: Record, c: Json): (r: Record)
    requires "classification" in repo && repo["classification"].JObject?
    ensures r.Keys == repo.Keys
    ensures forall key :: key in repo && key != "classification" ==> r[key] == repo[key]
    ensures r["classification"].JObject?
    ensures var old_, new_ := repo["classification"].fields, r["classification"].fields;
            new_.Keys == old_.Keys + {"category"} && new_["category"] == c
            && forall key :: key in old_ && key != "category" ==> new_[key] == old_[key]
  {
    repo["classification" := JObject(repo["classification"].fields["category" := c])]
  }

  /** Writing a category keeps the record categorizable. */
  lemma SetCategoryKeepsCategorizable(repo: Record, overrides: Overrides, c: Json)
    requires Categorizable(repo, overrides)
    requires "classification" in repo && repo["classification"].JObject?
    ensures Categorizable(SetCategory(repo, c), overrides)
    ensures Overridden(SetCategory(repo, c), overrides) == Overridden(repo, overrides)
  {
    var r := SetCategory(repo, c);
    assert r["repo_id"] == repo["repo_id"];
    if !Overridden(repo, overrides) {
      assert r["metadata"] == repo["metadata"];
    }
  }

  /**
   * `categorize_repo` does not read `classification`, so a record with a
   * category already written gets the same category again.
   */
  lemma CategorizeIgnoresCategory(repo: Record, kmap: KeywordMap, overrides: Overrides,
                                  lower: string -> string, c: Json)
    requires Categorizable(repo, overrides)
    requires "classification" in repo && repo["classification"].JObject?
    ensures Categorizable(SetCategory(repo, c), overrides)
    ensures CategorizeRepo(SetCategory(repo, c), kmap, overrides, lower) == CategorizeRepo(repo, kmap, overrides, lower)
  {
    SetCategoryKeepsCategorizable(repo, overrides, c);
    var r := SetCategory(repo, c);
    assert r["repo_id"] == repo["repo_id"];
    if !Overridden(repo, overrides) {
      assert r["metadata"] == repo["metadata"];
    }
  }

  /** A record the pass can update: categorizable, with a dictionary `classification`. */
  predicate Updatable(repo: Record, overrides: Overrides) {
    Categorizable(repo, overrides) && "classification" in repo && repo["classification"].JObject?
  }

  /** One record after the pass. */
  function Recategorized(repo: Record, kmap: KeywordMap, overrides: Overrides, lower: string -> string): Record
    requires Updatable(repo, overrides)
  {
    SetCategory(repo, CategorizeRepo(repo, kmap, overrides, lower))
  }

  /** Running the pass on its own output changes nothing. */
  lemma RecategorizeIdempotent(repo: Record, kmap: KeywordMap, overrides: Overrides, lower: string -> string)
    requires Updatable(repo, overrides)
    ensures Updatable(Recategorized(repo, kmap, overrides, lower), overrides)
    ensures Recategorized(Recategorized(repo, kmap, overrides, lower), kmap, overrides, lower)
            == Recategorized(repo, kmap, overrides, lower)
  {
    var c := CategorizeRepo(repo, kmap, overrides, lower);
    var r := SetCategory(repo, c);
    CategorizeIgnoresCategory(repo, kmap, overrides, lower, c);
    assert r["classification"].fields["category" := c] == r["classification"].fields;
    assert r["classification" := r["classification"]] == r;
  }

  // ---------------------------------------------------------------------
  // The categorize-all loop of main
  // ---------------------------------------------------------------------

  predicate AllUpdatable(repos: seq<Record>, overrides: Overrides) {
    forall k :: 0 <= k < |repos| ==> Updatable(repos[k], overrides)
  }

  /** `categorized` after visiting `repos`: the records whose category is truthy. */
  function CategorizedCount(repos: seq<Record>, kmap: KeywordMap, overrides: Overrides, lower: string -> string): nat
    requires AllUpdatable(repos, overrides)
    decreases |repos|
  {
    if repos == [] then 0
    else
      var n := |repos| - 1;
      CategorizedCount(repos[..n], kmap, overrides, lower)
      + (if Truthy(CategorizeRepo(repos[n], kmap, overrides, lower)) then 1 else 0)
  }

  /** `uncategorized` after visiting `repos`: the ids of the records whose category is falsy, in order. */
  function Uncategorized(repos: seq<Record>, kmap: KeywordMap, overrides: Overrides, lower: string -> string): seq<Json>
    requires AllUpdatable(repos, overrides)
    decreases |repos|
  {
    if repos == [] then []
    else
      var n := |repos| - 1;
      Uncategorized(repos[..n], kmap, overrides, lower) + ListedId(repos[n], kmap, overrides, lower)
  }

  /** What one record adds to `uncategorized`: its id when its category is falsy. */
  function ListedId(r: Record, kmap: KeywordMap, overrides: Overrides, lower: string -> string): seq<Json>
    requires Updatable(r, overrides)
  {
    if Truthy(CategorizeRepo(r, kmap, overrides, lower)) then [] else [r["repo_id"]]
  }

  lemma ListedIdOfFalsy(r: Record, kmap: KeywordMap, overrides: Overrides, lower: string -> string)
    requires Updatable(r, overrides) && !Truthy(CategorizeRepo(r, kmap, overrides, lower))
    ensures r["repo_id"] in ListedId(r, kmap, overrides, lower)
  {
  }

  /** Every record is counted once: categorized, or listed as uncategorized. */
  lemma {:induction false} CountsPartition(repos: seq<Record>, kmap: KeywordMap, overrides: Overrides, lower: string -> string)
    requires AllUpdatable(repos, overrides)
    ensures CategorizedCount(repos, kmap, overrides, lower) + |Uncategorized(repos, kmap, overrides, lower)| == |repos|
    decreases |repos|
  {
    if repos != [] {
      var n := |repos| - 1;
      assert AllUpdatable(repos[..n], overrides) by {
        assert forall k :: 0 <= k < n ==> repos[..n][k] == repos[k];
      }
      CountsPartition(repos[..n], kmap, overrides, lower);
    }
  }

  /** An id is listed as uncategorized exactly when some record with that id got a falsy category. */
  lemma UncategorizedMembers(repos: seq<Record>, kmap: KeywordMap, overrides: Overrides,
                             lower: string -> string, id: Json)
    requires AllUpdatable(repos, overrides)
    ensures id in Uncategorized(repos, kmap, overrides, lower)
            <==> exists k :: 0 <= k < |repos| && repos[k]["repo_id"] == id
                   && !Truthy(CategorizeRepo(repos[k], kmap, overrides, lower))
  {
    if id in Uncategorized(repos, kmap, overrides, lower) {
      ListedHasRecord(repos, kmap, overrides, lower, id);
    }
    if exists k :: 0 <= k < |repos| && repos[k]["repo_id"] == id
                   && !Truthy(CategorizeRepo(repos[k], kmap, overrides, lower)) {
      var k :| 0 <= k < |repos| && repos[k]["repo_id"] == id
               && !Truthy(CategorizeRepo(repos[k], kmap, overrides, lower));
      RecordIsListed(repos, kmap, overrides, lower, k);
    }
  }

  /** The records before the last one are still updatable. */
  lemma AllUpdatableInit(repos: seq<Record>, overrides: Overrides)
    requires AllUpdatable(repos, overrides) && repos != []
    ensures AllUpdatable(repos[..|repos| - 1], overrides)
  {
    assert forall k :: 0 <= k < |repos| - 1 ==> repos[..|repos| - 1][k] == repos[k];
  }

  /** The uncategorized ids of all records: those before the last, then the last one's if it is falsy. */
  lemma UncategorizedLast(repos: seq<Record>, kmap: KeywordMap, overrides: Overrides, lower: string -> string)
    requires AllUpdatable(repos, overrides) && repos != []
    ensures AllUpdatable(repos[..|repos| - 1], overrides)
    ensures Uncategorized(repos, kmap, overrides, lower)
            == Uncategorized(repos[..|repos| - 1], kmap, overrides, lower)
               + ListedId(repos[|repos| - 1], kmap, overrides, lower)
  {
    AllUpdatableInit(repos, overrides);
  }

  lemma {:induction false} ListedHasRecord(repos: seq<Record>, kmap: KeywordMap, overrides: Overrides,
                                           lower: string -> string, id: Json)
    requires AllUpdatable(repos, overrides)
    requires id in Uncategorized(repos, kmap, overrides, lower)
    ensures exists k :: 0 <= k < |repos| && repos[k]["repo_id"] == id
              && !Truthy(CategorizeRepo(repos[k], kmap, overrides, lower))
    decreases |repos|
  {
    var n := |repos| - 1;
    var init := repos[..n];
    UncategorizedLast(repos, kmap, overrides, lower);
    var last := repos[n];
    var earlier := Uncategorized(init, kmap, overrides, lower);
    if id in earlier {
      ListedHasRecord(init, kmap, overrides, lower, id);
      var k :| 0 <= k < n && init[k]["repo_id"] == id && !Truthy(CategorizeRepo(init[k], kmap, overrides, lower));
      assert repos[k] == init[k];
    } else {
      assert last["repo_id"] == id && !Truthy(CategorizeRepo(last, kmap, overrides, lower));
    }
  }

  lemma {:induction false} RecordIsListed(repos: seq<Record>, kmap: KeywordMap, overrides: Overrides,
                                          lower: string -> string, k: nat)
    requires AllUpdatable(repos, overrides) && k < |repos|
    requires !Truthy(CategorizeRepo(repos[k], kmap, overrides, lower))
    ensures repos[k]["repo_id"] in Uncategorized(repos, kmap, overrides, lower)
    decreases |repos|
  {
    var n := |repos| - 1;
    var init := repos[..n];
    AllUpdatableInit(repos, overrides);
    if k < n {
      assert init[k] == repos[k];
      RecordIsListed(init, kmap, overrides, lower, k);
      ListedStaysListed(repos, kmap, overrides, lower, repos[k]["repo_id"]);
    } else {
      assert k == n;
      ListedIdOfFalsy(repos[n], kmap, overrides, lower);
      UncategorizedLast(repos, kmap, overrides, lower);
      InEither(repos[n]["repo_id"], Uncategorized(init, kmap, overrides, lower), ListedId(repos[n], kmap, overrides, lower));
    }
  }

  /** An id listed before the last record is still listed after it. */
  lemma ListedStaysListed(repos: seq<Record>, kmap: KeywordMap, overrides: Overrides, lower: string -> string, id: Json)
    requires AllUpdatable(repos, overrides) && repos != []
    requires AllUpdatable(repos[..|repos| - 1], overrides)
    requires id in Uncategorized(repos[..|repos| - 1], kmap, overrides, lower)
    ensures id in Uncategorized(repos, kmap, overrides, lower)
  {
    var n := |repos| - 1;
    UncategorizedLast(repos, kmap, overrides, lower);
    InEither(id, Uncategorized(repos[..n], kmap, overrides, lower), ListedId(repos[n], kmap, overrides, lower));
  }

  lemma InEither<T>(x: T, a: seq<T>, b: seq<T>)
    requires x in a || x in b
    ensures x in a + b
  {
  }

  /** Visiting one more record adds its own contribution to both counters. */
  lemma CountersStep(repos: seq<Record>, i: nat, kmap: KeywordMap, overrides: Overrides, lower: string -> string)
    requires AllUpdatable(repos, overrides) && i < |repos|
    ensures AllUpdatable(repos[..i], overrides) && AllUpdatable(repos[..i + 1], overrides)
    ensures var c := CategorizeRepo(repos[i], kmap, overrides, lower);
            && CategorizedCount(repos[..i + 1], kmap, overrides, lower)
               == CategorizedCount(repos[..i], kmap, overrides, lower) + (if Truthy(c) then 1 else 0)
            && Uncategorized(repos[..i + 1], kmap, overrides, lower)
               == Uncategorized(repos[..i], kmap, overrides, lower) + (if Truthy(c) then [] else [repos[i]["repo_id"]])
  {
    assert forall k :: 0 <= k < i ==> repos[..i][k] == repos[k];
    assert forall k :: 0 <= k < i + 1 ==> repos[..i + 1][k] == repos[k];
    assert repos[..i + 1][..i] == repos[..i];
  }

  /** The first `i` records of `current` have been through the pass, the rest are as in `original`. */
  predicate PassedUpTo(current: seq<Record>, original: seq<Record>, i: nat,
                       kmap: KeywordMap, overrides: Overrides, lower: string -> string)
    requires AllUpdatable(original, overrides)
  {
    && |current| == |original| && i <= |original|
    && (forall k :: 0 <= k < i ==> current[k] == Recategorized(original[k], kmap, overrides, lower))
    && (forall k :: i <= k < |current| ==> current[k] == original[k])
  }

  lemma PassStep(before: seq<Record>, after: seq<Record>, original: seq<Record>, i: nat,
                 kmap: KeywordMap, overrides: Overrides, lower: string -> string)
    requires AllUpdatable(original, overrides) && i < |original|
    requires PassedUpTo(before, original, i, kmap, overrides, lower)
    requires after == before[i := Recategorized(before[i], kmap, overrides, lower)]
    ensures PassedUpTo(after, original, i + 1, kmap, overrides, lower)
  {
  }

  /** One turn of the loop: categorize `repos[i]` and write the category back into it. */
  method CategorizeAt(repos: array<Record>, i: nat, kmap: KeywordMap, overrides: Overrides, lower: string -> string)
    returns (category: Json)
    requires i < repos.Length && Updatable(repos[i], overrides)
    modifies repos
    ensures category == CategorizeRepo(old(repos[i]), kmap, overrides, lower)
    ensures repos[..] == old(repos[..])[i := Recategorized(old(repos[i]), kmap, overrides, lower)]
  {
    var repo := repos[i];
    category := CategorizeRepo(repo, kmap, overrides, lower);
    repos[i] := SetCategory(repo, category);
  }

  /**
   * The loop of `main`: every record gets its category written (None where
   * nothing matched), nothing else changes, and the counters report the
   * categorized records and the ids of the others.
   */
  method CategorizeAll(repos: array<Record>, kmap: KeywordMap, overrides: Overrides, lower: string -> string)
    returns (categorized: nat, uncategorized: seq<Json>)
    requires AllUpdatable(repos[..], overrides)
    modifies repos
    ensures AllUpdatable(old(repos[..]), overrides)
    ensures forall k :: 0 <= k < repos.Length ==> repos[k] == Recategorized(old(repos[k]), kmap, overrides, lower)
    ensures categorized == CategorizedCount(old(repos[..]), kmap, overrides, lower)
    ensures uncategorized == Uncategorized(old(repos[..]), kmap, overrides, lower)
    ensures categorized + |uncategorized| == repos.Length
  {
    ghost var original := repos[..];
    categorized, uncategorized := 0, [];
    var i := 0;
    while i < repos.Length
      invariant 0 <= i <= repos.Length
      invariant |original| == repos.Length && AllUpdatable(original, overrides)
      invariant PassedUpTo(repos[..], original, i, kmap, overrides, lower)
      invariant AllUpdatable(original[..i], overrides)
      invariant categorized == CategorizedCount(original[..i], kmap, overrides, lower)
      invariant uncategorized == Uncategorized(original[..i], kmap, overrides, lower)
    {
      CountersStep(original, i, kmap, overrides, lower);
      ghost var before := repos[..];
      var category := CategorizeAt(repos, i, kmap, overrides, lower);
      PassStep(before, repos[..], original, i, kmap, overrides, lower);
      if Truthy(category) {
        categorized := categorized + 1;
      } else {
        uncategorized := uncategorized + [repos[i]["repo_id"]];
      }
      i := i + 1;
    }
    assert original[..i] == original;
    assert forall k :: 0 <= k < repos.Length ==> repos[k] == repos[..][k];
    CountsPartition(original, kmap, overrides, lower);
  }

  // ---------------------------------------------------------------------
  // A worked case
  // ---------------------------------------------------------------------

  /** `str.lower` on one character, for ASCII letters; other characters are kept. */
  function LowerChar(c: char): (l: char)
    ensures 'A' <= c <= 'Z' ==> l as int == c as int + 32
    ensures !('A' <= c <= 'Z') ==> l == c
  {
    if 'A' <= c <= 'Z' then (c as int + 32) as char else c
  }

  /** `str.lower` on ASCII text. */
  function AsciiLower(s: string): (r: string)
    ensures |r| == |s| && forall k :: 0 <= k < |s| ==> r[k] == LowerChar(s[k])
    decreases |s|
  {
    if s == [] then [] else [LowerChar(s[0])] + AsciiLower(s[1..])
  }

  /** "AlphaFold" and "alphafold" lower-case alike. */
  lemma AlphaFoldLowered()
    ensures AsciiLower("AlphaFold") == AsciiLower("alphafold")
  {
    var a, b := AsciiLower("AlphaFold"), AsciiLower("alphafold");
    assert forall k :: 0 <= k < 9 ==> a[k] == b[k];
  }

  /** The metadata of the worked case: only a description. */
  function AlphaFoldMetadata(): map<string, Json> {
    map["description" := JString("AlphaFold")]
  }

  /** A keyword of the first category found in the search text decides the category. */
  lemma FirstCategoryWins(repo: Record, kmap: KeywordMap, overrides: Overrides, lower: string -> string)
    requires Categorizable(repo, overrides) && !Overridden(repo, overrides) && |kmap| > 0
    requires Matches(kmap[0].1, SearchText(repo["metadata"].fields, lower), lower)
    ensures CategorizeRepo(repo, kmap, overrides, lower) == JString(kmap[0].0)
  {
    var text := SearchText(repo["metadata"].fields, lower);
    assert AnyKeywordIn(kmap[0].1, text, lower);
    assert FirstMatch(kmap, text, lower) == Some(kmap[0].0);
  }

  /** The worked record: its id is no override key and its metadata is AlphaFoldMetadata. */
  lemma AlphaFoldShape(repo: Record)
    requires repo == map["repo_id" := JString("lab/fold"), "metadata" := JObject(AlphaFoldMetadata())]
    ensures Categorizable(repo, map[]) && !Overridden(repo, map[])
    ensures repo["metadata"].fields == AlphaFoldMetadata()
  {
    assert "repo_id" in repo && repo["repo_id"] == JString("lab/fold");
    assert "metadata" in repo && repo["metadata"] == JObject(AlphaFoldMetadata());
    assert Searchable(AlphaFoldMetadata());
  }

  /** "alphafold" occurs in the lower-cased search text of AlphaFoldMetadata. */
  lemma AlphaFoldMatches()
    ensures Matches(["alphafold"], SearchText(AlphaFoldMetadata(), AsciiLower), AsciiLower)
  {
    var meta := AlphaFoldMetadata();
    assert Searchable(meta);
    assert DescriptionOf(meta) == "AlphaFold";
    SearchTextHoldsParts(meta, AsciiLower);
    AlphaFoldLowered();
    var keywords := ["alphafold"];
    assert IsSubstring(AsciiLower(keywords[0]), SearchText(meta, AsciiLower));
  }

  /**
   * A record whose description is "AlphaFold", with no override and
   * "Core Methods" first in the keyword map, is filed under "Core Methods".
   */
  lemma AlphaFoldIsCoreMethods(other: seq<string>)
    ensures var repo := map["repo_id" := JString("lab/fold"), "metadata" := JObject(AlphaFoldMetadata())];
            var kmap := [("Core Methods", ["alphafold"]), ("Applications", other)];
            Categorizable(repo, map[])
            && CategorizeRepo(repo, kmap, map[], AsciiLower) == JString("Core Methods")
  {
    var repo := map["repo_id" := JString("lab/fold"), "metadata" := JObject(AlphaFoldMetadata())];
    var kmap := [("Core Methods", ["alphafold"]), ("Applications", other)];
    AlphaFoldShape(repo);
    AlphaFoldMatches();
    assert kmap[0].1 == ["alphafold"];
    FirstCategoryWins(repo, kmap, map[], AsciiLower);
  }
}
