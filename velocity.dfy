/**
 * The velocity engine: choose a historical snapshot, map each historical
 * repo id to its star count, and write each current record's seven-day star
 * velocity and trending flag into its `tracking` object.
 *
 * The date of the wanted snapshot is an input, and the snapshot files are a
 * list of names with a map from name to the records the file holds.
 */
module Velocity {
  import opened Json
  import opened Strings

  // ---------------------------------------------------------------------
  // Choosing the snapshot
  // ---------------------------------------------------------------------

  /** The file name of the snapshot for a date. */
  function SnapshotName(date: string): string {
    date + ".json"
  }

  /**
   * The exact date's file when it exists; otherwise the first of the
   * available files in sorted order; None when there is none. The chosen
   * file is always one of the available files.
   */
  function SelectSnapshot(target: string, available: seq<string>): (r: Option<string>)
    ensures r.None? <==> available == []
    ensures r.Some? ==> r.value in available
  {
    if SnapshotName(target) in available then Some(SnapshotName(target))
    else if available == [] then None
    else
      SmallestIsLeast(available);
      Some(Smallest(available))
  }

  /** The exact date's file wins whenever it exists. */
  lemma SelectSnapshotExact(target: string, available: seq<string>)
    requires SnapshotName(target) in available
    ensures SelectSnapshot(target, available) == Some(target + ".json")
  {
  }

  /** Without the exact file, the chosen one sorts before or equal to every available file. */
  lemma SelectSnapshotOldest(target: string, available: seq<string>)
    requires SnapshotName(target) !in available && available != []
    ensures SelectSnapshot(target, available).Some?
    ensures forall name :: name in available ==> LexLe(SelectSnapshot(target, available).value, name)
  {
    SmallestIsLeast(available);
  }

  // ---------------------------------------------------------------------
  // The historical lookup
  // ---------------------------------------------------------------------

  /** A historical entry the lookup reads without raising: a hashable id and a metadata dictionary. */
  predicate HistoricalEntry(r: Record) {
    "repo_id" in r && Hashable(r["repo_id"]) && MetadataObject(r)
  }

  predicate AllHistorical(hist: seq<Record>) {
    forall k :: 0 <= k < |hist| ==> HistoricalEntry(hist[k])
  }

  /** `r['metadata'].get('stars', 0)`: missing stars count as 0. */
  function StarsValue(r: Record): Json
    requires MetadataObject(r)
  {
    Get(r["metadata"].fields, "stars", JInt(0))
  }

  /** `{r['repo_id']: r['metadata'].get('stars', 0) for r in historical_repos}`. */
  function HistoricalStars(hist: seq<Record>): map<Json, Json>
    requires AllHistorical(hist)
    decreases |hist|
  {
    if hist == [] then map[]
    else
      var n := |hist| - 1;
      HistoricalStars(hist[..n])[hist[n]["repo_id"] := StarsValue(hist[n])]
  }

  /** An id is a key of the lookup exactly when some entry carries it. */
  lemma {:induction false} HistoricalStarsKeys(hist: seq<Record>, id: Json)
    requires AllHistorical(hist)
    ensures id in HistoricalStars(hist) <==> exists j :: 0 <= j < |hist| && hist[j]["repo_id"] == id
    decreases |hist|
  {
    if hist != [] {
      var n := |hist| - 1;
      var init := hist[..n];
      assert forall k :: 0 <= k < n ==> init[k] == hist[k];
      HistoricalStarsKeys(init, id);
    }
  }

  /** The value for an id is the star count of the last entry that carries it: the last one wins. */
  lemma {:induction false} HistoricalStarsLastWins(hist: seq<Record>, id: Json)
    requires AllHistorical(hist)
    ensures id in HistoricalStars(hist) ==>
              exists j :: 0 <= j < |hist| && hist[j]["repo_id"] == id
                && HistoricalStars(hist)[id] == StarsValue(hist[j])
                && forall k :: j < k < |hist| ==> hist[k]["repo_id"] != id
    decreases |hist|
  {
    if hist != [] {
      var n := |hist| - 1;
      var init := hist[..n];
      HistoricalInit(hist);
      var earlier := HistoricalStars(init);
      assert HistoricalStars(hist) == earlier[hist[n]["repo_id"] := StarsValue(hist[n])];
      if hist[n]["repo_id"] == id {
        assert HistoricalStars(hist)[id] == StarsValue(hist[n]);
      } else if id in earlier {
        HistoricalStarsLastWins(init, id);
        var j :| 0 <= j < n && init[j]["repo_id"] == id
                 && earlier[id] == StarsValue(init[j])
                 && forall k :: j < k < n ==> init[k]["repo_id"] != id;
        assert hist[j] == init[j];
        assert HistoricalStars(hist)[id] == StarsValue(hist[j]);
        forall k | j < k < |hist|
          ensures hist[k]["repo_id"] != id
        {
          if k < n {
            assert hist[k] == init[k];
          }
        }
      }
    }
  }

  /** The entries before the last one are still readable. */
  lemma HistoricalInit(hist: seq<Record>)
    requires AllHistorical(hist) && hist != []
    ensures AllHistorical(hist[..|hist| - 1])
  {
    assert forall k :: 0 <= k < |hist| - 1 ==> hist[..|hist| - 1][k] == hist[k];
  }

  // ---------------------------------------------------------------------
  // One record's update
  // ---------------------------------------------------------------------

  /**
   * A current record the loop updates without raising: a hashable id, a
   * metadata dictionary with integer or missing stars, a tracking
   * dictionary, and an integer historical count when its id has one.
   */
  predicate Updatable(r: Record, lookup: map<Json, Json>) {
    && "repo_id" in r && Hashable(r["repo_id"])
    && MetadataObject(r) && StarsValue(r).JInt?
    && TrackingObject(r)
    && (r["repo_id"] in lookup ==> lookup[r["repo_id"]].JInt?)
  }

  /** `current_stars`. */
  function CurrentStars(r: Record): int
    requires MetadataObject(r) && StarsValue(r).JInt?
  {
    StarsValue(r).i
  }

  /** `historical_stars.get(repo_id, current_stars)`. */
  function OldStars(r: Record, lookup: map<Json, Json>): int
    requires Updatable(r, lookup)
  {
    if r["repo_id"] in lookup then lookup[r["repo_id"]].i else CurrentStars(r)
  }

  /** The current record with its seven-day velocity and trending flag written. */
  function UpdateVelocity(r: Record, lookup: map<Json, Json>, threshold: int): (u: Record)
    requires Updatable(r, lookup)
    ensures u.Keys == r.Keys
    ensures forall key :: key in r && key != "tracking" ==> u[key] == r[key]
    ensures u["tracking"].JObject?
    ensures var before, after := r["tracking"].fields, u["tracking"].fields;
            && after.Keys == before.Keys + {"star_velocity_7d", "trending"}
            && forall key :: key in before && key != "star_velocity_7d" && key != "trending" ==>
                 after[key] == before[key]
  {
    var velocity := CurrentStars(r) - OldStars(r, lookup);
    var tracking := r["tracking"].fields["star_velocity_7d" := JInt(velocity)]["trending" := JBool(velocity >= threshold)];
    r["tracking" := JObject(tracking)]
  }

  /** The velocity written, read back from an updated record. */
  function VelocityOf(u: Record): Json
    requires TrackingObject(u) && "star_velocity_7d" in u["tracking"].fields
  {
    u["tracking"].fields["star_velocity_7d"]
  }

  /** The trending flag written, read back from an updated record. */
  function TrendingOf(u: Record): Json
    requires TrackingObject(u) && "trending" in u["tracking"].fields
  {
    u["tracking"].fields["trending"]
  }

  /**
   * The velocity is current minus historical stars, and the record is
   * trending exactly when the velocity reaches the threshold.
   */
  lemma VelocityAndTrending(r: Record, lookup: map<Json, Json>, threshold: int)
    requires Updatable(r, lookup)
    ensures var u := UpdateVelocity(r, lookup, threshold);
            && VelocityOf(u) == JInt(CurrentStars(r) - OldStars(r, lookup))
            && TrendingOf(u) == JBool(CurrentStars(r) - OldStars(r, lookup) >= threshold)
  {
    var u := UpdateVelocity(r, lookup, threshold);
    assert "star_velocity_7d" != "trending";
  }

  /** A repo the snapshot does not know has velocity 0: a new repo is never measured as growth. */
  lemma NewRepoHasZeroVelocity(r: Record, lookup: map<Json, Json>, threshold: int)
    requires Updatable(r, lookup) && r["repo_id"] !in lookup
    ensures VelocityOf(UpdateVelocity(r, lookup, threshold)) == JInt(0)
    ensures threshold > 0 ==> TrendingOf(UpdateVelocity(r, lookup, threshold)) == JBool(false)
  {
    VelocityAndTrending(r, lookup, threshold);
  }

  /** Unchanged stars give velocity 0, which is not trending for a positive threshold. */
  lemma EqualStarsNotTrending(r: Record, lookup: map<Json, Json>, threshold: int)
    requires Updatable(r, lookup) && OldStars(r, lookup) == CurrentStars(r)
    ensures VelocityOf(UpdateVelocity(r, lookup, threshold)) == JInt(0)
    ensures threshold > 0 ==> TrendingOf(UpdateVelocity(r, lookup, threshold)) == JBool(false)
  {
    VelocityAndTrending(r, lookup, threshold);
  }

  /** The lookup holds the stars of the last entry with a given id. */
  lemma LastEntryStars(hist: seq<Record>, j: nat)
    requires AllHistorical(hist) && j < |hist|
    requires forall k :: j < k < |hist| ==> hist[k]["repo_id"] != hist[j]["repo_id"]
    ensures hist[j]["repo_id"] in HistoricalStars(hist)
    ensures HistoricalStars(hist)[hist[j]["repo_id"]] == StarsValue(hist[j])
  {
    var id := hist[j]["repo_id"];
    HistoricalStarsKeys(hist, id);
    HistoricalStarsLastWins(hist, id);
    var i :| 0 <= i < |hist| && hist[i]["repo_id"] == id
             && HistoricalStars(hist)[id] == StarsValue(hist[i])
             && forall k :: i < k < |hist| ==> hist[k]["repo_id"] != id;
    assert i == j;
  }

  /**
   * When the last historical entry for the id has no stars, the old count
   * is 0, not absent: the velocity is the whole current count.
   */
  lemma MissingHistoricalStarsCountAsZero(r: Record, hist: seq<Record>, j: nat, threshold: int)
    requires AllHistorical(hist) && j < |hist|
    requires Updatable(r, HistoricalStars(hist))
    requires hist[j]["repo_id"] == r["repo_id"]
    requires "stars" !in hist[j]["metadata"].fields
    requires forall k :: j < k < |hist| ==> hist[k]["repo_id"] != hist[j]["repo_id"]
    ensures OldStars(r, HistoricalStars(hist)) == 0
    ensures VelocityOf(UpdateVelocity(r, HistoricalStars(hist), threshold)) == JInt(CurrentStars(r))
  {
    LastEntryStars(hist, j);
    assert StarsValue(hist[j]) == JInt(0);
    VelocityAndTrending(r, HistoricalStars(hist), threshold);
  }

  // ---------------------------------------------------------------------
  // The update loop
  // ---------------------------------------------------------------------

  predicate AllUpdatable(repos: seq<Record>, lookup: map<Json, Json>) {
    forall k :: 0 <= k < |repos| ==> Updatable(repos[k], lookup)
  }

  /** The record's tracking flag is truthy (`if repo['tracking']['trending']`). */
  predicate Trending(r: Record) {
    TrackingObject(r) && "trending" in r["tracking"].fields && Truthy(r["tracking"].fields["trending"])
  }

  /** The number of trending records. */
  function CountTrending(repos: seq<Record>): (n: nat)
    ensures n <= |repos|
    decreases |repos|
  {
    if repos == [] then 0
    else CountTrending(repos[..|repos| - 1]) + (if Trending(repos[|repos| - 1]) then 1 else 0)
  }

  /** An updated record is trending exactly when its velocity reaches the threshold. */
  lemma UpdatedTrending(r: Record, lookup: map<Json, Json>, threshold: int)
    requires Updatable(r, lookup)
    ensures Trending(UpdateVelocity(r, lookup, threshold)) <==> CurrentStars(r) - OldStars(r, lookup) >= threshold
  {
    VelocityAndTrending(r, lookup, threshold);
  }

  lemma CountTrendingStep(repos: seq<Record>, i: nat)
    requires i < |repos|
    ensures CountTrending(repos[..i + 1]) == CountTrending(repos[..i]) + (if Trending(repos[i]) then 1 else 0)
  {
    assert repos[..i + 1][..i] == repos[..i];
  }

  /** The first `i` records of `current` have been updated, the rest are as in `original`. */
  predicate UpdatedUpTo(current: seq<Record>, original: seq<Record>, i: nat, lookup: map<Json, Json>, threshold: int)
    requires AllUpdatable(original, lookup)
  {
    && |current| == |original| && i <= |original|
    && (forall k :: 0 <= k < i ==> current[k] == UpdateVelocity(original[k], lookup, threshold))
    && (forall k :: i <= k < |current| ==> current[k] == original[k])
  }

  /** One turn of the update loop: update the velocity fields of `repos[i]` in place. */
  method UpdateAt(repos: array<Record>, i: nat, lookup: map<Json, Json>, threshold: int) returns (updated: Record)
    requires i < repos.Length && Updatable(repos[i], lookup)
    modifies repos
    ensures updated == UpdateVelocity(old(repos[i]), lookup, threshold)
    ensures repos[..] == old(repos[..])[i := updated]
  {
    updated := UpdateVelocity(repos[i], lookup, threshold);
    repos[i] := updated;
  }

  lemma UpdateStep(before: seq<Record>, after: seq<Record>, original: seq<Record>, i: nat,
                   lookup: map<Json, Json>, threshold: int)
    requires AllUpdatable(original, lookup) && i < |original|
    requires UpdatedUpTo(before, original, i, lookup, threshold)
    requires after == before[i := UpdateVelocity(before[i], lookup, threshold)]
    ensures UpdatedUpTo(after, original, i + 1, lookup, threshold)
    ensures CountTrending(after[..i + 1]) == CountTrending(before[..i]) + (if Trending(after[i]) then 1 else 0)
  {
    assert after[..i] == before[..i];
    CountTrendingStep(after, i);
  }

  /**
   * `calculate_velocity` after the records are loaded: choose the snapshot,
   * fail without touching a record when there is none, otherwise update
   * every record from the snapshot's lookup and count the trending ones.
   */
  method CalculateVelocity(repos: array<Record>, target: string, available: seq<string>,
                           snapshots: map<string, seq<Record>>, threshold: int)
    returns (ok: bool, used: Option<string>, trendingCount: nat)
    requires forall name :: name in available ==> name in snapshots
    requires SelectSnapshot(target, available).Some? ==>
               var hist := snapshots[SelectSnapshot(target, available).value];
               AllHistorical(hist) && AllUpdatable(repos[..], HistoricalStars(hist))
    modifies repos
    ensures used == SelectSnapshot(target, available)
    ensures ok <==> used.Some?
    ensures !ok ==> repos[..] == old(repos[..]) && trendingCount == 0
    ensures ok ==> used.value in snapshots && AllHistorical(snapshots[used.value])
    ensures ok ==> forall k :: 0 <= k < repos.Length ==>
              old(Updatable(repos[k], HistoricalStars(snapshots[used.value])))
              && repos[k] == UpdateVelocity(old(repos[k]), HistoricalStars(snapshots[used.value]), threshold)
    ensures ok ==> trendingCount == CountTrending(repos[..])
  {
    var name := SnapshotName(target);
    if name !in available {
      if |available| == 0 {
        return false, None, 0;
      }
      name := Smallest(available);
    }
    used := Some(name);
    var lookup := HistoricalStars(snapshots[name]);
    ghost var original := repos[..];
    trendingCount := 0;
    var i := 0;
    while i < repos.Length
      invariant 0 <= i <= repos.Length
      invariant |original| == repos.Length && AllUpdatable(original, lookup)
      invariant UpdatedUpTo(repos[..], original, i, lookup, threshold)
      invariant trendingCount == CountTrending(repos[..][..i])
    {
      ghost var before := repos[..];
      var updated := UpdateAt(repos, i, lookup, threshold);
      UpdateStep(before, repos[..], original, i, lookup, threshold);
      if Trending(updated) {
        trendingCount := trendingCount + 1;
      }
      i := i + 1;
    }
    assert repos[..][..i] == repos[..];
    assert forall k :: 0 <= k < repos.Length ==> repos[k] == repos[..][k];
    ok := true;
  }

  // ---------------------------------------------------------------------
  // Worked cases
  // ---------------------------------------------------------------------

  /** A record with the given id and stars and an empty tracking object. */
  function Current(id: string, stars: int): Record {
    map["repo_id" := JString(id), "metadata" := JObject(map["stars" := JInt(stars)]), "tracking" := JObject(map[])]
  }

  lemma CurrentShape(id: string, stars: int)
    ensures var r := Current(id, stars);
            && "repo_id" in r && r["repo_id"] == JString(id)
            && MetadataObject(r) && StarsValue(r) == JInt(stars) && TrackingObject(r)
  {
  }

  /** 120 stars now against 100 in the snapshot, threshold 10: velocity 20, trending. */
  lemma GainOfTwentyIsTrending()
    ensures var r := Current("a/b", 120);
            var lookup := HistoricalStars([Current("a/b", 100)]);
            && Updatable(r, lookup)
            && VelocityOf(UpdateVelocity(r, lookup, 10)) == JInt(20)
            && TrendingOf(UpdateVelocity(r, lookup, 10)) == JBool(true)
  {
    var r, h := Current("a/b", 120), Current("a/b", 100);
    CurrentShape("a/b", 120);
    CurrentShape("a/b", 100);
    assert [h][..0] == [];
    var lookup := HistoricalStars([h]);
    assert JString("a/b") in lookup && lookup[JString("a/b")] == JInt(100);
    VelocityAndTrending(r, lookup, 10);
  }

  /** 50 stars and an empty snapshot, threshold 10: velocity 0, not trending. */
  lemma UnknownRepoIsNotTrending()
    ensures var r := Current("c/d", 50);
            && Updatable(r, HistoricalStars([]))
            && VelocityOf(UpdateVelocity(r, HistoricalStars([]), 10)) == JInt(0)
            && TrendingOf(UpdateVelocity(r, HistoricalStars([]), 10)) == JBool(false)
  {
    CurrentShape("c/d", 50);
    NewRepoHasZeroVelocity(Current("c/d", 50), HistoricalStars([]), 10);
  }
}
