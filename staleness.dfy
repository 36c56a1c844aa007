/** Which configured repositories have data older than a threshold
    (internal/handlers/staleness.go). A stale map `map[string]bool` only ever
    holds `true`, so it is a set of names here; Go's nil map is None. */
module Staleness {
  import opened Types
  import Strings
  import Sorting
  import Storage

  /** A repository is stale when it was never fetched successfully or its last
      success lies more than `threshold` before `now`. */
  predicate IsStale(repoTimes: map<string, Time>, threshold: Time, name: string, now: Time)
  {
    name !in repoTimes || now - repoTimes[name] > threshold
  }

  /** The configured names that are stale. */
  function StaleSet(repoTimes: map<string, Time>, threshold: Time, allRepos: seq<string>, now: Time): set<string>
  {
    set name | name in allRepos && IsStale(repoTimes, threshold, name, now)
  }

  /** staleRepos: None when no repository is configured or none is stale,
      otherwise exactly the stale configured names. */
  method StaleRepos(repoTimes: map<string, Time>, threshold: Time, allRepos: seq<string>, now: Time)
    returns (stale: Option<set<string>>)
    ensures |allRepos| == 0 ==> stale == None
    ensures stale == None <==> StaleSet(repoTimes, threshold, allRepos, now) == {}
    ensures stale.Some? ==> stale.value == StaleSet(repoTimes, threshold, allRepos, now)
  {
    if |allRepos| == 0 {
      return None;
    }

    var found: set<string> := {};
    for i := 0 to |allRepos|
      invariant found == StaleSet(repoTimes, threshold, allRepos[..i], now)
    {
      var name := allRepos[i];
      if name !in repoTimes || now - repoTimes[name] > threshold {
        found := found + {name};
      }
      assert allRepos[..i + 1] == allRepos[..i] + [name];
    }
    assert allRepos[..|allRepos|] == allRepos;

    if |found| == 0 {
      return None;
    }
    return Some(found);
  }

  /** sortedKeys: the names once each, in strictly ascending order; no names
      give the empty (nil) list. */
  method SortedKeys(m: set<string>) returns (keys: seq<string>)
    ensures |m| == 0 ==> keys == []
    ensures |keys| == |m|
    ensures forall k :: k in keys <==> k in m
    ensures forall i, j :: 0 <= i < j < |keys| ==> Strings.Less(keys[i], keys[j])
  {
    if |m| == 0 {
      return [];
    }
    var collected: seq<string> := [];
    var rest := m;
    while rest != {}
      invariant rest <= m
      invariant multiset(collected) + multiset(rest) == multiset(m)
      decreases |rest|
    {
      var k :| k in rest;
      collected := collected + [k];
      rest := rest - {k};
    }

    var a := new string[|collected|](i requires 0 <= i < |collected| => collected[i]);
    assert a[..] == collected;
    Sorting.StringLessOrder();
    Sorting.SortBy(a, Strings.Less);
    keys := a[..];

    assert multiset(keys) == multiset(m);
    forall x ensures multiset(keys)[x] <= 1 {
      assert multiset(m)[x] <= 1;
    }
    Sorting.DistinctFromMultiset(keys);
    Sorting.SortedDistinctAscending(keys);
    forall k ensures k in keys <==> k in m {
      assert k in keys <==> k in multiset(keys);
    }
    assert |multiset(keys)| == |multiset(m)|;
  }

  /** computeStaleness for one category: nothing is stale before the first
      fetch; otherwise a repository is stale after three intervals, and the
      stale names come back as a set and as an ascending list. */
  method ComputeStaleness(store: Storage.Memory, category: string, interval: Time, lastUpdate: Time,
                          repoNames: seq<string>, now: Time)
    returns (staleMap: set<string>, staleList: seq<string>)
    ensures lastUpdate == ZeroTime ==> staleMap == {} && staleList == []
    ensures lastUpdate != ZeroTime ==>
              staleMap == StaleSet(store.TimesOf(category), interval * 3, repoNames, now)
    ensures forall k :: k in staleList <==> k in staleMap
    ensures |staleList| == |staleMap|
    ensures forall i, j :: 0 <= i < j < |staleList| ==> Strings.Less(staleList[i], staleList[j])
  {
    if lastUpdate == ZeroTime {
      return {}, [];
    }
    var repoTimes := store.RepoFetchTimes(category);
    var threshold := interval * 3;
    var found := StaleRepos(repoTimes, threshold, repoNames, now);
    if found.None? {
      return {}, [];
    }
    staleMap := found.value;
    staleList := SortedKeys(staleMap);
  }

  /** Data exactly `threshold` old is still fresh; one unit older is stale. */
  lemma ThresholdIsInclusive(repoTimes: map<string, Time>, threshold: Time, name: string, now: Time)
    requires name in repoTimes
    ensures now - repoTimes[name] == threshold ==> !IsStale(repoTimes, threshold, name, now)
    ensures now - repoTimes[name] == threshold + 1 ==> IsStale(repoTimes, threshold, name, now)
  {
  }

  /** Only configured names can be stale, and a name never fetched always is. */
  lemma StaleSetBounds(repoTimes: map<string, Time>, threshold: Time, allRepos: seq<string>, now: Time)
    ensures StaleSet(repoTimes, threshold, allRepos, now) <= set name | name in allRepos
    ensures forall name :: name in allRepos && name !in repoTimes ==>
              name in StaleSet(repoTimes, threshold, allRepos, now)
  {
  }
}
