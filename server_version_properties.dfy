/**
 * Properties of the server-version cache of `BasePublisherSettings`: what
 * each branch of one `getServerVersion` call does, and what follows for a
 * sequence of calls.
 */
module ServerVersionProperties {
  import opened Wrappers
  import opened CommitPublisher

  // ---------------------------------------------------------------------
  // One call, branch by branch
  // ---------------------------------------------------------------------

  /** The expiration time is one day, and the age limit is inclusive. */
  lemma ExpiryBoundary(entry: TimestampedServerVersion)
    ensures ExpirationTimeMs == 86_400_000
    ensures !entry.IsObsolete(entry.timestamp + ExpirationTimeMs)
    ensures entry.IsObsolete(entry.timestamp + ExpirationTimeMs + 1)
  {
  }

  /** A fresh entry is returned without asking the server, and the cache is left as it was. */
  lemma FreshHit(versions: ServerVersions, url: string, now: int, outcome: FetchOutcome)
    requires url in versions && now - versions[url].timestamp <= ExpirationTimeMs
    ensures Lookup(versions, url, now, outcome) == Step(Some(versions[url].version), versions, false)
  {
  }

  /** A missing or obsolete entry with a successful retrieval: the new version is stored with the current time and returned. */
  lemma RetrievedVersionStored(versions: ServerVersions, url: string, now: int, v: string)
    requires NeedsRefresh(versions, url, now)
    ensures Lookup(versions, url, now, Retrieved(Some(v)))
            == Step(Some(v), versions[url := TimestampedServerVersion(v, now)], true)
  {
  }

  /**
   * An obsolete entry and a failed retrieval: the old value is returned and
   * its timestamp renewed, so every call within the next day is served from
   * the cache without asking the server again.
   */
  lemma FailureRenewsEntry(versions: ServerVersions, url: string, now: int, later: int, next: FetchOutcome)
    requires url in versions && versions[url].IsObsolete(now)
    requires later - now <= ExpirationTimeMs
    ensures var was := versions[url].version;
            var s := Lookup(versions, url, now, Failed);
            && s == Step(Some(was), versions[url := TimestampedServerVersion(was, now)], true)
            && Lookup(s.versions, url, later, next) == Step(Some(was), s.versions, false)
  {
  }

  /** No entry and a failed retrieval: null, no entry is created, and the next call asks the server again. */
  lemma FailureWithoutEntry(versions: ServerVersions, url: string, now: int, later: int, next: FetchOutcome)
    requires url !in versions
    ensures Lookup(versions, url, now, Failed) == Step(None, versions, true)
    ensures Lookup(versions, url, later, next).fetched
  {
  }

  /**
   * A missing or obsolete entry and a null retrieval: null, and the cache is
   * left as it was; an obsolete entry is not renewed, so the next call asks
   * the server again.
   */
  lemma NullRetrievalKeepsCache(versions: ServerVersions, url: string, now: int, later: int, next: FetchOutcome)
    requires NeedsRefresh(versions, url, now)
    requires url in versions ==> later >= now
    ensures Lookup(versions, url, now, Retrieved(None)) == Step(None, versions, true)
    ensures Lookup(versions, url, later, next).fetched
  {
  }

  // ---------------------------------------------------------------------
  // Sequences of calls
  // ---------------------------------------------------------------------

  /** One call of `getServerVersion(url)` at time `now`, with what the server would do. */
  datatype Call = Call(url: string, now: int, outcome: FetchOutcome)

  /** The steps of a sequence of calls, one per call, and the cache after the last. */
  datatype Replayed = Replayed(steps: seq<Step>, final: ServerVersions)

  /** Runs `calls` one after the other on the cache `versions`. */
  function Replay(versions: ServerVersions, calls: seq<Call>): (r: Replayed)
    ensures |r.steps| == |calls|
    ensures versions.Keys <= r.final.Keys
    ensures calls == [] ==> r.final == versions
    decreases |calls|
  {
    if calls == [] then
      Replayed([], versions)
    else
      var s := Lookup(versions, calls[0].url, calls[0].now, calls[0].outcome);
      var rest := Replay(s.versions, calls[1..]);
      Replayed([s] + rest.steps, rest.final)
  }

  /** Calls for other URLs leave the entry for `url` exactly as it was. */
  lemma {:induction false} OtherUrlsLeaveEntry(versions: ServerVersions, calls: seq<Call>, url: string)
    requires forall i :: 0 <= i < |calls| ==> calls[i].url != url
    ensures Get(Replay(versions, calls).final, url) == Get(versions, url)
    decreases |calls|
  {
    if calls != [] {
      var s := Lookup(versions, calls[0].url, calls[0].now, calls[0].outcome);
      OtherUrlsLeaveEntry(s.versions, calls[1..], url);
    }
  }

  /**
   * While an entry is fresh, whatever happens to other URLs and whatever the
   * server would answer, every call for its URL returns the cached version
   * without asking the server, and the entry stays as it was.
   */
  lemma {:induction false} FreshEntryServed(versions: ServerVersions, calls: seq<Call>, url: string)
    requires url in versions
    requires forall i :: 0 <= i < |calls| ==> calls[i].now - versions[url].timestamp <= ExpirationTimeMs
    ensures var r := Replay(versions, calls);
            && url in r.final && r.final[url] == versions[url]
            && forall i :: 0 <= i < |calls| && calls[i].url == url ==>
                 r.steps[i] == Step(Some(versions[url].version), r.steps[i].versions, false)
    decreases |calls|
  {
    if calls != [] {
      var s := Lookup(versions, calls[0].url, calls[0].now, calls[0].outcome);
      assert s.versions[url] == versions[url];
      FreshEntryServed(s.versions, calls[1..], url);
      var r := Replay(versions, calls);
      forall i | 0 <= i < |calls| && calls[i].url == url
        ensures r.steps[i] == Step(Some(versions[url].version), r.steps[i].versions, false)
      {
        if i > 0 {
          assert r.steps[i] == Replay(s.versions, calls[1..]).steps[i - 1];
        }
      }
    }
  }

  /**
   * A successful retrieval at `t0` is served for a day: after any calls made
   * within the day, a call for the same URL at `t1`, with `t1 - t0` at most
   * the expiration time, returns the retrieved version without asking the server.
   */
  lemma {:induction false} RetrievedVersionServedForADay(
    versions: ServerVersions, url: string, t0: int, v: string, calls: seq<Call>, t1: int, next: FetchOutcome)
    requires NeedsRefresh(versions, url, t0)
    requires forall i :: 0 <= i < |calls| ==> calls[i].now - t0 <= ExpirationTimeMs
    requires t1 - t0 <= ExpirationTimeMs
    ensures var m := Replay(Lookup(versions, url, t0, Retrieved(Some(v))).versions, calls).final;
            Lookup(m, url, t1, next) == Step(Some(v), m, false)
  {
    var s := Lookup(versions, url, t0, Retrieved(Some(v)));
    FreshEntryServed(s.versions, calls, url);
  }

  /**
   * With the base class's `retrieveServerVersion`, which always returns null,
   * the cache never changes, and a call returns either null or a version the
   * cache already held.
   */
  lemma {:induction false} DefaultRetrievalNeverCaches(versions: ServerVersions, calls: seq<Call>)
    requires forall i :: 0 <= i < |calls| ==> calls[i].outcome == DefaultRetrieveServerVersion(calls[i].url)
    ensures var r := Replay(versions, calls);
            && r.final == versions
            && forall i :: 0 <= i < |calls| ==>
                 r.steps[i].versions == versions
                 && (r.steps[i].result.None? ||
                     (calls[i].url in versions && versions[calls[i].url].version == r.steps[i].result.value))
    decreases |calls|
  {
    if calls != [] {
      var s := Lookup(versions, calls[0].url, calls[0].now, calls[0].outcome);
      assert s.versions == versions;
      DefaultRetrievalNeverCaches(versions, calls[1..]);
      var r := Replay(versions, calls);
      forall i | 1 <= i < |calls|
        ensures r.steps[i] == Replay(versions, calls[1..]).steps[i - 1]
      {
      }
    }
  }

  /** Starting empty, the base class's cache stays empty and every call returns null. */
  lemma {:induction false} DefaultRetrievalAlwaysNull(calls: seq<Call>)
    requires forall i :: 0 <= i < |calls| ==> calls[i].outcome == DefaultRetrieveServerVersion(calls[i].url)
    ensures var r := Replay(map[], calls);
            r.final == map[] && forall i :: 0 <= i < |calls| ==> r.steps[i].result == None
  {
    DefaultRetrievalNeverCaches(map[], calls);
  }

  /** The versions held by a cache. */
  function CachedVersions(versions: ServerVersions): (vs: set<string>)
    ensures forall k :: k in versions ==> versions[k].version in vs
  {
    set k | k in versions :: versions[k].version
  }

  /** The versions the server returned during `calls`. */
  function RetrievedVersions(calls: seq<Call>): set<string> {
    set i | 0 <= i < |calls| && calls[i].outcome.Retrieved? && calls[i].outcome.version.Some?
      :: calls[i].outcome.version.value
  }

  /**
   * The cache never makes a version up: every version it returns or holds
   * after a sequence of calls was held at the start or returned by the server
   * during the calls.
   */
  lemma {:induction false} NoInventedVersions(versions: ServerVersions, calls: seq<Call>)
    ensures var r := Replay(versions, calls);
            && CachedVersions(r.final) <= CachedVersions(versions) + RetrievedVersions(calls)
            && forall i :: 0 <= i < |calls| && r.steps[i].result.Some? ==>
                 r.steps[i].result.value in CachedVersions(versions) + RetrievedVersions(calls)
    decreases |calls|
  {
    if calls != [] {
      var s := Lookup(versions, calls[0].url, calls[0].now, calls[0].outcome);
      var known := CachedVersions(versions) + RetrievedVersions(calls);
      assert RetrievedVersions(calls[1..]) <= RetrievedVersions(calls) by {
        forall v | v in RetrievedVersions(calls[1..]) ensures v in RetrievedVersions(calls) {
          var j :| 0 <= j < |calls[1..]| && calls[1..][j].outcome.Retrieved? && calls[1..][j].outcome.version.Some?
                   && calls[1..][j].outcome.version.value == v;
          assert calls[j + 1] == calls[1..][j];
        }
      }
      assert CachedVersions(s.versions) <= known by {
        forall k | k in s.versions ensures s.versions[k].version in known {
          if k != calls[0].url {
            assert Get(s.versions, k) == Get(versions, k);
          } else if s.versions != versions {
            assert s.result.Some?;
          }
        }
      }
      NoInventedVersions(s.versions, calls[1..]);
      var r := Replay(versions, calls);
      forall i | 0 <= i < |calls| && r.steps[i].result.Some?
        ensures r.steps[i].result.value in known
      {
        if i > 0 {
          assert r.steps[i] == Replay(s.versions, calls[1..]).steps[i - 1];
        }
      }
    }
  }

  /**
   * The day in the life of one URL: stored at 0h, served from the cache at
   * 1h, the server fails at 25h and the old version is renewed, served from
   * the cache again at 26h.
   */
  lemma OneDayScenario(url: string, any: FetchOutcome)
    ensures var hour := 60 * 60 * 1000;
            var s0 := Lookup(map[], url, 0, Retrieved(Some("1.0")));
            var s1 := Lookup(s0.versions, url, hour, any);
            var s2 := Lookup(s1.versions, url, 25 * hour, Failed);
            var s3 := Lookup(s2.versions, url, 26 * hour, any);
            && s0.result == Some("1.0") && s0.fetched
            && s1.result == Some("1.0") && !s1.fetched
            && s2.result == Some("1.0") && s2.fetched
            && s3.result == Some("1.0") && !s3.fetched
  {
  }
}
