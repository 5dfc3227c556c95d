/**
 * The server-version cache and the two parameter predicates of the base class
 * of commit status publisher settings (BasePublisherSettings.java).
 *
 * The clock becomes a `now` parameter (milliseconds), and the subclass hook
 * `retrieveServerVersion` becomes an input `FetchOutcome`.
 */
module CommitPublisher {
  import opened Wrappers

  /** `TimeUnit.DAYS.toMillis(1)`: an entry may be served for one day. */
  const ExpirationTimeMs: int := 24 * 60 * 60 * 1000

  /** A version string with the time it was stored or last renewed. */
  datatype TimestampedServerVersion = TimestampedServerVersion(version: string, timestamp: int)
  {
    /** Older than the expiration time at `now`; an age of exactly one day is still fresh. */
    predicate IsObsolete(now: int)
      ensures IsObsolete(now) <==> now > timestamp + 86_400_000
    {
      now - timestamp > ExpirationTimeMs
    }
  }

  /** The cache's map from server URL to its timestamped version. */
  type ServerVersions = map<string, TimestampedServerVersion>

  /**
   * What one call of `retrieveServerVersion(url)` did: it returned a version
   * or null (`Retrieved`), or it threw a `PublisherException` (`Failed`).
   */
  datatype FetchOutcome = Retrieved(version: Option<string>) | Failed

  /** The base class's `retrieveServerVersion`: it always returns null. */
  function DefaultRetrieveServerVersion(url: string): (o: FetchOutcome)
    ensures o != Failed && o.version.None?
  {
    Retrieved(None)
  }

  /** A call must ask the server: there is no entry for `url`, or its entry is obsolete at `now`. */
  predicate NeedsRefresh(versions: ServerVersions, url: string, now: int)
    // the only way to avoid asking: an entry stamped no more than a day before `now`
    ensures !NeedsRefresh(versions, url, now) <==>
              url in versions && now <= versions[url].timestamp + ExpirationTimeMs
  {
    url !in versions || versions[url].IsObsolete(now)
  }

  /** One call of `getServerVersion`: its result, the cache afterwards, and whether it asked the server. */
  datatype Step = Step(result: Option<string>, versions: ServerVersions, fetched: bool)

  /**
   * The specification of `getServerVersion(url)` at time `now` on cache
   * `versions`, when `retrieveServerVersion` would produce `outcome`.
   */
  function Lookup(versions: ServerVersions, url: string, now: int, outcome: FetchOutcome): (s: Step)
    // the server is asked exactly when the entry is missing or obsolete
    ensures s.fetched <==> NeedsRefresh(versions, url, now)
    // without asking the server nothing changes
    ensures !s.fetched ==> s.versions == versions
    // no entry is ever removed, and only `url`'s entry can change
    ensures versions.Keys <= s.versions.Keys <= versions.Keys + {url}
    ensures forall k :: k != url ==> Get(s.versions, k) == Get(versions, k)
    // a changed entry is stamped with the current time
    ensures s.versions == versions || (url in s.versions && s.versions[url].timestamp == now)
    // a value returned is the one now cached for `url`; null leaves the cache as it was
    ensures s.result.Some? ==> url in s.versions && s.versions[url].version == s.result.value
    ensures s.result.None? ==> s.versions == versions
    // a value returned was either cached before or just retrieved
    ensures s.result.Some? ==>
              (url in versions && versions[url].version == s.result.value) || outcome == Retrieved(s.result)
  {
    var cached := Get(versions, url);
    if cached.Some? && !cached.value.IsObsolete(now) then
      Step(Some(cached.value.version), versions, false)
    else
      match outcome
      case Failed =>
        if cached.Some? then
          Step(Some(cached.value.version), versions[url := TimestampedServerVersion(cached.value.version, now)], true)
        else
          Step(None, versions, true)
      case Retrieved(v) =>
        if v.Some? then
          Step(v, versions[url := TimestampedServerVersion(v.value, now)], true)
        else
          Step(None, versions, true)
  }

  /** The settings object; of its state only the server-version cache is modelled. */
  class BasePublisherSettings {
    var serverVersions: ServerVersions

    constructor ()
      ensures serverVersions == map[]
    {
      serverVersions := map[];
    }

    /**
     * `getServerVersion(url)` at time `now`. `outcome` is what
     * `retrieveServerVersion(url)` would do if it were called; `fetched`
     * says whether it was called.
     */
    method GetServerVersion(url: string, now: int, outcome: FetchOutcome) returns (version: Option<string>, fetched: bool)
      modifies this
      ensures Step(version, serverVersions, fetched) == Lookup(old(serverVersions), url, now, outcome)
    {
      var cached := Get(serverVersions, url);
      if cached.Some? && !cached.value.IsObsolete(now) {
        return Some(cached.value.version), false;
      }
      fetched := true;
      match outcome {
        case Failed =>
          if cached.Some? {
            // renew the timestamp of the old value
            serverVersions := serverVersions[url := TimestampedServerVersion(cached.value.version, now)];
            return Some(cached.value.version), fetched;
          }
          return None, fetched;
        case Retrieved(v) =>
          if v.Some? {
            serverVersions := serverVersions[url := TimestampedServerVersion(v.value, now)];
            return v, fetched;
          }
          return None, fetched;
      }
    }
  }

  /** The build configuration parameter that enables the "build queued" status. */
  const PublishBuildQueuedStatusParam: string := "teamcity.commitStatusPublisher.publishQueuedBuildStatus"

  /** `Character.toUpperCase` on ASCII letters; every other character is left as it is. */
  function ToUpper(c: char): char {
    if 'a' <= c <= 'z' then (c as int - 32) as char else c
  }

  /** `Character.toLowerCase` on ASCII letters; every other character is left as it is. */
  function ToLower(c: char): char {
    if 'A' <= c <= 'Z' then (c as int + 32) as char else c
  }

  /** The per-character test of `String.regionMatches(true, ...)`, with case folded on ASCII letters only. */
  predicate CharsEqualIgnoreCase(c1: char, c2: char) {
    c1 == c2 || ToUpper(c1) == ToUpper(c2) || ToLower(ToUpper(c1)) == ToLower(ToUpper(c2))
  }

  /** `a.equalsIgnoreCase(b)` for a non-null `b`, with case folded on ASCII letters only. */
  predicate EqualsIgnoreCase(a: string, b: string) {
    |a| == |b| && forall i :: 0 <= i < |a| ==> CharsEqualIgnoreCase(a[i], b[i])
  }

  /**
   * `isBuildQueuedSupported`: the build configuration's parameter, looked up
   * in `buildTypeParameters`, is "true" in any case; an undefined parameter
   * (null) is not.
   */
  predicate IsBuildQueuedSupported(buildTypeParameters: map<string, string>)
    // an undefined parameter is not "true", and an accepted value has the length of "true"
    ensures IsBuildQueuedSupported(buildTypeParameters) ==>
              PublishBuildQueuedStatusParam in buildTypeParameters
              && |buildTypeParameters[PublishBuildQueuedStatusParam]| == 4
    ensures Get(buildTypeParameters, PublishBuildQueuedStatusParam) in {Some("true"), Some("TRUE"), Some("True")} ==>
              IsBuildQueuedSupported(buildTypeParameters)
  {
    match Get(buildTypeParameters, PublishBuildQueuedStatusParam)
    case None => false
    case Some(value) => EqualsIgnoreCase("true", value)
  }

  /** The base class's `getSupportedEvents`: no event at all. */
  function DefaultSupportedEvents<Event>(): (events: set<Event>)
    ensures |events| == 0
  {
    {}
  }

  /** `isEventSupported`: `event` is among the events `getSupportedEvents` gives for the build configuration. */
  predicate IsEventSupported<Event(==)>(event: Event, supportedEvents: set<Event>)
    // nothing is supported by an empty set, and an event is supported by the set of just itself
    ensures IsEventSupported(event, supportedEvents) ==> |supportedEvents| > 0
    ensures supportedEvents == {event} ==> IsEventSupported(event, supportedEvents)
  {
    event in supportedEvents
  }
}
