# Server-version cache of the commit status publisher settings

This project models the state that the base class of commit status publisher settings,
`BasePublisherSettings`, keeps for itself: a per-URL cache of the version string of the
remote VCS server. It also models two small parameter predicates of the same class.

`getServerVersion(url)` looks up the cache entry for `url`. An entry is a version and the time it
was stored. An entry is fresh while its age is at most one day (86 400 000 ms), and a fresh entry
is returned without asking the server. Otherwise the class calls the hook `retrieveServerVersion(url)`,
which subclasses override with a network call. What happens next depends on that call:

- It returns a version: the version is stored with the current time and returned.
- It throws a `PublisherException` and an old entry exists: the old version is kept and returned,
  and its timestamp is renewed. The server is then not asked again for another day.
- It throws and there is no entry, or it returns null: the result is null and the cache is unchanged.
  An obsolete entry is not renewed in this case, so the next call asks the server again.

In the model:

- The clock is a parameter `now`, in milliseconds.
- What the hook would do is an input `FetchOutcome`: `Retrieved(Some(v))`, `Retrieved(None)` for null,
  or `Failed` for the exception.
- The pure function `CommitPublisher.Lookup` is the specification of one call.
- The class `BasePublisherSettings` has the cache as a `map` field. Its method `GetServerVersion`
  updates that field in place, as the source does, and is proved to agree with `Lookup`.
- `ServerVersionProperties.Replay` runs a sequence of calls. The lemmas about it state what holds
  across calls: freshness for a day, the frame on other URLs, no invented versions, and the base
  class's hook that never caches.

Nothing checks that a retrieved version is non-empty: an empty string is stored and returned like
any other.

`isBuildQueuedSupported` tests whether the build configuration parameter
`teamcity.commitStatusPublisher.publishQueuedBuildStatus` equals "true" ignoring case. An undefined
parameter (null) is not supported. The source ignores the method's second argument (the publisher
parameters), so the model takes only the build configuration's parameters. `isEventSupported` is
membership in the set `getSupportedEvents` gives. The base class's set is empty.

## Model

| member | source | states |
|---|---|---|
| `CommitPublisher.Lookup` | commit-status-publisher-server/src/main/java/jetbrains/buildServer/commitPublisher/BasePublisherSettings.java:108-131 | The server is asked exactly when the entry is missing or obsolete, and the cache is unchanged when it is not asked. No entry is removed, and only `url`'s entry can change. A changed entry carries the current time. A returned version is the one now cached for `url`, and a null result leaves the cache unchanged. A returned version was either cached before or just retrieved. |
| `CommitPublisher.TimestampedServerVersion.IsObsolete` | commit-status-publisher-server/src/main/java/jetbrains/buildServer/commitPublisher/BasePublisherSettings.java:139-155 | An entry is obsolete exactly when more than 86 400 000 ms (one day) have passed since its timestamp. |
| `CommitPublisher.NeedsRefresh` | commit-status-publisher-server/src/main/java/jetbrains/buildServer/commitPublisher/BasePublisherSettings.java:111-112 | A call must ask the server unless the cache holds an entry for the URL stamped no more than a day before `now`. |
| `CommitPublisher.IsBuildQueuedSupported` | commit-status-publisher-server/src/main/java/jetbrains/buildServer/commitPublisher/BasePublisherSettings.java:104-106 | An undefined parameter is never "true", and an accepted value has four characters. "true", "TRUE" and "True" are accepted. |
| `CommitPublisher.DefaultSupportedEvents` | commit-status-publisher-server/src/main/java/jetbrains/buildServer/commitPublisher/BasePublisherSettings.java:100-102 | The base class's set of supported events is empty. |
| `CommitPublisher.IsEventSupported` | commit-status-publisher-server/src/main/java/jetbrains/buildServer/commitPublisher/BasePublisherSettings.java:82-84 | No event is supported by an empty set, and an event is supported by the set that holds just it. |
| `CommitPublisher.BasePublisherSettings.GetServerVersion` | commit-status-publisher-server/src/main/java/jetbrains/buildServer/commitPublisher/BasePublisherSettings.java:110-131 | The in-place update of the cache field and the returned value and fetch flag are exactly those of `Lookup` on the old cache. |
| `CommitPublisher.BasePublisherSettings.constructor` | commit-status-publisher-server/src/main/java/jetbrains/buildServer/commitPublisher/BasePublisherSettings.java:46 | A new settings object starts with an empty cache. |
| `CommitPublisher.DefaultRetrieveServerVersion` | commit-status-publisher-server/src/main/java/jetbrains/buildServer/commitPublisher/BasePublisherSettings.java:133-136 | The base class's hook never throws and always returns null. |
| `ServerVersionProperties.ExpiryBoundary` | commit-status-publisher-server/src/main/java/jetbrains/buildServer/commitPublisher/BasePublisherSettings.java:139-155 | The expiration time is 86 400 000 ms. An entry aged exactly that long is still fresh, and one a millisecond older is obsolete. |
| `ServerVersionProperties.FreshHit` | commit-status-publisher-server/src/main/java/jetbrains/buildServer/commitPublisher/BasePublisherSettings.java:111-113 | A fresh entry's version is returned without asking the server, and the cache is unchanged. |
| `ServerVersionProperties.RetrievedVersionStored` | commit-status-publisher-server/src/main/java/jetbrains/buildServer/commitPublisher/BasePublisherSettings.java:125-128 | Missing or obsolete entry, and the server returns `v`: the entry becomes `(v, now)` and `v` is returned. |
| `ServerVersionProperties.FailureRenewsEntry` | commit-status-publisher-server/src/main/java/jetbrains/buildServer/commitPublisher/BasePublisherSettings.java:117-121 | Obsolete entry, and the retrieval throws: the old version is returned and re-stamped with `now`. Any following call within a day of `now` gets it from the cache without asking the server. |
| `ServerVersionProperties.FailureWithoutEntry` | commit-status-publisher-server/src/main/java/jetbrains/buildServer/commitPublisher/BasePublisherSettings.java:117-123 | No entry, and the retrieval throws: null is returned, no entry is created, and the next call asks the server again. |
| `ServerVersionProperties.NullRetrievalKeepsCache` | commit-status-publisher-server/src/main/java/jetbrains/buildServer/commitPublisher/BasePublisherSettings.java:125-130 | Missing or obsolete entry, and the server returns null: null is returned and the cache is unchanged. A stale entry is not renewed, so the next call (not earlier in time) asks the server again. |
| `ServerVersionProperties.Replay` | commit-status-publisher-server/src/main/java/jetbrains/buildServer/commitPublisher/BasePublisherSettings.java:110-131 | A sequence of calls yields one step per call, and no URL ever leaves the cache. |
| `ServerVersionProperties.OtherUrlsLeaveEntry` | commit-status-publisher-server/src/main/java/jetbrains/buildServer/commitPublisher/BasePublisherSettings.java:111-127 | Any sequence of calls for other URLs leaves `url`'s entry, or its absence, exactly as it was. |
| `ServerVersionProperties.FreshEntryServed` | commit-status-publisher-server/src/main/java/jetbrains/buildServer/commitPublisher/BasePublisherSettings.java:111-113 | While an entry is fresh, every call for its URL returns the cached version without asking the server, whatever the server would answer and whatever happens to other URLs. The entry itself is unchanged. |
| `ServerVersionProperties.RetrievedVersionServedForADay` | commit-status-publisher-server/src/main/java/jetbrains/buildServer/commitPublisher/BasePublisherSettings.java:111-128 | A version retrieved at `t0` is returned without asking the server by any call for that URL at `t1` with `t1 - t0` at most one day, after any calls made within that day. |
| `ServerVersionProperties.DefaultRetrievalNeverCaches` | commit-status-publisher-server/src/main/java/jetbrains/buildServer/commitPublisher/BasePublisherSettings.java:133-136 | With the base class's hook, no call changes the cache. Each result is either null or the version already cached for the URL. |
| `ServerVersionProperties.DefaultRetrievalAlwaysNull` | commit-status-publisher-server/src/main/java/jetbrains/buildServer/commitPublisher/BasePublisherSettings.java:133-136 | With the base class's hook and a new object, the cache stays empty and every call returns null. |
| `ServerVersionProperties.NoInventedVersions` | commit-status-publisher-server/src/main/java/jetbrains/buildServer/commitPublisher/BasePublisherSettings.java:116-128 | Every version returned, or cached after a sequence of calls, was cached at the start or returned by the server during the calls. |
| `ServerVersionProperties.OneDayScenario` | commit-status-publisher-server/src/main/java/jetbrains/buildServer/commitPublisher/BasePublisherSettings.java:110-131 | One URL over a day: retrieved at 0h; served from the cache at 1h; the server fails at 25h and the old version is returned; served from the cache at 26h. |
| `PublisherParameterProperties.CharsEqualIgnoreCaseIffSameLower` | commit-status-publisher-server/src/main/java/jetbrains/buildServer/commitPublisher/BasePublisherSettings.java:105 | With case folded on ASCII letters only, two characters match ignoring case exactly when their lower-case forms are equal. |
| `PublisherParameterProperties.EqualsIgnoreCaseIffSameLowerCase` | commit-status-publisher-server/src/main/java/jetbrains/buildServer/commitPublisher/BasePublisherSettings.java:105 | With case folded on ASCII letters only, `equalsIgnoreCase` holds exactly when the two strings lower-case to the same string. |
| `PublisherParameterProperties.BuildQueuedSupportedIff` | commit-status-publisher-server/src/main/java/jetbrains/buildServer/commitPublisher/BasePublisherSettings.java:104-106 | The "build queued" status is supported exactly when the build configuration defines the parameter and its value lower-cases to "true". |
| `PublisherParameterProperties.BuildQueuedExamples` | commit-status-publisher-server/src/main/java/jetbrains/buildServer/commitPublisher/BasePublisherSettings.java:104-106 | "TRUE" and "tRuE" are accepted. "yes", " true" and a missing parameter are not. |
| `PublisherParameterProperties.BaseSupportsNoEvent` | commit-status-publisher-server/src/main/java/jetbrains/buildServer/commitPublisher/BasePublisherSettings.java:82-84 | With the base class's `getSupportedEvents` (the empty set), no event is supported. |

## Left out

- Concurrency: the cache is a `ConcurrentHashMap` shared between threads. Two threads can both find an entry obsolete and both ask the server, and the last `put` wins. The model runs calls one at a time.
- Clock: `getServerVersion` reads the clock twice. It reads it once in `isObsolete`, and once when the new entry is built, after the retrieval. The model uses one `now` per call for both readings.
- Time arithmetic: times are unbounded integers. The 64-bit wrap-around of `now - timestamp` in Java is not modelled; it would need timestamps about 2^63 ms apart.
- `retrieveServerVersion` in subclasses: their network calls are not part of this model, and only the outcome of the call is an input. Unchecked exceptions other than `PublisherException` would leave `getServerVersion` in Java; the model has no outcome for them.
- A null `url`: the parameter is `@NotNull`, so the model's URL is always a string.
- `CommitPublisher.IsBuildQueuedSupported`: Java's `equalsIgnoreCase` uses Unicode case mappings, but the model folds only ASCII letters. For the literal "true", no other character maps onto its letters.
- `CommitPublisher.EqualsIgnoreCase`, `CommitPublisher.CharsEqualIgnoreCase`, `PublisherParameterProperties.CharsEqualIgnoreCaseIffSameLower` and `PublisherParameterProperties.EqualsIgnoreCaseIffSameLowerCase` fold only ASCII letters. For Java's Unicode-aware methods the stated equivalence fails: `"ı".equalsIgnoreCase("i")` holds, but the two lower-case forms differ.
- The `Event` type of `isEventSupported`: CommitStatusPublisher.java is not part of this model. Events are a type parameter, and the set a subclass's `getSupportedEvents` returns is an input.
- `testConnection`, `isTestConnectionSupported`, `trustStore`, `getOAuthConnections`, `describeParameters`, `getDefaultParameters`, `transformParameters`, `isEnabled`, `isPublishingForVcsRoot`: these are constants, exceptions or calls into the host framework, and they have no behaviour of this class to verify.
