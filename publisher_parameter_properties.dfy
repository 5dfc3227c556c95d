/**
 * Properties of the two parameter predicates of `BasePublisherSettings`:
 * `isBuildQueuedSupported` and `isEventSupported`.
 */
module PublisherParameterProperties {
  import opened Wrappers
  import opened CommitPublisher

  /** `s` with every ASCII upper-case letter lowered. */
  function LowerCase(s: string): string {
    seq(|s|, i requires 0 <= i < |s| => ToLower(s[i]))
  }

  /** Two characters match ignoring case exactly when their lower-case forms are equal. */
  lemma CharsEqualIgnoreCaseIffSameLower(c1: char, c2: char)
    ensures CharsEqualIgnoreCase(c1, c2) <==> ToLower(c1) == ToLower(c2)
  {
  }

  /** `equalsIgnoreCase` holds exactly when both strings lower-case to the same string. */
  lemma EqualsIgnoreCaseIffSameLowerCase(a: string, b: string)
    ensures EqualsIgnoreCase(a, b) <==> LowerCase(a) == LowerCase(b)
  {
    if EqualsIgnoreCase(a, b) {
      forall i | 0 <= i < |a| ensures LowerCase(a)[i] == LowerCase(b)[i] {
        CharsEqualIgnoreCaseIffSameLower(a[i], b[i]);
      }
    }
    if LowerCase(a) == LowerCase(b) {
      forall i | 0 <= i < |a| ensures CharsEqualIgnoreCase(a[i], b[i]) {
        assert LowerCase(a)[i] == LowerCase(b)[i];
        CharsEqualIgnoreCaseIffSameLower(a[i], b[i]);
      }
    }
  }

  /**
   * The "build queued" status is published exactly when the build
   * configuration defines the parameter and its value lower-cases to "true".
   */
  lemma BuildQueuedSupportedIff(buildTypeParameters: map<string, string>)
    ensures IsBuildQueuedSupported(buildTypeParameters) <==>
              && PublishBuildQueuedStatusParam in buildTypeParameters
              && LowerCase(buildTypeParameters[PublishBuildQueuedStatusParam]) == "true"
  {
    if PublishBuildQueuedStatusParam in buildTypeParameters {
      var value := buildTypeParameters[PublishBuildQueuedStatusParam];
      EqualsIgnoreCaseIffSameLowerCase("true", value);
      assert LowerCase("true") == "true";
    }
  }

  /** Any mix of cases of "true" is accepted; other values and a missing parameter are not. */
  lemma BuildQueuedExamples()
    ensures IsBuildQueuedSupported(map[PublishBuildQueuedStatusParam := "TRUE"])
    ensures IsBuildQueuedSupported(map[PublishBuildQueuedStatusParam := "tRuE"])
    ensures !IsBuildQueuedSupported(map[PublishBuildQueuedStatusParam := "yes"])
    ensures !IsBuildQueuedSupported(map[PublishBuildQueuedStatusParam := " true"])
    ensures !IsBuildQueuedSupported(map["true" := "true"])
  {
    BuildQueuedSupportedIff(map[PublishBuildQueuedStatusParam := "TRUE"]);
    BuildQueuedSupportedIff(map[PublishBuildQueuedStatusParam := "tRuE"]);
  }

  /** The base class supports no event, whatever the build configuration. */
  lemma BaseSupportsNoEvent<Event>(event: Event)
    ensures !IsEventSupported(event, DefaultSupportedEvents())
  {
  }
}
