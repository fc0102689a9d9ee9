/**
 * The configuration queries of backend/internal/config/config.go: the
 * duplicate-code check run at load time, the enabled-source filter, the
 * lookup by source code and the password whitelist check.
 */
module Config {
  import opened Wrappers
  import opened Seqs

  /** One configured content source. */
  datatype SourceItem = SourceItem(code: string, name: string, url: string, enabled: bool, adult: bool)

  /** The password whitelist, consulted only when `enabled` is set. */
  datatype AuthConfig = AuthConfig(enabled: bool, passwords: seq<string>)

  /** The parts of the loaded configuration that the core reads. */
  datatype Config = Config(auth: AuthConfig, sources: seq<SourceItem>)

  /** No two sources share a code. */
  predicate CodesDistinct(sources: seq<SourceItem>) {
    forall i, j :: 0 <= i < j < |sources| ==> sources[i].code != sources[j].code
  }

  /** Position j is the first one whose code repeats an earlier source's code. */
  ghost predicate IsFirstDuplicate(sources: seq<SourceItem>, j: int) {
    && 0 <= j < |sources|
    && CodesDistinct(sources[..j])
    && exists i :: 0 <= i < j && sources[i].code == sources[j].code
  }

  /** The error message `validate` reports for a repeated code. */
  function DuplicateCodeError(code: string): string {
    "duplicate source code: " + code
  }

  /**
   * validate: fails exactly when two sources share a code, naming the code
   * of the first source that repeats an earlier one.
   */
  method Validate(c: Config) returns (err: Option<string>)
    ensures err.None? <==> CodesDistinct(c.sources)
    ensures err.Some? ==> exists j :: IsFirstDuplicate(c.sources, j) && err.value == DuplicateCodeError(c.sources[j].code)
  {
    // Go keeps a map[string]bool whose entries are all true: a set of codes.
    var seen: set<string> := {};
    for j := 0 to |c.sources|
      invariant seen == set i | 0 <= i < j :: c.sources[i].code
      invariant CodesDistinct(c.sources[..j])
    {
      var s := c.sources[j];
      if s.code in seen {
        assert IsFirstDuplicate(c.sources, j);
        return Some(DuplicateCodeError(s.code));
      }
      seen := seen + {s.code};
    }
    assert c.sources[..|c.sources|] == c.sources;
    return None;
  }

  function IsEnabled(s: SourceItem): bool {
    s.enabled
  }

  /** GetEnabledSources: the enabled sources, in configuration order. */
  method GetEnabledSources(c: Config) returns (enabled: seq<SourceItem>)
    ensures enabled == Filter(c.sources, IsEnabled)
  {
    enabled := [];
    for i := 0 to |c.sources|
      invariant enabled == Filter(c.sources[..i], IsEnabled)
    {
      var s := c.sources[i];
      FilterAppend(c.sources[..i], [s], IsEnabled);
      assert c.sources[..i + 1] == c.sources[..i] + [s];
      if s.enabled {
        enabled := enabled + [s];
      }
    }
    assert c.sources[..|c.sources|] == c.sources;
  }

  /**
   * The enabled sources are exactly the sources with the enabled flag, and
   * they keep their configuration order.
   */
  lemma EnabledSourcesExactly(sources: seq<SourceItem>)
    ensures forall s :: s in Filter(sources, IsEnabled) <==> s in sources && s.enabled
    ensures IsSubsequence(Filter(sources, IsEnabled), sources)
  {
    FilterIsSubsequence(sources, IsEnabled);
    FilterMembers(sources, IsEnabled);
  }

  /** The position of the first source with the given code, or |sources| when there is none. */
  function FirstWithCode(sources: seq<SourceItem>, code: string): (i: nat)
    ensures i <= |sources|
    ensures i < |sources| ==> sources[i].code == code
    ensures forall j :: 0 <= j < i ==> sources[j].code != code
  {
    if sources == [] then 0
    else if sources[0].code == code then 0
    else 1 + FirstWithCode(sources[1..], code)
  }

  /**
   * GetSourceByCode: the first source with the given code, or None exactly
   * when no source has that code.
   */
  method GetSourceByCode(c: Config, code: string) returns (src: Option<SourceItem>)
    ensures src.None? <==> forall j :: 0 <= j < |c.sources| ==> c.sources[j].code != code
    ensures src.Some? ==> src.value.code == code && src.value == c.sources[FirstWithCode(c.sources, code)]
  {
    for i := 0 to |c.sources|
      invariant forall j :: 0 <= j < i ==> c.sources[j].code != code
    {
      if c.sources[i].code == code {
        return Some(c.sources[i]);
      }
    }
    return None;
  }

  /** In a configuration that passed `validate`, the lookup by code finds the one source with that code. */
  lemma LookupUnique(sources: seq<SourceItem>, k: int)
    requires CodesDistinct(sources)
    requires 0 <= k < |sources|
    ensures FirstWithCode(sources, sources[k].code) == k
  {
  }

  /**
   * ValidatePassword: every password passes while authentication is off;
   * otherwise exactly the whitelisted ones pass (none, if the list is empty).
   */
  method ValidatePassword(c: Config, password: string) returns (ok: bool)
    ensures !c.auth.enabled ==> ok
    ensures c.auth.enabled ==> (ok <==> password in c.auth.passwords)
  {
    if !c.auth.enabled {
      return true;
    }
    for i := 0 to |c.auth.passwords|
      invariant password !in c.auth.passwords[..i]
    {
      if c.auth.passwords[i] == password {
        return true;
      }
    }
    assert c.auth.passwords[..|c.auth.passwords|] == c.auth.passwords;
    return false;
  }
}
