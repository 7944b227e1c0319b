/**
 * Reading the configured CI servers from the environment: entries
 * `JENKINS_BASE_URL_<n>`, `JENKINS_API_TOKEN_<n>` and `JENKINS_USERNAME_<n>`
 * for n = 1, 2, ... . The environment (after the `.env` file is loaded) is
 * given as a map.
 */
module EnvJenkinsLoader {
  import opened Wrappers
  import opened Text
  import opened JenkinsModel

  function UrlKey(index: nat): string { "JENKINS_BASE_URL_" + ShowNat(index) }
  function TokenKey(index: nat): string { "JENKINS_API_TOKEN_" + ShowNat(index) }
  function UserKey(index: nat): string { "JENKINS_USERNAME_" + ShowNat(index) }

  /** `os.getenv(name)` */
  function Getenv(env: map<string, string>, name: string): (r: Option<string>)
    ensures r.Some? <==> name in env
    ensures r.Some? ==> r.value == env[name]
  {
    if name in env then Some(env[name]) else None
  }

  /** The variable is set to a non-empty value (it is truthy). */
  predicate IsSet(env: map<string, string>, name: string) {
    name in env && env[name] != ""
  }

  /** All three variables of server `index` are set. */
  predicate Configured(env: map<string, string>, index: nat) {
    IsSet(env, UrlKey(index)) && IsSet(env, TokenKey(index)) && IsSet(env, UserKey(index))
  }

  /** The server record built for `index`: `Jenkins(base_url, api_token, username)`. */
  function InstanceAt(env: map<string, string>, index: nat): Jenkins
    requires Configured(env, index)
  {
    Jenkins(env[UrlKey(index)], env[TokenKey(index)], env[UserKey(index)])
  }

  lemma UrlKeyInjective(i: nat, j: nat)
    requires UrlKey(i) == UrlKey(j)
    ensures i == j
  {
    var n := |"JENKINS_BASE_URL_"|;
    assert ShowNat(i) == UrlKey(i)[n..];
    assert ShowNat(j) == UrlKey(j)[n..];
    ShowNatInjective(i, j);
  }

  /**
   * `load_jenkins_instances`: entry i is built from the variables numbered
   * i + 1, and the scan stops at the first number with a variable missing or
   * empty, so nothing configured after a gap is returned.
   */
  method LoadJenkinsInstances(env: map<string, string>) returns (output: seq<Jenkins>)
    ensures forall i :: 0 <= i < |output| ==> Configured(env, i + 1) && output[i] == InstanceAt(env, i + 1)
    ensures !Configured(env, |output| + 1)
    ensures forall g: nat :: 1 <= g && !Configured(env, g) ==> |output| < g
    ensures forall i :: 0 <= i < |output| ==>
      output[i].baseUrl != "" && output[i].apiToken != "" && output[i].username != ""
    ensures output == [] <==> !Configured(env, 1)
  {
    output := [];
    var index := 1;
    ghost var seen: set<string> := {};
    while true
      invariant index == |output| + 1
      invariant forall i :: 0 <= i < |output| ==> Configured(env, i + 1) && output[i] == InstanceAt(env, i + 1)
      invariant forall g: nat :: 1 <= g <= |output| ==> Configured(env, g)
      invariant seen <= env.Keys
      invariant forall s :: s in seen ==> exists j: nat :: 1 <= j < index && s == UrlKey(j)
      decreases env.Keys - seen
    {
      var baseUrl := Getenv(env, UrlKey(index));
      var apiToken := Getenv(env, TokenKey(index));
      var username := Getenv(env, UserKey(index));
      if baseUrl.None? || baseUrl.value == "" || apiToken.None? || apiToken.value == ""
        || username.None? || username.value == "" {
        break;
      }
      assert Configured(env, index);
      output := output + [Jenkins(baseUrl.value, apiToken.value, username.value)];
      assert output[index - 1] == InstanceAt(env, index);
      if UrlKey(index) in seen {
        var j: nat :| 1 <= j < index && UrlKey(index) == UrlKey(j);
        UrlKeyInjective(index, j);
      }
      seen := seen + {UrlKey(index)};
      index := index + 1;
    }
  }
}
