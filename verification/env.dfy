/**
 Per-registry scoping of the environment: for six credential and npm
 configuration variables, a variable prefixed with the upper-cased registry
 name overrides the unprefixed one in the copy handed to that registry.
 */
module EnvScoping {
  import opened Optional

  type Env = map<string, string>

  /** The variables a registry may override, in the order the source visits them. */
  const CredentialVars: seq<string> :=
    ["NPM_TOKEN", "NPM_USERNAME", "NPM_PASSWORD", "NPM_EMAIL",
     "NPM_CONFIG_REGISTRY", "NPM_CONFIG_USERCONFIG"]

  /** ASCII upper-casing of one character. */
  function UpperChar(c: char): (r: char)
    ensures 'a' <= c <= 'z' ==> 'A' <= r <= 'Z' && r as int == c as int - 32
    ensures !('a' <= c <= 'z') ==> r == c
  {
    if 'a' <= c <= 'z' then (c as int - 'a' as int + 'A' as int) as char else c
  }

  /** `s.toUpperCase()`, restricted to ASCII letters. */
  function Upper(s: string): (r: string)
    ensures |r| == |s|
    ensures forall i :: 0 <= i < |s| ==> r[i] == UpperChar(s[i])
  {
    if s == [] then [] else [UpperChar(s[0])] + Upper(s[1..])
  }

  /** The name of the variable that overrides `v` for `registry`. */
  function OverrideKey(registry: string, v: string): string
  {
    Upper(registry) + "_" + v
  }

  /** The registry's own value for `v`, when the ambient environment holds a
      non-empty one (an empty string is falsy and overrides nothing). */
  function Override(env: Env, registry: string, v: string): (r: Option<string>)
    ensures r.Some? <==> OverrideKey(registry, v) in env && env[OverrideKey(registry, v)] != ""
    ensures r.Some? ==> r.value == env[OverrideKey(registry, v)]
  {
    var key := OverrideKey(registry, v);
    if key in env && env[key] != "" then Some(env[key]) else None
  }

  /** The ambient environment after copying, for each variable of `vars` in
      turn, the registry's non-empty override over it. Overrides are always
      read from the ambient environment, never from the copy. */
  function ScopedOver(env: Env, registry: string, vars: seq<string>): Env
  {
    if vars == [] then env
    else
      var child := ScopedOver(env, registry, vars[..|vars| - 1]);
      var v := vars[|vars| - 1];
      match Override(env, registry, v)
      case Some(value) => child[v := value]
      case None => child
  }

  /** The environment handed to `registry`'s callback. */
  function ScopedEnv(env: Env, registry: string): Env
  {
    ScopedOver(env, registry, CredentialVars)
  }

  /** Whatever the list of variables: a listed variable with a non-empty
      override holds it, a listed variable without one keeps its ambient value
      or stays absent, and an unlisted variable is exactly the ambient one. */
  lemma {:induction false} ScopedOverLaws(env: Env, registry: string, vars: seq<string>)
    ensures forall v :: v in vars && Override(env, registry, v).Some? ==>
      v in ScopedOver(env, registry, vars) && ScopedOver(env, registry, vars)[v] == Override(env, registry, v).value
    ensures forall v :: (v !in vars || Override(env, registry, v).None?) ==>
      (v in ScopedOver(env, registry, vars) <==> v in env)
      && (v in env ==> ScopedOver(env, registry, vars)[v] == env[v])
  {
    if vars != [] {
      var init := vars[..|vars| - 1];
      ScopedOverLaws(env, registry, init);
      assert forall v :: v in vars <==> v in init || v == vars[|vars| - 1];
    }
  }

  /** In the scoped environment an overridden credential variable holds the
      override; a credential variable without a non-empty override keeps its
      ambient value, or stays absent; every other variable, the prefixed ones
      included, is exactly the ambient one. */
  lemma ScopedEnvOverrides(env: Env, registry: string)
    ensures forall v :: v in CredentialVars && Override(env, registry, v).Some? ==>
      v in ScopedEnv(env, registry) && ScopedEnv(env, registry)[v] == Override(env, registry, v).value
    ensures forall v :: v in CredentialVars && Override(env, registry, v).None? ==>
      (v in ScopedEnv(env, registry) <==> v in env) && (v in env ==> ScopedEnv(env, registry)[v] == env[v])
    ensures forall k :: k !in CredentialVars ==>
      (k in ScopedEnv(env, registry) <==> k in env) && (k in env ==> ScopedEnv(env, registry)[k] == env[k])
  {
    ScopedOverLaws(env, registry, CredentialVars);
  }

  /** The source's loop: copy the ambient environment, then for each credential
      variable in turn copy a non-empty prefixed value over it. It computes the
      scoped environment. */
  method ScopeEnv(env: Env, registry: string) returns (child: Env)
    ensures child == ScopedEnv(env, registry)
  {
    var prefix := Upper(registry) + "_";
    child := env;
    var i := 0;
    while i < |CredentialVars|
      invariant 0 <= i <= |CredentialVars|
      invariant child == ScopedOver(env, registry, CredentialVars[..i])
    {
      var v := CredentialVars[i];
      var key := prefix + v;
      assert key == OverrideKey(registry, v);
      assert CredentialVars[..i + 1][..i] == CredentialVars[..i];
      if key in env && env[key] != "" {
        child := child[v := env[key]];
      }
      i := i + 1;
    }
    assert CredentialVars[..i] == CredentialVars;
  }

  /** The environment of the two examples below: a shared token and a
      GitHub-specific one. */
  const ExampleEnv: Env := map["NPM_TOKEN" := "shared", "GITHUB_NPM_TOKEN" := "gh-secret"]

  lemma ExampleOverrideGithub(v: string)
    requires v in CredentialVars
    ensures Override(ExampleEnv, "github", v) == (if v == "NPM_TOKEN" then Some("gh-secret") else None)
  {
    assert Upper("github") == "GITHUB";
    var key := OverrideKey("github", v);
    assert key == "GITHUB_" + v;
    if v == "NPM_TOKEN" {
      assert key == "GITHUB_NPM_TOKEN";
    } else {
      assert key[0] == 'G';
      assert key[7..] == v;
      assert "GITHUB_NPM_TOKEN"[7..] == "NPM_TOKEN";
      assert key !in ExampleEnv;
    }
  }

  lemma ExampleOverridePublic(v: string)
    ensures Override(ExampleEnv, "public", v) == None
  {
    assert Upper("public") == "PUBLIC";
    var key := OverrideKey("public", v);
    assert key == "PUBLIC_" + v;
    assert key[0] == 'P';
    assert key !in ExampleEnv;
  }

  /** No credential variable is itself a prefixed override. */
  lemma GithubTokenNotCredential()
    ensures "GITHUB_NPM_TOKEN" !in CredentialVars
  {
    forall i | 0 <= i < |CredentialVars| ensures CredentialVars[i] != "GITHUB_NPM_TOKEN" {
      assert CredentialVars[i][0] == 'N';
    }
  }

  /** For `github`, only the token has an override in the example environment. */
  lemma GithubOverrides(env: Env)
    requires env == ExampleEnv
    ensures forall v :: v in CredentialVars ==>
      Override(env, "github", v) == (if v == "NPM_TOKEN" then Some("gh-secret") else None)
  {
    forall v | v in CredentialVars
      ensures Override(env, "github", v) == (if v == "NPM_TOKEN" then Some("gh-secret") else None)
    {
      ExampleOverrideGithub(v);
    }
  }

  /** The scoping of that environment for `github`: its own token replaces the
      shared one, and it still sees the prefixed variable. */
  lemma GithubGetsItsToken(env: Env)
    requires env == ExampleEnv
    ensures ScopedEnv(env, "github") == map["NPM_TOKEN" := "gh-secret", "GITHUB_NPM_TOKEN" := "gh-secret"]
  {
    var scoped := ScopedEnv(env, "github");
    ScopedEnvOverrides(env, "github");
    GithubOverrides(env);
    GithubTokenNotCredential();
    assert CredentialVars[0] == "NPM_TOKEN";
    ExampleOverrideGithub("NPM_TOKEN");
    assert scoped["NPM_TOKEN"] == "gh-secret";
    assert scoped["GITHUB_NPM_TOKEN"] == "gh-secret";
    assert scoped.Keys == env.Keys;
  }

  /** The scoping of that environment for `public`: no override applies, so it sees
      the ambient environment unchanged, GitHub's token included. */
  lemma PublicKeepsSharedToken(env: Env)
    requires env == ExampleEnv
    ensures ScopedEnv(env, "public") == env
  {
    ScopedEnvOverrides(env, "public");
    forall v | v in CredentialVars ensures Override(env, "public", v) == None {
      ExampleOverridePublic(v);
    }
    assert ScopedEnv(env, "public").Keys == env.Keys;
  }
}
