/** The API base resolution of `frontend/lib/api.ts`. The environment is a map
    from variable name to value; a variable absent from it is `undefined`. */
module Api {
  import opened Common

  type Env = map<string, string>

  const PublicVar: string := "NEXT_PUBLIC_API_BASE_URL"
  const InternalVar: string := "API_INTERNAL_BASE_URL"
  const DefaultBase: string := "http://localhost:8000"

  /** JavaScript `a ?? b` over an environment lookup: the value whenever the
      variable is defined, even when it is empty. */
  function EnvOr(env: Env, name: string, fallback: string): (r: string)
    ensures name in env ==> r == env[name]
    ensures name !in env ==> r == fallback
  {
    if name in env then env[name] else fallback
  }

  /** `getPublicApiBaseUrl`. */
  function PublicApiBaseUrl(env: Env): (r: string)
    ensures PublicVar in env ==> r == env[PublicVar]
    ensures PublicVar !in env ==> r == DefaultBase
  {
    EnvOr(env, PublicVar, DefaultBase)
  }

  /** `getServerApiBaseUrl`: the internal base, else the public one. */
  function ServerApiBaseUrl(env: Env): (r: string)
    ensures InternalVar in env ==> r == env[InternalVar]
    ensures InternalVar !in env ==> r == PublicApiBaseUrl(env)
  {
    EnvOr(env, InternalVar, PublicApiBaseUrl(env))
  }

  /** With neither variable set both resolvers give the local default, and a
      variable set to the empty string is used as it is. */
  lemma BaseResolution(env: Env)
    ensures PublicVar !in env && InternalVar !in env ==>
              PublicApiBaseUrl(env) == DefaultBase && ServerApiBaseUrl(env) == DefaultBase
    ensures PublicVar in env && env[PublicVar] == "" ==> PublicApiBaseUrl(env) == ""
    ensures InternalVar in env && env[InternalVar] == "" ==> ServerApiBaseUrl(env) == ""
    ensures InternalVar !in env ==> ServerApiBaseUrl(env) == PublicApiBaseUrl(env)
  {
  }
}
