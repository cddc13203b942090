/**
 * Base-URL selection and endpoint joining (warframe-frontend/src/lib/api.ts).
 *
 * The runtime the code runs in is a parameter: whether a browser `window`
 * exists, and the two environment variables the server side consults.
 */
module Api {
  import opened Wrappers
  import opened Text

  datatype Environment = Environment(
    hasWindow: bool,                  // `typeof window !== 'undefined'`
    nextPublicApiUrl: Option<string>, // process.env.NEXT_PUBLIC_API_URL
    backendUrl: Option<string>        // process.env.BACKEND_URL
  )

  /** The relative path served by the Next.js rewrite proxy. */
  const ProxyBase: string := "/api"

  /** `getApiUrl()`: the base every API call is built on. */
  function GetApiUrl(env: Environment): (base: string)
    ensures env.hasWindow ==> base == ProxyBase
    ensures !env.hasWindow && Present(env.nextPublicApiUrl) ==> base == env.nextPublicApiUrl.value
    ensures !env.hasWindow && !Present(env.nextPublicApiUrl) && Present(env.backendUrl) ==> base == env.backendUrl.value
    ensures !env.hasWindow && !Present(env.nextPublicApiUrl) && !Present(env.backendUrl) ==> base == ProxyBase
    ensures base != ""
  {
    if env.hasWindow then ProxyBase
    else if Present(env.nextPublicApiUrl) then env.nextPublicApiUrl.value
    else if Present(env.backendUrl) then env.backendUrl.value
    else ProxyBase
  }

  /** In the browser the environment is never consulted. */
  lemma BrowserIgnoresEnvironment(e1: Environment, e2: Environment)
    requires e1.hasWindow && e2.hasWindow
    ensures GetApiUrl(e1) == GetApiUrl(e2) == "/api"
  {
  }

  /** `endpoint` with at most one leading slash removed. */
  function CleanEndpoint(endpoint: string): (clean: string)
    ensures endpoint == (if StartsWith(endpoint, "/") then "/" else "") + clean
  {
    if StartsWith(endpoint, "/") then endpoint[1..] else endpoint
  }

  /** The template `${baseUrl}/${cleanEndpoint}`. */
  function JoinEndpoint(base: string, endpoint: string): (url: string)
    ensures StartsWith(url, base + "/")
    ensures StartsWith(endpoint, "/") ==> url == base + endpoint
    ensures !StartsWith(endpoint, "/") ==> url == base + "/" + endpoint
  {
    var url := base + "/" + CleanEndpoint(endpoint);
    assert StartsWith(endpoint, "/") ==> endpoint == "/" + endpoint[1..];
    url
  }

  /** `apiUrl(endpoint)`. */
  function ApiUrl(env: Environment, endpoint: string): (url: string)
    ensures url == GetApiUrl(env) + "/" + CleanEndpoint(endpoint)
    ensures StartsWith(url, GetApiUrl(env) + "/")
    ensures env.hasWindow ==> StartsWith(url, "/api/")
  {
    JoinEndpoint(GetApiUrl(env), endpoint)
  }

  /** A leading slash on the endpoint makes no difference. */
  lemma LeadingSlashIrrelevant(base: string, endpoint: string)
    requires !StartsWith(endpoint, "/")
    ensures JoinEndpoint(base, "/" + endpoint) == JoinEndpoint(base, endpoint)
  {
    assert ("/" + endpoint)[1..] == endpoint;
  }

  /** Only one slash is removed: an endpoint starting `//` still gives `//` after the base. */
  lemma OnlyOneSlashStripped(base: string, endpoint: string)
    requires StartsWith(endpoint, "//")
    ensures JoinEndpoint(base, endpoint)[|base|..|base| + 2] == "//"
  {
    var url := JoinEndpoint(base, endpoint);
    assert url == base + endpoint;
    assert url[|base|..|base| + 2] == endpoint[..2];
  }

  /** The endpoint can be read back from the URL, after the base and the separator. */
  lemma {:induction false} EndpointRecoverable(base: string, endpoint: string)
    ensures JoinEndpoint(base, endpoint)[..|base|] == base
    ensures JoinEndpoint(base, endpoint)[|base| + 1..] == CleanEndpoint(endpoint)
  {
    var url := base + "/" + CleanEndpoint(endpoint);
    assert JoinEndpoint(base, endpoint) == url;
    assert url[|base| + 1..] == CleanEndpoint(endpoint);
  }
}
