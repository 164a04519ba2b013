/**
 * The automation server's own maintenance routes: a liveness check, a
 * restart, and releasing the memory held for a run token. Each call is one
 * GET and reports whether the answer was 2xx.
 */
module ServerManager {
  import opened Types
  import opened Http

  /** One exchange with the server: what was sent and what the caller gets. */
  datatype Call<T> = Call(request: Request, outcome: Result<T, Error>)

  const RestartRoute: string := "restart-tw"
  const DisposeRoute: string := "despose?token="

  /** The service holds the normalised server URL, fixed at construction. */
  datatype ServerManager = ServerManager(serverURL: string) {

    /** `new ServerManager(config)`: the base URL always ends in `/`. */
    static function New(config: ServerConfig): (m: ServerManager)
      ensures EndsWithSlash(m.serverURL)
      ensures config.url <= m.serverURL && |m.serverURL| <= |config.url| + 1
      ensures EndsWithSlash(config.url) ==> m.serverURL == config.url
    {
      ServerManager(NormalizeUrl(config.url))
    }

    /**
     * `checkServer`: GETs the base URL itself; a 2xx answer means up, any
     * other status means down, a rejected fetch propagates.
     */
    function CheckServer(response: Response): (c: Call<bool>)
      ensures c.request.Get? && c.request.url == serverURL
      ensures c.outcome.Failure? <==> response.TransportFail?
      ensures c.outcome.Success? ==> (c.outcome.value <==> response.Ok?)
    {
      Call(Get(serverURL), OkFlag(response))
    }

    /** `restartTWServer`: one GET of `restart-tw`, no retry. */
    function RestartTWServer(response: Response): (c: Call<bool>)
      ensures c.request.Get? && c.request.url == serverURL + RestartRoute
      ensures c.outcome.Failure? <==> response.TransportFail?
      ensures c.outcome.Success? ==> (c.outcome.value <==> response.Ok?)
    {
      Call(Get(serverURL + RestartRoute), OkFlag(response))
    }

    /** `disposeMemory(token)`: one GET of `despose?token=<token>`. */
    function DisposeMemory(token: string, response: Response): (c: Call<bool>)
      ensures c.request.Get? && c.request.url == serverURL + DisposeRoute + token
      ensures c.outcome.Failure? <==> response.TransportFail?
      ensures c.outcome.Success? ==> (c.outcome.value <==> response.Ok?)
    {
      Call(Get(serverURL + DisposeRoute + token), OkFlag(response))
    }
  }

  /**
   * Every route hangs off the configured URL with exactly one `/` between
   * them, whether or not the configuration ended in one.
   */
  lemma RoutesFollowConfiguredUrl(config: ServerConfig, token: string, response: Response)
    ensures var m := ServerManager.New(config);
      var sep := if EndsWithSlash(config.url) then "" else "/";
      && m.CheckServer(response).request.url == config.url + sep
      && m.RestartTWServer(response).request.url == config.url + sep + "restart-tw"
      && m.DisposeMemory(token, response).request.url == config.url + sep + "despose?token=" + token
  {
    var m := ServerManager.New(config);
    RouteAfterBase(config.url, RestartRoute);
    RouteAfterBase(config.url, DisposeRoute + token);
    assert m.serverURL + DisposeRoute + token == m.serverURL + (DisposeRoute + token);
  }

  /** A server built from an already normalised URL is the same server. */
  lemma NewIdempotent(config: ServerConfig)
    ensures ServerManager.New(ServerConfig(ServerManager.New(config).serverURL, config.baseUrl))
         == ServerManager.New(config)
  {
    NormalizeUrlIdempotent(config.url);
  }

  /** The token of a dispose request can be read back from its URL. */
  lemma DisposeTokenRecoverable(m: ServerManager, token: string, response: Response)
    ensures var url := m.DisposeMemory(token, response).request.url;
      url[|m.serverURL| + |DisposeRoute|..] == token
  {
    var url := m.DisposeMemory(token, response).request.url;
    assert url == m.serverURL + DisposeRoute + token;
  }

  /** The three routes never collide, whatever the token. */
  lemma RoutesDistinct(m: ServerManager, token: string, response: Response)
    ensures var check := m.CheckServer(response).request.url;
      var restart := m.RestartTWServer(response).request.url;
      var dispose := m.DisposeMemory(token, response).request.url;
      check != restart && check != dispose && restart != dispose
  {
    var restart := m.RestartTWServer(response).request.url;
    var dispose := m.DisposeMemory(token, response).request.url;
    assert restart[|m.serverURL|] == 'r';
    assert dispose[|m.serverURL|] == 'd';
  }
}
