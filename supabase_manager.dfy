/** `SupabaseManager`: the process-wide cache of one Supabase client, rebuilt
    only when the url or the key changes. Building a client is foreign code;
    here a client is an opaque handle that records what it was built with,
    and a counter stands for the identity of each newly built client. */
module SupabaseClients {
  import opened Wrappers
  import opened KotlinStd

  /** The timeouts a client is built with, in milliseconds: those of the
      Android HTTP engine and those of the `HttpTimeout` plugin. */
  datatype TimeoutConfig = TimeoutConfig(
    engineConnectTimeout: int,
    engineSocketTimeout: int,
    requestTimeoutMillis: int,
    connectTimeoutMillis: int,
    socketTimeoutMillis: int)

  /** The extended timeouts for local networks: 30 s to connect and per
      socket read, 60 s per request. */
  const ExtendedTimeouts: TimeoutConfig := TimeoutConfig(30_000, 30_000, 60_000, 30_000, 30_000)

  /** A built client: `id` tells apart clients built at different times. */
  datatype ClientHandle = ClientHandle(id: nat, url: string, key: string, timeouts: TimeoutConfig)

  class SupabaseManager {
    var currentClient: Option<ClientHandle>
    var currentUrl: string
    var currentKey: string
    /** How many clients have been built: the next one's id. */
    var built: nat

    /** With no client the cached credentials are empty; a cached client was
        built earlier, with the cached credentials and the extended
        timeouts. */
    ghost predicate Valid()
      reads this
    {
      match currentClient
      case None => currentUrl == "" && currentKey == ""
      case Some(c) =>
        c.id < built && c.url == currentUrl && c.key == currentKey && c.timeouts == ExtendedTimeouts
    }

    constructor ()
      ensures Valid()
      ensures currentClient == None && currentUrl == "" && currentKey == "" && built == 0
    {
      currentClient := None;
      currentUrl := "";
      currentKey := "";
      built := 0;
    }

    /** `getClient(url, key)`, given what building a client would do
        (`build`, consulted only on a cache miss). A cached client for the same
        url and key is returned with nothing changed. Otherwise a successful
        build yields a new client with the extended timeouts, which replaces
        the cached one under exactly these credentials; a failing build
        throws before any field is assigned, so the cache stays as it was. */
    method GetClient(url: string, key: string, build: Outcome<()>) returns (client: Outcome<ClientHandle>)
      requires Valid()
      modifies this
      ensures Valid()
      ensures old(currentClient).Some? && old(currentUrl) == url && old(currentKey) == key ==>
        && client == Success(old(currentClient).value)
        && currentClient == old(currentClient) && currentUrl == url && currentKey == key && built == old(built)
      ensures !(old(currentClient).Some? && old(currentUrl) == url && old(currentKey) == key) && build.Success? ==>
        && client == Success(ClientHandle(old(built), url, key, ExtendedTimeouts))
        && currentClient == Some(client.value) && currentUrl == url && currentKey == key
        && built == old(built) + 1
      ensures !(old(currentClient).Some? && old(currentUrl) == url && old(currentKey) == key) && build.Failure? ==>
        && client == Failure(build.message)
        && currentClient == old(currentClient) && currentUrl == old(currentUrl) && currentKey == old(currentKey)
        && built == old(built)
      ensures client.Success? ==>
        && currentClient == Some(client.value) && client.value.url == url && client.value.key == key
        && client.value.timeouts == TimeoutConfig(30_000, 30_000, 60_000, 30_000, 30_000)
    {
      if currentClient.Some? && currentUrl == url && currentKey == key {
        return Success(currentClient.value);
      }
      if build.Failure? {
        return Failure(build.message);
      }
      var c := ClientHandle(built, url, key, ExtendedTimeouts);
      built := built + 1;
      currentClient := Some(c);
      currentUrl := url;
      currentKey := key;
      client := Success(c);
    }

    /** `isConfigured()`: both cached credentials are non-blank; then a
        client is cached. */
    method IsConfigured() returns (configured: bool)
      requires Valid()
      ensures configured == (!IsBlank(currentUrl) && !IsBlank(currentKey))
      ensures configured ==> currentClient.Some?
    {
      configured := !IsBlank(currentUrl) && !IsBlank(currentKey);
    }

    /** `getCurrentClient()`: the cache, read without building. */
    method GetCurrentClient() returns (client: Option<ClientHandle>)
      ensures client == currentClient
    {
      client := currentClient;
    }

    /** `clearClient()`: drops the client and forgets the credentials. */
    method ClearClient()
      requires Valid()
      modifies this`currentClient, this`currentUrl, this`currentKey
      ensures Valid()
      ensures currentClient == None && currentUrl == "" && currentKey == ""
    {
      currentClient := None;
      currentUrl := "";
      currentKey := "";
    }
  }

  /** A run of the cache, with every build succeeding except perhaps the
      one for a blank url: asking twice with the same credentials yields the
      same client; after `clearClient` nothing is configured and the same
      credentials get a different, newly built client. A client built for a
      blank url leaves the cache unconfigured; if that build fails, the
      previous client stays cached and configured as before. */
  method CacheLifecycle(url: string, key: string, blankBuild: Outcome<()>)
      returns (first: ClientHandle, second: ClientHandle, afterClear: ClientHandle,
               blankConfigured: bool, clearedConfigured: bool)
    ensures second == first && first.url == url && first.key == key
    ensures afterClear.id != first.id && afterClear.url == url && afterClear.key == key
    ensures blankBuild.Success? ==> !blankConfigured
    ensures blankBuild.Failure? ==> blankConfigured == (!IsBlank(url) && !IsBlank(key))
    ensures !clearedConfigured
  {
    var m := new SupabaseManager();
    var r1 := m.GetClient(url, key, Success(()));
    first := r1.value;
    var r2 := m.GetClient(url, key, Success(()));
    second := r2.value;
    m.ClearClient();
    clearedConfigured := m.IsConfigured();
    var r3 := m.GetClient(url, key, Success(()));
    afterClear := r3.value;
    var r4 := m.GetClient("", key, blankBuild);
    blankConfigured := m.IsConfigured();
  }
}
