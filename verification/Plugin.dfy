/** The plugin: its clients, its configuration, and the calls it gets. */
module Plugin {
  import opened Outcomes
  import opened Connection
  import opened Configuration
  import opened Readings
  import opened Client

  // ---------------------------------------------------------------- traces

  /** What happens to the clients and to the configuration, in order. */
  datatype PluginEvent =
    | Created(client: IEC61850Client)
    | Started(client: IEC61850Client)
    | Stopped(client: IEC61850Client)
    | Destroyed(client: IEC61850Client)
    | ConfigWritten

  /** The clients that exist after these events. */
  ghost function LiveAfter(trace: seq<PluginEvent>): set<IEC61850Client> {
    if trace == [] then {} else LiveNext(LiveAfter(trace[..|trace| - 1]), trace[|trace| - 1])
  }

  ghost function LiveNext(live: set<IEC61850Client>, e: PluginEvent): set<IEC61850Client> {
    if e.Created? then live + {e.client} else if e.Destroyed? then live - {e.client} else live
  }

  /** The configuration was written only while no client existed. */
  ghost predicate WrittenAlone(trace: seq<PluginEvent>) {
    forall i :: 0 <= i < |trace| && trace[i].ConfigWritten? ==> LiveAfter(trace[..i]) == {}
  }

  /** No client was started twice, and none after it was stopped. */
  ghost predicate StartedOnce(trace: seq<PluginEvent>) {
    forall i, j :: 0 <= i < j < |trace| && trace[j].Started? ==>
      trace[i] != trace[j] && trace[i] != Stopped(trace[j].client)
  }

  /** No client was destroyed without having been stopped. */
  ghost predicate StoppedFirst(trace: seq<PluginEvent>) {
    forall i :: 0 <= i < |trace| && trace[i].Destroyed? ==> Stopped(trace[i].client) in trace[..i]
  }

  ghost predicate Orderly(trace: seq<PluginEvent>) {
    WrittenAlone(trace) && StartedOnce(trace) && StoppedFirst(trace)
  }

  /** What may come next: a write only if no client exists, a start only of a client that was neither started nor
      stopped, an end only of a client that was stopped. */
  ghost predicate MayCome(trace: seq<PluginEvent>, e: PluginEvent) {
    match e
    case ConfigWritten => LiveAfter(trace) == {}
    case Started(client) => e !in trace && Stopped(client) !in trace
    case Destroyed(client) => Stopped(client) in trace
    case _ => true
  }

  lemma OneMoreEvent(trace: seq<PluginEvent>, e: PluginEvent)
    ensures LiveAfter(trace + [e]) == LiveNext(LiveAfter(trace), e)
    ensures Orderly(trace) && MayCome(trace, e) ==> Orderly(trace + [e])
  {
    var more := trace + [e];
    assert more[..|trace|] == trace;
    assert forall i :: 0 <= i < |trace| ==> more[i] == trace[i] && more[..i] == trace[..i];
  }

  ghost predicate Mentions(trace: seq<PluginEvent>, client: IEC61850Client) {
    exists i :: 0 <= i < |trace| && !trace[i].ConfigWritten? && trace[i].client == client
  }

  /** The events of the start of a client, with the end of the client that it replaces. */
  ghost function StartEvents(client: IEC61850Client, replaced: Option<IEC61850Client>): seq<PluginEvent> {
    [Created(client)]
    + (if replaced.Some? then [Stopped(replaced.value), Destroyed(replaced.value)] else [])
    + [Started(client)]
  }

  lemma AfterEndEvents(trace: seq<PluginEvent>, client: IEC61850Client)
    requires Orderly(trace)
    ensures var more := trace + [Stopped(client), Destroyed(client)];
            Orderly(more) && LiveAfter(more) == LiveAfter(trace) - {client}
  {
    hide LiveAfter, Orderly;
    var stopped := trace + [Stopped(client)];
    OneMoreEvent(trace, Stopped(client));
    assert stopped[|trace|] == Stopped(client);
    OneMoreEvent(stopped, Destroyed(client));
    assert trace + [Stopped(client), Destroyed(client)] == stopped + [Destroyed(client)];
  }

  lemma NewMayStart(trace: seq<PluginEvent>, client: IEC61850Client, more: seq<PluginEvent>)
    requires !Mentions(trace, client) && Started(client) !in more && Stopped(client) !in more
    ensures MayCome(trace + more, Started(client))
  {
  }

  lemma AfterStartEvents(trace: seq<PluginEvent>, client: IEC61850Client, replaced: Option<IEC61850Client>)
    requires Orderly(trace) && !Mentions(trace, client)
    requires replaced.Some? ==> replaced.value != client
    ensures var more := trace + StartEvents(client, replaced);
            && Orderly(more)
            && LiveAfter(more) == LiveAfter(trace) + {client} - (if replaced.Some? then {replaced.value} else {})
  {
    hide LiveAfter, Orderly, Mentions;
    var t1 := trace + [Created(client)];
    OneMoreEvent(trace, Created(client));
    var ended := if replaced.Some? then [Stopped(replaced.value), Destroyed(replaced.value)] else [];
    if replaced.Some? {
      AfterEndEvents(t1, replaced.value);
    }
    var t3 := t1 + ended;
    assert replaced.None? ==> t3 == t1;
    NewMayStart(trace, client, [Created(client)] + ended);
    assert t3 == trace + ([Created(client)] + ended);
    hide MayCome;
    OneMoreEvent(t3, Started(client));
    assert trace + StartEvents(client, replaced) == t3 + [Started(client)];
  }

  /** Every client is under its own key. */
  ghost predicate OwnKeys(clients: map<string, IEC61850Client>) {
    forall key :: key in clients ==> clients[key].serverKey == key
  }

  lemma Replacing(clients: map<string, IEC61850Client>, key: string, client: IEC61850Client)
    requires OwnKeys(clients) && client.serverKey == key && client !in clients.Values
    ensures OwnKeys(clients[key := client])
    ensures clients[key := client].Values == clients.Values + {client} - (if key in clients then {clients[key]} else {})
  {
    var after := clients[key := client];
    assert after[key] == client && forall k :: k in clients && k != key ==> after[k] == clients[k];
  }

  // ---------------------------------------------------------------- the plugin

  const EMPTY_CONFIG := ConfigView("", "", "", map[], ApplicationParameters(1000, DO_READING), [], map[])

  class IEC61850 {
    const config: IEC61850ClientConfig
    const gateway: Gateway
    const fcOf: string -> FunctionalConstraint
    var clients: map<string, IEC61850Client>
    ghost var trace: seq<PluginEvent>

    /** The clients are those that exist, each under its key, each for a server of the configuration; and what each
        refers to in the configuration is as it was when the client was made. */
    ghost predicate Stable()
      reads this, config
    {
      && Orderly(trace) && LiveAfter(trace) == clients.Values && OwnKeys(clients)
      && WellKeyed(config.serverConfigDict)
      && clients.Keys <= config.serverConfigDict.Keys
      && forall key :: key in clients ==>
           && clients[key].config == config && clients[key].gateway == gateway && clients[key].fcOf == fcOf
           && clients[key].seen == config.View() && Started(clients[key]) in trace
    }

    constructor (fcOf: string -> FunctionalConstraint)
      ensures Stable() && clients == map[] && trace == []
      ensures fresh(config) && fresh(gateway) && this.fcOf == fcOf && config.View() == EMPTY_CONFIG
    {
      config := new IEC61850ClientConfig();
      gateway := new Gateway();
      this.fcOf := fcOf;
      clients, trace := map[], [];
    }

    /** The import, which may throw; then what it had imported by then stays. */
    method SetConfig(input: Input) returns (threw: bool)
      modifies config, this`trace
      ensures trace == old(trace) + [ConfigWritten]
      ensures ImportSpec(old(config.View()), input) == Imported(config.View(), threw)
      ensures old(WellKeyed(config.serverConfigDict)) ==> WellKeyed(config.serverConfigDict)
    {
      if WellKeyed(config.serverConfigDict) {
        ImportsAccumulate(config.View(), input);
      }
      trace := trace + [ConfigWritten];
      threw := config.ImportConfig(input);
    }

    /** The same while there is no client. */
    method SetConfigAlone(input: Input) returns (threw: bool)
      requires Stable() && clients == map[]
      modifies config, this`trace
      ensures Stable() && trace == old(trace) + [ConfigWritten]
      ensures ImportSpec(old(config.View()), input) == Imported(config.View(), threw)
    {
      hide Orderly, LiveAfter, WellKeyed, ImportSpec;
      OneMoreEvent(trace, ConfigWritten);
      threw := SetConfig(input);
    }

    /** The destructor stops the client. */
    method Destroy(client: IEC61850Client)
      modifies client`connection, this`trace
      ensures trace == old(trace) + [Stopped(client), Destroyed(client)] && client.connection == null
    {
      client.Stop();
      trace := trace + [Stopped(client), Destroyed(client)];
    }

    /** A client for one server. If there was one already, it is destroyed once the new one is made. */
    method StartOne(key: string)
      requires Stable() && key in config.serverConfigDict
      modifies this`clients, this`trace, clients.Values
      ensures Stable() && clients.Keys == old(clients.Keys) + {key} && old(trace) <= trace
      ensures forall client :: client in clients.Values ==> client in old(clients.Values) || fresh(client)
    {
      hide LiveAfter, Orderly, OwnKeys, WellKeyed;
      ghost var t0 := trace;
      ghost var replaced := if key in clients then Some(clients[key]) else None;
      var client := new IEC61850Client(gateway, config, key, fcOf);
      Replacing(clients, key, client);
      AfterStartEvents(t0, client, replaced);
      trace := trace + [Created(client)];
      var before := clients;
      clients := clients[key := client];
      if key in before {
        Destroy(before[key]);
      }
      trace := trace + [Started(client)];
      assert trace == t0 + StartEvents(client, replaced);
    }

    /** Makes and starts a client for every server of the configuration. */
    method Start()
      requires Stable()
      modifies this`clients, this`trace, clients.Values
      ensures Stable() && clients.Keys == config.serverConfigDict.Keys && old(trace) <= trace
    {
      hide WellKeyed, Orderly, LiveAfter, OwnKeys;
      var todo := config.serverConfigDict.Keys;
      while todo != {}
        invariant Stable() && todo <= config.serverConfigDict.Keys <= clients.Keys + todo && old(trace) <= trace
        invariant forall client :: client in clients.Values ==> client in old(clients.Values) || fresh(client)
        decreases todo
      {
        var key :| key in todo;
        StartOne(key);
        todo := todo - {key};
      }
    }

    /** The clients under these keys. */
    ghost function ClientsOf(keys: set<string>): set<IEC61850Client>
      requires keys <= clients.Keys
      reads this
    {
      set key | key in keys :: clients[key]
    }

    method StopNext(client: IEC61850Client)
      requires Stable()
      modifies this`trace, client`connection
      ensures Stable() && trace == old(trace) + [Stopped(client)] && client.connection == null
    {
      hide LiveAfter, Orderly;
      client.Stop();
      OneMoreEvent(trace, Stopped(client));
      trace := trace + [Stopped(client)];
    }

    method StopClients()
      requires Stable()
      modifies this`trace, clients.Values
      ensures Stable() && old(trace) <= trace
      ensures forall key :: key in clients ==>
                Stopped(clients[key]) in trace[|old(trace)|..] && clients[key].connection == null
    {
      hide Stable;
      var todo := clients.Keys;
      while todo != {}
        invariant Stable() && todo <= clients.Keys && old(trace) <= trace
        invariant forall key :: key in clients && key !in todo ==>
                    Stopped(clients[key]) in trace[|old(trace)|..] && clients[key].connection == null
        decreases todo
      {
        var key :| key in todo;
        ghost var t := trace;
        StopNext(clients[key]);
        assert trace[|old(trace)|..] == t[|old(trace)|..] + [Stopped(clients[key])];
        todo := todo - {key};
      }
    }

    method DestroyNext(key: string, ghost todo: set<string>)
      requires key in todo && todo <= clients.Keys && OwnKeys(clients)
      requires Orderly(trace) && LiveAfter(trace) == ClientsOf(todo)
      modifies this`trace, clients.Values
      ensures Orderly(trace) && LiveAfter(trace) == ClientsOf(todo - {key}) && old(trace) <= trace
    {
      hide Orderly, LiveAfter;
      var client := clients[key];
      ghost var t0 := trace;
      OneMoreEvent(t0, Stopped(client));
      OneMoreEvent(t0 + [Stopped(client)], Destroyed(client));
      Destroy(client);
      assert trace == t0 + [Stopped(client)] + [Destroyed(client)];
    }

    method ClearClients()
      requires Stable()
      modifies this`clients, this`trace, clients.Values
      ensures Stable() && clients == map[] && old(trace) <= trace
    {
      var todo := clients.Keys;
      assert ClientsOf(todo) == clients.Values;
      while todo != {}
        invariant todo <= clients.Keys && OwnKeys(clients) && clients == old(clients) && old(trace) <= trace
        invariant Orderly(trace) && LiveAfter(trace) == ClientsOf(todo)
        decreases todo
      {
        var key :| key in todo;
        DestroyNext(key, todo);
        todo := todo - {key};
      }
      assert ClientsOf({}) == {};
      clients := map[];
    }

    /** Stops every client, then destroys them all: after `stopped` events all were stopped, and all still existed. */
    method Stop() returns (ghost stopped: nat)
      requires Stable()
      modifies this`clients, this`trace, clients.Values
      ensures Stable() && clients == map[] && old(trace) <= trace
      ensures |old(trace)| <= stopped <= |trace| && LiveAfter(trace[..stopped]) == old(clients.Values)
      ensures forall client :: client in old(clients.Values) ==> Stopped(client) in trace[|old(trace)|..stopped]
    {
      StopClients();
      ghost var t0 := trace;
      stopped := |trace|;
      ClearClients();
      assert trace[..stopped] == t0;
    }

    /** There are clients for all the servers of the configuration, or for none. */
    ghost predicate Complete()
      reads this, config
    {
      clients == map[] || clients.Keys == config.serverConfigDict.Keys
    }
  }

  /** What a stable plugin has: whenever the configuration was written no client existed; no client was started twice or
      after it was stopped, and none destroyed before; the clients that exist are those of the map, each started, each for
      the server of its key, with the plugin for receiver; and what each refers to in the configuration is as it was when
      the client was made. */
  lemma StableMeans(plugin: IEC61850, i: nat, j: nat, key: string)
    requires plugin.Stable() && i <= j < |plugin.trace|
    ensures plugin.trace[j].ConfigWritten? ==> LiveAfter(plugin.trace[..j]) == {}
    ensures i < j && plugin.trace[j].Started? ==>
              plugin.trace[i] != plugin.trace[j] && plugin.trace[i] != Stopped(plugin.trace[j].client)
    ensures plugin.trace[j].Destroyed? ==> Stopped(plugin.trace[j].client) in plugin.trace[..j]
    ensures LiveAfter(plugin.trace) == plugin.clients.Values
    ensures key in plugin.clients ==>
              && plugin.clients[key].serverKey == key && key in plugin.config.serverConfigDict
              && plugin.clients[key].config == plugin.config && plugin.clients[key].gateway == plugin.gateway
              && plugin.clients[key].fcOf == plugin.fcOf && plugin.clients[key].seen == plugin.config.View()
              && Started(plugin.clients[key]) in plugin.trace
  {
  }

  /** A client exists after a trace exactly if it was made, and not destroyed since. */
  lemma {:induction false} LiveExactly(trace: seq<PluginEvent>, client: IEC61850Client)
    ensures client in LiveAfter(trace) <==>
              exists i :: && 0 <= i < |trace| && trace[i] == Created(client)
                          && forall j :: i < j < |trace| ==> trace[j] != Destroyed(client)
    decreases |trace|
  {
    if trace != [] {
      var n := |trace| - 1;
      LiveExactly(trace[..n], client);
      if i :| && 0 <= i < n && trace[..n][i] == Created(client)
              && forall j :: i < j < n ==> trace[..n][j] != Destroyed(client) {
        assert trace[i] == Created(client) && forall j :: i < j < n ==> trace[j] == trace[..n][j];
      }
      if i :| && 0 <= i < n && trace[i] == Created(client) && forall j :: i < j < |trace| ==> trace[j] != Destroyed(client) {
        assert trace[..n][i] == Created(client) && forall j :: i < j < n ==> trace[j] == trace[..n][j];
      }
    }
  }

  /** No two clients are for the same address and port. */
  lemma OneClientPerServer(plugin: IEC61850, a: string, b: string)
    requires plugin.Stable() && a in plugin.clients && b in plugin.clients
    requires SameServer(plugin.config.serverConfigDict[a], plugin.config.serverConfigDict[b])
    ensures a == b
  {
    OneEntryPerServer(plugin.config.serverConfigDict, a, b);
  }

  // ---------------------------------------------------------------- the calls of the host

  /** Makes the plugin, and imports the configuration if there is one; an import that throws is passed on. */
  method PluginInit(config: Option<Input>, fcOf: string -> FunctionalConstraint) returns (r: Result<IEC61850, ()>)
    ensures r.Success? ==>
              && fresh(r.value) && fresh(r.value.config) && fresh(r.value.gateway)
              && r.value.Stable() && r.value.clients == map[]
    ensures r.Failure? <==> config.Some? && ImportSpec(EMPTY_CONFIG, config.value).threw
    ensures r.Success? ==>
              r.value.config.View() == if config.Some? then ImportSpec(EMPTY_CONFIG, config.value).state else EMPTY_CONFIG
  {
    var iec61850 := new IEC61850(fcOf);
    if config.Some? {
      var threw := iec61850.SetConfigAlone(config.value);
      if threw {
        return Failure(());
      }
    }
    r := Success(iec61850);
  }

  method PluginStart(handle: IEC61850?)
    requires handle != null ==> handle.Stable()
    modifies handle, if handle == null then {} else handle.clients.Values
    ensures handle != null ==>
              && handle.Stable() && handle.clients.Keys == handle.config.serverConfigDict.Keys
              && old(handle.trace) <= handle.trace
  {
    if handle == null {
      return;
    }
    handle.Start();
  }

  method PluginRegisterIngest(handle: IEC61850?, callbackGiven: bool, data: nat) returns (threw: bool)
    modifies if handle == null then {} else {handle.gateway}
    ensures threw <==> handle == null
    ensures handle != null ==>
              && handle.gateway.hasCallback == callbackGiven && handle.gateway.data == data
              && handle.gateway.delivered == old(handle.gateway.delivered)
  {
    if handle == null {
      return true;
    }
    handle.gateway.RegisterIngest(data, callbackGiven);
    threw := false;
  }

  /** Reconfigures: a null handle is ignored; a configuration that does not parse (`None`) changes nothing; an import
      that throws leaves no client, and what it had imported. */
  method PluginReconfigure(handle: IEC61850?, newConfig: Option<Input>) returns (threw: bool)
    requires handle != null ==> handle.Stable()
    modifies if handle == null then {} else {handle, handle.config} + handle.clients.Values
    ensures handle == null ==> !threw
    ensures handle != null ==> handle.Stable() && old(handle.trace) <= handle.trace
    ensures handle != null && newConfig.None? ==>
              && threw && handle.clients == old(handle.clients) && handle.trace == old(handle.trace)
              && handle.config.View() == old(handle.config.View())
    ensures handle != null && newConfig.Some? ==>
              && ImportSpec(old(handle.config.View()), newConfig.value) == Imported(handle.config.View(), threw)
              && handle.clients.Keys == if threw then {} else handle.config.serverConfigDict.Keys
  {
    hide Orderly, LiveAfter, WellKeyed, OwnKeys, ImportSpec;
    if handle == null {
      return false;
    }
    if newConfig.None? {
      return true;
    }
    ghost var stopped := handle.Stop();
    threw := handle.SetConfigAlone(newConfig.value);
    if threw {
      return;
    }
    handle.Start();
  }

  method PluginShutdown(handle: IEC61850?)
    requires handle != null ==> handle.Stable()
    modifies handle, if handle == null then {} else handle.clients.Values
    ensures handle != null ==> handle.Stable() && handle.clients == map[] && old(handle.trace) <= handle.trace
  {
    if handle == null {
      return;
    }
    ghost var stopped := handle.Stop();
  }

  datatype Call = CallStart | CallRegister(callbackGiven: bool, data: nat) | CallReconfigure(newConfig: Option<Input>)

  /** Whatever the call, and whether it throws or not: if the configuration was written only while no client existed, it
      still was; what each client refers to in it is still as when the client was made; no client is started twice;
      and there are clients for all the servers or for none. */
  method PluginCall(handle: IEC61850, call: Call)
    requires handle.Stable() && handle.Complete()
    modifies handle, handle.config, handle.gateway, handle.clients.Values
    ensures handle.Stable() && handle.Complete()
    ensures old(handle.trace) <= handle.trace
  {
    match call {
      case CallStart =>
        PluginStart(handle);
      case CallRegister(callbackGiven, data) =>
        var threw := PluginRegisterIngest(handle, callbackGiven, data);
      case CallReconfigure(newConfig) =>
        var threw := PluginReconfigure(handle, newConfig);
    }
  }

  /** Any run of calls, ended by a shutdown. */
  method RunPlugin(config: Option<Input>, calls: seq<Call>, fcOf: string -> FunctionalConstraint) returns (handle: IEC61850?)
    ensures handle != null ==> handle.Stable() && handle.clients == map[]
  {
    var made := PluginInit(config, fcOf);
    if made.Failure? {
      return null;
    }
    handle := made.value;
    var i := 0;
    while i < |calls|
      invariant fresh(handle) && fresh(handle.config) && fresh(handle.gateway) && fresh(handle.clients.Values)
      invariant handle.Stable() && handle.Complete()
    {
      PluginCall(handle, calls[i]);
      i := i + 1;
    }
    PluginShutdown(handle);
  }
}
