/**
 * The class `OpenWRTAPI` of openwrt-api.js: a connection flag and an SSH
 * session, over which every operation runs shell commands on the router.
 * Exceptions the JavaScript throws are returned as `Failure` values; the
 * `console.warn` reports of `executeCommand` are kept in `warnings`.
 */
module Api {
  import opened Wrappers
  import opened Text
  import opened Transport
  import opened Commands

  /** The `config` object given to the constructor; a missing port is `None`. */
  datatype Config = Config(host: string, username: string, password: string, port: Option<nat>)

  class OpenWrtApi {
    const host: string
    const username: string
    const password: string
    const port: nat
    /** The session; its replies are scripted when it is made. */
    const ssh: Link
    var isConnected: bool
    /** The commands reported with `console.warn`, oldest first. */
    var warnings: seq<string>

    /** The warnings are exactly those the commands sent so far call for. */
    predicate Logged()
      reads this, ssh
    {
      warnings == WarningsOf(ssh.trace, ssh.script)
    }

    /** `new OpenWRTAPI(config)` over a router that answers as given. */
    constructor(config: Config, alive: bool, connectError: Option<string>, script: string -> Reply)
      ensures host == config.host && username == config.username && password == config.password
      ensures port == PortOf(config.port)
      ensures fresh(ssh) && !ssh.connected && ssh.trace == []
      ensures ssh.alive == alive && ssh.connectError == connectError && ssh.script == script
      ensures !isConnected && Logged()
    {
      host := config.host;
      username := config.username;
      password := config.password;
      port := PortOf(config.port);
      ssh := new Link(alive, connectError, script);
      isConnected := false;
      warnings := [];
    }

    /** `connectSSH`: a failed connection is reported as `SSH: ` and the message. */
    method ConnectSsh() returns (error: Option<string>)
      requires Logged()
      modifies ssh
      ensures Logged()
      ensures error == match ssh.connectError case None => None case Some(m) => Some("SSH: " + m)
      ensures ssh.connected == error.None?
      ensures ssh.trace == old(ssh.trace) + [Login(host, username, password, port)]
    {
      WarningsSnoc(ssh.trace, Login(host, username, password, port), ssh.script);
      var e := ssh.Connect(host, username, password, port);
      error := match e case None => None case Some(m) => Some("SSH: " + m);
    }

    /**
     * `executeCommand(command)`: without a live session nothing is sent;
     * otherwise the command is sent once, and a non-ignorable stderr is
     * reported.
     */
    method ExecuteCommand(command: string) returns (r: Result<CommandResult>)
      requires Logged()
      modifies this, ssh
      ensures Logged()
      ensures r == ExecOutcome(old(ssh.connected), command, ssh.script(command))
      ensures ssh.trace == if old(ssh.connected) then old(ssh.trace) + [Exec(command)] else old(ssh.trace)
      ensures ssh.connected == old(ssh.connected) && isConnected == old(isConnected)
    {
      if !ssh.IsConnected() {
        return Failure(NotConnectedMessage);
      }
      WarningsSnoc(ssh.trace, Exec(command), ssh.script);
      var reply := ssh.Run(command);
      match reply
      case Raise(m) =>
        r := Failure(FailedMessage(command, m));
      case Output(o, e, c) =>
        if e != "" && !IsIgnorableError(e, command) {
          warnings := warnings + [command];
        }
        r := Success(CommandResult(o, e, c));
    }

    /**
     * `checkConnection`: ping, then connect, then the echo command; the flag
     * is set only when all three succeed.
     */
    method CheckConnection() returns (r: Result<string>)
      requires Logged()
      modifies this, ssh
      ensures Logged()
      ensures r == CheckOutcome(host, ssh.alive, ssh.connectError, ssh.script(EchoCommand))
      ensures isConnected == r.Success?
      ensures ssh.trace == old(ssh.trace) + CheckTrace(host, username, password, port, ssh.alive, ssh.connectError)
      ensures ssh.connected == if ssh.alive then ssh.connectError.None? else old(ssh.connected)
    {
      WarningsSnoc(ssh.trace, Ping(host), ssh.script);
      var alive := ssh.Probe(host);
      if !alive {
        r := Failure(ConnectionFailedPrefix + "Host " + host + " não responde ao ping");
      } else {
        r := LoginAndTest();
      }
      isConnected := r.Success?;
    }

    /** The part of `checkConnection` after a ping that was answered. */
    method LoginAndTest() returns (r: Result<string>)
      requires Logged() && ssh.alive
      modifies this, ssh
      ensures Logged()
      ensures r == CheckOutcome(host, true, ssh.connectError, ssh.script(EchoCommand))
      ensures ssh.trace == old(ssh.trace) + [Login(host, username, password, port)] + (if ssh.connectError.Some? then [] else [Exec(EchoCommand)])
      ensures ssh.connected == ssh.connectError.None?
    {
      var error := ConnectSsh();
      if error.Some? {
        return Failure(ConnectionFailedPrefix + error.value);
      }
      TraceAssoc(old(ssh.trace), [Login(host, username, password, port)], [Exec(EchoCommand)]);
      var test := ExecuteCommand(EchoCommand);
      r := match test
        case Failure(m) => Failure(ConnectionFailedPrefix + m)
        case Success(_) => Success("Conectado com sucesso ao " + host);
    }

    /** `disconnect`: disposes a live session only, and always clears the flag. */
    method Disconnect()
      requires Logged()
      modifies this, ssh
      ensures Logged()
      ensures !isConnected && !ssh.connected
      ensures ssh.trace == if old(ssh.connected) then old(ssh.trace) + [Dispose] else old(ssh.trace)
    {
      if ssh.IsConnected() {
        WarningsSnoc(ssh.trace, Dispose, ssh.script);
        ssh.Close();
      }
      isConnected := false;
    }

    /** The loop shared by the batch probes: every entry is run, and an error only fills its own key. */
    method RunBatch(table: Table, trim: bool) returns (results: map<string, string>)
      requires Logged()
      modifies this, ssh
      ensures Logged()
      ensures results == BatchResults(table, old(ssh.connected), ssh.script, trim)
      ensures ssh.trace == old(ssh.trace) + BatchTrace(table, old(ssh.connected))
      ensures ssh.connected == old(ssh.connected) && isConnected == old(isConnected)
    {
      results := map[];
      var i := 0;
      while i < |table|
        invariant 0 <= i <= |table|
        invariant Logged()
        invariant results == BatchResults(table[..i], old(ssh.connected), ssh.script, trim)
        invariant ssh.trace == old(ssh.trace) + BatchTrace(table[..i], old(ssh.connected))
        invariant ssh.connected == old(ssh.connected) && isConnected == old(isConnected)
      {
        var (key, cmd) := table[i];
        BatchStep(table, i, old(ssh.connected), ssh.script, trim);
        if old(ssh.connected) {
          TraceAssoc(old(ssh.trace), BatchTrace(table[..i], old(ssh.connected)), [Exec(cmd)]);
        }
        var r := ExecuteCommand(cmd);
        match r {
          case Success(out) =>
            results := results[key := if trim then Trim(out.stdout) else out.stdout];
          case Failure(m) =>
            results := results[key := "Erro: " + m];
        }
        i := i + 1;
      }
      assert table[..i] == table;
    }

    /** `getSystemInfo`, `getSystemStats`, `getNetworkInfo`, `getWirelessInfo`, `getDHCPInfo`, `getFirewallInfo`, `getPackageInfo` or `getLogs`. */
    method GetProbe(p: Probe) returns (results: map<string, string>)
      requires Logged()
      modifies this, ssh
      ensures Logged()
      ensures results == BatchResults(TableOf(p), old(ssh.connected), ssh.script, Trims(p))
      ensures ssh.trace == old(ssh.trace) + BatchTrace(TableOf(p), old(ssh.connected))
      ensures ssh.connected == old(ssh.connected) && isConnected == old(isConnected)
    {
      results := RunBatch(TableOf(p), Trims(p));
    }

    /** `getServices`: the listing, then one status probe per non-blank line. */
    method GetServices() returns (status: map<string, string>)
      requires Logged()
      modifies this, ssh
      ensures Logged()
      ensures status == ServicesOutcome(old(ssh.connected), ssh.script)
      ensures ssh.trace == old(ssh.trace) + ServicesTrace(old(ssh.connected), ssh.script)
      ensures ssh.connected == old(ssh.connected) && isConnected == old(isConnected)
    {
      var listing := ExecuteCommand(ListServicesCommand);
      if listing.Failure? {
        assert ServicesTrace(old(ssh.connected), ssh.script) == if old(ssh.connected) then [Exec(ListServicesCommand)] else [];
        return map["error" := listing.error];
      }
      var services := ServiceNames(listing.value.stdout);
      status := ProbeAll(services);
      assert ServicesTrace(old(ssh.connected), ssh.script) == [Exec(ListServicesCommand)] + StatusTrace(services);
      TraceAssoc(old(ssh.trace), [Exec(ListServicesCommand)], StatusTrace(services));
    }

    /** The loop of `getServices`: one status probe per name, in order, passing over empty names. */
    method ProbeAll(services: seq<string>) returns (status: map<string, string>)
      requires Logged() && ssh.connected
      modifies this, ssh
      ensures Logged()
      ensures status == StatusMap(services, true, ssh.script)
      ensures ssh.trace == old(ssh.trace) + StatusTrace(services)
      ensures ssh.connected && isConnected == old(isConnected)
    {
      status := map[];
      var i := 0;
      while i < |services|
        invariant 0 <= i <= |services|
        invariant Logged()
        invariant status == StatusMap(services[..i], true, ssh.script)
        invariant ssh.trace == old(ssh.trace) + StatusTrace(services[..i])
        invariant ssh.connected && isConnected == old(isConnected)
      {
        var service := services[i];
        StatusStep(services, i, ssh.script);
        if service != "" {
          TraceAssoc(old(ssh.trace), StatusTrace(services[..i]), [Exec(StatusCommand(service))]);
          var value := ProbeService(service);
          status := status[service := value];
        }
        i := i + 1;
      }
      assert services[..i] == services;
    }

    /** The status probe of one service inside `getServices`: an exception gives `unknown`. */
    method ProbeService(service: string) returns (value: string)
      requires Logged() && ssh.connected
      modifies this, ssh
      ensures Logged()
      ensures value == ProbeStatus(true, ssh.script, service)
      ensures ssh.trace == old(ssh.trace) + [Exec(StatusCommand(service))]
      ensures ssh.connected && isConnected == old(isConnected)
    {
      var probe := ExecuteCommand(StatusCommand(service));
      match probe {
        case Success(out) =>
          var lower := Lower(out.stdout);
          if Contains(lower, "running") || Contains(lower, "started") {
            value := "running";
          } else if Contains(lower, "stopped") || Contains(lower, "not running") {
            value := "stopped";
          } else {
            value := "unknown";
          }
        case Failure(_) =>
          value := "unknown";
      }
    }

    /** One single-command operation: its command is sent once and its outcome tagged. */
    method Perform(a: Action) returns (r: ActionResult)
      requires Logged()
      modifies this, ssh
      ensures Logged()
      ensures r == ActionOutcome(a, ExecOutcome(old(ssh.connected), CommandOf(a), ssh.script(CommandOf(a))))
      ensures ssh.trace == if old(ssh.connected) then old(ssh.trace) + [Exec(CommandOf(a))] else old(ssh.trace)
      ensures ssh.connected == old(ssh.connected) && isConnected == old(isConnected)
    {
      var outcome := ExecuteCommand(CommandOf(a));
      r := ActionOutcome(a, outcome);
    }

    /** `updatePackages`: `opkg update`, then `opkg list-upgradable` only if the first came back. */
    method UpdatePackages() returns (r: ActionResult)
      requires Logged()
      modifies this, ssh
      ensures Logged()
      ensures r == UpdateOutcome(old(ssh.connected), ssh.script)
      ensures ssh.trace == old(ssh.trace) + UpdateTrace(old(ssh.connected), ssh.script)
      ensures ssh.connected == old(ssh.connected) && isConnected == old(isConnected)
    {
      var update := ExecuteCommand(UpdateCommand);
      if update.Failure? {
        return Failed(update.error);
      }
      TraceAssoc(old(ssh.trace), [Exec(UpdateCommand)], [Exec(ListUpgradableCommand)]);
      var upgradable := ExecuteCommand(ListUpgradableCommand);
      if upgradable.Failure? {
        return Failed(upgradable.error);
      }
      r := Succeeded(map[
        "updateOutput" := update.value.stdout,
        "upgradable" := upgradable.value.stdout,
        "message" := "Lista de pacotes atualizada com sucesso"]);
    }
  }
}
