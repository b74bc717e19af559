/**
 * What `OpenWRTAPI` (openwrt-api.js) computes from the replies of the
 * router, as functions of the scripted transport: the outcome of one
 * command, the stderr filter, the command tables of the batch probes and the
 * dictionaries they fill, the service status keywords, the commands and
 * result records of the single-command operations, and the call sequences of
 * `checkConnection` and `updatePackages`. The class in api.dfy is proved to
 * compute exactly these.
 */
module Commands {
  import opened Wrappers
  import opened Text
  import opened Transport

  // ---------------------------------------------------------------------------
  // executeCommand
  // ---------------------------------------------------------------------------

  /** `{stdout, stderr, code}` as `executeCommand` returns it. */
  datatype CommandResult = CommandResult(stdout: string, stderr: string, code: int)

  const NotConnectedMessage := "SSH não conectado"

  /** The message of a command whose transport call threw. */
  function FailedMessage(command: string, message: string): string {
    "Comando \"" + command + "\" falhou: " + message
  }

  /**
   * The outcome of `executeCommand(command)` when the transport reports
   * `connected` and would answer `reply`: no session is an error; otherwise
   * only an exception of the transport is one, and the output triple comes
   * back as it is, whatever its stderr and exit code.
   */
  function ExecOutcome(connected: bool, command: string, reply: Reply): (r: Result<CommandResult>)
    ensures r.Success? <==> connected && reply.Output?
    ensures r.Success? ==> r.value == CommandResult(reply.stdout, reply.stderr, reply.code)
    ensures !connected ==> r.error == NotConnectedMessage
    ensures connected && reply.Raise? ==> r.error == FailedMessage(command, reply.message)
  {
    if !connected then Failure(NotConnectedMessage)
    else match reply
      case Raise(m) => Failure(FailedMessage(command, m))
      case Output(o, e, c) => Success(CommandResult(o, e, c))
  }

  // ---------------------------------------------------------------------------
  // isIgnorableError and the stderr warnings
  // ---------------------------------------------------------------------------

  const IgnorablePatterns: seq<string> := ["WARNING:", "Warning:", "deprecated", "opkg list", "grep", "awk", "not found"]

  /** The pattern occurs in the stderr text or in the command. */
  predicate Hits(stderr: string, command: string, pattern: string) {
    Contains(stderr, pattern) || Contains(command, pattern)
  }

  /** `patterns.slice(k).some(pattern => stderr.includes(pattern) || command.includes(pattern))`. */
  function SomeHitFrom(patterns: seq<string>, k: nat, stderr: string, command: string): bool
    decreases |patterns| - k
  {
    if k >= |patterns| then false
    else Hits(stderr, command, patterns[k]) || SomeHitFrom(patterns, k + 1, stderr, command)
  }

  /** `isIgnorableError(stderr, command)`. */
  predicate IsIgnorableError(stderr: string, command: string) {
    SomeHitFrom(IgnorablePatterns, 0, stderr, command)
  }

  lemma {:induction false} SomeHitFromIff(patterns: seq<string>, k: nat, stderr: string, command: string)
    ensures SomeHitFrom(patterns, k, stderr, command) <==>
      exists i :: k <= i < |patterns| && Hits(stderr, command, patterns[i])
    decreases |patterns| - k
  {
    if k < |patterns| {
      SomeHitFromIff(patterns, k + 1, stderr, command);
    }
  }

  /** A stderr text is ignorable exactly when one of the seven patterns occurs in it or in the command. */
  lemma IgnorableIff(stderr: string, command: string)
    ensures IsIgnorableError(stderr, command) <==>
      exists i :: 0 <= i < |IgnorablePatterns| && Hits(stderr, command, IgnorablePatterns[i])
  {
    SomeHitFromIff(IgnorablePatterns, 0, stderr, command);
  }

  /** A command that mentions `grep`, `awk` or `opkg list` is ignorable whatever its stderr says. */
  lemma ToolCommandsIgnorable(stderr: string, command: string)
    requires Contains(command, "grep") || Contains(command, "awk") || Contains(command, "opkg list")
    ensures IsIgnorableError(stderr, command)
  {
    IgnorableIff(stderr, command);
    if Contains(command, "grep") {
      assert Hits(stderr, command, IgnorablePatterns[4]);
    } else if Contains(command, "awk") {
      assert Hits(stderr, command, IgnorablePatterns[5]);
    } else {
      assert Hits(stderr, command, IgnorablePatterns[3]);
    }
  }

  /** The reply draws a warning: its stderr is non-empty (truthy) and not ignorable. */
  predicate Warns(command: string, reply: Reply) {
    reply.Output? && reply.stderr != "" && !IsIgnorableError(reply.stderr, command)
  }

  /** The commands reported with `console.warn`, in order, for the given calls to the transport. */
  function WarningsOf(events: seq<Event>, script: string -> Reply): seq<string> {
    if events == [] then []
    else
      var e := events[|events| - 1];
      WarningsOf(events[..|events| - 1], script) + (if e.Exec? && Warns(e.command, script(e.command)) then [e.command] else [])
  }

  /** One more call adds a warning only when it is a command whose reply warns. */
  lemma WarningsSnoc(events: seq<Event>, e: Event, script: string -> Reply)
    ensures WarningsOf(events + [e], script) ==
      WarningsOf(events, script) + (if e.Exec? && Warns(e.command, script(e.command)) then [e.command] else [])
  {
    assert (events + [e])[..|events|] == events;
  }

  /** Every warning names a command that was executed and whose reply has a non-ignorable stderr. */
  lemma {:induction false} WarningsAreExecuted(events: seq<Event>, script: string -> Reply)
    ensures forall w :: w in WarningsOf(events, script) ==> Exec(w) in events && Warns(w, script(w))
  {
    if events != [] {
      WarningsAreExecuted(events[..|events| - 1], script);
      assert forall x :: x in events[..|events| - 1] ==> x in events;
    }
  }

  /** A command that mentions `grep`, `awk` or `opkg list` never draws a warning. */
  lemma ToolCommandsNeverWarn(command: string, reply: Reply)
    requires Contains(command, "grep") || Contains(command, "awk") || Contains(command, "opkg list")
    ensures !Warns(command, reply)
  {
    if reply.Output? {
      ToolCommandsIgnorable(reply.stderr, command);
    }
  }

  // ---------------------------------------------------------------------------
  // Batch probes
  // ---------------------------------------------------------------------------

  /** A command table: the entries of the `commands` object, in declaration order. */
  type Table = seq<(string, string)>

  /** The keys of a table. */
  function KeysOf(table: Table): set<string> {
    set i | 0 <= i < |table| :: table[i].0
  }

  /** A table whose keys, in order, are `ks` has exactly the keys of `ks`. */
  lemma KeysOfList(table: Table, ks: seq<string>)
    requires |table| == |ks| && forall i :: 0 <= i < |table| ==> table[i].0 == ks[i]
    ensures KeysOf(table) == set k | k in ks
  {
    forall k | k in ks ensures k in KeysOf(table) {
      var i :| 0 <= i < |ks| && ks[i] == k;
      assert table[i].0 == k;
    }
  }

  predicate KeysDistinct(table: Table) {
    forall i, j :: 0 <= i < j < |table| ==> table[i].0 != table[j].0
  }

  const SystemInfoCommands: Table := [
    ("release", "cat /etc/openwrt_release"),
    ("version", "cat /proc/version"),
    ("uptime", "cat /proc/uptime && uptime"),
    ("time", "date"),
    ("hostname", "uci get system.@system[0].hostname || hostname || cat /proc/sys/kernel/hostname"),
    ("model", "cat /tmp/sysinfo/model 2>/dev/null || cat /proc/cpuinfo | grep machine || echo \"Modelo não detectado\"")
  ]

  const SystemStatsCommands: Table := [
    ("memory", "free -m"),
    ("load", "cat /proc/loadavg"),
    ("disk", "df -h"),
    ("processes", "ps | wc -l"),
    ("temperature", "cat /sys/class/thermal/thermal_zone*/temp 2>/dev/null || echo \"N/A\""),
    ("cpu", "top -bn1 | grep \"CPU:\" | head -1")
  ]

  const NetworkInfoCommands: Table := [
    ("interfaces", "ip addr show"),
    ("routes", "ip route show"),
    ("dns", "cat /tmp/resolv.conf.auto 2>/dev/null || cat /etc/resolv.conf"),
    ("arp", "ip neigh show"),
    ("connections", "netstat -tunap 2>/dev/null || ss -tunap")
  ]

  const WirelessInfoCommands: Table := [
    ("status", "iwinfo 2>/dev/null || wifi status"),
    ("config", "uci show wireless"),
    ("clients", "iwinfo 2>/dev/null || iw dev 2>/dev/null || echo \"Wireless não disponível\""),
    ("scan", "iwinfo scan 2>/dev/null || iw dev wlan0 scan 2>/dev/null || echo \"Scan não disponível\"")
  ]

  const DhcpInfoCommands: Table := [
    ("leases", "cat /tmp/dhcp.leases 2>/dev/null || echo \"Arquivo de leases não encontrado\""),
    ("config", "uci show dhcp"),
    ("stats", "cat /tmp/dnsmasq.status 2>/dev/null || echo \"Status não disponível\""),
    ("hosts", "cat /etc/hosts 2>/dev/null || echo \"Arquivo hosts não encontrado\"")
  ]

  const FirewallInfoCommands: Table := [
    ("status", "iptables -L -n -v --line-numbers"),
    ("rules", "uci show firewall"),
    ("zones", "iptables -t nat -L -n -v"),
    ("traffic", "iptables -L -v -x -n"),
    ("config", "cat /etc/config/firewall 2>/dev/null || echo \"Configuração não encontrada\"")
  ]

  const PackageInfoCommands: Table := [
    ("installed", "opkg list-installed"),
    ("upgradable", "opkg list-upgradable"),
    ("all", "opkg list | head -100"),
    ("config", "cat /etc/opkg/customfeeds.conf /etc/opkg/distfeeds.conf 2>/dev/null || echo \"Configuração padrão\""),
    ("space", "df -h /overlay /tmp")
  ]

  const LogsCommands: Table := [
    ("system", "logread -e 2>/dev/null || dmesg | tail -50"),
    ("kernel", "dmesg | tail -30"),
    ("messages", "tail -50 /var/log/messages 2>/dev/null || echo \"Arquivo /var/log/messages não encontrado\""),
    ("debug", "logread -l 100 2>/dev/null || echo \"Logs do sistema não disponíveis\""),
    ("auth", "tail -30 /var/log/auth.log 2>/dev/null || echo \"Logs de autenticação não disponíveis\"")
  ]

  /** The value stored for one command: its stdout (trimmed when asked), or `Erro: ` and the message. */
  function BatchValue(outcome: Result<CommandResult>, trim: bool): string {
    match outcome
    case Success(r) => if trim then Trim(r.stdout) else r.stdout
    case Failure(m) => "Erro: " + m
  }

  /** The `results` object after running the given table entries in order. */
  function BatchResults(table: Table, connected: bool, script: string -> Reply, trim: bool): map<string, string> {
    if table == [] then map[]
    else
      var (key, cmd) := table[|table| - 1];
      BatchResults(table[..|table| - 1], connected, script, trim)[key := BatchValue(ExecOutcome(connected, cmd, script(cmd)), trim)]
  }

  /** The commands a batch sends to the transport. */
  function BatchTrace(table: Table, connected: bool): seq<Event> {
    if !connected || table == [] then []
    else BatchTrace(table[..|table| - 1], connected) + [Exec(table[|table| - 1].1)]
  }

  /** One more entry of the batch: its key is set from its own command, which is sent if there is a session. */
  lemma BatchStep(table: Table, i: nat, connected: bool, script: string -> Reply, trim: bool)
    requires i < |table|
    ensures BatchResults(table[..i + 1], connected, script, trim)
         == BatchResults(table[..i], connected, script, trim)[table[i].0 := BatchValue(ExecOutcome(connected, table[i].1, script(table[i].1)), trim)]
    ensures BatchTrace(table[..i + 1], connected)
         == if connected then BatchTrace(table[..i], connected) + [Exec(table[i].1)] else BatchTrace(table[..i], connected)
  {
    assert table[..i + 1][..i] == table[..i];
  }

  /** The result has one key per table entry and no other. */
  lemma {:induction false} BatchKeys(table: Table, connected: bool, script: string -> Reply, trim: bool)
    ensures BatchResults(table, connected, script, trim).Keys == KeysOf(table)
  {
    if table != [] {
      var init := table[..|table| - 1];
      BatchKeys(init, connected, script, trim);
      assert KeysOf(table) == KeysOf(init) + {table[|table| - 1].0} by {
        forall k | k in KeysOf(table) ensures k in KeysOf(init) + {table[|table| - 1].0} {
          var i :| 0 <= i < |table| && table[i].0 == k;
          if i < |init| {
            assert init[i] == table[i];
          }
        }
        forall k | k in KeysOf(init) ensures k in KeysOf(table) {
          var i :| 0 <= i < |init| && init[i].0 == k;
          assert table[i] == init[i];
        }
      }
    }
  }

  /**
   * With distinct keys, the value under each key is decided by that key's own
   * command and nothing else.
   */
  lemma {:induction false} BatchValueOf(table: Table, connected: bool, script: string -> Reply, trim: bool, i: nat)
    requires KeysDistinct(table) && i < |table|
    ensures table[i].0 in BatchResults(table, connected, script, trim)
    ensures BatchResults(table, connected, script, trim)[table[i].0] ==
      BatchValue(ExecOutcome(connected, table[i].1, script(table[i].1)), trim)
  {
    var init := table[..|table| - 1];
    if i < |init| {
      assert init[i] == table[i];
      assert KeysDistinct(init) by {
        forall a, b | 0 <= a < b < |init| ensures init[a].0 != init[b].0 {
          assert init[a] == table[a] && init[b] == table[b];
        }
      }
      BatchValueOf(init, connected, script, trim, i);
    }
  }

  /** One failing command does not change the value of any other key. */
  lemma BatchIsolation(table: Table, connected: bool, s1: string -> Reply, s2: string -> Reply, trim: bool, i: nat)
    requires KeysDistinct(table) && i < |table|
    requires s1(table[i].1) == s2(table[i].1)
    ensures table[i].0 in BatchResults(table, connected, s1, trim) && table[i].0 in BatchResults(table, connected, s2, trim)
    ensures BatchResults(table, connected, s1, trim)[table[i].0] == BatchResults(table, connected, s2, trim)[table[i].0]
  {
    BatchValueOf(table, connected, s1, trim, i);
    BatchValueOf(table, connected, s2, trim, i);
  }

  /** On a live session the table's commands are sent once each, in table order. */
  lemma {:induction false} BatchTraceOrder(table: Table)
    ensures |BatchTrace(table, true)| == |table|
    ensures forall k :: 0 <= k < |table| ==> BatchTrace(table, true)[k] == Exec(table[k].1)
  {
    if table != [] {
      var init := table[..|table| - 1];
      BatchTraceOrder(init);
      forall k | 0 <= k < |init| ensures BatchTrace(table, true)[k] == Exec(table[k].1) {
        assert init[k] == table[k];
      }
    }
  }

  /** Without a session nothing is sent and every key holds the not-connected error. */
  lemma {:induction false} DisconnectedBatch(table: Table, script: string -> Reply, trim: bool)
    ensures BatchTrace(table, false) == []
    ensures forall k :: k in BatchResults(table, false, script, trim) ==>
      BatchResults(table, false, script, trim)[k] == "Erro: " + NotConnectedMessage
  {
    if table != [] {
      DisconnectedBatch(table[..|table| - 1], script, trim);
    }
  }

  /** The eight batch probes. */
  datatype Probe = SystemInfo | SystemStats | NetworkInfo | WirelessInfo | DhcpInfo | FirewallInfo | PackageInfo | Logs

  function TableOf(p: Probe): Table {
    match p
    case SystemInfo => SystemInfoCommands
    case SystemStats => SystemStatsCommands
    case NetworkInfo => NetworkInfoCommands
    case WirelessInfo => WirelessInfoCommands
    case DhcpInfo => DhcpInfoCommands
    case FirewallInfo => FirewallInfoCommands
    case PackageInfo => PackageInfoCommands
    case Logs => LogsCommands
  }

  /** Only `getSystemInfo` trims its values. */
  predicate Trims(p: Probe) {
    p == SystemInfo
  }

  /** The keys of each probe's table, in order. */
  function ProbeKeyList(p: Probe): seq<string> {
    match p
    case SystemInfo => ["release", "version", "uptime", "time", "hostname", "model"]
    case SystemStats => ["memory", "load", "disk", "processes", "temperature", "cpu"]
    case NetworkInfo => ["interfaces", "routes", "dns", "arp", "connections"]
    case WirelessInfo => ["status", "config", "clients", "scan"]
    case DhcpInfo => ["leases", "config", "stats", "hosts"]
    case FirewallInfo => ["status", "rules", "zones", "traffic", "config"]
    case PackageInfo => ["installed", "upgradable", "all", "config", "space"]
    case Logs => ["system", "kernel", "messages", "debug", "auth"]
  }

  /** Each probe's table has distinct keys, and they are the listed ones. */
  lemma ProbeKeys(p: Probe)
    ensures KeysDistinct(TableOf(p))
    ensures KeysOf(TableOf(p)) == set k | k in ProbeKeyList(p)
  {
    match p
    case SystemInfo => SystemInfoKeys();
    case SystemStats => SystemStatsKeys();
    case NetworkInfo => NetworkInfoKeys();
    case WirelessInfo => WirelessInfoKeys();
    case DhcpInfo => DhcpInfoKeys();
    case FirewallInfo => FirewallInfoKeys();
    case PackageInfo => PackageInfoKeys();
    case Logs => LogsKeys();
  }

  lemma SystemInfoKeys()
    ensures KeysDistinct(SystemInfoCommands)
    ensures KeysOf(SystemInfoCommands) == set k | k in ProbeKeyList(SystemInfo)
  {
    KeysOfList(SystemInfoCommands, ProbeKeyList(SystemInfo));
  }

  lemma SystemStatsKeys()
    ensures KeysDistinct(SystemStatsCommands)
    ensures KeysOf(SystemStatsCommands) == set k | k in ProbeKeyList(SystemStats)
  {
    KeysOfList(SystemStatsCommands, ProbeKeyList(SystemStats));
  }

  lemma NetworkInfoKeys()
    ensures KeysDistinct(NetworkInfoCommands)
    ensures KeysOf(NetworkInfoCommands) == set k | k in ProbeKeyList(NetworkInfo)
  {
    KeysOfList(NetworkInfoCommands, ProbeKeyList(NetworkInfo));
  }

  lemma WirelessInfoKeys()
    ensures KeysDistinct(WirelessInfoCommands)
    ensures KeysOf(WirelessInfoCommands) == set k | k in ProbeKeyList(WirelessInfo)
  {
    KeysOfList(WirelessInfoCommands, ProbeKeyList(WirelessInfo));
  }

  lemma DhcpInfoKeys()
    ensures KeysDistinct(DhcpInfoCommands)
    ensures KeysOf(DhcpInfoCommands) == set k | k in ProbeKeyList(DhcpInfo)
  {
    KeysOfList(DhcpInfoCommands, ProbeKeyList(DhcpInfo));
  }

  lemma FirewallInfoKeys()
    ensures KeysDistinct(FirewallInfoCommands)
    ensures KeysOf(FirewallInfoCommands) == set k | k in ProbeKeyList(FirewallInfo)
  {
    KeysOfList(FirewallInfoCommands, ProbeKeyList(FirewallInfo));
  }

  lemma PackageInfoKeys()
    ensures KeysDistinct(PackageInfoCommands)
    ensures KeysOf(PackageInfoCommands) == set k | k in ProbeKeyList(PackageInfo)
  {
    KeysOfList(PackageInfoCommands, ProbeKeyList(PackageInfo));
  }

  lemma LogsKeys()
    ensures KeysDistinct(LogsCommands)
    ensures KeysOf(LogsCommands) == set k | k in ProbeKeyList(Logs)
  {
    KeysOfList(LogsCommands, ProbeKeyList(Logs));
  }

  // ---------------------------------------------------------------------------
  // getServices
  // ---------------------------------------------------------------------------

  const ListServicesCommand := "ls /etc/init.d/"

  function StatusCommand(service: string): string {
    "/etc/init.d/" + service + " status 2>/dev/null || echo \"unknown\""
  }

  /** The status keyword test on the lower-cased status output. */
  function ClassifyStatus(output: string): string {
    var l := Lower(output);
    if Contains(l, "running") || Contains(l, "started") then "running"
    else if Contains(l, "stopped") || Contains(l, "not running") then "stopped"
    else "unknown"
  }

  /** The status stored for one service: an exception of its probe gives `unknown`. */
  function StatusValue(outcome: Result<CommandResult>): string {
    match outcome
    case Success(r) => ClassifyStatus(r.stdout)
    case Failure(_) => "unknown"
  }

  /** The status recorded for `service`, from its own probe. */
  function ProbeStatus(connected: bool, script: string -> Reply, service: string): string {
    var cmd := StatusCommand(service);
    StatusValue(ExecOutcome(connected, cmd, script(cmd)))
  }

  /** The service names: the non-blank lines of the listing. */
  function ServiceNames(listing: string): seq<string> {
    NonBlank(Split(listing, "\n"))
  }

  /** `serviceStatus` after probing the given services in order; an empty name is passed over. */
  function StatusMap(names: seq<string>, connected: bool, script: string -> Reply): map<string, string> {
    if names == [] then map[]
    else
      var name := names[|names| - 1];
      var m := StatusMap(names[..|names| - 1], connected, script);
      if name != "" then m[name := ProbeStatus(connected, script, name)] else m
  }

  /** What `getServices` returns. */
  function ServicesOutcome(connected: bool, script: string -> Reply): map<string, string> {
    match ExecOutcome(connected, ListServicesCommand, script(ListServicesCommand))
    case Failure(m) => map["error" := m]
    case Success(r) => StatusMap(ServiceNames(r.stdout), connected, script)
  }

  /** The status probes, one per name, in order. */
  function StatusTrace(names: seq<string>): seq<Event> {
    if names == [] then []
    else
      var name := names[|names| - 1];
      if name != "" then StatusTrace(names[..|names| - 1]) + [Exec(StatusCommand(name))]
      else StatusTrace(names[..|names| - 1])
  }

  /** One more name: a non-empty one is probed and recorded, an empty one is passed over. */
  lemma StatusStep(names: seq<string>, i: nat, script: string -> Reply)
    requires i < |names|
    ensures StatusMap(names[..i + 1], true, script)
         == if names[i] != "" then StatusMap(names[..i], true, script)[names[i] := ProbeStatus(true, script, names[i])]
            else StatusMap(names[..i], true, script)
    ensures StatusTrace(names[..i + 1])
         == if names[i] != "" then StatusTrace(names[..i]) + [Exec(StatusCommand(names[i]))] else StatusTrace(names[..i])
  {
    assert names[..i + 1][..i] == names[..i];
  }

  /** The commands `getServices` sends to the transport. */
  function ServicesTrace(connected: bool, script: string -> Reply): seq<Event> {
    if !connected then []
    else
      [Exec(ListServicesCommand)] +
      match script(ListServicesCommand)
      case Raise(_) => []
      case Output(o, _, _) => StatusTrace(ServiceNames(o))
  }

  /** A status output that says `not running` is classified as running: `running` is tested first. */
  lemma NotRunningIsRunning(output: string)
    requires Contains(Lower(output), "not running")
    ensures ClassifyStatus(output) == "running"
  {
    ContainsInside(Lower(output), "not running", "running", 4);
  }

  /** The status test with `not running` looked for first. */
  function IntendedClassifyStatus(output: string): string {
    if Contains(Lower(output), "not running") then "stopped" else ClassifyStatus(output)
  }

  /** The reordered test classifies `not running` as stopped and agrees with the code on every other output. */
  lemma IntendedStatusAgrees(output: string)
    ensures Contains(Lower(output), "not running") ==> IntendedClassifyStatus(output) == "stopped"
    ensures !Contains(Lower(output), "not running") ==> IntendedClassifyStatus(output) == ClassifyStatus(output)
    ensures IntendedClassifyStatus(output) == "running" ==>
      !Contains(Lower(output), "not running") && (Contains(Lower(output), "running") || Contains(Lower(output), "started"))
  {
  }

  /** The status map has one key per non-empty listed name. */
  lemma {:induction false} StatusMapKeys(names: seq<string>, connected: bool, script: string -> Reply)
    ensures StatusMap(names, connected, script).Keys == set x | x in names && x != ""
  {
    if names != [] {
      var init := names[..|names| - 1];
      StatusMapKeys(init, connected, script);
      assert names == init + [names[|names| - 1]];
    }
  }

  /** Each listed service holds the status of its own probe, whatever the other probes did. */
  lemma {:induction false} StatusMapValue(names: seq<string>, connected: bool, script: string -> Reply, name: string)
    requires name in names && name != ""
    ensures name in StatusMap(names, connected, script)
    ensures StatusMap(names, connected, script)[name] == ProbeStatus(connected, script, name)
  {
    var init := names[..|names| - 1];
    if names[|names| - 1] != name {
      assert names == init + [names[|names| - 1]];
      StatusMapValue(init, connected, script, name);
    }
  }

  /** An exception from one service's probe changes that service's entry only, to `unknown`. */
  lemma ServiceIsolation(names: seq<string>, connected: bool, s1: string -> Reply, s2: string -> Reply, name: string)
    requires name in names && name != ""
    requires s1(StatusCommand(name)) == s2(StatusCommand(name))
    ensures name in StatusMap(names, connected, s1) && name in StatusMap(names, connected, s2)
    ensures StatusMap(names, connected, s1)[name] == StatusMap(names, connected, s2)[name]
    ensures connected && s1(StatusCommand(name)).Raise? ==> StatusMap(names, connected, s1)[name] == "unknown"
  {
    StatusMapValue(names, connected, s1, name);
    StatusMapValue(names, connected, s2, name);
  }

  /** Every listed service is probed, once, in listing order: a failed probe does not stop the loop. */
  lemma {:induction false} StatusTraceOrder(names: seq<string>)
    requires forall k :: 0 <= k < |names| ==> names[k] != ""
    ensures |StatusTrace(names)| == |names|
    ensures forall k :: 0 <= k < |names| ==> StatusTrace(names)[k] == Exec(StatusCommand(names[k]))
  {
    if names != [] {
      var init := names[..|names| - 1];
      assert forall k :: 0 <= k < |init| ==> init[k] == names[k];
      StatusTraceOrder(init);
    }
  }

  /**
   * A failed listing gives `{error: message}` alone; a listing that succeeds
   * gives one entry per non-blank line, each the status of its own probe.
   */
  lemma ServicesOutcomeCases(connected: bool, script: string -> Reply)
    ensures var listing := ExecOutcome(connected, ListServicesCommand, script(ListServicesCommand));
      && (listing.Failure? ==> ServicesOutcome(connected, script) == map["error" := listing.error])
      && (listing.Success? ==>
            && ServicesOutcome(connected, script).Keys == (set x | x in ServiceNames(listing.value.stdout))
            && forall x :: x in ServiceNames(listing.value.stdout) ==>
                 ServicesOutcome(connected, script)[x] == ProbeStatus(connected, script, x))
  {
    var listing := ExecOutcome(connected, ListServicesCommand, script(ListServicesCommand));
    if listing.Success? {
      var names := ServiceNames(listing.value.stdout);
      NonBlankKeeps(Split(listing.value.stdout, "\n"));
      StatusMapKeys(names, connected, script);
      forall x | x in names ensures ServicesOutcome(connected, script)[x] == ProbeStatus(connected, script, x) {
        StatusMapValue(names, connected, script, x);
      }
    }
  }

  // ---------------------------------------------------------------------------
  // Single-command operations
  // ---------------------------------------------------------------------------

  /** The operations that send one command and tag its outcome. */
  datatype Action =
    | AddFirewallRule(rule: string)
    | DeleteFirewallRule(chain: string, lineNumber: nat)
    | InstallPackage(packageName: string)
    | RemovePackage(packageName: string)
    | UpgradePackage(packageName: string)
    | RestartService(service: string)
    | StartService(service: string)
    | StopService(service: string)
    | EnableService(service: string)
    | DisableService(service: string)
    | ClearLogs
    | GetFilesystemInfo
    | GetUciConfig
    | SetUciConfig(section: string, option: string, value: string)
    | Reboot
    | BackupConfig
    | GetProcesses
    | GetWirelessClients

  /** `section.split('.')[0]`: the configuration that `uci commit` is given. */
  function CommitTarget(section: string): string {
    Split(section, ".")[0]
  }

  /** The command an operation sends. */
  function CommandOf(a: Action): string {
    match a
    case AddFirewallRule(rule) => "iptables " + rule
    case DeleteFirewallRule(chain, n) => "iptables -D " + chain + " " + NatToString(n)
    case InstallPackage(p) => "opkg install " + p
    case RemovePackage(p) => "opkg remove " + p
    case UpgradePackage(p) => "opkg upgrade " + p
    case RestartService(s) => "/etc/init.d/" + s + " restart"
    case StartService(s) => "/etc/init.d/" + s + " start"
    case StopService(s) => "/etc/init.d/" + s + " stop"
    case EnableService(s) => "/etc/init.d/" + s + " enable"
    case DisableService(s) => "/etc/init.d/" + s + " disable"
    case ClearLogs => "echo \"\" > /var/log/messages 2>/dev/null; logread -c 2>/dev/null; echo \"Logs limpos\""
    case GetFilesystemInfo => "df -h && echo \"---\" && ls -la /"
    case GetUciConfig => "uci export"
    case SetUciConfig(section, option, value) =>
      "uci set " + section + "." + option + "=\"" + value + "\" && uci commit " + CommitTarget(section)
    case Reboot => "reboot &"
    case BackupConfig => "sysupgrade -b /tmp/backup.tar.gz 2>/dev/null || echo \"Backup criado em /tmp/backup.tar.gz\""
    case GetProcesses => "ps ww"
    case GetWirelessClients => "iwinfo 2>/dev/null || iw dev 2>/dev/null"
  }

  /** The object an operation returns: `{success: true, ...fields}` or `{success: false, error}`. */
  datatype ActionResult = Succeeded(fields: map<string, string>) | Failed(error: string)

  /** A report of the command's stdout under `output` with a message beside it. */
  function OutputAndMessage(stdout: string, message: string): (f: map<string, string>)
    ensures "output" in f && f["output"] == stdout && "config" !in f
    ensures "message" in f && f["message"] == message
  {
    map["output" := stdout, "message" := message]
  }

  /** The fields next to `success: true`, given the command's stdout. */
  function SuccessFields(a: Action, stdout: string): map<string, string> {
    match a
    case AddFirewallRule(_) => OutputAndMessage(stdout, "Regra de firewall adicionada com sucesso")
    case DeleteFirewallRule(_, _) => OutputAndMessage(stdout, "Regra de firewall removida com sucesso")
    case InstallPackage(p) => OutputAndMessage(stdout, "Pacote " + p + " instalado com sucesso")
    case RemovePackage(p) => OutputAndMessage(stdout, "Pacote " + p + " removido com sucesso")
    case UpgradePackage(p) => OutputAndMessage(stdout, "Pacote " + p + " atualizado com sucesso")
    case RestartService(s) => OutputAndMessage(stdout, "Serviço " + s + " reiniciado com sucesso")
    case StartService(s) => OutputAndMessage(stdout, "Serviço " + s + " iniciado com sucesso")
    case StopService(s) => OutputAndMessage(stdout, "Serviço " + s + " parado com sucesso")
    case EnableService(s) => OutputAndMessage(stdout, "Serviço " + s + " habilitado na inicialização")
    case DisableService(s) => OutputAndMessage(stdout, "Serviço " + s + " desabilitado na inicialização")
    case ClearLogs => OutputAndMessage(stdout, "Logs do sistema limpos com sucesso")
    case GetFilesystemInfo => map["output" := stdout]
    case GetUciConfig => map["config" := stdout]
    case SetUciConfig(_, _, _) => map["output" := stdout]
    case Reboot => map["message" := "Sistema reiniciando..."]
    case BackupConfig => OutputAndMessage(stdout, "Backup criado em /tmp/backup.tar.gz")
    case GetProcesses => map["output" := stdout]
    case GetWirelessClients => map["output" := stdout]
  }

  /** The `try`/`catch` around the one command. */
  function ActionOutcome(a: Action, outcome: Result<CommandResult>): ActionResult {
    match outcome
    case Success(r) => Succeeded(SuccessFields(a, r.stdout))
    case Failure(m) => Failed(m)
  }

  /**
   * An operation succeeds exactly when its command came back from the
   * transport, whatever the exit code and stderr; the stdout it reports is
   * the command's, and a failure carries the `executeCommand` message.
   */
  lemma ActionSucceedsIffExecuted(a: Action, connected: bool, reply: Reply)
    ensures var r := ActionOutcome(a, ExecOutcome(connected, CommandOf(a), reply));
      && (r.Succeeded? <==> connected && reply.Output?)
      && (r.Succeeded? ==> r.fields == SuccessFields(a, reply.stdout))
      && (r.Failed? ==> r.error == ExecOutcome(connected, CommandOf(a), reply).error)
  {
  }

  /**
   * Every operation but `reboot` reports the command's stdout, under `config`
   * for `getUCIconfig` and under `output` otherwise.
   */
  lemma SuccessFieldsReport(a: Action, stdout: string)
    ensures "output" in SuccessFields(a, stdout) ==> SuccessFields(a, stdout)["output"] == stdout
    ensures "config" in SuccessFields(a, stdout) ==> SuccessFields(a, stdout)["config"] == stdout
    ensures "output" in SuccessFields(a, stdout) || "config" in SuccessFields(a, stdout) || a == Reboot
  {
    match a
    case GetUciConfig =>
    case Reboot =>
    case BackupConfig =>
    case _ =>
  }

  /**
   * The delete command reads back: split at spaces it gives `iptables`, `-D`,
   * the chain and the decimal line number, which parses back to the number.
   */
  lemma DeleteRuleCommandWords(chain: string, n: nat)
    requires forall i :: 0 <= i < |chain| ==> chain[i] != ' '
    ensures Split(CommandOf(DeleteFirewallRule(chain, n)), " ") == ["iptables", "-D", chain, NatToString(n)]
    ensures DigitsValue(NatToString(n)) == n
  {
    var d := NatToString(n);
    forall i | 0 <= i < |d| ensures d[i] != ' ' {
      assert IsDigit(d[i]);
    }
    DeletePrefixWords();
    FourWords("iptables", "-D", chain, d, " ");
    DigitsValueNatToString(n);
  }

  /** The fixed start of the delete command is the words `iptables` and `-D`, each followed by a space. */
  lemma DeletePrefixWords()
    ensures "iptables -D " == "iptables" + " " + "-D" + " "
  {
  }

  /** Four words free of the one-character separator, joined by it, split back into themselves. */
  lemma FourWords(w0: string, w1: string, w2: string, w3: string, sep: string)
    requires |sep| == 1
    requires forall i :: 0 <= i < |w0| ==> w0[i] != sep[0]
    requires forall i :: 0 <= i < |w1| ==> w1[i] != sep[0]
    requires forall i :: 0 <= i < |w2| ==> w2[i] != sep[0]
    requires forall i :: 0 <= i < |w3| ==> w3[i] != sep[0]
    ensures Split(w0 + sep + w1 + sep + w2 + sep + w3, sep) == [w0, w1, w2, w3]
  {
    SplitJoin([w3], sep);
    SplitAfterPiece(w2, w3, sep);
    SplitAfterPiece(w1, w2 + sep + w3, sep);
    SplitAfterPiece(w0, w1 + sep + (w2 + sep + w3), sep);
    assert w0 + sep + w1 + sep + w2 + sep + w3 == w0 + sep + (w1 + sep + (w2 + sep + w3));
  }

  /**
   * The configuration committed is the section up to its first `.`: a
   * prefix of the section with no `.` in it, the whole section when it has none.
   */
  lemma CommitTargetPrefix(section: string)
    ensures var t := CommitTarget(section);
      && |t| <= |section| && section[..|t|] == t
      && !Contains(t, ".")
      && (Contains(section, ".") ==> section[|t|] == '.')
      && (!Contains(section, ".") ==> t == section)
  {
    SplitHead(section, ".");
    SplitPiecesFree(section, ".", 0);
    if Contains(section, ".") {
      var i := Find(section, ".").value;
      assert section[i..][..1] == ".";
    } else {
      FindFromNone(section, ".", 0);
      assert section[0..] == section;
    }
  }

  // ---------------------------------------------------------------------------
  // updatePackages
  // ---------------------------------------------------------------------------

  const UpdateCommand := "opkg update"
  const ListUpgradableCommand := "opkg list-upgradable"

  /** What `updatePackages` returns: the second command runs only after the first came back. */
  function UpdateOutcome(connected: bool, script: string -> Reply): ActionResult {
    match ExecOutcome(connected, UpdateCommand, script(UpdateCommand))
    case Failure(m) => Failed(m)
    case Success(u) =>
      match ExecOutcome(connected, ListUpgradableCommand, script(ListUpgradableCommand))
      case Failure(m) => Failed(m)
      case Success(g) => Succeeded(map[
        "updateOutput" := u.stdout,
        "upgradable" := g.stdout,
        "message" := "Lista de pacotes atualizada com sucesso"])
  }

  /** The commands `updatePackages` sends. */
  function UpdateTrace(connected: bool, script: string -> Reply): seq<Event> {
    if !connected then []
    else [Exec(UpdateCommand)] + (if script(UpdateCommand).Output? then [Exec(ListUpgradableCommand)] else [])
  }

  /**
   * `opkg update` is sent before `opkg list-upgradable`, and the second is
   * skipped when the first throws, whose message is then the error.
   */
  lemma UpdateOrder(connected: bool, script: string -> Reply)
    ensures UpdateTrace(connected, script) <= [Exec(UpdateCommand), Exec(ListUpgradableCommand)]
    ensures Exec(ListUpgradableCommand) in UpdateTrace(connected, script) <==> connected && script(UpdateCommand).Output?
    ensures UpdateOutcome(connected, script).Succeeded? <==>
      connected && script(UpdateCommand).Output? && script(ListUpgradableCommand).Output?
    ensures connected && script(UpdateCommand).Raise? ==>
      UpdateOutcome(connected, script) == Failed(FailedMessage(UpdateCommand, script(UpdateCommand).message))
  {
  }

  // ---------------------------------------------------------------------------
  // checkConnection and the constructor
  // ---------------------------------------------------------------------------

  const EchoCommand := "echo \"Connection Test OK\""
  const ConnectionFailedPrefix := "Falha na conexão: "

  /** `config.port || 22`: a missing or zero port gives 22. */
  function PortOf(port: Option<nat>): (p: nat)
    ensures p > 0
    ensures port.Some? && port.value != 0 ==> p == port.value
  {
    if port.None? || port.value == 0 then 22 else port.value
  }

  /** What `checkConnection` resolves to (`Success`) or rejects with (`Failure`). */
  function CheckOutcome(host: string, alive: bool, connectError: Option<string>, echo: Reply): Result<string> {
    if !alive then Failure(ConnectionFailedPrefix + "Host " + host + " não responde ao ping")
    else if connectError.Some? then Failure(ConnectionFailedPrefix + "SSH: " + connectError.value)
    else match ExecOutcome(true, EchoCommand, echo)
      case Failure(m) => Failure(ConnectionFailedPrefix + m)
      case Success(_) => Success("Conectado com sucesso ao " + host)
  }

  /** The calls `checkConnection` makes: ping, then connect, then the echo command, each only if the previous succeeded. */
  function CheckTrace(host: string, username: string, password: string, port: nat, alive: bool, connectError: Option<string>): seq<Event> {
    [Ping(host)] +
    if !alive then []
    else [Login(host, username, password, port)] + (if connectError.Some? then [] else [Exec(EchoCommand)])
  }

  /**
   * The check succeeds only when the ping, the connection and the echo
   * command all succeed, and then in that order; a host that does not answer
   * the ping is never connected to; every failure message starts with
   * `Falha na conexão: `.
   */
  lemma CheckConnectionOrder(host: string, username: string, password: string, port: nat, alive: bool, connectError: Option<string>, echo: Reply)
    ensures CheckOutcome(host, alive, connectError, echo).Success? <==> alive && connectError.None? && echo.Output?
    ensures CheckOutcome(host, alive, connectError, echo).Success? ==>
      CheckTrace(host, username, password, port, alive, connectError) == [Ping(host), Login(host, username, password, port), Exec(EchoCommand)]
    ensures !alive ==> CheckTrace(host, username, password, port, alive, connectError) == [Ping(host)]
    ensures CheckOutcome(host, alive, connectError, echo).Failure? ==>
      ConnectionFailedPrefix <= CheckOutcome(host, alive, connectError, echo).error
  {
  }
}
