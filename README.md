# OpenWRT router manager: text parsers and the SSH command layer

This project models the two parts of the Electron OpenWRT manager that can be
stated without a screen:

- **The renderer's text parsers and classifiers** (renderer.js). They cover:
  - `cidrToMask`;
  - the parsers of `ip addr show`, the DHCP lease file, `iptables -L -n --line-numbers`, the `opkg` listings and `iwinfo`;
  - the interface-card type test;
  - the log-level test;
  - the running-service counter.

  Each parser is a `method` with the source's loop and mutable state: the open record, the current chain, the upgradable map, the octet list. Its `ensures` ties the result to a fold over the lines, and lemmas state what that fold produces.
- **The class `OpenWRTAPI`** (openwrt-api.js), as the `class Api.OpenWrtApi`.
  - It has the fields `host`, `username`, `password`, `port` and `isConnected`, and a session object `Transport.Link`.
  - The `ping` probe and the `node-ssh` session are a scripted oracle. It fixes whether the host answers the ping, how a connection attempt ends, and the reply to every command (an output triple or an exception).
  - The oracle records every call in order in `trace`. This lets the model state the order of the calls, and the calls that are never made.
  - The `console.warn` reports of `executeCommand` go to the field `warnings`. The class invariant `Logged()` ties them to the commands sent so far.
  - Every operation's result and its new `trace` are given by a function of the old state and the script. Lemmas about those functions state:
    - the key set of each batch probe;
    - the isolation of each command's failure to its own key;
    - the order of the calls;
    - the error messages.

Modules: `Wrappers` (Option/Result), `Text` (the JavaScript string operations the code uses: `split`, `trim`, `includes`, `toLowerCase`, `\s+` tokenising, decimal digits), `Netmask`, `Interfaces`, `Leases`, `Firewall`, `Packages`, `Wireless`, `Classifiers`, `Transport`, `Commands` (the command tables, command strings and outcome functions of openwrt-api.js), `Api`.

Facts about the code that shape the model:
- `cidrToMask(0)` returns `255.255.255.0`, because `!cidr` is true for 0.
- `getSystemInfo` has six keys, `time` among them.
- The firewall fields come from fixed token positions: `policy` is token 2, `target` token 5, `protocol` token 6, `source` token 8, and `destination` is the rest.
- A lease's `leaseTime` is kept as the text of the first field.
- `isIgnorableError` matches its patterns against the command string as well as against stderr.

## Model

| member | source | states |
|---|---|---|
| Netmask.CidrToMask | renderer.js:444-452 | 0 gives `255.255.255.0`; any other prefix gives the four octets `256 - 2^(8 - min(8, max(0, c - 8i)))` joined by dots |
| Netmask.OctetFormula | renderer.js:447-448 | `256 - 2^(8 - b)` is the byte with its `b` top bits set |
| Netmask.PrefixBitsTotal | renderer.js:446-449 | the four octets together set exactly `c` bits, clamped to 0..32 |
| Netmask.PrefixOctetsNonIncreasing | renderer.js:446-449 | octets never increase from left to right |
| Netmask.PrefixOctetExtremes | renderer.js:446-449 | octet `i` is 255 exactly when `c >= 8(i+1)`, and 0 exactly when `c <= 8i` |
| Netmask.MaskOf24 | renderer.js:444-452 | /24 gives `255.255.255.0`, the same text as prefix 0 |
| Netmask.MaskOf16 | renderer.js:444-452 | /16 gives `255.255.0.0` |
| Netmask.MaskOf30 | renderer.js:444-452 | /30 gives `255.255.255.252` |
| Interfaces.ParseNetworkInterfaces | renderer.js:388-421 | empty text gives no records; otherwise the result is the line fold `ScanLines` flushed at the end |
| Interfaces.ScanLine | renderer.js:395-417 | one loop iteration: a header pushes the open record and opens a fresh one, and an `inet` match sets the open record's ip and mask |
| Interfaces.HeaderName | renderer.js:396 | a captured interface name is a non-empty run of word characters |
| Interfaces.HeaderNameIff | renderer.js:396 | a line is a header naming `n` exactly when it is digits, `:`, white space, the word `n`, `:` and anything after (`/^(\d+):\s+(\w+):/`) |
| Interfaces.DashedNameJoinsPrevious | renderer.js:396-417 | a header whose name is two words joined by `-` opens no record and joins the open record's block, so an `inet` line below it sets that record's address; the corrected test reads the whole name |
| Interfaces.IntendedHeaderNameAgrees | renderer.js:396 | the corrected header test (name `[^\s:]+`) gives the same name on every line the code reads as a header |
| Interfaces.IntendedHeaderOfParts | renderer.js:396 | under the corrected test, digits, `:`, white space, a name without white space or `:`, then `:`, make a header naming it |
| Interfaces.IntendedHeaderNameIff | renderer.js:396 | the corrected test gives name `n` exactly when the line is digits, `:`, white space, `n` (no white space, no `:`), `:` and anything after |
| Interfaces.ScanNames | renderer.js:395-420 | exactly one record per header line, in order of appearance |
| Interfaces.ScanDefaults | renderer.js:399-405 | every record has type `Ethernet` and status `UP` |
| Interfaces.NoHeaderNoState | renderer.js:408 | lines before the first header change nothing |
| Interfaces.NoInetWithoutKeyword | renderer.js:409-410 | a line without `inet ` (an `inet6` line, say) has no address match |
| Interfaces.BlockStart | renderer.js:396-406 | a header line flushes the open record and opens its own block |
| Interfaces.BlockExtend | renderer.js:408-415 | a non-header line extends the open block and keeps the flushed records |
| Interfaces.BlockAddress | renderer.js:395-417 | a block's record carries the address of the block's last `inet` line (later lines overwrite earlier ones), or `N/A` without one |
| Leases.ParseDHCPLeases | renderer.js:423-442 | the result is the lease of every line with at least four fields, in order |
| Leases.LeaseFields | renderer.js:429-436 | a line with at least four fields gives the lease of its first four fields; extra fields are ignored |
| Leases.ShortLineSkipped | renderer.js:430-431 | a blank line or one with fewer than four fields gives no lease |
| Leases.LeasesAppend | renderer.js:429-437 | the leases of two runs of lines are the leases of each, in order |
| Leases.LeasesBound | renderer.js:423-442 | never more leases than lines |
| Leases.LeasesFromLines | renderer.js:429-437 | every lease comes from some input line |
| Firewall.ParseFirewallRules | renderer.js:650-682 | the result is the rule list of the line fold `FwFold` |
| Firewall.VisitLine | renderer.js:657-680 | one loop iteration: a header changes the chain, and a numbered row under a chain appends one rule |
| Firewall.ChainHeader | renderer.js:660-664 | a chain header names a non-empty chain |
| Firewall.ChainHeaderIff | renderer.js:660 | a trimmed line is a chain header naming `n` exactly when it is `Chain `, the word `n`, ` (policy `, a word and anything after (`/^Chain (\w+) \(policy (\w+)/`) |
| Firewall.RuleRow | renderer.js:666 | a row match has eight leading columns, the first of them all digits |
| Firewall.Classify | renderer.js:658-667 | a trimmed line is a header with a non-empty chain, a row with eight columns and a numeric first column, or neither |
| Firewall.NoHeaderNoRules | renderer.js:667 | numbered rows seen before any header are dropped |
| Firewall.HeaderStep | renderer.js:660-664 | a header line only switches the chain and emits no rule |
| Firewall.BodyStep | renderer.js:666-678 | under a chain, a non-header line appends its rule, if it is a row, and keeps the chain |
| Firewall.ChainSegment | renderer.js:657-680 | after a header and its body, the chain is the header's chain and each row of the body adds one rule for that chain |
| Firewall.RuleRowTokens | renderer.js:666 | a line matches as a row exactly when it has at least nine whitespace tokens and the first is digits; its columns are tokens 1 to 8 |
| Firewall.ColumnsAreTokens | renderer.js:666 | reading `k` columns succeeds exactly when more than `k` tokens remain, and gives the next `k` tokens |
| Packages.ParsePackages | renderer.js:756-787 | empty installed text gives `[]`; otherwise one record per installed line with ` - `, whose new version is looked up in the map built from the upgradable lines |
| Packages.FillUpgradable | renderer.js:763-770 | the loop over the upgradable lines builds `UpgradeMap` of those lines |
| Packages.ReadInstalled | renderer.js:772-784 | the loop over the installed lines builds `PackagesOf` those lines under the map |
| Packages.NameAndVersionIff | renderer.js:765-766 | a line yields a name and version exactly when it contains ` - ` |
| Packages.UpgradableLineKeepsMiddle | renderer.js:765-767 | for `name - installed - available`, the map gets `name` mapped to the middle segment (the installed version), not the newer one |
| Packages.IntendedUpgradeTakesAvailable | renderer.js:765-767 | for `name - installed - available`, the corrected entry maps `name` to `available`, where the code keeps `installed` |
| Packages.IntendedUpgradeAgrees | renderer.js:765-767 | the corrected entry exists on the same lines as the code's, and equals it on lines with exactly two segments |
| Packages.UpgradeMapLastWins | renderer.js:764-769 | a name's entry comes from the last upgradable line with that name |
| Packages.UpgradeMapHasKey | renderer.js:764-769 | every upgradable line with ` - ` puts its name in the map |
| Packages.UpgradeMapKeys | renderer.js:764-769 | a name is in the map exactly when some upgradable line yields it |
| Packages.PackagesAppend | renderer.js:772-784 | the packages of two runs of lines are those of each, in order |
| Packages.PackagesFromInstalled | renderer.js:772-784 | each record's name and current version come from an installed line, and its new version is the map's entry for its name, or none |
| Packages.OnlyInstalledNames | renderer.js:772-784 | a name that no installed line yields never appears, even if it is upgradable |
| Wireless.ParseWirelessNetworks | renderer.js:532-556 | the result is the line fold `WFold` flushed at the end |
| Wireless.EssidHeader | renderer.js:540 | a header's interface is a non-empty prefix of the line |
| Wireless.RemoveQuotes | renderer.js:545 | removing quotes never lengthens the text and leaves no `"` |
| Wireless.OneNetworkPerHeader | renderer.js:539-555 | exactly one card per header line, in order |
| Wireless.NetworkFields | renderer.js:542-549 | each card has a non-empty SSID with no quote and no surrounding space (or `N/A`), mode `AP`, channel and frequency `N/A`, clients `0` |
| Wireless.HeaderOfWord | renderer.js:540 | a word, whitespace and `ESSID:` make a header naming that word |
| Wireless.HeaderShape | renderer.js:540 | a header line is a word, at least one space, then `ESSID:` |
| Wireless.SsidAfterKeyword | renderer.js:545 | when no `:` comes before the first `ESSID:`, the SSID is the text between it and the next `ESSID:` (or the end of the line), with quotes removed and trimmed, or `N/A` when empty |
| Wireless.QuotedEssid | renderer.js:540-545 | a line `iface ESSID: "name"` gives interface `iface` and SSID `name`, for any name without `"`, without `ESSID:` and without white space at its ends (`Guest:5G` included) |
| Classifiers.InterfaceTypeNeverWifi | renderer.js:316-318 | the type is never `wifi`; a `wlan` name without `wan` is `lan` |
| Classifiers.WlanContainsLan | renderer.js:316-318 | a name containing `wlan` contains `lan` |
| Classifiers.IntendedInterfaceTypeAgrees | renderer.js:316-318 | with `wlan` tested before `lan`, `wifi` is reached exactly for names with `wlan` and no `wan`, and names without `wlan` keep their type |
| Classifiers.Wlan0Card | renderer.js:316-318 | `wlan0` is drawn as `lan`; with the reordered test it is `wifi` |
| Classifiers.RenderLogs | renderer.js:930-952 | no log gives the one placeholder entry; otherwise one entry per non-blank line, in order |
| Classifiers.EntriesAreNonBlankLines | renderer.js:937-949 | entry `k` is the `k`-th non-blank line with that line's level |
| Classifiers.NoBlankEntries | renderer.js:939 | no entry is a blank line |
| Classifiers.LogLevelIgnoresCase | renderer.js:941-942 | a line containing `error` or `failed` in any case is an error line |
| Classifiers.WarningLevel | renderer.js:940-945 | a line is a warning exactly when its lower-case form has `warning` and neither `error` nor `failed` |
| Classifiers.CountServices | renderer.js:799-838 | the counter shows the number of entries whose status is `running` and the number of entries; an `error` entry gives the error row |
| Classifiers.RunningNames | renderer.js:812-813 | the running names are keys of the status map |
| Classifiers.RunningAtMostTotal | renderer.js:812-837 | the running count never exceeds the total |
| Classifiers.CounterTextReadsBack | renderer.js:837 | the counter text splits at `/` into the running count and the total followed by ` Executando` |
| Classifiers.ServiceNamedErrorHidesList | renderer.js:804-807 | a map with an `error` key whose value is a status (a service named `error`) is shown as the error row |
| Commands.ExecOutcome | openwrt-api.js:58-78 | success exactly when connected and the transport returned; stdout, stderr and code are passed through; otherwise `SSH não conectado` or `Comando "<cmd>" falhou: <msg>` |
| Commands.IgnorableIff | openwrt-api.js:80-94 | ignorable exactly when one of the seven patterns occurs in stderr or in the command |
| Commands.SomeHitFromIff | openwrt-api.js:92-93 | the `some` over the patterns from `k` on holds exactly when one of them hits |
| Commands.ToolCommandsIgnorable | openwrt-api.js:80-94 | a command containing `grep`, `awk` or `opkg list` is ignorable whatever its stderr |
| Commands.ToolCommandsNeverWarn | openwrt-api.js:66-68 | such a command is never reported with `console.warn` |
| Commands.WarningsAreExecuted | openwrt-api.js:66-68 | every reported command was sent and came back with a stderr that is not ignorable |
| Commands.WarningsSnoc | openwrt-api.js:66-68 | one more call adds a report exactly when it is a command with a non-ignorable stderr |
| Commands.PortOf | openwrt-api.js:10 | the port is the configured one unless missing or 0, when it is 22 |
| Commands.ProbeKeys | openwrt-api.js:104-297 | each probe's command table has distinct keys, and they are the keys the source lists |
| Commands.SystemInfoKeys | openwrt-api.js:105-112 | `getSystemInfo` has the keys release, version, uptime, time, hostname, model |
| Commands.SystemStatsKeys | openwrt-api.js:127-134 | `getSystemStats` has its listed keys, all distinct |
| Commands.NetworkInfoKeys | openwrt-api.js:150-156 | `getNetworkInfo` has its listed keys, all distinct |
| Commands.WirelessInfoKeys | openwrt-api.js:182-187 | `getWirelessInfo` has its listed keys, all distinct |
| Commands.DhcpInfoKeys | openwrt-api.js:203-208 | `getDHCPInfo` has its listed keys, all distinct |
| Commands.FirewallInfoKeys | openwrt-api.js:224-230 | `getFirewallInfo` has its listed keys, all distinct |
| Commands.PackageInfoKeys | openwrt-api.js:278-284 | `getPackageInfo` has its listed keys, all distinct |
| Commands.LogsKeys | openwrt-api.js:479-485 | `getLogs` has its listed keys, all distinct |
| Commands.BatchKeys | openwrt-api.js:114-123 | the result's key set is the table's key set |
| Commands.BatchValueOf | openwrt-api.js:115-122 | each key holds its own command's stdout (trimmed in `getSystemInfo`) or `Erro: ` and the message |
| Commands.BatchIsolation | openwrt-api.js:115-122 | a key's value depends only on its own command's reply, so one failing command changes no other key |
| Commands.BatchTraceOrder | openwrt-api.js:115-117 | when connected, the commands are sent once each, in table order |
| Commands.DisconnectedBatch | openwrt-api.js:58-61 | when not connected, nothing is sent and every value is `Erro: SSH não conectado` |
| Commands.BatchStep | openwrt-api.js:115-122 | one more table entry adds its key with its own value, and its command to the calls |
| Commands.StatusMapKeys | openwrt-api.js:372-373 | the status map has exactly one key per non-empty listed name |
| Commands.StatusMapValue | openwrt-api.js:374-387 | each name's status is the one its own probe gives |
| Commands.ServiceIsolation | openwrt-api.js:374-387 | a service's status depends only on its own probe's reply, and a probe exception gives `unknown` |
| Commands.StatusTraceOrder | openwrt-api.js:372-375 | one status command per service, in listing order |
| Commands.StatusStep | openwrt-api.js:372-388 | one more name probes and records a non-empty name, and passes over an empty one |
| Commands.ServicesOutcomeCases | openwrt-api.js:366-394 | a failed listing gives `{error: message}`; otherwise the keys are the non-blank lines and each value is that service's status |
| Commands.NotRunningIsRunning | openwrt-api.js:376-383 | a status output containing `not running` is classified as `running` |
| Commands.IntendedStatusAgrees | openwrt-api.js:376-383 | with `not running` tested first, it gives `stopped`, and every other output keeps its class |
| Commands.ActionSucceedsIffExecuted | openwrt-api.js:317-363 | an operation succeeds exactly when its command came back, with its report fields; otherwise it fails with the command's error |
| Commands.SuccessFieldsReport | openwrt-api.js:532-545 | every operation but `reboot` reports stdout, under `config` for `getUCIconfig` and under `output` otherwise |
| Commands.OutputAndMessage | openwrt-api.js:244-258 | the report of most operations has stdout under `output` and the message under `message` |
| Commands.DeleteRuleCommandWords | openwrt-api.js:260-274 | the delete command splits at spaces into `iptables`, `-D`, the chain and the line number, which reads back as the number |
| Commands.CommitTargetPrefix | openwrt-api.js:547-560 | `uci commit` is given the section up to its first `.`, or the whole section without one |
| Commands.UpdateOrder | openwrt-api.js:298-315 | `opkg update` is sent before `opkg list-upgradable`; the second is skipped when the first fails; success needs both |
| Commands.CheckConnectionOrder | openwrt-api.js:15-41 | success exactly when ping, connect and echo all succeed, in that order; a failed ping attempts no connect; each failure message starts with `Falha na conexão: ` |
| Api.OpenWrtApi.constructor | openwrt-api.js:6-13 | the fields come from the config, the port defaults to 22, and a fresh session is not connected |
| Api.OpenWrtApi.ConnectSsh | openwrt-api.js:43-56 | one connect attempt with the configured host, user, password and port; its failure is reported as `SSH: ` and the message |
| Api.OpenWrtApi.ExecuteCommand | openwrt-api.js:58-78 | the result is `ExecOutcome`; nothing is sent without a session; otherwise the command is sent once and the report invariant is kept |
| Api.OpenWrtApi.CheckConnection | openwrt-api.js:15-41 | the result is `CheckOutcome`, the calls are `CheckTrace`, and `isConnected` is set exactly on success |
| Api.OpenWrtApi.LoginAndTest | openwrt-api.js:24-40 | after an answered ping: one connect attempt, then the echo command only if it succeeded |
| Api.OpenWrtApi.Disconnect | openwrt-api.js:96-101 | only a live session is disposed; the flag and the session are left closed, so a second call sends nothing |
| Api.OpenWrtApi.RunBatch | openwrt-api.js:114-123 | the results are `BatchResults` of the table and the calls are its commands in order |
| Api.OpenWrtApi.GetProbe | openwrt-api.js:104-297 | each batch probe runs its own table (trimming only for `getSystemInfo`) |
| Api.OpenWrtApi.GetServices | openwrt-api.js:366-395 | the result is `ServicesOutcome` and the calls are the listing and then one probe per service |
| Api.OpenWrtApi.ProbeAll | openwrt-api.js:372-388 | the loop probes each non-empty name once, in order, and records its status |
| Api.OpenWrtApi.ProbeService | openwrt-api.js:374-386 | one status command; its keywords give `running`, `stopped` or `unknown`; an exception gives `unknown` |
| Api.OpenWrtApi.Perform | openwrt-api.js:244-625 | each single-command operation sends its one command once and tags the outcome as `ActionOutcome` |
| Api.OpenWrtApi.UpdatePackages | openwrt-api.js:298-315 | the result is `UpdateOutcome` and the calls are `UpdateTrace` |

## Left out

- The DOM work of renderer.js is not modelled: HTML strings, event listeners, `localStorage`, auto-refresh timers, messages and confirmation prompts. Only the values the parsers and classifiers compute are modelled.
- main.js and preload.js are not part of this model. They are window, menu, dialog and IPC plumbing.
- `getInterfaceStatus` is not modelled, because it relies on `JSON.parse` of `ubus` output.
- `formatLeaseTime` is not modelled (date and locale formatting). Neither is the floating-point load bar.
- The `ping` and `node-ssh` libraries, their timeouts and `readyTimeout` are replaced by the scripted `Transport.Link`. Its replies are fixed when it is made.
- A session that drops between calls is not modelled.
- The shell semantics inside the command strings are not modelled (`||`, `&&`, `2>/dev/null`, `&`). To the code, commands are opaque strings.
- `console.log` and `console.error` are not modelled. The `console.warn` reports are kept as the list `warnings`.
- `Promise.all` concurrency in the renderer is not modelled. Each operation runs alone.
- Character classes are ASCII only:
  - `\s` is space, tab, line feed, vertical tab, form feed and carriage return, without the Unicode spaces JavaScript adds;
  - `\w` is ASCII letters, digits and `_`;
  - `toLowerCase` folds only `A`-`Z`.
- Firewall.ParseFirewallRules: the rule number is the digit string read as an unbounded decimal number; the rounding of `parseInt` above 2^53 is not modelled.
- Packages.ParsePackages: `upgradableMap` is a map, not a JavaScript object. Names such as `__proto__` that a plain object treats specially are not modelled.
- Commands.StatusMap: `serviceStatus` in `getServices` is a map, not a JavaScript object. A service named `__proto__` and the order a plain object gives integer-like keys are not modelled.
- Classifiers.CountServices: `Object.entries` order is not modelled, because the counter does not depend on it.
- Api.OpenWrtApi.Perform: the per-operation messages are modelled as the source's literal strings. The commands are built by `Commands.CommandOf`. `clearLogs`, `reboot` and `backupConfig` are modelled with the rest, but what their commands do on the router is not.

## Findings

| source | as written | input that shows it | evidently intended | confidence | as-written member | corrected member |
|---|---|---|---|---|---|---|
| renderer.js:316-318 | `lan` is tested before `wlan`, so the `wifi` branch is unreachable | interface name `wlan0` | wireless interfaces get the `wifi` card | not executed | Classifiers.Wlan0Card | Classifiers.IntendedInterfaceTypeAgrees |
| openwrt-api.js:378-381 | `running` is tested before `not running`, so a stopped service whose status says `not running` is reported as running | status output `not running` | `not running` gives `stopped` | not executed | Commands.NotRunningIsRunning | Commands.IntendedStatusAgrees |
| renderer.js:765-767 | the upgradable map keeps `parts[1]`, which in `opkg list-upgradable` output (`name - installed - available`) is the installed version, so `newVersion` repeats `currentVersion` | upgradable line `dnsmasq - 2.85-1 - 2.86-1` | `newVersion` is the available version, the last segment | not executed | Packages.UpgradableLineKeepsMiddle | Packages.IntendedUpgradeTakesAvailable |
| renderer.js:396 | `\w+` stops at the `-` of `br-lan`, so the LAN bridge's header opens no record and the `inet` line below it overwrites the address of the interface listed before it | `ip addr show` line `4: br-lan: <BROADCAST,UP>` followed by `inet 192.168.1.1/24` | every interface `ip` lists gets its own record, named up to the `:` | not executed | Interfaces.DashedNameJoinsPrevious | Interfaces.IntendedHeaderNameAgrees |

All four rows keep the behaviour as written in the rest of the model (`InterfaceType`, `ClassifyStatus`, `NameAndVersion`, `HeaderName`), because the program behaves that way. The corrected definitions (`IntendedInterfaceType`, `IntendedClassifyStatus`, `IntendedUpgradePair`, `IntendedHeaderName`) are defined beside them, and their properties are proved.
