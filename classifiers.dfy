/**
 * The small decisions the renderer takes while drawing its tabs: the card
 * type of a network interface (renderer.js:316-318), the level of a system
 * log line (renderer.js:930-955) and the `running/total` count of the
 * services tab (renderer.js:799-838).
 */
module Classifiers {
  import opened Wrappers
  import opened Text

  // ---------------------------------------------------------------------------
  // Interface card type
  // ---------------------------------------------------------------------------

  /** The CSS class of an interface card. */
  datatype CardType = Wan | Lan | Wifi

  /** The card type as the renderer computes it: `wan`, then `lan`, then `wlan` is looked for in the name. */
  function InterfaceType(name: string): CardType {
    if Contains(name, "wan") then Wan
    else if Contains(name, "lan") then Lan
    else if Contains(name, "wlan") then Wifi
    else Lan
  }

  /** Every name that contains `wlan` also contains `lan`. */
  lemma WlanContainsLan(name: string)
    requires Contains(name, "wlan")
    ensures Contains(name, "lan")
  {
    assert "wlan"[1..][..3] == "lan";
    ContainsInside(name, "wlan", "lan", 1);
  }

  /**
   * The `wifi` branch is never taken: a wireless interface such as `wlan0` is
   * drawn as a `lan` card, because `lan` is tested before `wlan`.
   */
  lemma InterfaceTypeNeverWifi(name: string)
    ensures InterfaceType(name) != Wifi
    ensures Contains(name, "wlan") && !Contains(name, "wan") ==> InterfaceType(name) == Lan
  {
    if Contains(name, "wlan") {
      WlanContainsLan(name);
    }
  }

  /** The card type with `wlan` tested before `lan`, so that wireless interfaces get their own card. */
  function IntendedInterfaceType(name: string): CardType {
    if Contains(name, "wan") then Wan
    else if Contains(name, "wlan") then Wifi
    else if Contains(name, "lan") then Lan
    else Lan
  }

  /**
   * The reordered test reaches every type: names with `wlan` (and no `wan`)
   * are `Wifi`, and every other name keeps the type the renderer gives it.
   */
  lemma IntendedInterfaceTypeAgrees(name: string)
    ensures IntendedInterfaceType(name) == Wifi <==> Contains(name, "wlan") && !Contains(name, "wan")
    ensures !Contains(name, "wlan") ==> IntendedInterfaceType(name) == InterfaceType(name)
    ensures IntendedInterfaceType(name) == Wan <==> Contains(name, "wan")
  {
  }

  /** The type of `wlan0`, as drawn and as intended. */
  lemma Wlan0Card()
    ensures InterfaceType("wlan0") == Lan
    ensures IntendedInterfaceType("wlan0") == Wifi
  {
    var name := "wlan0";
    assert Contains(name, "wlan") by {
      assert OccursAt(name, "wlan", 0);
      FindFromAt(name, "wlan", 0, 0);
    }
    assert !Contains(name, "wan") by {
      forall j: nat ensures !OccursAt(name, "wan", j) {
        if j == 0 {
          assert name[0..][1] == 'l';
        } else if j <= |name| {
          assert j < |name| ==> name[j..][0] == name[j];
        }
      }
      ContainsIff(name, "wan");
    }
    InterfaceTypeNeverWifi(name);
  }

  // ---------------------------------------------------------------------------
  // Log lines
  // ---------------------------------------------------------------------------

  /** The CSS class of a log entry. */
  datatype LogLevel = Error | Warning | Info

  /** One rendered log entry: its class and the line as read. */
  datatype LogEntry = LogEntry(level: LogLevel, text: string)

  /** `error` or `failed` anywhere in the lower-cased line marks an error; otherwise `warning` marks a warning. */
  function LogLevelOf(line: string): LogLevel {
    var l := Lower(line);
    if Contains(l, "error") || Contains(l, "failed") then Error
    else if Contains(l, "warning") then Warning
    else Info
  }

  /** The entry shown when there is no system log. */
  const NoLogsEntry := LogEntry(Info, "Nenhum log disponível")

  /** The entries of the given lines: blank lines are skipped. */
  function EntriesOf(lines: seq<string>): seq<LogEntry> {
    if lines == [] then []
    else
      var line := lines[|lines| - 1];
      EntriesOf(lines[..|lines| - 1]) + (if Trim(line) != "" then [LogEntry(LogLevelOf(line), line)] else [])
  }

  /** The entries `updateLogsTab` draws for `logs.system`. */
  function LogEntries(system: string): seq<LogEntry> {
    if system == "" then [NoLogsEntry] else EntriesOf(Split(system, "\n"))
  }

  /** The loop of `updateLogsTab` over the system log. */
  method RenderLogs(system: string) returns (entries: seq<LogEntry>)
    ensures entries == LogEntries(system)
  {
    if system == "" {
      return [NoLogsEntry];
    }
    var lines := Split(system, "\n");
    entries := [];
    var i := 0;
    while i < |lines|
      invariant 0 <= i <= |lines|
      invariant entries == EntriesOf(lines[..i])
    {
      assert lines[..i + 1][..i] == lines[..i];
      var line := lines[i];
      if Trim(line) != "" {
        var level := Info;
        var lower := Lower(line);
        if Contains(lower, "error") || Contains(lower, "failed") {
          level := Error;
        } else if Contains(lower, "warning") {
          level := Warning;
        }
        entries := entries + [LogEntry(level, line)];
      }
      i := i + 1;
    }
    assert lines[..i] == lines;
  }

  /** Lower-casing keeps an occurrence in place, lower-cased. */
  lemma LowerOccurs(s: string, pat: string, j: nat)
    requires OccursAt(s, pat, j)
    ensures OccursAt(Lower(s), Lower(pat), j)
  {
    assert Lower(s)[j..][..|pat|] == Lower(pat) by {
      forall k | 0 <= k < |pat| ensures Lower(s)[j..][k] == Lower(pat)[k] {
        assert s[j..][k] == pat[k];
      }
    }
  }

  /** Case does not matter: a line with `ERROR`, `Failed` or any other spelling of the words is an error. */
  lemma LogLevelIgnoresCase(line: string, word: string)
    requires Lower(word) == "error" || Lower(word) == "failed"
    requires Contains(line, word)
    ensures LogLevelOf(line) == Error
  {
    var j := Find(line, word).value;
    LowerOccurs(line, word, j);
    ContainsIff(Lower(line), Lower(word));
  }

  /** A warning line is a warning only when it mentions no error and no failure. */
  lemma WarningLevel(line: string)
    ensures LogLevelOf(line) == Warning <==>
      Contains(Lower(line), "warning") && !Contains(Lower(line), "error") && !Contains(Lower(line), "failed")
  {
  }

  /**
   * One entry per non-blank line, in order, each carrying the line unchanged
   * and the level of that line.
   */
  lemma {:induction false} EntriesAreNonBlankLines(lines: seq<string>)
    ensures |EntriesOf(lines)| == |NonBlank(lines)|
    ensures forall k :: 0 <= k < |EntriesOf(lines)| ==>
      EntriesOf(lines)[k] == LogEntry(LogLevelOf(NonBlank(lines)[k]), NonBlank(lines)[k])
  {
    if lines != [] {
      EntriesAreNonBlankLines(lines[..|lines| - 1]);
    }
  }

  /** No entry is blank: every entry holds a line with a non-white-space character. */
  lemma {:induction false} NoBlankEntries(lines: seq<string>)
    ensures forall e :: e in EntriesOf(lines) ==> !AllSpace(e.text)
  {
    if lines != [] {
      NoBlankEntries(lines[..|lines| - 1]);
      TrimEmptyIff(lines[|lines| - 1]);
    }
  }

  // ---------------------------------------------------------------------------
  // Services count
  // ---------------------------------------------------------------------------

  /** The names of the services whose status is exactly `running`. */
  function RunningNames(services: map<string, string>): (r: set<string>)
    ensures r <= services.Keys
  {
    set name | name in services && services[name] == "running"
  }

  /** What the services tab shows: the error row, or the `running/total` count. */
  datatype ServicesView = ErrorRow | Counted(running: nat, total: nat)

  /** An `error` key with a non-empty (truthy) value shows the error row; otherwise the services are counted. */
  function ServicesViewOf(services: map<string, string>): ServicesView {
    if "error" in services && services["error"] != "" then ErrorRow
    else Counted(|RunningNames(services)|, |services|)
  }

  /** `updateServicesTab`: `runningCount` is incremented once per entry whose status is `running`. */
  method CountServices(services: map<string, string>) returns (view: ServicesView)
    ensures view == ServicesViewOf(services)
  {
    if "error" in services && services["error"] != "" {
      return ErrorRow;
    }
    var runningCount := 0;
    var pending := services.Keys;
    while pending != {}
      invariant pending <= services.Keys
      invariant runningCount == |RunningNames(services) - pending|
      decreases |pending|
    {
      var name :| name in pending;
      CountStep(RunningNames(services), pending, name);
      if services[name] == "running" {
        runningCount := runningCount + 1;
      }
      pending := pending - {name};
    }
    assert RunningNames(services) - {} == RunningNames(services);
    view := Counted(runningCount, |services|);
  }

  /** Taking one name out of the pending ones counts it once if it is running. */
  lemma CountStep(running: set<string>, pending: set<string>, name: string)
    requires name in pending
    ensures |running - (pending - {name})| == |running - pending| + (if name in running then 1 else 0)
  {
    if name in running {
      assert running - (pending - {name}) == (running - pending) + {name};
    } else {
      assert running - (pending - {name}) == running - pending;
    }
  }

  lemma {:induction false} SubsetCard(a: set<string>, b: set<string>)
    requires a <= b
    ensures |a| <= |b|
    decreases |b|
  {
    if b != {} {
      var x :| x in b;
      SubsetCard(a - {x}, b - {x});
    }
  }

  /** The running count never exceeds the number of services listed. */
  lemma RunningAtMostTotal(services: map<string, string>)
    ensures |RunningNames(services)| <= |services|
  {
    SubsetCard(RunningNames(services), services.Keys);
  }

  /** The text of the counter, `${runningCount}/${total} Executando`. */
  function CounterText(view: ServicesView): string
    requires view.Counted?
  {
    NatToString(view.running) + "/" + NatToString(view.total) + " Executando"
  }

  /**
   * The counter reads back: split at `/`, it gives the digits of the running
   * count, then the digits of the total followed by ` Executando`.
   */
  lemma CounterTextReadsBack(view: ServicesView)
    requires view.Counted?
    ensures Split(CounterText(view), "/") == [NatToString(view.running), NatToString(view.total) + " Executando"]
  {
    var a := NatToString(view.running);
    var b := NatToString(view.total) + " Executando";
    var text := a + "/" + b;
    assert text == CounterText(view);
    MissingCharNotContained(a, "/", 0);
    assert Find(text, "/") == Some(|a|) by {
      assert OccursAt(text, "/", |a|) by { assert text[|a|..][..1] == "/"; }
      forall j | 0 <= j < |a| ensures !OccursAt(text, "/", j) {
        assert text[j..][0] == a[j];
      }
      FindFromAt(text, "/", 0, |a|);
    }
    assert text[|a| + 1..] == b;
    assert !Contains(b, "/") by {
      forall i | 0 <= i < |b| ensures b[i] != '/' {
        if i >= |NatToString(view.total)| {
          assert b[i] == " Executando"[i - |NatToString(view.total)|];
        }
      }
      MissingCharNotContained(b, "/", 0);
    }
    FindFromNone(text, "/", |a| + 1);
    assert SplitFrom(text, "/", |a| + 1) == [b];
    assert Split(text, "/") == [text[..|a|]] + [b];
    assert text[..|a|] == a;
  }

  /** A service that happens to be called `error` makes the whole tab show the error row. */
  lemma ServiceNamedErrorHidesList(services: map<string, string>)
    requires "error" in services && services["error"] in {"running", "stopped", "unknown"}
    ensures ServicesViewOf(services) == ErrorRow
  {
  }
}
