/**
 * `parsePackages` of the renderer (renderer.js:756-787): the installed list
 * `opkg list-installed` and the upgradable list `opkg list-upgradable` are
 * both read as `name - version` lines; the upgradable list is first folded
 * into a name-keyed map, then every installed line becomes a package record
 * that looks its name up in that map.
 */
module Packages {
  import opened Wrappers
  import opened Text

  /** One package: `{name, currentVersion, newVersion}`; a name missing from the map gives `undefined` (`None`). */
  datatype Package = Package(name: string, currentVersion: string, newVersion: Option<string>)

  /** `line.split(' - ')` with at least two segments: the trimmed first and second segments. */
  function NameAndVersion(line: string): Option<(string, string)> {
    var parts := Split(line, " - ");
    if |parts| >= 2 then Some((Trim(parts[0]), Trim(parts[1]))) else None
  }

  /** The name and version each line yields, in order. */
  function Pairs(lines: seq<string>): (ps: seq<Option<(string, string)>>)
    ensures |ps| == |lines| && forall i :: 0 <= i < |lines| ==> ps[i] == NameAndVersion(lines[i])
  {
    seq(|lines|, i requires 0 <= i < |lines| => NameAndVersion(lines[i]))
  }

  /** The map the given pairs fill in order: a later pair with the same name overwrites an earlier one. */
  function FoldPairs(ps: seq<Option<(string, string)>>): map<string, string> {
    if ps == [] then map[]
    else
      var m := FoldPairs(ps[..|ps| - 1]);
      match ps[|ps| - 1]
      case None => m
      case Some(e) => m[e.0 := e.1]
  }

  /** `upgradableMap` after the given upgradable lines. */
  function UpgradeMap(lines: seq<string>): map<string, string> {
    FoldPairs(Pairs(lines))
  }

  /** `upgradableMap` for the whole upgradable listing (left empty when the listing is empty). */
  function UpgradableMap(output: string): map<string, string> {
    if output == "" then map[] else UpgradeMap(Split(output, "\n"))
  }

  /** `upgradableMap[name]`. */
  function Lookup(m: map<string, string>, name: string): Option<string> {
    if name in m then Some(m[name]) else None
  }

  /** The record an installed line yields under the given map. */
  function PackageOf(line: string, m: map<string, string>): Option<Package> {
    match NameAndVersion(line)
    case None => None
    case Some(e) => Some(Package(e.0, e.1, Lookup(m, e.0)))
  }

  /** The records of the given installed lines, in order. */
  function PackagesOf(lines: seq<string>, m: map<string, string>): seq<Package> {
    if lines == [] then []
    else
      var p := PackageOf(lines[|lines| - 1], m);
      PackagesOf(lines[..|lines| - 1], m) + (if p.Some? then [p.value] else [])
  }

  /** What `parsePackages` returns. */
  function ParsedPackages(installed: string, upgradable: string): seq<Package> {
    if installed == "" then [] else PackagesOf(Split(installed, "\n"), UpgradableMap(upgradable))
  }

  /** `parsePackages(installedOutput, upgradableOutput)`. */
  method ParsePackages(installed: string, upgradable: string) returns (packages: seq<Package>)
    ensures installed == "" ==> packages == []
    ensures packages == ParsedPackages(installed, upgradable)
  {
    packages := [];
    if installed == "" {
      return;
    }
    var upgradableMap: map<string, string> := map[];
    if upgradable != "" {
      upgradableMap := FillUpgradable(Split(upgradable, "\n"));
    }
    packages := ReadInstalled(Split(installed, "\n"), upgradableMap);
  }

  /** The `forEach` over the upgradable lines that fills `upgradableMap`. */
  method FillUpgradable(lines: seq<string>) returns (upgradableMap: map<string, string>)
    ensures upgradableMap == UpgradeMap(lines)
  {
    upgradableMap := map[];
    ghost var pairs := Pairs(lines);
    var i := 0;
    while i < |lines|
      invariant 0 <= i <= |lines|
      invariant upgradableMap == FoldPairs(pairs[..i])
    {
      assert pairs[..i + 1][..i] == pairs[..i];
      var entry := NameAndVersion(lines[i]);
      if entry.Some? {
        upgradableMap := upgradableMap[entry.value.0 := entry.value.1];
      }
      i := i + 1;
    }
    assert pairs[..i] == pairs;
  }

  /** The `forEach` over the installed lines that pushes one record per `name - version` line. */
  method ReadInstalled(lines: seq<string>, upgradableMap: map<string, string>) returns (packages: seq<Package>)
    ensures packages == PackagesOf(lines, upgradableMap)
  {
    packages := [];
    var i := 0;
    while i < |lines|
      invariant 0 <= i <= |lines|
      invariant packages == PackagesOf(lines[..i], upgradableMap)
    {
      assert lines[..i + 1][..i] == lines[..i];
      var entry := NameAndVersion(lines[i]);
      if entry.Some? {
        var (name, version) := entry.value;
        packages := packages + [Package(name, version, Lookup(upgradableMap, name))];
      }
      i := i + 1;
    }
    assert lines[..i] == lines;
  }

  // ---------------------------------------------------------------------------
  // Properties
  // ---------------------------------------------------------------------------

  /** A line yields a name and a version exactly when it contains the separator ` - `. */
  lemma NameAndVersionIff(line: string)
    ensures NameAndVersion(line).Some? <==> Contains(line, " - ")
  {
    SplitHead(line, " - ");
  }

  /**
   * `opkg list-upgradable` prints `name - old - new`: the value kept for the
   * name is the middle segment, the version currently installed, and the
   * available version is dropped.
   */
  lemma UpgradableLineKeepsMiddle(name: string, installed: string, available: string)
    requires NoSpace(name) && NoSpace(installed)
    ensures NameAndVersion(name + " - " + installed + " - " + available) == Some((name, installed))
  {
    UpgradableLineSegments(name, installed, available);
    NameAndVersionOfParts(name + " - " + installed + " - " + available, name, installed);
  }

  /** A line whose first two ` - ` segments are words without white space yields those words. */
  lemma NameAndVersionOfParts(line: string, name: string, version: string)
    requires NoSpace(name) && NoSpace(version)
    requires |Split(line, " - ")| >= 2 && Split(line, " - ")[0] == name && Split(line, " - ")[1] == version
    ensures NameAndVersion(line) == Some((name, version))
  {
    TrimNoSpace(name);
    TrimNoSpace(version);
  }

  /** The first two ` - ` segments of `name - old - new` are the name and the old version. */
  lemma UpgradableLineSegments(name: string, installed: string, available: string)
    requires NoSpace(name) && NoSpace(installed)
    ensures var parts := Split(name + " - " + installed + " - " + available, " - ");
      |parts| >= 2 && parts[0] == name && parts[1] == installed
  {
    var sep := " - ";
    assert IsSpace(sep[0]);
    FirstTwoSegments(name, installed, available, sep);
  }

  /** Two words free of the separator's first character are the first two pieces. */
  lemma FirstTwoSegments(w0: string, w1: string, rest: string, sep: string)
    requires |sep| > 0
    requires forall i :: 0 <= i < |w0| ==> w0[i] != sep[0]
    requires forall i :: 0 <= i < |w1| ==> w1[i] != sep[0]
    ensures var parts := Split(w0 + sep + w1 + sep + rest, sep);
      |parts| >= 2 && parts[0] == w0 && parts[1] == w1
  {
    var line := w0 + sep + w1 + sep + rest;
    var n := |w0|;
    var m := n + |sep| + |w1|;
    assert line[n..n + |sep|] == sep;
    assert line[m..m + |sep|] == sep;
    forall j | 0 <= j < n ensures line[j] != sep[0] {
      assert line[j] == w0[j];
    }
    forall j | n + |sep| <= j < m ensures line[j] != sep[0] {
      assert line[j] == w1[j - n - |sep|];
    }
    FirstTwoPieces(line, sep, n, m);
    assert line[..n] == w0;
    assert line[n + |sep|..m] == w1;
  }

  /** Separators at `n` and `m`, with no separator character before `n` nor between them, bound the first two pieces. */
  lemma FirstTwoPieces(line: string, sep: string, n: nat, m: nat)
    requires |sep| > 0 && n + |sep| <= m && m + |sep| <= |line|
    requires line[n..n + |sep|] == sep && line[m..m + |sep|] == sep
    requires forall j :: 0 <= j < n ==> line[j] != sep[0]
    requires forall j :: n + |sep| <= j < m ==> line[j] != sep[0]
    ensures |Split(line, sep)| >= 2 && Split(line, sep)[0] == line[..n] && Split(line, sep)[1] == line[n + |sep|..m]
  {
    assert FindFrom(line, sep, 0) == Some(n) by {
      SeparatorAfter(line, 0, n, sep);
    }
    assert FindFrom(line, sep, n + |sep|) == Some(m) by {
      SeparatorAfter(line, n + |sep|, m, sep);
    }
    SplitFirstTwo(line, sep, n, m);
  }

  /** When the separator's first character does not occur in `line[k..i]`, the first separator from `k` on is the one at `i`. */
  lemma SeparatorAfter(line: string, k: nat, i: nat, sep: string)
    requires |sep| > 0 && k <= i && i + |sep| <= |line|
    requires line[i..i + |sep|] == sep
    requires forall j :: k <= j < i ==> line[j] != sep[0]
    ensures FindFrom(line, sep, k) == Some(i)
  {
    assert line[i..][..|sep|] == sep;
    forall j | k <= j < i ensures !OccursAt(line, sep, j) {
      assert line[j..][0] == line[j];
    }
    FindFromAt(line, sep, k, i);
  }

  /** The value recorded for a name comes from the last pair that carries that name. */
  lemma {:induction false} FoldPairsLastWins(ps: seq<Option<(string, string)>>, name: string)
    requires name in FoldPairs(ps)
    ensures exists j :: (0 <= j < |ps| && ps[j] == Some((name, FoldPairs(ps)[name]))
      && forall k :: j < k < |ps| ==> ps[k].None? || ps[k].value.0 != name)
  {
    var init := ps[..|ps| - 1];
    var last := ps[|ps| - 1];
    if last.Some? && last.value.0 == name {
      assert ps[|ps| - 1] == Some((name, FoldPairs(ps)[name]));
    } else {
      assert FoldPairs(ps)[name] == FoldPairs(init)[name];
      FoldPairsLastWins(init, name);
      var j :| 0 <= j < |init| && init[j] == Some((name, FoldPairs(init)[name]))
        && forall k :: j < k < |init| ==> init[k].None? || init[k].value.0 != name;
      assert ps[j] == init[j];
      forall k | j < k < |ps|
        ensures ps[k].None? || ps[k].value.0 != name
      {
        if k < |init| {
          assert ps[k] == init[k];
        }
      }
    }
  }

  /** A name carried by any pair is a key of the map. */
  lemma {:induction false} FoldPairsHasKey(ps: seq<Option<(string, string)>>, j: nat)
    requires j < |ps| && ps[j].Some?
    ensures ps[j].value.0 in FoldPairs(ps)
  {
    var init := ps[..|ps| - 1];
    if j < |init| {
      assert init[j] == ps[j];
      FoldPairsHasKey(init, j);
    }
  }

  /** The version recorded for a name comes from the last upgradable line that carries that name. */
  lemma UpgradeMapLastWins(lines: seq<string>, name: string)
    requires name in UpgradeMap(lines)
    ensures exists j :: (0 <= j < |lines| && NameAndVersion(lines[j]) == Some((name, UpgradeMap(lines)[name]))
      && forall k :: j < k < |lines| ==> NameAndVersion(lines[k]).None? || NameAndVersion(lines[k]).value.0 != name)
  {
    var ps := Pairs(lines);
    FoldPairsLastWins(ps, name);
    var j :| 0 <= j < |ps| && ps[j] == Some((name, FoldPairs(ps)[name]))
      && forall k :: j < k < |ps| ==> ps[k].None? || ps[k].value.0 != name;
    assert NameAndVersion(lines[j]) == ps[j];
  }

  /** A name carried by any upgradable line is a key of the map. */
  lemma UpgradeMapHasKey(lines: seq<string>, j: nat)
    requires j < |lines| && NameAndVersion(lines[j]).Some?
    ensures NameAndVersion(lines[j]).value.0 in UpgradeMap(lines)
  {
    FoldPairsHasKey(Pairs(lines), j);
  }

  /** A name is in the upgradable map exactly when some upgradable line carries it. */
  lemma UpgradeMapKeys(lines: seq<string>, name: string)
    ensures name in UpgradeMap(lines) <==>
      exists j :: 0 <= j < |lines| && NameAndVersion(lines[j]).Some? && NameAndVersion(lines[j]).value.0 == name
  {
    if name in UpgradeMap(lines) {
      UpgradeMapLastWins(lines, name);
    }
    if exists j :: 0 <= j < |lines| && NameAndVersion(lines[j]).Some? && NameAndVersion(lines[j]).value.0 == name {
      var j :| 0 <= j < |lines| && NameAndVersion(lines[j]).Some? && NameAndVersion(lines[j]).value.0 == name;
      UpgradeMapHasKey(lines, j);
    }
  }

  /** Installed lines are read one at a time: the records of two runs of lines are concatenated in order. */
  lemma {:induction false} PackagesAppend(a: seq<string>, b: seq<string>, m: map<string, string>)
    ensures PackagesOf(a + b, m) == PackagesOf(a, m) + PackagesOf(b, m)
    decreases |b|
  {
    if b == [] {
      assert a + b == a;
    } else {
      var init := b[..|b| - 1];
      assert (a + b)[..|a + b| - 1] == a + init;
      assert (a + b)[|a + b| - 1] == b[|b| - 1];
      PackagesAppend(a, init, m);
    }
  }

  /**
   * Every record comes from an installed line: its name and current version are
   * that line's trimmed segments, and its new version is the map's entry for the name.
   */
  lemma {:induction false} PackagesFromInstalled(lines: seq<string>, m: map<string, string>, k: nat)
    requires k < |PackagesOf(lines, m)|
    ensures var p := PackagesOf(lines, m)[k];
      && p.newVersion == Lookup(m, p.name)
      && exists j :: 0 <= j < |lines| && NameAndVersion(lines[j]) == Some((p.name, p.currentVersion))
  {
    var init := lines[..|lines| - 1];
    if k < |PackagesOf(init, m)| {
      PackagesFromInstalled(init, m, k);
      var p := PackagesOf(init, m)[k];
      var j :| 0 <= j < |init| && NameAndVersion(init[j]) == Some((p.name, p.currentVersion));
      assert lines[j] == init[j];
    } else {
      assert NameAndVersion(lines[|lines| - 1]).Some?;
    }
  }

  /** A name that appears only in the upgradable list never becomes a record. */
  lemma OnlyInstalledNames(lines: seq<string>, m: map<string, string>, name: string)
    requires forall j :: 0 <= j < |lines| ==> NameAndVersion(lines[j]).None? || NameAndVersion(lines[j]).value.0 != name
    ensures forall p :: p in PackagesOf(lines, m) ==> p.name != name
  {
    forall p | p in PackagesOf(lines, m) ensures p.name != name {
      var k :| 0 <= k < |PackagesOf(lines, m)| && PackagesOf(lines, m)[k] == p;
      PackagesFromInstalled(lines, m, k);
    }
  }
  // ---------------------------------------------------------------------------
  // The version an upgradable line offers
  // ---------------------------------------------------------------------------

  /**
   * The upgradable entry read with the available version: the name and the
   * last ` - ` segment, which for `name - old - new` is `new`; a two-segment
   * line reads as before.
   */
  function IntendedUpgradePair(line: string): Option<(string, string)> {
    var parts := Split(line, " - ");
    if |parts| >= 2 then Some((Trim(parts[0]), Trim(parts[|parts| - 1]))) else None
  }

  /** The corrected entry maps the name to the available version of `name - installed - available`. */
  lemma IntendedUpgradeTakesAvailable(name: string, installed: string, available: string)
    requires NoSpace(name) && NoSpace(installed) && NoSpace(available)
    ensures IntendedUpgradePair(name + " - " + installed + " - " + available) == Some((name, available))
    ensures NameAndVersion(name + " - " + installed + " - " + available) == Some((name, installed))
  {
    UpgradableLineKeepsMiddle(name, installed, available);
    UpgradableLineThreeSegments(name, installed, available);
    TrimNoSpace(name);
    TrimNoSpace(available);
  }

  /** The corrected entry is the code's entry on lines with exactly two segments, and both exist on the same lines. */
  lemma IntendedUpgradeAgrees(line: string)
    ensures IntendedUpgradePair(line).Some? <==> NameAndVersion(line).Some?
    ensures |Split(line, " - ")| == 2 ==> IntendedUpgradePair(line) == NameAndVersion(line)
  {
  }

  /** `name - installed - available` splits into exactly those three segments. */
  lemma UpgradableLineThreeSegments(name: string, installed: string, available: string)
    requires NoSpace(name) && NoSpace(installed) && NoSpace(available)
    ensures Split(name + " - " + installed + " - " + available, " - ") == [name, installed, available]
  {
    var sep := " - ";
    var line := name + sep + installed + sep + available;
    var n := |name|;
    var m := n + |sep| + |installed|;
    assert IsSpace(sep[0]);
    assert line[n..n + |sep|] == sep;
    assert line[m..m + |sep|] == sep;
    forall j | 0 <= j < n ensures line[j] != sep[0] {
      assert line[j] == name[j];
    }
    forall j | n + |sep| <= j < m ensures line[j] != sep[0] {
      assert line[j] == installed[j - n - |sep|];
    }
    forall j | m + |sep| <= j < |line| ensures line[j] != sep[0] {
      assert line[j] == available[j - m - |sep|];
    }
    ThreePieces(line, sep, n, m);
    assert line[..n] == name;
    assert line[n + |sep|..m] == installed;
    assert line[m + |sep|..] == available;
  }

  /** Separators at `n` and `m`, and no separator character elsewhere, cut a line into exactly three pieces. */
  lemma ThreePieces(line: string, sep: string, n: nat, m: nat)
    requires |sep| > 0 && n + |sep| <= m && m + |sep| <= |line|
    requires line[n..n + |sep|] == sep && line[m..m + |sep|] == sep
    requires forall j :: 0 <= j < n ==> line[j] != sep[0]
    requires forall j :: n + |sep| <= j < m ==> line[j] != sep[0]
    requires forall j :: m + |sep| <= j < |line| ==> line[j] != sep[0]
    ensures Split(line, sep) == [line[..n], line[n + |sep|..m], line[m + |sep|..]]
  {
    SeparatorAfter(line, 0, n, sep);
    SeparatorAfter(line, n + |sep|, m, sep);
    LastSegment(line, sep, m + |sep|);
    SplitFromFound(line, sep, 0, n);
    SplitFromFound(line, sep, n + |sep|, m);
  }

  /** Text after `k` without the separator's first character is the last piece. */
  lemma LastSegment(line: string, sep: string, k: nat)
    requires |sep| > 0 && k <= |line|
    requires forall j :: k <= j < |line| ==> line[j] != sep[0]
    ensures SplitFrom(line, sep, k) == [line[k..]]
  {
    var t := line[k..];
    forall i | 0 <= i < |t| ensures t[i] != sep[0] {
      assert t[i] == line[k + i];
    }
    MissingCharNotContained(t, sep, 0);
    FindFromNone(line, sep, k);
  }
}
