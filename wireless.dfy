/**
 * `parseWirelessNetworks` of the renderer (renderer.js:532-556): every line of
 * the `iwinfo` output that starts with `IFACE   ESSID:` opens a network card;
 * the card is pushed when the next such line opens another one, and the last
 * one is pushed when the input ends.
 */
module Wireless {
  import opened Wrappers
  import opened Text

  /** One network card: `{interface, ssid, mode, channel, frequency, clients}`. */
  datatype Network = Network(iface: string, ssid: string, mode: string, channel: string,
                             frequency: string, clients: string)

  /** The interface name captured by `/^(\w+)\s+ESSID:/`, if the line is a network header. */
  function EssidHeader(line: string): (r: Option<string>)
    ensures r.Some? ==> |r.value| > 0 && r.value <= line
  {
    var w := Span(line, IsWordChar);
    if w == 0 then None
    else
      var e := SpaceEnd(line, w);
      if e > w && OccursAt(line, "ESSID:", e) then Some(line[..w]) else None
  }

  /** `s.replace(/"/g, '')`: every double quote removed, the other characters kept in order. */
  function RemoveQuotes(s: string): (r: string)
    ensures |r| <= |s|
    ensures forall i :: 0 <= i < |r| ==> r[i] != '"'
  {
    if s == [] then []
    else RemoveQuotes(s[..|s| - 1]) + (if s[|s| - 1] == '"' then [] else [s[|s| - 1]])
  }

  /** `line.split('ESSID:')[1]?.replace(/"/g, '').trim() || 'N/A'`. */
  function SsidOf(line: string): string {
    var parts := Split(line, "ESSID:");
    var t := if |parts| >= 2 then Trim(RemoveQuotes(parts[1])) else "";
    if t == "" then "N/A" else t
  }

  /** The card a header line opens. */
  function NetworkOf(iface: string, line: string): Network {
    Network(iface, SsidOf(line), "AP", "N/A", "N/A", "0")
  }

  /** The parser's running state: the cards pushed so far and `currentNet`. */
  datatype WScan = WScan(done: seq<Network>, current: Option<Network>)

  /** The cards pushed once the input ends. */
  function WFlush(st: WScan): seq<Network> {
    if st.current.Some? then st.done + [st.current.value] else st.done
  }

  /** One iteration of the `forEach` over the lines. */
  function WStep(st: WScan, line: string): WScan {
    match EssidHeader(line)
    case None => st
    case Some(iface) => WScan(WFlush(st), Some(NetworkOf(iface, line)))
  }

  /** The state after the given lines. */
  function WFold(lines: seq<string>): WScan {
    if lines == [] then WScan([], None)
    else WStep(WFold(lines[..|lines| - 1]), lines[|lines| - 1])
  }

  /** What `parseWirelessNetworks` returns for the given output. */
  function ParsedNetworks(output: string): seq<Network> {
    if output == "" then [] else WFlush(WFold(Split(output, "\n")))
  }

  /** `parseWirelessNetworks(iwinfoOutput)`. */
  method ParseWirelessNetworks(output: string) returns (networks: seq<Network>)
    ensures networks == ParsedNetworks(output)
  {
    networks := [];
    if output == "" {
      return;
    }
    var lines := Split(output, "\n");
    var current: Option<Network> := None;
    var i := 0;
    while i < |lines|
      invariant 0 <= i <= |lines|
      invariant WScan(networks, current) == WFold(lines[..i])
    {
      assert lines[..i + 1][..i] == lines[..i];
      var header := EssidHeader(lines[i]);
      if header.Some? {
        if current.Some? {
          networks := networks + [current.value];
        }
        current := Some(Network(header.value, SsidOf(lines[i]), "AP", "N/A", "N/A", "0"));
      }
      i := i + 1;
    }
    assert lines[..i] == lines;
    if current.Some? {
      networks := networks + [current.value];
    }
  }

  // ---------------------------------------------------------------------------
  // Properties
  // ---------------------------------------------------------------------------

  /** The cards of the header lines, one per header line, in order. */
  function HeaderNetworks(lines: seq<string>): seq<Network> {
    if lines == [] then []
    else
      var line := lines[|lines| - 1];
      HeaderNetworks(lines[..|lines| - 1])
        + match EssidHeader(line)
          case None => []
          case Some(iface) => [NetworkOf(iface, line)]
  }

  /**
   * Deferring each push to the next header, and pushing the last card at the
   * end, loses no card and reorders none: the result is one card per header
   * line, in the order of the lines.
   */
  lemma {:induction false} OneNetworkPerHeader(lines: seq<string>)
    ensures WFlush(WFold(lines)) == HeaderNetworks(lines)
  {
    if lines != [] {
      var init := lines[..|lines| - 1];
      OneNetworkPerHeader(init);
      var st := WFold(init);
      var line := lines[|lines| - 1];
      match EssidHeader(line)
      case None =>
      case Some(iface) =>
        assert WFlush(WStep(st, line)) == WFlush(st) + [NetworkOf(iface, line)];
    }
  }

  /** Every card has a non-empty SSID without double quotes or surrounding white space, and the fixed defaults. */
  lemma NetworkFields(iface: string, line: string)
    ensures var n := NetworkOf(iface, line);
      && n.ssid != ""
      && (forall i :: 0 <= i < |n.ssid| ==> n.ssid[i] != '"')
      && !IsSpace(n.ssid[0]) && !IsSpace(n.ssid[|n.ssid| - 1])
      && n.mode == "AP" && n.channel == "N/A" && n.frequency == "N/A" && n.clients == "0"
  {
    var parts := Split(line, "ESSID:");
    if |parts| >= 2 {
      var q := RemoveQuotes(parts[1]);
      TrimEnds(q);
      TrimSlice(q);
      var t := Trim(q);
      var b := SpaceEnd(q, 0);
      forall i | 0 <= i < |t| ensures t[i] != '"' {
        assert t[i] == q[b + i];
      }
    }
  }

  /** A word, white space and `ESSID:` make a header line naming the word. */
  lemma HeaderOfWord(name: string, gap: string, rest: string)
    requires |name| > 0 && forall i :: 0 <= i < |name| ==> IsWordChar(name[i])
    requires |gap| > 0 && AllSpace(gap)
    ensures EssidHeader(name + gap + "ESSID:" + rest) == Some(name)
  {
    var line := name + gap + "ESSID:" + rest;
    var p := |name| + |gap|;
    SpanWordsThenSpace(line, name, gap);
    assert line[p] == 'E';
    forall k | |name| <= k < p ensures IsSpace(line[k]) {
      assert line[k] == gap[k - |name|];
    }
    SpaceEndAt(line, |name|, p);
    assert line[p..][..6] == "ESSID:";
    assert line[..|name|] == name;
  }

  lemma SpanWordsThenSpace(line: string, name: string, gap: string)
    requires |name| > 0 && forall i :: 0 <= i < |name| ==> IsWordChar(name[i])
    requires |gap| > 0 && AllSpace(gap) && name + gap <= line
    ensures Span(line, IsWordChar) == |name|
  {
    assert line[|name|] == gap[0];
    assert forall i :: 0 <= i < |name| ==> line[i] == name[i];
  }

  /** A header line starts with the captured name, then white space, then `ESSID:`. */
  lemma HeaderShape(line: string)
    requires EssidHeader(line).Some?
    ensures var name := EssidHeader(line).value;
      && (forall i :: 0 <= i < |name| ==> IsWordChar(name[i]))
      && var e := SpaceEnd(line, |name|);
         e > |name| && AllSpace(line[|name|..e]) && OccursAt(line, "ESSID:", e)
  {
    var w := Span(line, IsWordChar);
    SpaceEndSpec(line, w);
  }

  /** Removing quotes works piece by piece. */
  lemma {:induction false} RemoveQuotesAppend(a: string, b: string)
    ensures RemoveQuotes(a + b) == RemoveQuotes(a) + RemoveQuotes(b)
    decreases |b|
  {
    if b == [] {
      assert a + b == a;
    } else {
      var init := b[..|b| - 1];
      assert (a + b)[..|a + b| - 1] == a + init;
      assert (a + b)[|a + b| - 1] == b[|b| - 1];
      RemoveQuotesAppend(a, init);
    }
  }

  /** Text without double quotes is kept as it is. */
  lemma {:induction false} RemoveQuotesNone(s: string)
    requires forall i :: 0 <= i < |s| ==> s[i] != '"'
    ensures RemoveQuotes(s) == s
  {
    if s != [] {
      RemoveQuotesNone(s[..|s| - 1]);
    }
  }

  /**
   * The SSID is the text after the first `ESSID:`, up to the next `ESSID:` or
   * the end of the line, with its double quotes removed and trimmed, or `N/A`
   * when nothing is left.
   */
  lemma SsidAfterKeyword(head: string, rest: string)
    requires forall i :: 0 <= i < |head| ==> head[i] != ':'
    ensures var piece := match Find(rest, "ESSID:")
                         case None => rest
                         case Some(j) => rest[..j];
      var t := Trim(RemoveQuotes(piece));
      SsidOf(head + "ESSID:" + rest) == if t == "" then "N/A" else t
  {
    SecondPieceAfterHead(head, rest);
  }

  /** `line.split('ESSID:')[1]` on such a line: the text up to the next `ESSID:` or the end. */
  lemma SecondPieceAfterHead(head: string, rest: string)
    requires forall i :: 0 <= i < |head| ==> head[i] != ':'
    ensures var parts := Split(head + "ESSID:" + rest, "ESSID:");
      && |parts| >= 2
      && parts[1] == match Find(rest, "ESSID:")
                     case None => rest
                     case Some(j) => rest[..j]
  {
    var sep := "ESSID:";
    var a := head + sep;
    var line := a + rest;
    KeywordAfterHead(head, rest);
    SplitFromFound(line, sep, 0, |head|);
    assert |a| == |head| + |sep|;
    SplitFromShift(a, rest, sep, 0);
    SplitFirstPiece(rest, sep);
  }

  /** A head without `:` puts the first `ESSID:` right after it. */
  lemma KeywordAfterHead(head: string, rest: string)
    requires forall i :: 0 <= i < |head| ==> head[i] != ':'
    ensures Find(head + "ESSID:" + rest, "ESSID:") == Some(|head|)
  {
    var sep := "ESSID:";
    var line := head + sep + rest;
    var p := |head|;
    assert line[p..][..6] == sep;
    forall j | 0 <= j < p ensures !OccursAt(line, sep, j) {
      if j + 5 < p {
        assert line[j + 5] == head[j + 5];
      } else {
        assert line[j + 5] == sep[j + 5 - p];
      }
      assert line[j..][5] == line[j + 5];
    }
    FindFromAt(line, sep, 0, p);
  }

  /** The usual `iwinfo` line `IFACE   ESSID: "name"` gives the interface and the name. */
  lemma QuotedEssid(iface: string, gap: string, ssid: string)
    requires |iface| > 0 && forall i :: 0 <= i < |iface| ==> IsWordChar(iface[i])
    requires |gap| > 0 && AllSpace(gap)
    requires ssid != [] && !IsSpace(ssid[0]) && !IsSpace(ssid[|ssid| - 1])
    requires (forall i :: 0 <= i < |ssid| ==> ssid[i] != '"') && !Contains(ssid, "ESSID:")
    ensures var line := iface + gap + "ESSID: \"" + ssid + "\"";
      EssidHeader(line) == Some(iface) && SsidOf(line) == ssid
  {
    var rest := " \"" + ssid + "\"";
    var head := iface + gap;
    assert iface + gap + "ESSID: \"" + ssid + "\"" == head + "ESSID:" + rest;
    HeaderOfWord(iface, gap, rest);
    NoColonHead(iface, gap);
    QuotedRest(ssid);
    SsidAfterKeyword(head, rest);
  }

  lemma NoColonHead(iface: string, gap: string)
    requires forall i :: 0 <= i < |iface| ==> IsWordChar(iface[i])
    requires AllSpace(gap)
    ensures forall i :: 0 <= i < |iface + gap| ==> (iface + gap)[i] != ':'
  {
    var head := iface + gap;
    forall i | 0 <= i < |head| ensures head[i] != ':' {
      if i < |iface| {
        assert head[i] == iface[i];
      } else {
        assert head[i] == gap[i - |iface|];
      }
    }
  }

  lemma QuotedRest(ssid: string)
    requires ssid != [] && !IsSpace(ssid[0]) && !IsSpace(ssid[|ssid| - 1])
    requires (forall i :: 0 <= i < |ssid| ==> ssid[i] != '"') && !Contains(ssid, "ESSID:")
    ensures !Contains(" \"" + ssid + "\"", "ESSID:")
    ensures Trim(RemoveQuotes(" \"" + ssid + "\"")) == ssid
  {
    QuotedRestNoKeyword(ssid);
    QuotedRestTrim(ssid);
  }

  /** The quotes and the space around an SSID cannot take part in an `ESSID:` match. */
  lemma QuotedRestNoKeyword(ssid: string)
    requires !Contains(ssid, "ESSID:")
    ensures !Contains(" \"" + ssid + "\"", "ESSID:")
  {
    var sep := "ESSID:";
    var rest := " \"" + ssid + "\"";
    forall j: nat | OccursAt(rest, sep, j) ensures false {
      OccursAtChar(rest, sep, j, 0);
      OccursAtChar(rest, sep, j, 5);
      assert rest[0] == ' ' && rest[1] == '"' && rest[|rest| - 1] == '"';
      assert 2 <= j && j + 5 < |rest| - 1;
      assert rest[j..j + 6] == ssid[j - 2..j + 4];
      assert OccursAt(ssid, sep, j - 2) by {
        assert ssid[j - 2..][..6] == ssid[j - 2..j + 4];
        assert rest[j..][..6] == rest[j..j + 6];
      }
      ContainsIff(ssid, sep);
    }
    ContainsIff(rest, sep);
  }

  lemma QuotedRestTrim(ssid: string)
    requires ssid != [] && !IsSpace(ssid[0]) && !IsSpace(ssid[|ssid| - 1])
    requires forall i :: 0 <= i < |ssid| ==> ssid[i] != '"'
    ensures Trim(RemoveQuotes(" \"" + ssid + "\"")) == ssid
  {
    RemoveQuotesAppend(" \"", ssid);
    RemoveQuotesAppend(" \"" + ssid, "\"");
    RemoveQuotesNone(ssid);
    RemoveQuotesOfQuote();
    TrimAround(" ", ssid, "");
    assert " " + ssid + "" == " " + ssid;
  }

  /** The space and quote that open an `ESSID:"…"` value lose the quote. */
  lemma RemoveQuotesOfQuote()
    ensures RemoveQuotes(" \"") == " " && RemoveQuotes("\"") == ""
  {
    assert " \""[..1] == " ";
    assert " "[..0] == "";
    assert "\""[..0] == "";
  }
}
