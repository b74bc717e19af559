/**
 * `parseNetworkInterfaces` of the renderer (renderer.js:388-421): splits the
 * output of `ip addr show` into blocks that start at `N: name:` header lines
 * and gives each block the address and mask of its last `inet a.b.c.d/n` line.
 */
module Interfaces {
  import opened Wrappers
  import opened Text
  import Netmask

  /** One interface card: `{name, type, ip, mask, status}`. */
  datatype NetInterface = NetInterface(name: string, kind: string, ip: string, mask: string, status: string)

  /** The record a header line opens. */
  function Fresh(name: string): NetInterface {
    NetInterface(name, "Ethernet", "N/A", "N/A", "UP")
  }

  /** The name captured by `/^(\d+):\s+(\w+):/`, if the line is an interface header. */
  function HeaderName(line: string): (r: Option<string>)
    ensures r.Some? ==> |r.value| > 0 && forall i :: 0 <= i < |r.value| ==> IsWordChar(r.value[i])
  {
    var d := Span(line, IsDigit);
    if d == 0 || d == |line| || line[d] != ':' then None
    else
      var rest := line[d + 1..];
      var sp := Span(rest, IsSpace);
      if sp == 0 then None
      else
        var tail := rest[sp..];
        var w := Span(tail, IsWordChar);
        if w == 0 || w == |tail| || tail[w] != ':' then None
        else Some(tail[..w])
  }

  /** `line` is the digits `d`, `:`, the white space `gap`, the word `name`, `:` and anything after. */
  predicate IsHeaderLine(line: string, d: string, gap: string, name: string, rest: string) {
    && IsDigits(d) && |gap| > 0 && AllSpace(gap) && IsWord(name)
    && line == d + ":" + gap + name + ":" + rest
  }

  /** The header test is the regular expression: a line is a header naming `name` exactly when it has that shape. */
  lemma HeaderNameIff(line: string, name: string)
    ensures HeaderName(line) == Some(name) <==> exists d, gap, rest :: IsHeaderLine(line, d, gap, name, rest)
  {
    if HeaderName(line) == Some(name) {
      HeaderNameShape(line);
    }
    if exists d, gap, rest :: IsHeaderLine(line, d, gap, name, rest) {
      var d, gap, rest :| IsHeaderLine(line, d, gap, name, rest);
      HeaderOfParts(d, gap, name, rest);
    }
  }

  /** Digits, `:`, white space, a word and `:` make a header naming the word. */
  lemma HeaderOfParts(d: string, gap: string, name: string, rest: string)
    requires IsDigits(d) && |gap| > 0 && AllSpace(gap) && IsWord(name)
    ensures HeaderName(d + ":" + gap + name + ":" + rest) == Some(name)
  {
    var tail := name + ":" + rest;
    Regroup(d, gap, name, rest);
    HeaderOfCut(d + ":" + (gap + tail), gap + tail, tail, d, gap, name);
  }

  /** The header test run over a line already cut into its pieces. */
  lemma HeaderOfCut(line: string, after: string, tail: string, d: string, gap: string, name: string)
    requires IsDigits(d) && |gap| > 0 && AllSpace(gap) && IsWord(name)
    requires line == d + ":" + after && after == gap + tail && name + ":" <= tail
    ensures HeaderName(line) == Some(name)
  {
    HeaderOfTail(d, gap, tail);
    assert tail[|name|] == ':';
    SpanOfPrefix(tail, name, IsWordChar);
    assert tail[..|name|] == name;
  }

  /** After digits, `:` and white space, the header test reads the name from the text that follows. */
  lemma HeaderOfTail(d: string, gap: string, tail: string)
    requires IsDigits(d) && |gap| > 0 && AllSpace(gap) && |tail| > 0 && !IsSpace(tail[0])
    ensures var w := Span(tail, IsWordChar);
      HeaderName(d + ":" + (gap + tail)) == if w == 0 || w == |tail| || tail[w] != ':' then None else Some(tail[..w])
  {
    HeaderCutSpans(d, gap, tail);
  }

  /** Digits, `:` and white space lead the header test to the text after the white space. */
  lemma HeaderCutSpans(d: string, gap: string, tail: string)
    requires IsDigits(d) && |gap| > 0 && AllSpace(gap) && |tail| > 0 && !IsSpace(tail[0])
    ensures var line := d + ":" + (gap + tail);
      && Span(line, IsDigit) == |d| && line[|d|] == ':' && line[|d| + 1..] == gap + tail
      && Span(gap + tail, IsSpace) == |gap| && (gap + tail)[|gap|..] == tail
  {
    var after := gap + tail;
    var line := d + ":" + after;
    assert line[|d|] == ':';
    SpanOfPrefix(line, d, IsDigit);
    assert line[|d| + 1..] == after;
    assert after[|gap|] == tail[0];
    SpanOfPrefix(after, gap, IsSpace);
    assert after[|gap|..] == tail;
  }

  /** A header line has the shape of the regular expression, around the name it gives. */
  lemma HeaderNameShape(line: string)
    requires HeaderName(line).Some?
    ensures exists d, gap, rest :: IsHeaderLine(line, d, gap, HeaderName(line).value, rest)
  {
    var n, sp, w := HeaderNameCuts(line);
    var after := line[n + 1..];
    HeaderPieces(line, after, after[sp..], n, sp, w);
  }

  /** Where a header line's digits, white space and name end. */
  lemma HeaderNameCuts(line: string) returns (n: nat, sp: nat, w: nat)
    requires HeaderName(line).Some?
    ensures n == Span(line, IsDigit) && 0 < n < |line| && line[n] == ':'
    ensures sp == Span(line[n + 1..], IsSpace) && 0 < sp
    ensures var tail := line[n + 1..][sp..];
      w == Span(tail, IsWordChar) && 0 < w < |tail| && tail[w] == ':' && HeaderName(line) == Some(tail[..w])
  {
    n := Span(line, IsDigit);
    sp := Span(line[n + 1..], IsSpace);
    w := Span(line[n + 1..][sp..], IsWordChar);
  }

  /** Cut at the two colons and the end of the white space, a line falls into the pieces of a header. */
  lemma HeaderPieces(line: string, after: string, tail: string, n: nat, sp: nat, w: nat)
    requires 0 < n < |line| && line[n] == ':' && after == line[n + 1..]
    requires 0 < sp <= |after| && tail == after[sp..] && 0 < w < |tail| && tail[w] == ':'
    requires forall i :: 0 <= i < n ==> IsDigit(line[i])
    requires forall i :: 0 <= i < sp ==> IsSpace(after[i])
    requires forall i :: 0 <= i < w ==> IsWordChar(tail[i])
    ensures IsHeaderLine(line, line[..n], after[..sp], tail[..w], tail[w + 1..])
  {
    var d, gap, name, rest := line[..n], after[..sp], tail[..w], tail[w + 1..];
    CutAt(line, n);
    CutAt(tail, w);
    assert after == gap + tail;
    Regroup(d, gap, name, rest);
  }

  /** A string is the part before index `k`, its character at `k`, and the part after. */
  lemma CutAt(s: string, k: nat)
    requires k < |s|
    ensures s == s[..k] + [s[k]] + s[k + 1..]
  {
  }

  lemma Regroup(d: string, gap: string, name: string, rest: string)
    ensures d + ":" + (gap + (name + ":" + rest)) == d + ":" + gap + name + ":" + rest
  {
  }

  /** An address read from an `inet` line: the dotted quad and the prefix length. */
  datatype Inet = Inet(ip: string, prefix: nat)

  /** The length of a non-empty digit run at the start of `s` that is followed by `sep`. */
  function DigitsBefore(s: string, sep: char): (r: Option<nat>)
    ensures r.Some? ==> 0 < r.value < |s| && s[r.value] == sep
  {
    var n := Span(s, IsDigit);
    if 0 < n < |s| && s[n] == sep then Some(n) else None
  }

  /** `(\d+\.\d+\.\d+\.\d+)\/(\d+)` matched at the start of `s`. */
  function AddressAt(s: string): Option<Inet> {
    match DigitsBefore(s, '.')
    case None => None
    case Some(a) =>
      var s1 := s[a + 1..];
      match DigitsBefore(s1, '.')
      case None => None
      case Some(b) =>
        var s2 := s1[b + 1..];
        match DigitsBefore(s2, '.')
        case None => None
        case Some(c) =>
          var s3 := s2[c + 1..];
          match DigitsBefore(s3, '/')
          case None => None
          case Some(d) =>
            var s4 := s3[d + 1..];
            var e := Span(s4, IsDigit);
            if e == 0 then None
            else Some(Inet(s[..a + b + c + d + 3], DigitsValue(s4[..e])))
  }

  /** The leftmost match of `/inet (\d+\.\d+\.\d+\.\d+)\/(\d+)/` at or after index `k`. */
  function FindInetFrom(line: string, k: nat): Option<Inet>
    requires k <= |line|
    decreases |line| - k
  {
    if OccursAt(line, "inet ", k) && AddressAt(line[k + 5..]).Some? then AddressAt(line[k + 5..])
    else if k == |line| then None
    else FindInetFrom(line, k + 1)
  }

  function FindInet(line: string): Option<Inet> {
    FindInetFrom(line, 0)
  }

  /** A line without `inet ` (an `inet6` line, say) has no address match. */
  lemma {:induction false} NoInetWithoutKeyword(line: string, k: nat)
    requires k <= |line|
    requires !Contains(line, "inet ")
    ensures FindInetFrom(line, k).None?
    decreases |line| - k
  {
    FindFromLeftmost(line, "inet ", 0);
    assert !OccursAt(line, "inet ", k);
    if k < |line| {
      NoInetWithoutKeyword(line, k + 1);
    }
  }

  /** The record after an `inet` line: `ip` and `cidrToMask(prefix)`. */
  function WithAddress(r: NetInterface, a: Inet): NetInterface {
    r.(ip := a.ip, mask := Netmask.MaskText(a.prefix))
  }

  /** The parser's running state: the records pushed so far and `currentInterface`. */
  datatype Scan = Scan(done: seq<NetInterface>, current: Option<NetInterface>)

  /** The records pushed once the input ends. */
  function Flush(st: Scan): seq<NetInterface> {
    if st.current.Some? then st.done + [st.current.value] else st.done
  }

  /** One iteration of the `forEach` over the lines. */
  function Step(st: Scan, line: string): Scan {
    var headed :=
      if HeaderName(line).Some? then Scan(Flush(st), Some(Fresh(HeaderName(line).value))) else st;
    if headed.current.Some? && FindInet(line).Some? then
      headed.(current := Some(WithAddress(headed.current.value, FindInet(line).value)))
    else headed
  }

  /** The state after the given lines, folded from the first line on. */
  function ScanLines(lines: seq<string>): Scan {
    if lines == [] then Scan([], None)
    else Step(ScanLines(lines[..|lines| - 1]), lines[|lines| - 1])
  }

  /** What `parseNetworkInterfaces` returns for the given output. */
  function ParsedInterfaces(output: string): seq<NetInterface> {
    if output == "" then [] else Flush(ScanLines(Split(output, "\n")))
  }

  /** `parseNetworkInterfaces(interfacesOutput)`. */
  method ParseNetworkInterfaces(output: string) returns (interfaces: seq<NetInterface>)
    ensures output == "" ==> interfaces == []
    ensures interfaces == ParsedInterfaces(output)
  {
    interfaces := [];
    if output == "" {
      return;
    }
    var lines := Split(output, "\n");
    var current: Option<NetInterface> := None;
    var i := 0;
    while i < |lines|
      invariant 0 <= i <= |lines|
      invariant Scan(interfaces, current) == ScanLines(lines[..i])
    {
      var line := lines[i];
      assert lines[..i + 1] == lines[..i] + [line];
      interfaces, current := ScanLine(interfaces, current, line);
      ScanLinesSnoc(lines[..i], line);
      i := i + 1;
    }
    assert lines[..i] == lines;
    if current.Some? {
      interfaces := interfaces + [current.value];
    }
  }

  /** The body of the `forEach` over the lines: a header pushes the open record and opens its own; an `inet` line sets the address. */
  method ScanLine(interfaces: seq<NetInterface>, current: Option<NetInterface>, line: string)
    returns (interfaces': seq<NetInterface>, current': Option<NetInterface>)
    ensures Scan(interfaces', current') == Step(Scan(interfaces, current), line)
  {
    interfaces', current' := interfaces, current;
    var header := HeaderName(line);
    if header.Some? {
      if current'.Some? {
        interfaces' := interfaces' + [current'.value];
      }
      current' := Some(Fresh(header.value));
    }
    if current'.Some? {
      if Contains(line, "inet ") {
        var m := FindInet(line);
        if m.Some? {
          var mask := Netmask.CidrToMask(m.value.prefix);
          current' := Some(current'.value.(ip := m.value.ip, mask := mask));
        }
      } else {
        NoInetWithoutKeyword(line, 0);
      }
    }
  }

  // ---------------------------------------------------------------------------
  // Properties
  // ---------------------------------------------------------------------------

  function Names(rs: seq<NetInterface>): seq<string> {
    seq(|rs|, i requires 0 <= i < |rs| => rs[i].name)
  }

  /** The names of the header lines, in order of appearance. */
  function HeaderNames(lines: seq<string>): seq<string> {
    if lines == [] then []
    else
      var last := lines[|lines| - 1];
      HeaderNames(lines[..|lines| - 1]) + (if HeaderName(last).Some? then [HeaderName(last).value] else [])
  }

  /** One record per header line, in order: the names emitted are the header names. */
  lemma {:induction false} ScanNames(lines: seq<string>)
    ensures Names(Flush(ScanLines(lines))) == HeaderNames(lines)
  {
    if lines != [] {
      var init := lines[..|lines| - 1];
      var line := lines[|lines| - 1];
      var st := ScanLines(init);
      ScanNames(init);
      var st' := Step(st, line);
      match HeaderName(line)
      case Some(name) =>
        assert Flush(st') == Flush(st) + [st'.current.value];
        assert Names(Flush(st')) == Names(Flush(st)) + [name];
      case None =>
        if st.current.Some? {
          assert Flush(st') == st.done + [st'.current.value];
          assert Names(Flush(st')) == Names(Flush(st));
        } else {
          assert st' == st;
        }
    }
  }

  /** Every record keeps the type `Ethernet` and the status `UP` it was opened with. */
  lemma {:induction false} ScanDefaults(lines: seq<string>)
    ensures forall r :: r in Flush(ScanLines(lines)) ==> r.kind == "Ethernet" && r.status == "UP"
  {
    if lines != [] {
      ScanDefaults(lines[..|lines| - 1]);
    }
  }

  /** Lines before the first header change nothing. */
  lemma {:induction false} NoHeaderNoState(lines: seq<string>)
    requires forall k :: 0 <= k < |lines| ==> HeaderName(lines[k]).None?
    ensures ScanLines(lines) == Scan([], None)
  {
    if lines != [] {
      NoHeaderNoState(lines[..|lines| - 1]);
    }
  }

  /** The last `inet` address among the given lines, if any. */
  function LastInet(lines: seq<string>): Option<Inet> {
    if lines == [] then None
    else if FindInet(lines[|lines| - 1]).Some? then FindInet(lines[|lines| - 1])
    else LastInet(lines[..|lines| - 1])
  }

  /** The record of a block: the header's name with the address of the block's last `inet` line. */
  function BlockRecord(name: string, block: seq<string>): NetInterface {
    match LastInet(block)
    case None => Fresh(name)
    case Some(a) => WithAddress(Fresh(name), a)
  }

  /** A header line flushes the open record and opens its own block. */
  lemma BlockStart(st: Scan, header: string)
    requires HeaderName(header).Some?
    ensures Step(st, header) == Scan(Flush(st), Some(BlockRecord(HeaderName(header).value, [header])))
  {
    assert [header][..0] == [];
    assert LastInet([header]) == FindInet(header);
  }

  /** A line that is not a header only extends the open block. */
  lemma BlockExtend(st: Scan, name: string, block: seq<string>, line: string)
    requires st.current == Some(BlockRecord(name, block))
    requires HeaderName(line).None?
    ensures Step(st, line) == st.(current := Some(BlockRecord(name, block + [line])))
  {
    var ext := block + [line];
    assert ext[..|ext| - 1] == block;
    if FindInet(line).Some? {
      var a := FindInet(line).value;
      assert LastInet(ext) == Some(a);
      assert WithAddress(BlockRecord(name, block), a) == WithAddress(Fresh(name), a);
      assert Step(st, line).current == Some(WithAddress(BlockRecord(name, block), a));
    } else {
      assert LastInet(ext) == LastInet(block);
    }
  }

  /**
   * A header line followed by lines that are not headers forms one block:
   * the records before it are flushed unchanged, and the open record carries
   * the address of the block's last `inet` line (a later one overwrites an
   * earlier one; no other record is touched).
   */
  lemma {:induction false} BlockAddress(pre: seq<string>, header: string, body: seq<string>)
    requires HeaderName(header).Some?
    requires forall k :: 0 <= k < |body| ==> HeaderName(body[k]).None?
    ensures ScanLines(pre + [header] + body)
         == Scan(Flush(ScanLines(pre)), Some(BlockRecord(HeaderName(header).value, [header] + body)))
  {
    if body == [] {
      assert pre + [header] + body == pre + [header];
      ScanLinesSnoc(pre, header);
      BlockStart(ScanLines(pre), header);
    } else {
      var init := body[..|body| - 1];
      DropLast(body);
      BlockAddress(pre, header, init);
      BlockAddressStep(pre, header, init, body[|body| - 1]);
    }
  }

  /** One more line that is not a header extends the block that is open. */
  lemma BlockAddressStep(pre: seq<string>, header: string, init: seq<string>, line: string)
    requires HeaderName(header).Some? && HeaderName(line).None?
    requires ScanLines(pre + [header] + init)
          == Scan(Flush(ScanLines(pre)), Some(BlockRecord(HeaderName(header).value, [header] + init)))
    ensures ScanLines(pre + [header] + (init + [line]))
         == Scan(Flush(ScanLines(pre)), Some(BlockRecord(HeaderName(header).value, [header] + (init + [line]))))
  {
    assert pre + [header] + (init + [line]) == (pre + [header] + init) + [line];
    assert [header] + (init + [line]) == [header] + init + [line];
    ScanLinesSnoc(pre + [header] + init, line);
    BlockExtend(ScanLines(pre + [header] + init), HeaderName(header).value, [header] + init, line);
  }

  // ---------------------------------------------------------------------------
  // Interface names outside `\w+`
  // ---------------------------------------------------------------------------

  /**
   * A header whose name is two words joined by `-` (`br-lan`, `wlan0-1`)
   * fails `\w+:`, so it opens no record: the line joins the block of the
   * interface before it, and an `inet` line below it overwrites that
   * interface's address. The corrected test reads the whole name.
   */
  lemma DashedNameJoinsPrevious(st: Scan, name: string, block: seq<string>,
                                d: string, gap: string, a: string, b: string, rest: string)
    requires st.current == Some(BlockRecord(name, block))
    requires IsDigits(d) && |gap| > 0 && AllSpace(gap) && IsWord(a) && IsWord(b)
    ensures var line := d + ":" + gap + (a + "-" + b) + ":" + rest;
      && HeaderName(line).None?
      && Step(st, line) == st.(current := Some(BlockRecord(name, block + [line])))
      && IntendedHeaderName(line) == Some(a + "-" + b)
  {
    var line := d + ":" + gap + (a + "-" + b) + ":" + rest;
    DashedNameNotHeader(d, gap, a, b, rest);
    BlockExtend(st, name, block, line);
    var dashed := a + "-" + b;
    WordCharsAreNameChars(a);
    WordCharsAreNameChars(b);
    assert forall i :: 0 <= i < |dashed| ==> IsNameChar(dashed[i]) by {
      forall i | 0 <= i < |dashed|
        ensures IsNameChar(dashed[i])
      {
        if i < |a| {
          assert dashed[i] == a[i];
        } else if i > |a| {
          assert dashed[i] == b[i - |a| - 1];
        }
      }
    }
    IntendedHeaderOfParts(d, gap, dashed, rest);
  }

  /** `\w+` stops at the `-`, where the header test wants `:`. */
  lemma DashedNameNotHeader(d: string, gap: string, a: string, b: string, rest: string)
    requires IsDigits(d) && |gap| > 0 && AllSpace(gap) && IsWord(a)
    ensures HeaderName(d + ":" + gap + (a + "-" + b) + ":" + rest).None?
  {
    var tail := (a + "-" + b) + ":" + rest;
    Regroup(d, gap, a + "-" + b, rest);
    HeaderOfTail(d, gap, tail);
    DashedSpan(a, b, rest);
  }

  /** The word run of a dashed name ends at the `-`. */
  lemma DashedSpan(a: string, b: string, rest: string)
    requires IsWord(a)
    ensures var tail := a + "-" + b + ":" + rest;
      Span(tail, IsWordChar) == |a| && tail[|a|] == '-'
  {
    var tail := a + "-" + b + ":" + rest;
    assert forall i :: 0 <= i < |a| ==> tail[i] == a[i];
    assert tail[|a|] == '-' && !IsWordChar('-');
  }

  /** A character of an interface name as `ip` prints it: anything but white space and `:`. */
  predicate IsNameChar(c: char) {
    !IsSpace(c) && c != ':'
  }

  /** Word characters are name characters. */
  lemma WordCharsAreNameChars(s: string)
    requires forall i :: 0 <= i < |s| ==> IsWordChar(s[i])
    ensures forall i :: 0 <= i < |s| ==> IsNameChar(s[i])
  {
  }

  /** The header test with the name read as `[^\s:]+`, so that `br-lan`, `eth0.1` and `wlan0-1` are names. */
  function IntendedHeaderName(line: string): (r: Option<string>)
    ensures r.Some? ==> |r.value| > 0 && forall i :: 0 <= i < |r.value| ==> IsNameChar(r.value[i])
  {
    var d := Span(line, IsDigit);
    if d == 0 || d == |line| || line[d] != ':' then None
    else
      var rest := line[d + 1..];
      var sp := Span(rest, IsSpace);
      if sp == 0 then None
      else
        var tail := rest[sp..];
        var w := Span(tail, IsNameChar);
        if w == 0 || w == |tail| || tail[w] != ':' then None
        else Some(tail[..w])
  }

  /** `line` is the digits `d`, `:`, the white space `gap`, the name `name` (no white space, no `:`), `:` and anything after. */
  predicate IsIntendedHeaderLine(line: string, d: string, gap: string, name: string, rest: string) {
    && IsDigits(d) && |gap| > 0 && AllSpace(gap)
    && |name| > 0 && (forall i :: 0 <= i < |name| ==> IsNameChar(name[i]))
    && line == d + ":" + gap + name + ":" + rest
  }

  /** The corrected test is `/^(\d+):\s+([^\s:]+):/`: a line is a header naming `name` exactly when it has that shape. */
  lemma IntendedHeaderNameIff(line: string, name: string)
    ensures IntendedHeaderName(line) == Some(name) <==> exists d, gap, rest :: IsIntendedHeaderLine(line, d, gap, name, rest)
  {
    if IntendedHeaderName(line) == Some(name) {
      IntendedHeaderNameShape(line);
    }
    if exists d, gap, rest :: IsIntendedHeaderLine(line, d, gap, name, rest) {
      var d, gap, rest :| IsIntendedHeaderLine(line, d, gap, name, rest);
      IntendedHeaderOfParts(d, gap, name, rest);
    }
  }

  /** A header line under the corrected test has its shape, around the name it gives. */
  lemma IntendedHeaderNameShape(line: string)
    requires IntendedHeaderName(line).Some?
    ensures exists d, gap, rest :: IsIntendedHeaderLine(line, d, gap, IntendedHeaderName(line).value, rest)
  {
    var n, sp, w := IntendedHeaderNameCuts(line);
    var after := line[n + 1..];
    IntendedHeaderPieces(line, after, after[sp..], n, sp, w);
  }

  /** Where a corrected header line's digits, white space and name end. */
  lemma IntendedHeaderNameCuts(line: string) returns (n: nat, sp: nat, w: nat)
    requires IntendedHeaderName(line).Some?
    ensures n == Span(line, IsDigit) && 0 < n < |line| && line[n] == ':'
    ensures sp == Span(line[n + 1..], IsSpace) && 0 < sp
    ensures var tail := line[n + 1..][sp..];
      w == Span(tail, IsNameChar) && 0 < w < |tail| && tail[w] == ':' && IntendedHeaderName(line) == Some(tail[..w])
  {
    n := Span(line, IsDigit);
    sp := Span(line[n + 1..], IsSpace);
    w := Span(line[n + 1..][sp..], IsNameChar);
  }

  /** Cut at the two colons and the end of the white space, a line falls into the pieces of a corrected header. */
  lemma IntendedHeaderPieces(line: string, after: string, tail: string, n: nat, sp: nat, w: nat)
    requires 0 < n < |line| && line[n] == ':' && after == line[n + 1..]
    requires 0 < sp <= |after| && tail == after[sp..] && 0 < w < |tail| && tail[w] == ':'
    requires forall i :: 0 <= i < n ==> IsDigit(line[i])
    requires forall i :: 0 <= i < sp ==> IsSpace(after[i])
    requires forall i :: 0 <= i < w ==> IsNameChar(tail[i])
    ensures IsIntendedHeaderLine(line, line[..n], after[..sp], tail[..w], tail[w + 1..])
  {
    var d, gap, name, rest := line[..n], after[..sp], tail[..w], tail[w + 1..];
    CutAt(line, n);
    CutAt(tail, w);
    assert after == gap + tail;
    Regroup(d, gap, name, rest);
  }

  /** The corrected test keeps every header the code already reads, with the same name. */
  lemma IntendedHeaderNameAgrees(line: string)
    ensures HeaderName(line).Some? ==> IntendedHeaderName(line) == HeaderName(line)
  {
    if HeaderName(line).Some? {
      var n, sp, w := HeaderNameCuts(line);
      var tail := line[n + 1..][sp..];
      WordCharsAreNameChars(tail[..w]);
      SpanOfPrefix(tail, tail[..w], IsNameChar);
    }
  }

  /** Under the corrected test, digits, `:`, white space and any name without white space or `:`, then `:`, make a header naming it. */
  lemma IntendedHeaderOfParts(d: string, gap: string, name: string, rest: string)
    requires IsDigits(d) && |gap| > 0 && AllSpace(gap)
    requires |name| > 0 && forall i :: 0 <= i < |name| ==> IsNameChar(name[i])
    ensures IntendedHeaderName(d + ":" + gap + name + ":" + rest) == Some(name)
  {
    var tail := name + ":" + rest;
    Regroup(d, gap, name, rest);
    HeaderCutSpans(d, gap, tail);
    assert tail[|name|] == ':';
    SpanOfPrefix(tail, name, IsNameChar);
    assert tail[..|name|] == name;
  }

  /** A non-empty sequence is its front followed by its last element. */
  lemma DropLast(s: seq<string>)
    requires s != []
    ensures s[..|s| - 1] + [s[|s| - 1]] == s
  {
  }

  /** Scanning one more line is one more step. */
  lemma ScanLinesSnoc(lines: seq<string>, line: string)
    ensures ScanLines(lines + [line]) == Step(ScanLines(lines), line)
  {
    assert (lines + [line])[..|lines|] == lines;
  }
}
