/**
 * `parseFirewallRules` of the renderer (renderer.js:650-681): reads the
 * numbered rule rows of `iptables -L -n -v --line-numbers`, tagging each with
 * the chain named by the most recent `Chain NAME (policy P` header.
 */
module Firewall {
  import opened Wrappers
  import opened Text

  /** One rule row: `{num, chain, policy, target, protocol, source, destination}`. */
  datatype Rule = Rule(num: nat, chain: string, policy: string, target: string,
                       protocol: string, source: string, destination: string)

  /** The chain name captured by `/^Chain (\w+) \(policy (\w+)/`, if the (trimmed) line is a header. */
  function ChainHeader(line: string): (r: Option<string>)
    ensures r.Some? ==> |r.value| > 0
  {
    if !("Chain " <= line) then None
    else
      var rest := line[6..];
      var w := Span(rest, IsWordChar);
      var after := rest[w..];
      if w > 0 && " (policy " <= after && |after| > 9 && IsWordChar(after[9]) then Some(rest[..w])
      else None
  }

  /** `line` is `Chain `, the word `name`, ` (policy `, the word `policy` and anything after. */
  predicate IsChainLine(line: string, name: string, policy: string, rest: string) {
    IsWord(name) && IsWord(policy) && line == "Chain " + name + " (policy " + policy + rest
  }

  /** The header test is the regular expression: a line is a header naming `name` exactly when it has that shape. */
  lemma ChainHeaderIff(line: string, name: string)
    ensures ChainHeader(line) == Some(name) <==> exists policy, rest :: IsChainLine(line, name, policy, rest)
  {
    if ChainHeader(line) == Some(name) {
      ChainHeaderShape(line);
    }
    if exists policy, rest :: IsChainLine(line, name, policy, rest) {
      var policy, rest :| IsChainLine(line, name, policy, rest);
      ChainOfParts(name, policy, rest);
    }
  }

  /** `Chain `, a word, ` (policy ` and another word make a header naming the first word. */
  lemma ChainOfParts(name: string, policy: string, rest: string)
    requires IsWord(name) && IsWord(policy)
    ensures ChainHeader("Chain " + name + " (policy " + policy + rest) == Some(name)
  {
    var after := " (policy " + (policy + rest);
    assert "Chain " + name + " (policy " + policy + rest == "Chain " + (name + after);
    ChainOfCut("Chain " + (name + after), name + after, after, name, policy);
  }

  /** The header test run over a line already cut into its pieces. */
  lemma ChainOfCut(line: string, tail: string, after: string, name: string, policy: string)
    requires IsWord(name) && IsWord(policy)
    requires line == "Chain " + tail && tail == name + after && " (policy " + policy <= after
    ensures ChainHeader(line) == Some(name)
  {
    assert "Chain " <= line;
    assert line[6..] == tail;
    assert after[0] == ' ';
    SpanOfPrefix(tail, name, IsWordChar);
    assert tail[|name|..] == after && tail[..|name|] == name;
    assert after[9] == policy[0];
    assert " (policy " <= after;
  }

  /** A header line has the shape of the regular expression, around the name it gives. */
  lemma ChainHeaderShape(line: string)
    requires ChainHeader(line).Some?
    ensures exists policy, rest :: IsChainLine(line, ChainHeader(line).value, policy, rest)
  {
    var w := ChainHeaderCut(line);
    var tail := line[6..];
    ChainPieces(line, tail, tail[w..], w);
  }

  /** Where a header line's chain name ends. */
  lemma ChainHeaderCut(line: string) returns (w: nat)
    requires ChainHeader(line).Some?
    ensures "Chain " <= line && w == Span(line[6..], IsWordChar) && 0 < w
    ensures var after := line[6..][w..];
      " (policy " <= after && |after| > 9 && IsWordChar(after[9]) && ChainHeader(line) == Some(line[6..][..w])
  {
    w := Span(line[6..], IsWordChar);
  }

  /** Cut after the name and after the first letter of the policy, a line falls into the pieces of a header. */
  lemma ChainPieces(line: string, tail: string, after: string, w: nat)
    requires "Chain " <= line && tail == line[6..] && 0 < w <= |tail| && after == tail[w..]
    requires forall i :: 0 <= i < w ==> IsWordChar(tail[i])
    requires " (policy " <= after && |after| > 9 && IsWordChar(after[9])
    ensures IsChainLine(line, tail[..w], [after[9]], after[10..])
  {
    var name, policy, rest := tail[..w], [after[9]], after[10..];
    assert IsWord(policy);
    assert forall i :: 0 <= i < w ==> name[i] == tail[i];
    assert line == "Chain " + tail;
    assert tail == name + after;
    assert after == " (policy " + policy + rest;
    ChainRegroup(name, policy, rest);
  }

  lemma ChainRegroup(name: string, policy: string, rest: string)
    ensures "Chain " + (name + (" (policy " + policy + rest)) == "Chain " + name + " (policy " + policy + rest
  {
  }

  /**
   * `k` groups of `(\S+)\s+` matched from index `i` of `s`: the `k` words and
   * the index where the white space after the last of them ends.
   */
  function ColumnsFrom(s: string, i: nat, k: nat): Option<(seq<string>, nat)>
    requires i <= |s|
    decreases k
  {
    if k == 0 then Some(([], i))
    else
      var j := WordEnd(s, i);
      if j == i || j == |s| then None
      else
        match ColumnsFrom(s, SpaceEnd(s, j), k - 1)
        case None => None
        case Some(more) => Some(([s[i..j]] + more.0, more.1))
  }

  /** The index a successful match ends at lies within the line. */
  lemma {:induction false} ColumnsFromBounds(s: string, i: nat, k: nat)
    requires i <= |s|
    ensures ColumnsFrom(s, i, k).Some? ==>
      |ColumnsFrom(s, i, k).value.0| == k && ColumnsFrom(s, i, k).value.1 <= |s|
    decreases k
  {
    if k > 0 {
      var j := WordEnd(s, i);
      if j != i && j != |s| {
        ColumnsFromBounds(s, SpaceEnd(s, j), k - 1);
      }
    }
  }

  /** What `(.*)` captures: the text up to the first line break. */
  function UpToLineBreak(s: string): string {
    s[..Span(s, c => !IsLineBreak(c))]
  }

  /**
   * `/^(\d+)\s+(\S+)\s+(\S+)\s+(\S+)\s+(\S+)\s+(\S+)\s+(\S+)\s+(\S+)\s+(.*)/`
   * on a trimmed line: the eight leading columns and the remainder.
   */
  function RuleRow(line: string): (r: Option<(seq<string>, string)>)
    ensures r.Some? ==> |r.value.0| == 8 && IsDigits(r.value.0[0])
  {
    ColumnsFromBounds(line, 0, 8);
    match ColumnsFrom(line, 0, 8)
    case None => None
    case Some(cr) => if IsDigits(cr.0[0]) then Some((cr.0, UpToLineBreak(line[cr.1..]))) else None
  }

  /** The rule a row yields under the given chain; the fields are taken by position. */
  function RuleOf(cols: seq<string>, rest: string, chain: string): Rule
    requires |cols| == 8 && IsDigits(cols[0])
  {
    Rule(DigitsValue(cols[0]), chain, cols[1], cols[4], cols[5], cols[7], rest)
  }

  /** What one line is, once trimmed: a chain header, a numbered rule row, or neither. */
  datatype LineKind = Header(chain: string) | Row(cols: seq<string>, rest: string) | Other

  /** The two regular-expression tests of the loop body, header first, on the trimmed line. */
  function Classify(raw: string): (k: LineKind)
    ensures k.Header? ==> |k.chain| > 0
    ensures k.Row? ==> |k.cols| == 8 && IsDigits(k.cols[0])
  {
    var line := Trim(raw);
    match ChainHeader(line)
    case Some(c) => Header(c)
    case None =>
      match RuleRow(line)
      case Some(row) => Row(row.0, row.1)
      case None => Other
  }

  /** The parser's running state: `currentChain` and the rules pushed so far. */
  datatype FwState = FwState(chain: string, rules: seq<Rule>)

  /** One iteration of the `forEach` over the lines. */
  function FwStep(st: FwState, raw: string): FwState {
    match Classify(raw)
    case Header(c) => st.(chain := c)
    case Row(cols, rest) =>
      if st.chain != "" then st.(rules := st.rules + [RuleOf(cols, rest, st.chain)]) else st
    case Other => st
  }

  /** The state after the given lines. */
  function FwFold(lines: seq<string>): FwState {
    if lines == [] then FwState("", [])
    else FwStep(FwFold(lines[..|lines| - 1]), lines[|lines| - 1])
  }

  /** What `parseFirewallRules` returns for the given listing. */
  function ParsedRules(output: string): seq<Rule> {
    if output == "" then [] else FwFold(Split(output, "\n")).rules
  }

  /** `parseFirewallRules(iptablesOutput)`. */
  method ParseFirewallRules(output: string) returns (rules: seq<Rule>)
    ensures rules == ParsedRules(output)
  {
    rules := [];
    if output == "" {
      return;
    }
    var lines := Split(output, "\n");
    var currentChain := "";
    var i := 0;
    assert FwFold(lines[..0]) == FwState("", []) by { assert lines[..0] == []; }
    while i < |lines|
      invariant 0 <= i <= |lines|
      invariant FwState(currentChain, rules) == FwFold(lines[..i])
    {
      FwFoldSnoc(lines, i);
      currentChain, rules := VisitLine(currentChain, rules, lines[i]);
      i := i + 1;
    }
    assert lines[..i] == lines;
  }

  /** The body of the `forEach` callback: updates `currentChain` or pushes one rule. */
  method VisitLine(chain: string, rules: seq<Rule>, raw: string) returns (chain': string, rules': seq<Rule>)
    ensures FwState(chain', rules') == FwStep(FwState(chain, rules), raw)
  {
    chain', rules' := chain, rules;
    match Classify(raw) {
      case Header(c) =>
        chain' := c;
      case Row(cols, rest) =>
        if chain != "" {
          rules' := rules + [Rule(DigitsValue(cols[0]), chain, cols[1], cols[4], cols[5], cols[7], rest)];
        }
      case Other =>
    }
  }

  lemma FwFoldSnoc(lines: seq<string>, i: nat)
    requires i < |lines|
    ensures FwFold(lines[..i + 1]) == FwStep(FwFold(lines[..i]), lines[i])
  {
    assert lines[..i + 1][..i] == lines[..i];
  }

  // ---------------------------------------------------------------------------
  // Properties
  // ---------------------------------------------------------------------------

  predicate IsHeader(raw: string) {
    Classify(raw).Header?
  }

  /** Numbered rows seen before any chain header are dropped. */
  lemma {:induction false} NoHeaderNoRules(lines: seq<string>)
    requires forall k :: 0 <= k < |lines| ==> !IsHeader(lines[k])
    ensures FwFold(lines) == FwState("", [])
  {
    if lines != [] {
      NoHeaderNoRules(lines[..|lines| - 1]);
    }
  }

  /** The rules that rows in `body` yield under `chain`, in order. */
  function RowsUnder(body: seq<string>, chain: string): seq<Rule> {
    if body == [] then []
    else
      RowsUnder(body[..|body| - 1], chain) + RowRules(body[|body| - 1], chain)
  }

  lemma FwFoldLast(lines: seq<string>)
    requires lines != []
    ensures FwFold(lines) == FwStep(FwFold(lines[..|lines| - 1]), lines[|lines| - 1])
  {
  }

  /** The rules a single non-header line adds under `chain`. */
  function RowRules(raw: string, chain: string): seq<Rule> {
    var k := Classify(raw);
    if k.Row? then [RuleOf(k.cols, k.rest, chain)] else []
  }

  /** A header line only switches the chain. */
  lemma HeaderStep(st: FwState, raw: string)
    requires IsHeader(raw)
    ensures FwStep(st, raw) == FwState(Classify(raw).chain, st.rules)
  {
  }

  /** A non-header line keeps the chain and appends at most its own rule. */
  lemma BodyStep(c: string, rs: seq<Rule>, raw: string)
    requires c != "" && !IsHeader(raw)
    ensures FwStep(FwState(c, rs), raw) == FwState(c, rs + RowRules(raw, c))
  {
  }

  /**
   * A header line switches the current chain, and emits no rule itself; every
   * numbered row after it, up to the next header, is a rule of that chain.
   */
  lemma {:induction false} ChainSegment(pre: seq<string>, header: string, body: seq<string>)
    requires IsHeader(header)
    requires forall k :: 0 <= k < |body| ==> !IsHeader(body[k])
    ensures var c := Classify(header).chain;
      FwFold(pre + [header] + body) == FwState(c, FwFold(pre).rules + RowsUnder(body, c))
  {
    var c := Classify(header).chain;
    var lines := pre + [header] + body;
    if body == [] {
      assert lines[..|lines| - 1] == pre;
      FwFoldLast(lines);
      HeaderStep(FwFold(pre), header);
      assert FwFold(pre).rules + RowsUnder(body, c) == FwFold(pre).rules;
    } else {
      var init := body[..|body| - 1];
      var line := body[|body| - 1];
      assert lines[..|lines| - 1] == pre + [header] + init;
      assert lines[|lines| - 1] == line;
      FwFoldLast(lines);
      ChainSegment(pre, header, init);
      assert !IsHeader(line);
      BodyStep(c, FwFold(pre).rules + RowsUnder(init, c), line);
      assert RowsUnder(body, c) == RowsUnder(init, c) + RowRules(line, c);
      AppendAssoc(FwFold(pre).rules, RowsUnder(init, c), RowRules(line, c));
    }
  }

  lemma AppendAssoc(a: seq<Rule>, b: seq<Rule>, d: seq<Rule>)
    ensures a + b + d == a + (b + d)
  {
  }

  /** White space before index `j` does not change the tokens from `i` on. */
  lemma {:induction false} SkipSpaceTokens(s: string, i: nat, j: nat)
    requires i <= j <= |s|
    requires forall k :: i <= k < j ==> IsSpace(s[k])
    ensures TokensFrom(s, i) == TokensFrom(s, j)
    decreases j - i
  {
    if i < j {
      SkipSpaceTokens(s, i + 1, j);
    }
  }

  /** On a line that ends in a non-space, the white space from `j` on is followed by the next word. */
  lemma SkipToNextWord(s: string, j: nat)
    requires j < |s| && !IsSpace(s[|s| - 1])
    ensures SpaceEnd(s, j) < |s| && !IsSpace(s[SpaceEnd(s, j)])
    ensures TokensFrom(s, j) == TokensFrom(s, SpaceEnd(s, j))
  {
    SpaceEndSpec(s, j);
    SkipSpaceTokens(s, j, SpaceEnd(s, j));
  }

  /**
   * On a line whose last character is not white space, `k` column groups from
   * a word start `i` succeed exactly when more than `k` tokens follow, and
   * the words they capture are the next `k` tokens.
   */
  lemma {:induction false} ColumnsAreTokens(s: string, i: nat, k: nat)
    requires i < |s| && !IsSpace(s[i]) && !IsSpace(s[|s| - 1])
    ensures ColumnsFrom(s, i, k).Some? <==> |TokensFrom(s, i)| > k
    ensures ColumnsFrom(s, i, k).Some? ==> ColumnsFrom(s, i, k).value.0 == TokensFrom(s, i)[..k]
    decreases k
  {
    var j := WordEnd(s, i);
    var ts := TokensFrom(s, i);
    TokensStep(s, i);
    if k == 0 {
    } else if j == |s| {
      assert |ts| == 1;
    } else {
      var m := SpaceEnd(s, j);
      SkipToNextWord(s, j);
      ColumnsAreTokens(s, m, k - 1);
      if ColumnsFrom(s, m, k - 1).Some? {
        TakeCons(s[i..j], TokensFrom(s, m), k);
      }
    }
  }

  lemma TokensStep(s: string, i: nat)
    requires i < |s| && !IsSpace(s[i])
    ensures TokensFrom(s, i) == [s[i..WordEnd(s, i)]] + TokensFrom(s, WordEnd(s, i))
  {
  }

  lemma TakeCons(w: string, t: seq<string>, k: nat)
    requires 0 < k <= |t| + 1
    ensures ([w] + t)[..k] == [w] + t[..k - 1]
  {
  }

  /**
   * On a trimmed line, a rule row is exactly a line of at least nine tokens
   * whose first token is all digits, and its columns are the first eight
   * tokens: policy, target, protocol and source are tokens 1, 4, 5 and 7.
   */
  lemma RuleRowTokens(line: string)
    requires line != [] && !IsSpace(line[0]) && !IsSpace(line[|line| - 1])
    ensures RuleRow(line).Some? <==> |Tokens(line)| >= 9 && IsDigits(Tokens(line)[0])
    ensures RuleRow(line).Some? ==> RuleRow(line).value.0 == Tokens(line)[..8]
  {
    ColumnsAreTokens(line, 0, 8);
    if |Tokens(line)| >= 9 {
      assert ColumnsFrom(line, 0, 8).value.0[0] == Tokens(line)[0];
    }
  }
}
