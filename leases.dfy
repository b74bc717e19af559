/**
 * `parseDHCPLeases` of the renderer (renderer.js:423-442): every line of the
 * lease file with at least four white-space separated fields becomes a lease.
 */
module Leases {
  import opened Wrappers
  import opened Text

  /** One lease: `{leaseTime, mac, ip, hostname}`, each field kept as text. */
  datatype Lease = Lease(leaseTime: string, mac: string, ip: string, hostname: string)

  /** The lease a line yields, if it has at least four fields (`parts[3] || 'Unknown'` for the name). */
  function LeaseOf(line: string): Option<Lease> {
    var parts := Fields(line);
    if |parts| >= 4 then
      Some(Lease(parts[0], parts[1], parts[2], if parts[3] == "" then "Unknown" else parts[3]))
    else None
  }

  /** The leases of the given lines, in order. */
  function LeasesOf(lines: seq<string>): seq<Lease> {
    if lines == [] then []
    else
      var last := LeaseOf(lines[|lines| - 1]);
      LeasesOf(lines[..|lines| - 1]) + (if last.Some? then [last.value] else [])
  }

  /** What `parseDHCPLeases` returns for the given lease file text. */
  function ParsedLeases(output: string): seq<Lease> {
    if output == "" then [] else LeasesOf(Split(output, "\n"))
  }

  /** `parseDHCPLeases(leasesOutput)`. */
  method ParseDHCPLeases(output: string) returns (leases: seq<Lease>)
    ensures leases == ParsedLeases(output)
  {
    leases := [];
    if output == "" {
      return;
    }
    var lines := Split(output, "\n");
    var i := 0;
    while i < |lines|
      invariant 0 <= i <= |lines|
      invariant leases == LeasesOf(lines[..i])
    {
      assert lines[..i + 1][..i] == lines[..i];
      var parts := Fields(lines[i]);
      if |parts| >= 4 {
        leases := leases + [Lease(parts[0], parts[1], parts[2], if parts[3] == "" then "Unknown" else parts[3])];
      }
      i := i + 1;
    }
    assert lines[..i] == lines;
  }

  // ---------------------------------------------------------------------------
  // Properties
  // ---------------------------------------------------------------------------

  /** A line with four or more fields yields its first four fields; extra fields are ignored. */
  lemma LeaseFields(line: string)
    requires |Fields(line)| >= 4
    ensures LeaseOf(line) == Some(Lease(Fields(line)[0], Fields(line)[1], Fields(line)[2], Fields(line)[3]))
  {
    var t := Trim(line);
    assert t != [];
    TokensAreTokens(t, 3);
  }

  /** A blank line, or one with fewer than four fields, yields nothing. */
  lemma ShortLineSkipped(line: string)
    requires AllSpace(line) || |Fields(line)| < 4
    ensures LeaseOf(line).None?
  {
    TrimEmptyIff(line);
  }

  /** Each line is parsed on its own: the leases of two runs of lines are concatenated in order. */
  lemma {:induction false} LeasesAppend(a: seq<string>, b: seq<string>)
    ensures LeasesOf(a + b) == LeasesOf(a) + LeasesOf(b)
    decreases |b|
  {
    if b == [] {
      assert a + b == a;
    } else {
      var init := b[..|b| - 1];
      assert (a + b)[..|a + b| - 1] == a + init;
      assert (a + b)[|a + b| - 1] == b[|b| - 1];
      LeasesAppend(a, init);
    }
  }

  /** There are never more leases than lines. */
  lemma {:induction false} LeasesBound(lines: seq<string>)
    ensures |LeasesOf(lines)| <= |lines|
  {
    if lines != [] {
      LeasesBound(lines[..|lines| - 1]);
    }
  }

  /** Every lease comes from a line of the input with at least four fields. */
  lemma {:induction false} LeasesFromLines(lines: seq<string>, k: nat)
    requires k < |LeasesOf(lines)|
    ensures exists j :: 0 <= j < |lines| && LeaseOf(lines[j]) == Some(LeasesOf(lines)[k])
  {
    var init := lines[..|lines| - 1];
    var last := lines[|lines| - 1];
    if k < |LeasesOf(init)| {
      LeasesFromLines(init, k);
      var j :| 0 <= j < |init| && LeaseOf(init[j]) == Some(LeasesOf(init)[k]);
      assert lines[j] == init[j];
    } else {
      assert LeaseOf(lines[|lines| - 1]) == Some(LeasesOf(lines)[k]);
    }
  }
}
