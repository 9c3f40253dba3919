/** port_scanner.py `get_args`: turning the parsed command line into the
    scan configuration (the port range and the protocol list). */
module Config {
  import opened Results
  import opened Utils

  /** SUPPORTED_PROTOCOLS, set up by `setup`. */
  const SupportedProtocols: set<string> := {"tcp", "udp"}
  /** The protocol list used when `--protocols` is not given. */
  const DefaultProtocols: seq<string> := ["tcp", "udp"]
  /** argparse defaults for `--ports` and `--threads`. */
  const DefaultStart: int := 1
  const DefaultEnd: int := 65537

  /** What argparse hands to the shaping code. */
  datatype Parsed = Parsed(target: string, start: int, end: int, threads: int, protocols: seq<string>)

  /** The global ARGS dictionary once `get_args` has filled it. */
  datatype Args = Args(target: string, ports: seq<int>, threads: int, protocols: seq<string>)

  /** `str.lower` on one character (ASCII letters). */
  function LowerChar(c: char): char
  {
    if 'A' <= c <= 'Z' then (c as int + 32) as char else c
  }

  function Lower(s: string): (r: string)
    ensures |r| == |s|
    ensures forall i :: 0 <= i < |s| ==> r[i] == LowerChar(s[i])
  {
    seq(|s|, i requires 0 <= i < |s| => LowerChar(s[i]))
  }

  /** Lowering is case-insensitive in the sense the check relies on: the
      result holds no capital, lowering twice changes nothing more, and a
      string without capitals is left as it is. */
  lemma {:induction false} LowerNormalizes(s: string)
    ensures forall i :: 0 <= i < |s| ==> !('A' <= Lower(s)[i] <= 'Z')
    ensures Lower(Lower(s)) == Lower(s)
    ensures (forall i :: 0 <= i < |s| ==> !('A' <= s[i] <= 'Z')) ==> Lower(s) == s
  {
    var l := Lower(s);
    forall i | 0 <= i < |s|
      ensures !('A' <= l[i] <= 'Z') && LowerChar(l[i]) == l[i]
    {
      assert l[i] == LowerChar(s[i]);
    }
    assert Lower(l) == l;
  }

  /** Spellings that differ only in case are accepted alike. */
  lemma AcceptedIgnoresCase(a: string, b: string)
    requires Lower(a) == Lower(b)
    ensures Accepted(a) <==> Accepted(b)
  {
  }

  /** Mixed-case spellings of the supported names pass, others do not. */
  lemma MixedCaseSpellingsAccepted()
    ensures Accepted("Tcp") && Accepted("uDP") && Accepted("TCP")
    ensures !Accepted("sctp") && !Accepted("tcp ")
  {
    assert Lower("Tcp") == "tcp" && Lower("TCP") == "tcp";
    assert Lower("uDP") == "udp";
    assert |Lower("sctp")| == 4 && |Lower("tcp ")| == 4;
  }

  /** `range(START, END + 1)`: the inclusive pair made half-open. */
  function PortRange(start: int, end: int): (r: seq<int>)
    ensures |r| == Max(0, end - start + 1)
    ensures forall i :: 0 <= i < |r| ==> r[i] == start + i
  {
    seq(Max(0, end - start + 1), i => start + i)
  }

  /** The port list holds exactly the integers START..END. */
  lemma PortRangeMembers(start: int, end: int, p: int)
    ensures p in PortRange(start, end) <==> start <= p <= end
  {
    var r := PortRange(start, end);
    if start <= p <= end {
      assert r[p - start] == p;
    }
  }

  /** The port list is strictly ascending, so no port is scanned twice. */
  lemma PortRangeAscending(start: int, end: int, i: int, j: int)
    requires 0 <= i < j < |PortRange(start, end)|
    ensures PortRange(start, end)[i] < PortRange(start, end)[j]
  {
  }

  /** The default port list: 1 through 65537, one task per port. */
  lemma DefaultPortRange()
    ensures |PortRange(DefaultStart, DefaultEnd)| == 65537
    ensures PortRange(DefaultStart, DefaultEnd)[0] == 1
    ensures PortRange(DefaultStart, DefaultEnd)[65536] == 65537
  {
  }

  /** The membership test of line 115: the name is compared in lower case. */
  predicate Accepted(p: string)
  {
    Lower(p) in SupportedProtocols
  }

  /** The loop of lines 113-117: the names are checked in order and the
      first rejected one ends the program; accepted names are kept as given. */
  function CheckedProtocols(given: seq<string>): (r: Result<seq<string>, ScanError>)
    ensures r.Ok? <==> forall i :: 0 <= i < |given| ==> Accepted(given[i])
    ensures r.Ok? ==> r.value == given
    ensures r.Err? ==> exists i :: 0 <= i < |given| && FirstRejected(given, i) &&
                                   r.error == InvalidArgs("--protocols", given[i])
  {
    if |given| == 0 then Ok([])
    else
      var n := |given| - 1;
      match CheckedProtocols(given[..n])
      case Err(e) =>
        assert forall i :: 0 <= i < n ==> given[..n][i] == given[i];
        Err(e)
      case Ok(ps) =>
        if Accepted(given[n]) then Ok(ps + [given[n]])
        else Err(InvalidArgs("--protocols", given[n]))
  }

  /** `given[i]` is the first name the check rejects. */
  predicate FirstRejected(given: seq<string>, i: int)
    requires 0 <= i < |given|
  {
    !Accepted(given[i]) && forall j :: 0 <= j < i ==> Accepted(given[j])
  }

  /** Lines 110-117: no names gives the default list; otherwise the checked
      names, in input order, original case and duplicates kept. */
  function ShapedProtocols(given: seq<string>): (r: Result<seq<string>, ScanError>)
    ensures r.Ok? ==> |r.value| > 0
    ensures r.Ok? ==> forall i :: 0 <= i < |r.value| ==> Accepted(r.value[i])
  {
    assert Lower("tcp") == "tcp" && Lower("udp") == "udp";
    if |given| == 0 then Ok(DefaultProtocols) else CheckedProtocols(given)
  }

  /** What the shaping promises about the protocol list. */
  lemma ShapedProtocolsSpec(given: seq<string>)
    ensures |given| == 0 ==> ShapedProtocols(given) == Ok(["tcp", "udp"])
    ensures |given| > 0 ==>
      (ShapedProtocols(given).Ok? <==> forall i :: 0 <= i < |given| ==> Lower(given[i]) in {"tcp", "udp"})
    ensures |given| > 0 && ShapedProtocols(given).Ok? ==> ShapedProtocols(given).value == given
    ensures ShapedProtocols(given).Err? ==>
      exists i :: 0 <= i < |given| && Lower(given[i]) !in {"tcp", "udp"} &&
        ShapedProtocols(given).error == InvalidArgs("--protocols", given[i])
  {
    if |given| > 0 {
      var r := CheckedProtocols(given);
      if r.Err? {
        var i :| 0 <= i < |given| && FirstRejected(given, i) && r.error == InvalidArgs("--protocols", given[i]);
        assert Lower(given[i]) !in {"tcp", "udp"};
      }
    }
  }

  /** Two different indices cannot both be the first rejected name. */
  lemma FirstRejectedUnique(given: seq<string>, i: int, j: int)
    requires 0 <= i < |given| && 0 <= j < |given|
    requires FirstRejected(given, i) && FirstRejected(given, j)
    ensures i == j
  {
  }

  /** The configuration the parsed command line leads to, or the exit. */
  function ShapedArgs(parsed: Parsed): (r: Result<Args, ScanError>)
    ensures r.Ok? <==> ShapedProtocols(parsed.protocols).Ok?
    ensures r.Ok? ==> |r.value.ports| == Max(0, parsed.end - parsed.start + 1)
    ensures r.Ok? ==> |r.value.protocols| > 0
  {
    match ShapedProtocols(parsed.protocols)
    case Err(e) => Err(e)
    case Ok(ps) => Ok(Args(parsed.target, PortRange(parsed.start, parsed.end), parsed.threads, ps))
  }

  /** port_scanner.py `get_args` after `ap.parse_args()`: builds ARGS,
      appending the protocols one by one and exiting on the first one that
      is not supported. */
  method GetArgs(parsed: Parsed) returns (r: Result<Args, ScanError>)
    ensures r == ShapedArgs(parsed)
    ensures r.Ok? ==> r.value.ports == PortRange(parsed.start, parsed.end) &&
                      r.value.target == parsed.target && r.value.threads == parsed.threads
  {
    var ports := PortRange(parsed.start, parsed.end);
    var given := parsed.protocols;
    if |given| == 0 {
      return Ok(Args(parsed.target, ports, parsed.threads, DefaultProtocols));
    }
    var protocols: seq<string> := [];
    var i := 0;
    while i < |given|
      invariant 0 <= i <= |given|
      invariant protocols == given[..i]
      invariant forall j :: 0 <= j < i ==> Accepted(given[j])
    {
      if !Accepted(given[i]) {
        var e := CheckedProtocols(given);
        assert e.Err?;
        var k :| 0 <= k < |given| && FirstRejected(given, k) && e.error == InvalidArgs("--protocols", given[k]);
        FirstRejectedUnique(given, i, k);
        return Err(InvalidArgs("--protocols", given[i]));
      }
      protocols := protocols + [given[i]];
      i := i + 1;
    }
    assert protocols == given;
    return Ok(Args(parsed.target, ports, parsed.threads, protocols));
  }

  /** As written, a name in another case is accepted and stored unchanged,
      so the list can hold a name that is not lower case. */
  lemma UpperCaseNameKept()
    ensures ShapedProtocols(["TCP"]) == Ok(["TCP"])
    ensures "TCP" !in SupportedProtocols
  {
    assert Lower("TCP") == "tcp";
  }

  /** The evidently intended shaping: the names are stored in lower case. */
  function LoweredProtocols(given: seq<string>): (r: Result<seq<string>, ScanError>)
    ensures r.Ok? <==> ShapedProtocols(given).Ok?
    ensures r.Ok? ==> forall i :: 0 <= i < |r.value| ==> r.value[i] in SupportedProtocols
  {
    match ShapedProtocols(given)
    case Err(e) => Err(e)
    case Ok(ps) => Ok(seq(|ps|, i requires 0 <= i < |ps| => Lower(ps[i])))
  }

  /** With the names lowered, every stored name is a supported one, and the
      list still follows the input order and keeps duplicates. */
  lemma LoweredProtocolsSupported(given: seq<string>)
    ensures LoweredProtocols(given).Ok? <==> ShapedProtocols(given).Ok?
    ensures LoweredProtocols(given).Ok? ==>
      forall i :: 0 <= i < |LoweredProtocols(given).value| ==> LoweredProtocols(given).value[i] in SupportedProtocols
    ensures LoweredProtocols(given).Ok? && |given| > 0 ==>
      |LoweredProtocols(given).value| == |given| &&
      forall i :: 0 <= i < |given| ==> LoweredProtocols(given).value[i] == Lower(given[i])
  {
    if |given| == 0 {
      assert Lower("tcp") == "tcp";
      assert Lower("udp") == "udp";
    }
  }

  /** `get_args` with the evidently intended lowering of the stored names. */
  function LoweredArgs(parsed: Parsed): (r: Result<Args, ScanError>)
    ensures r.Ok? <==> ShapedArgs(parsed).Ok?
    ensures r.Ok? ==> r.value.ports == PortRange(parsed.start, parsed.end)
    ensures r.Ok? ==> forall i :: 0 <= i < |r.value.protocols| ==> r.value.protocols[i] in SupportedProtocols
  {
    match LoweredProtocols(parsed.protocols)
    case Err(e) => Err(e)
    case Ok(ps) => Ok(Args(parsed.target, PortRange(parsed.start, parsed.end), parsed.threads, ps))
  }
}
