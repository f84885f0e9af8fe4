/** The value side of AddressConstants: constants, the per-year port
    tables, the IPv4 override pattern, link labels, and the robot
    controller's address resolution as a function of the cache, the
    team-number text, the time and the discovery probe's answers. */
module AddressModel {
  import opened Common

  const LOCALHOST: string := "localhost"
  const LOCALHOST_IP: string := "127.0.0.1"
  const USB_RIO_IP: string := "172.22.11.2"
  const FMS_IP: string := "10.0.100.5"
  /** The reserved, non-routable address returned when no robot was found. */
  const NO_ROBOT_IP: string := "240.0.0.0"
  const PROBE_INTERVAL_MS: int := 1000
  const DEFAULT_YEAR: int := 2020

  // --------------------------------------------------------------- ports

  datatype PortTriple = PortTriple(tcp: int, udpTx: int, udpRx: int)

  datatype PortQuad = PortQuad(tcp: int, udpTx: int, udpRx: int, shuffleboard: int)
  {
    /** A PortQuad used where a PortTriple is expected. */
    function Triple(): PortTriple { PortTriple(tcp, udpTx, udpRx) }
  }

  /** The FMS_PORTS_<year> and RIO_PORTS_<year> fields; only 2020 exists. */
  const FMS_PORTS: map<int, PortTriple> := map[2020 := PortTriple(1750, 1160, 1121)]
  const RIO_PORTS: map<int, PortQuad> := map[2020 := PortQuad(1740, 1110, 1150, 1735)]

  /** getProtoYearValue: the entry for the year, else the 2020 entry, else
      null (None) when even that is missing. */
  function ProtoYearValue<T(==)>(table: map<int, T>, year: int): (r: Option<T>)
    ensures r.Some? <==> year in table || DEFAULT_YEAR in table
    ensures r.Some? ==> r.value in table.Values
    ensures year in table ==> r == Some(table[year])
    ensures year !in table && DEFAULT_YEAR in table ==> r == Some(table[DEFAULT_YEAR])
  {
    if year in table then Some(table[year])
    else if DEFAULT_YEAR in table then Some(table[DEFAULT_YEAR])
    else None
  }

  /** A year without its own entry behaves exactly like 2020. */
  lemma UnconfiguredYearFallsBack<T>(table: map<int, T>, year: int)
    requires year !in table
    ensures ProtoYearValue(table, year) == ProtoYearValue(table, DEFAULT_YEAR)
  {
  }

  function FmsPortsFor(year: int): PortTriple { ProtoYearValue(FMS_PORTS, year).value }
  function RioPortsFor(year: int): PortQuad { ProtoYearValue(RIO_PORTS, year).value }

  /** With only the 2020 tables present, every protocol year dials the same ports. */
  lemma EveryYearUses2020Ports(year: int)
    ensures FmsPortsFor(year) == PortTriple(1750, 1160, 1121)
    ensures RioPortsFor(year) == PortQuad(1740, 1110, 1150, 1735)
  {
  }

  // ---------------------------------------------------------- IPv4 text

  /** One decimal octet as IPV4_REGEX accepts it: 0 to 255, no leading zero. */
  predicate IsOctet(s: string)
  {
    1 <= |s| <= 3 && AllDigits(s) && (|s| > 1 ==> s[0] != '0') && DigitsValue(s) <= 255
  }

  /** teamText.matches(IPV4_REGEX): the word boundary after each optional
      dot forces exactly four dot-separated octets. */
  predicate MatchesIpv4(s: string)
  {
    var parts := Split(s, '.');
    |parts| == 4 && forall k :: 0 <= k < 4 ==> IsOctet(parts[k])
  }

  lemma {:induction false} SplitHead(s: string, sep: char)
    requires |s| > 0 && s[0] != sep
    ensures |Split(s, sep)[0]| > 0 && Split(s, sep)[0][0] == s[0]
  {
  }

  /** No spelling of "localhost" is mistaken for an address. */
  lemma LocalhostIsNotIpv4(s: string)
    requires EqualsIgnoreCase(s, LOCALHOST)
    ensures !MatchesIpv4(s)
  {
    assert ToLowerAscii(s[0]) == 'l';
    SplitHead(s, '.');
  }

  /** Split on a text with no separator gives the text back as one piece. */
  lemma {:induction false} SplitWithoutSeparator(s: string, sep: char)
    requires sep !in s
    ensures Split(s, sep) == [s]
  {
    if |s| > 0 {
      SplitWithoutSeparator(s[1..], sep);
      assert [s[0]] + s[1..] == s;
    }
  }

  /** The first separator ends the first piece. */
  lemma {:induction false} SplitAtFirstSeparator(x: string, y: string, sep: char)
    requires sep !in x
    ensures Split(x + [sep] + y, sep) == [x] + Split(y, sep)
  {
    var s := x + [sep] + y;
    if |x| == 0 {
      assert s[1..] == y;
    } else {
      assert s[1..] == x[1..] + [sep] + y;
      SplitAtFirstSeparator(x[1..], y, sep);
      assert [x[0]] + x[1..] == x;
    }
  }

  /** Four dot-free pieces joined by dots split back into those pieces. */
  lemma DottedQuadSplits(a: string, b: string, c: string, d: string)
    requires '.' !in a && '.' !in b && '.' !in c && '.' !in d
    ensures Split(a + ['.'] + (b + ['.'] + (c + ['.'] + d)), '.') == [a, b, c, d]
  {
    var cd := c + ['.'] + d;
    var bcd := b + ['.'] + cd;
    SplitWithoutSeparator(d, '.');
    SplitAtFirstSeparator(c, d, '.');
    SplitAtFirstSeparator(b, cd, '.');
    SplitAtFirstSeparator(a, bcd, '.');
  }

  /** Four octets joined by dots match the pattern. */
  lemma DottedQuadMatches(a: string, b: string, c: string, d: string)
    requires IsOctet(a) && IsOctet(b) && IsOctet(c) && IsOctet(d)
    ensures MatchesIpv4(a + ['.'] + (b + ['.'] + (c + ['.'] + d)))
  {
    DottedQuadSplits(a, b, c, d);
  }

  /** An example address of a team's robot network matches the pattern. */
  lemma TeamAddressMatches()
    ensures MatchesIpv4("10.1.23.2")
  {
    assert "23"[..1] == "2" && "10"[..1] == "1";
    assert DigitsValue("23") == 23 && DigitsValue("10") == 10;
    DottedQuadMatches("10", "1", "23", "2");
    assert "10" + ['.'] + ("1" + ['.'] + ("23" + ['.'] + "2")) == "10.1.23.2";
  }

  /** The loopback literal matches the pattern. */
  lemma LoopbackLiteralMatches()
    ensures MatchesIpv4(LOCALHOST_IP)
  {
    assert DigitsValue("127") == 127 by { assert DigitsValue("12") == 12; }
    DottedQuadMatches("127", "0", "0", "1");
    assert "127" + ['.'] + ("0" + ['.'] + ("0" + ['.'] + "1")) == LOCALHOST_IP;
  }

  // -------------------------------------------------------------- labels

  /** computeRioLabel: how the link to the robot is named in the status bar. */
  function ComputeRioLabel(address: Option<string>): string
  {
    match address
    case None => ""
    case Some(a) =>
      if a == USB_RIO_IP then "USB (" + USB_RIO_IP + ")"
      else if EqualsIgnoreCase(LOCALHOST, a) || a == LOCALHOST_IP then "Sim (localhost)"
      else "Wi-Fi (" + a + ")"
  }

  predicate IsLoopbackName(a: string)
  {
    EqualsIgnoreCase(LOCALHOST, a) || a == LOCALHOST_IP
  }

  /** Reading a label back: which address it names. */
  function LabelledAddress(shown: string): Option<string>
  {
    if shown == "Sim (localhost)" then Some(LOCALHOST)
    else if |shown| >= 6 && shown[..5] == "USB (" && shown[|shown| - 1] == ')' then
      Some(shown[5..|shown| - 1])
    else if |shown| >= 8 && shown[..7] == "Wi-Fi (" && shown[|shown| - 1] == ')' then
      Some(shown[7..|shown| - 1])
    else None
  }

  /** Which label each address gets: none for null, "USB (...)" for the
      tether, "Sim (localhost)" for every loopback spelling, "Wi-Fi (...)"
      for anything else; no address has the empty label. A label names the
      address it was computed from, except that every loopback spelling is
      named "localhost". */
  lemma LabelRoundTrip(address: Option<string>)
    ensures ComputeRioLabel(None) == ""
    ensures ComputeRioLabel(Some(USB_RIO_IP)) == "USB (" + USB_RIO_IP + ")"
    ensures address.Some? && IsLoopbackName(address.value) && address.value != USB_RIO_IP
            ==> ComputeRioLabel(address) == "Sim (localhost)"
    ensures address.Some? && !IsLoopbackName(address.value) && address.value != USB_RIO_IP
            ==> ComputeRioLabel(address) == "Wi-Fi (" + address.value + ")"
    ensures address.Some? ==> ComputeRioLabel(address) != ""
    ensures address.None? ==> LabelledAddress(ComputeRioLabel(address)) == None
    ensures address.Some? && IsLoopbackName(address.value) && address.value != USB_RIO_IP
            ==> LabelledAddress(ComputeRioLabel(address)) == Some(LOCALHOST)
    ensures address.Some? && !IsLoopbackName(address.value)
            ==> LabelledAddress(ComputeRioLabel(address)) == address
  {
    if address.Some? && !IsLoopbackName(address.value) {
      var a := address.value;
      var shown := ComputeRioLabel(address);
      if a == USB_RIO_IP {
        assert shown[..5] == "USB (" && shown[5..|shown| - 1] == a;
      } else {
        assert shown[..7] == "Wi-Fi (" && shown[7..|shown| - 1] == a;
        assert shown != "Sim (localhost)" by { assert shown[0] != "Sim (localhost)"[0]; }
        assert shown[..5] != "USB (" by { assert shown[0] != 'U'; }
      }
    }
  }

  // --------------------------------------------------------------- cache

  /** The static state of AddressConstants. */
  datatype Cache = Cache(
    fmsPorts: PortTriple,
    rioPorts: PortQuad,
    lastProbeMs: int,
    lastProbedAddress: Option<string>,
    connectedAddress: Option<string>,   // lastConnectedRioAddress
    connectedLabel: Option<string>)     // lastConnectedRioLabel

  /** The state after the static initialiser ran for a protocol year. */
  function InitialCache(year: int): Cache
  {
    Cache(FmsPortsFor(year), RioPortsFor(year), 0, None, None, None)
  }

  function ReloadProtocol(c: Cache, year: int): Cache
  {
    c.(fmsPorts := FmsPortsFor(year), rioPorts := RioPortsFor(year))
  }

  function NoteConnected(c: Cache, address: Option<string>): Cache
  {
    c.(connectedAddress := address, connectedLabel := Some(ComputeRioLabel(address)))
  }

  function ClearIfDisconnected(c: Cache, rioInit: bool): Cache
  {
    if rioInit then c else c.(connectedAddress := None, connectedLabel := None)
  }

  function ForceClear(c: Cache): Cache
  {
    c.(connectedAddress := None, connectedLabel := None)
  }

  /** getConnectedRioLabel: the stored label, "" when there is none. */
  function ConnectedLabel(c: Cache): string
  {
    if c.connectedLabel.Some? then c.connectedLabel.value else ""
  }

  /** The label shown for a link follows the address last noted, and a
      clear leaves no label behind. */
  lemma ConnectedLabelAfterCacheOps(c: Cache, address: Option<string>, rioInit: bool)
    ensures ConnectedLabel(NoteConnected(c, address)) == ComputeRioLabel(address)
    ensures ConnectedLabel(ForceClear(c)) == "" && ForceClear(c).connectedAddress == None
    ensures !rioInit ==> ClearIfDisconnected(c, rioInit) == ForceClear(c)
    ensures rioInit ==> ClearIfDisconnected(c, rioInit) == c
  {
  }

  // ---------------------------------------------------------- resolution

  datatype Endpoint = Endpoint(host: string, port: int)

  /** The answer of getRioAddress, the cache afterwards, and the endpoints
      the TCP-connect probe was tried on, in order. */
  datatype Resolution = Resolution(address: string, cache: Cache, probed: seq<Endpoint>)

  function MdnsName(team: int): string
  {
    "roboRIO-" + IntToString(team) + "-FRC.local"
  }

  /** The multicast-DNS name of the team, when the text parses to a team
      number other than -1. */
  function TeamMdns(teamText: string): Option<string>
  {
    var team := ParseIntOr(teamText, -1);
    if team != -1 then Some(MdnsName(team)) else None
  }

  function Found(c: Cache, address: string, probed: seq<Endpoint>): Resolution
  {
    Resolution(address, c.(lastProbedAddress := Some(address)), probed)
  }

  /** The probe ladder: team name, then USB tether, then the local simulator. */
  function Discover(c: Cache, mdns: Option<string>, probe: (string, int) -> bool): Resolution
  {
    var tcp := c.rioPorts.tcp;
    var usb := Endpoint(USB_RIO_IP, tcp);
    var sim := Endpoint(LOCALHOST_IP, c.rioPorts.shuffleboard);
    var viaMdns := if mdns.Some? then [Endpoint(mdns.value, tcp)] else [];
    if mdns.Some? && probe(mdns.value, tcp) then Found(c, mdns.value, viaMdns)
    else if probe(USB_RIO_IP, tcp) then Found(c, USB_RIO_IP, viaMdns + [usb])
    else if probe(LOCALHOST_IP, c.rioPorts.shuffleboard) then Found(c, LOCALHOST, viaMdns + [usb, sim])
    else if mdns.Some? then Found(c, mdns.value, viaMdns + [usb, sim])
    else Found(c, NO_ROBOT_IP, [usb, sim])
  }

  /** getRioAddress. rioInit is isInit(ROBO_RIO), teamText the team-number
      field's text, probe the 100 ms TCP-connect test. */
  function Resolve(c: Cache, rioInit: bool, teamText: string, now: int,
                   probe: (string, int) -> bool): Resolution
  {
    var c1 := if !rioInit then c.(connectedAddress := None) else c;
    if c1.connectedAddress.Some? then Resolution(c1.connectedAddress.value, c1, [])
    else if MatchesIpv4(teamText) then Resolution(teamText, c1, [])
    else if EqualsIgnoreCase(teamText, LOCALHOST) || teamText == LOCALHOST_IP then
      Resolution(LOCALHOST, c1, [])
    else if now - c1.lastProbeMs < PROBE_INTERVAL_MS && c1.lastProbedAddress.Some? then
      Resolution(c1.lastProbedAddress.value, c1, [])
    else Discover(c1.(lastProbeMs := now), TeamMdns(teamText), probe)
  }

  // ------------------------------------------ reference for the probe order

  datatype Candidate = Candidate(at: Endpoint, answer: string)

  /** The candidates in the order they are tried, with the address each
      one yields when it answers. */
  function ProbeOrder(mdns: Option<string>, ports: PortQuad): seq<Candidate>
  {
    (if mdns.Some? then [Candidate(Endpoint(mdns.value, ports.tcp), mdns.value)] else [])
    + [Candidate(Endpoint(USB_RIO_IP, ports.tcp), USB_RIO_IP),
       Candidate(Endpoint(LOCALHOST_IP, ports.shuffleboard), LOCALHOST)]
  }

  datatype Probed = Probed(answer: Option<string>, tried: seq<Endpoint>)

  /** Try candidates in order and stop at the first that answers. */
  function FirstReachable(cands: seq<Candidate>, probe: (string, int) -> bool): (r: Probed)
    ensures |r.tried| <= |cands|
    ensures forall i :: 0 <= i < |r.tried| ==> r.tried[i] == cands[i].at
    ensures forall i :: 0 <= i < |r.tried| - 1 ==> !probe(cands[i].at.host, cands[i].at.port)
    ensures r.answer.None? ==> |r.tried| == |cands|
                               && forall i :: 0 <= i < |cands| ==> !probe(cands[i].at.host, cands[i].at.port)
    ensures r.answer.Some? ==> && |r.tried| > 0
                               && probe(cands[|r.tried| - 1].at.host, cands[|r.tried| - 1].at.port)
                               && r.answer.value == cands[|r.tried| - 1].answer
  {
    if cands == [] then Probed(None, [])
    else if probe(cands[0].at.host, cands[0].at.port) then Probed(Some(cands[0].answer), [cands[0].at])
    else
      var rest := FirstReachable(cands[1..], probe);
      Probed(rest.answer, [cands[0].at] + rest.tried)
  }

  /** Discovery is "first reachable candidate in probe order", falling back
      to the team name or the no-robot sentinel, and it remembers its answer. */
  lemma DiscoverFollowsProbeOrder(c: Cache, mdns: Option<string>, probe: (string, int) -> bool)
    ensures var d := Discover(c, mdns, probe);
            var f := FirstReachable(ProbeOrder(mdns, c.rioPorts), probe);
            && d.probed == f.tried
            && d.address == (if f.answer.Some? then f.answer.value
                             else if mdns.Some? then mdns.value else NO_ROBOT_IP)
            && d.cache == c.(lastProbedAddress := Some(d.address))
  {
    var cands := ProbeOrder(mdns, c.rioPorts);
    var usb := Candidate(Endpoint(USB_RIO_IP, c.rioPorts.tcp), USB_RIO_IP);
    var sim := Candidate(Endpoint(LOCALHOST_IP, c.rioPorts.shuffleboard), LOCALHOST);
    assert [usb, sim][1..] == [sim] && [sim][1..] == [];
    var fs := FirstReachable([sim], probe);
    if !probe(LOCALHOST_IP, c.rioPorts.shuffleboard) {
      assert FirstReachable([], probe) == Probed(None, []);
      assert [sim.at] + [] == [sim.at];
      assert fs == Probed(None, [sim.at]);
    }
    var fu := FirstReachable([usb, sim], probe);
    assert fu == if probe(USB_RIO_IP, c.rioPorts.tcp) then Probed(Some(USB_RIO_IP), [usb.at])
                 else Probed(fs.answer, [usb.at] + fs.tried);
    if mdns.Some? {
      assert cands[1..] == [usb, sim];
    } else {
      assert cands == [usb, sim];
    }
  }

  // ------------------------------------------------- properties of Resolve

  /** When the robot link is down, the connected address is forgotten first
      (its label is left as it was). */
  lemma ResolveForgetsWhenDisconnected(c: Cache, teamText: string, now: int, probe: (string, int) -> bool)
    ensures Resolve(c, false, teamText, now, probe).cache.connectedAddress == None
    ensures Resolve(c, false, teamText, now, probe).cache.connectedLabel == c.connectedLabel
  {
  }

  /** A connected link is sticky: its address is returned unchanged, the
      team-number text is not consulted, and nothing is probed. */
  lemma ResolveStickyWhileConnected(c: Cache, teamText: string, teamText': string, now: int,
                                    probe: (string, int) -> bool, probe': (string, int) -> bool)
    requires c.connectedAddress.Some?
    ensures Resolve(c, true, teamText, now, probe) == Resolution(c.connectedAddress.value, c, [])
    ensures Resolve(c, true, teamText, now, probe) == Resolve(c, true, teamText', now, probe')
  {
  }

  /** A typed IPv4 address is used verbatim; a spelling of "localhost" gives
      the canonical name. Neither probes or touches the probe cache. */
  lemma ResolveManualOverride(c: Cache, rioInit: bool, teamText: string, now: int, probe: (string, int) -> bool)
    requires !rioInit || c.connectedAddress.None?
    requires MatchesIpv4(teamText) || EqualsIgnoreCase(teamText, LOCALHOST)
    ensures var r := Resolve(c, rioInit, teamText, now, probe);
            && r.address == (if MatchesIpv4(teamText) then teamText else LOCALHOST)
            && r.probed == []
            && r.cache == c.(connectedAddress := None)
  {
  }

  /** The loopback literal is caught by the IPv4 pattern before the
      localhost test, so it is returned as typed. */
  lemma ResolveLoopbackLiteralVerbatim(c: Cache, rioInit: bool, now: int, probe: (string, int) -> bool)
    requires !rioInit || c.connectedAddress.None?
    ensures Resolve(c, rioInit, LOCALHOST_IP, now, probe).address == LOCALHOST_IP
  {
    LoopbackLiteralMatches();
  }

  /** Inside the probe interval a remembered probe answer is reused as is. */
  lemma ResolveReusesRecentProbe(c: Cache, rioInit: bool, teamText: string, now: int, probe: (string, int) -> bool)
    requires !rioInit || c.connectedAddress.None?
    requires !MatchesIpv4(teamText) && !EqualsIgnoreCase(teamText, LOCALHOST) && teamText != LOCALHOST_IP
    requires now - c.lastProbeMs < PROBE_INTERVAL_MS && c.lastProbedAddress.Some?
    ensures var r := Resolve(c, rioInit, teamText, now, probe);
            && r.address == c.lastProbedAddress.value && r.probed == []
            && r.cache == (if !rioInit then c.(connectedAddress := None) else c)
  {
  }

  /** Otherwise the probe time is recorded and the ladder runs in order;
      whatever it answers becomes the remembered probe answer. */
  lemma ResolveProbesInOrder(c: Cache, rioInit: bool, teamText: string, now: int, probe: (string, int) -> bool)
    requires !rioInit || c.connectedAddress.None?
    requires !MatchesIpv4(teamText) && !EqualsIgnoreCase(teamText, LOCALHOST) && teamText != LOCALHOST_IP
    requires now - c.lastProbeMs >= PROBE_INTERVAL_MS || c.lastProbedAddress.None?
    ensures var r := Resolve(c, rioInit, teamText, now, probe);
            var mdns := TeamMdns(teamText);
            var f := FirstReachable(ProbeOrder(mdns, c.rioPorts), probe);
            && r.cache == (if !rioInit then c.(connectedAddress := None) else c)
                            .(lastProbeMs := now, lastProbedAddress := Some(r.address))
            && r.probed == f.tried
            && r.address == (if f.answer.Some? then f.answer.value
                             else if mdns.Some? then mdns.value else NO_ROBOT_IP)
  {
    var c1 := if !rioInit then c.(connectedAddress := None) else c;
    DiscoverFollowsProbeOrder(c1.(lastProbeMs := now), TeamMdns(teamText), probe);
  }

  /** Once a call has probed, any call in the following second (with the
      link state unchanged) returns the same address without probing, even
      if reachability has changed meanwhile. The window runs from the probe,
      not from the latest call. */
  lemma ResolveStableWithinProbeInterval(c: Cache, rioInit: bool, teamText: string, now: int, now': int,
                                         probe: (string, int) -> bool, probe': (string, int) -> bool)
    requires Resolve(c, rioInit, teamText, now, probe).probed != []
    requires now <= now' < now + PROBE_INTERVAL_MS
    ensures var r := Resolve(c, rioInit, teamText, now, probe);
            var r' := Resolve(r.cache, rioInit, teamText, now', probe');
            r'.address == r.address && r'.probed == [] && r'.cache == r.cache
  {
  }
}
