/** What one NetworkClock does to the shared state, as functions of a
    snapshot (View) of everything a clock reads and writes: the link table,
    the address cache, the enable toggle, the clock's own interface and the
    record of its effects on the outside world. The class in module
    Networking is specified by these functions. */
module ClockModel {
  import opened Common
  import opened LinkState
  import opened AddressModel

  /** A robot link with no inbound frame for longer than this is stale. */
  const RIO_STALE_MS: int := 600

  /** An open transport: TCP to one port, or UDP with a send and a receive port. */
  datatype Iface = TcpIface(host: string, port: int) | UdpIface(host: string, txPort: int, rxPort: int)

  /** What the clock hands to the updater: ParserNull, or a parsed frame. */
  datatype Report = NoData | Parsed(data: seq<byte>)

  /** The clock's effects on its collaborators, in the order they happen. */
  datatype Effect =
    | CountersReset             // PacketCounters.get(remote, protocol).reset()
    | Reported(report: Report)  // UPDATER.update(...)
    | Closed(iface: Iface)      // iface.close()
    | PingTested(host: string)  // the 200 ms reachability test
    | Opened(iface: Iface)      // a TCPInterface or UDPInterface was constructed

  /** What the outside world answers during one call. */
  datatype Env = Env(
    now: int,                           // System.currentTimeMillis()
    updaterSet: bool,                   // DisplayEndpoint.UPDATER != null
    creatorSet: bool,                   // DisplayEndpoint.CREATOR != null
    write: Iface -> bool,               // iface.write(frame) succeeded
    read: Iface -> Option<seq<byte>>,   // iface.read(); None is a null array
    probe: (string, int) -> bool,       // 100 ms TCP-connect discovery probe
    ping: string -> bool,               // 200 ms reachability; false for an unknown host
    open: Iface -> bool)                // the interface constructor did not throw

  datatype View = View(
    links: Links,
    cache: Cache,
    enableAllowed: bool,    // IS_ENABLED.isEnabled()
    enableSelected: bool,   // IS_ENABLED.isSelected()
    iface: Option<Iface>,
    effects: seq<Effect>)

  /** A clock's slot is up only while it holds an open interface. */
  predicate Inv(v: View, r: Remote, p: Protocol)
  {
    Get(v.links, r, p) ==> v.iface.Some?
  }

  predicate Wired(e: Env) { e.updaterSet && e.creatorSet }

  /** uninitialize(isFms): mark the slot down; for the robot, forget the
      connected address if the robot link is now down and force the enable
      toggle off and deselected. The interface is not closed. */
  function Uninitialize(v: View, r: Remote, p: Protocol, isFms: bool, now: int): View
  {
    var links := Set(v.links, false, r, p, now);
    if isFms then v.(links := links)
    else v.(links := links, cache := ClearIfDisconnected(v.cache, IsInit(links, RoboRio)),
            enableAllowed := false, enableSelected := false)
  }

  /** What reloadInterface does before anything else. */
  function TeardownEffects(iface: Option<Iface>, e: Env): seq<Effect>
  {
    [CountersReset]
    + (if e.updaterSet then [Reported(NoData)] else [])
    + (if iface.Some? then [Closed(iface.value)] else [])
  }

  function OpenIface(p: Protocol, ip: string, ports: PortTriple): Iface
  {
    if p == Tcp then TcpIface(ip, ports.tcp) else UdpIface(ip, ports.udpTx, ports.udpRx)
  }

  /** The address a clock dials and the cache afterwards. */
  function Dial(v: View, r: Remote, teamText: string, e: Env): (string, Cache)
  {
    if r == Fms then (FMS_IP, v.cache)
    else
      var res := Resolve(v.cache, IsInit(v.links, RoboRio), teamText, e.now, e.probe);
      (res.address, res.cache)
  }

  function PortsOf(c: Cache, r: Remote): PortTriple
  {
    if r == Fms then c.fmsPorts else c.rioPorts.Triple()
  }

  /** The first half of reloadInterface: reset, report, close and drop. */
  function Teardown(v: View, e: Env): View
  {
    v.(iface := None, effects := v.effects + TeardownEffects(v.iface, e))
  }

  /** The reachability gate and the opening of an interface on ip. */
  function Attempt(t: View, r: Remote, p: Protocol, ip: string, ports: PortTriple, e: Env): (w: View)
    ensures Inv(w, r, p)
  {
    var isFms := r == Fms;
    var t2 := t.(effects := t.effects + [PingTested(ip)]);
    var i := OpenIface(p, ip, ports);
    if !e.ping(ip) || !e.open(i) then Uninitialize(t2, r, p, isFms, e.now)
    else
      var t3 := t2.(iface := Some(i), effects := t2.effects + [Opened(i)],
                    links := Set(t2.links, true, r, p, e.now));
      if isFms then t3 else t3.(cache := NoteConnected(t3.cache, Some(ip)))
  }

  /** The second half of reloadInterface: choose the address and ports, then attempt. */
  function Connect(t: View, r: Remote, p: Protocol, fmsConnect: bool, teamText: string, e: Env): (w: View)
    ensures Inv(w, r, p)
  {
    if r == Fms && !fmsConnect then t.(links := Set(t.links, false, r, p, e.now))
    else
      var (ip, cache) := Dial(t, r, teamText, e);
      Attempt(t.(cache := cache), r, p, ip, PortsOf(cache, r), e)
  }

  /** reloadInterface. */
  function Reload(v: View, r: Remote, p: Protocol, fmsConnect: bool, teamText: string, e: Env): (w: View)
    ensures Inv(w, r, p)
  {
    Connect(Teardown(v, e), r, p, fmsConnect, teamText, e)
  }

  /** What a tick does with the answer to a successful write: a null read
      marks the link down; data, or any TCP read, is reported and keeps the
      robot link fresh; an empty UDP read is ignored. */
  function Receive(v: View, r: Remote, p: Protocol, data: Option<seq<byte>>, now: int): View
  {
    match data
    case None =>
      v.(effects := v.effects + [Reported(NoData)], links := Set(v.links, false, r, p, now))
    case Some(d) =>
      if |d| != 0 || p != Udp then
        v.(effects := v.effects + [Reported(Parsed(d))],
           links := if r == RoboRio then TouchRio(v.links, now) else v.links)
      else v
  }

  /** onCycle up to, and not including, the staleness check. */
  function CycleBody(v: View, r: Remote, p: Protocol, fmsConnect: bool, teamText: string, e: Env): View
    requires Inv(v, r, p)
  {
    var connFms := r != Fms || fmsConnect;
    if !Wired(e) then v
    else if !connFms then
      v.(effects := v.effects + [Reported(NoData)], links := Set(v.links, false, r, p, e.now))
    else if Get(v.links, r, p) then
      var i := v.iface.value;
      if !e.write(i) then
        Reload(v.(effects := v.effects + [Reported(NoData)]), r, p, fmsConnect, teamText, e)
      else
        Receive(v, r, p, e.read(i), e.now)
    else Reload(v.(effects := v.effects + [Reported(NoData)]), r, p, fmsConnect, teamText, e)
  }

  /** onCycle: the tick, then the robot link's fail-safe. */
  function Cycle(v: View, r: Remote, p: Protocol, fmsConnect: bool, teamText: string, e: Env): (w: View)
    requires Inv(v, r, p)
    ensures Inv(w, r, p)
  {
    var m := CycleBody(v, r, p, fmsConnect, teamText, e);
    if r == RoboRio && IsRioStale(m.links, RIO_STALE_MS, e.now) then Uninitialize(m, r, p, false, e.now)
    else m
  }

  /** restart, without the scheduler's end and start. */
  function Restart(v: View, r: Remote, p: Protocol, fmsConnect: bool, teamText: string, e: Env): (w: View)
    ensures Inv(w, r, p)
  {
    Reload(v.(links := Set(v.links, false, r, p, e.now)), r, p, fmsConnect, teamText, e)
  }

  /** Ticks of one clock in a row. */
  function Run(v: View, r: Remote, p: Protocol, fmsConnect: bool, teamText: string, envs: seq<Env>): (w: View)
    requires Inv(v, r, p)
    ensures Inv(w, r, p)
    decreases |envs|
  {
    if envs == [] then v
    else Run(Cycle(v, r, p, fmsConnect, teamText, envs[0]), r, p, fmsConnect, teamText, envs[1..])
  }

  /** The shared part of from with the interface and effects of own. */
  function Handover(from: View, own: View): View
  {
    from.(iface := own.iface, effects := own.effects)
  }

  /** The order in which unsetAllInterfaces restarts the clocks. */
  const CLOCK_ORDER: seq<(Remote, Protocol)> := [(RoboRio, Udp), (RoboRio, Tcp), (Fms, Udp), (Fms, Tcp)]

  /** Restart the clocks one after another, each from the shared state the
      previous one left; the result holds the view right after each restart. */
  function RestartInTurn(shared: View, clocks: seq<View>, keys: seq<(Remote, Protocol)>, fmsConnect: bool,
                         teamText: string, envs: seq<Env>): (done: seq<View>)
    requires |clocks| == |keys| == |envs|
    ensures |done| == |keys|
    decreases |keys|
  {
    if keys == [] then []
    else
      var s := Restart(Handover(shared, clocks[0]), keys[0].0, keys[0].1, fmsConnect, teamText, envs[0]);
      [s] + RestartInTurn(s, clocks[1..], keys[1..], fmsConnect, teamText, envs[1..])
  }

  /** unsetAllInterfaces: forget the connected robot address, then restart
      the four clocks in CLOCK_ORDER. clocks[k] is the view of the k-th
      clock (they agree on the shared state), envs[k] what the world answers
      during its restart; the result holds the four views afterwards. */
  function UnsetAll(clocks: seq<View>, fmsConnect: bool, teamText: string, envs: seq<Env>): (ws: seq<View>)
    requires |clocks| == 4 && |envs| == 4
    ensures |ws| == 4
    ensures ws[3] == RestartInTurn(clocks[0].(cache := ForceClear(clocks[0].cache)), clocks, CLOCK_ORDER,
                                   fmsConnect, teamText, envs)[3]
    ensures Handover(ws[3], ws[0]) == ws[0] && Handover(ws[3], ws[1]) == ws[1]
            && Handover(ws[3], ws[2]) == ws[2]
  {
    var done := RestartInTurn(clocks[0].(cache := ForceClear(clocks[0].cache)), clocks, CLOCK_ORDER,
                              fmsConnect, teamText, envs);
    var last := done[3];
    [Handover(last, done[0]), Handover(last, done[1]), Handover(last, done[2]), last]
  }

  // ------------------------------------------------------------ naming

  /** Protocol.name(). */
  function ProtocolName(p: Protocol): string
  {
    if p == Udp then "UDP" else "TCP"
  }

  /** createName: "rio" or "fms", then the protocol name capitalised. */
  function CreateName(r: Remote, p: Protocol): string
  {
    var proto := ProtocolName(p);
    (if r == RoboRio then "rio" else "fms") + [proto[0]] + LowerAscii(proto[1..])
  }

  /** The robot clocks tick every 20 ms, the FMS clocks every 500 ms. */
  function PeriodMs(r: Remote): nat
  {
    if r == RoboRio then 20 else 500
  }

  lemma ClockNames()
    ensures CreateName(RoboRio, Udp) == "rioUdp" && CreateName(RoboRio, Tcp) == "rioTcp"
    ensures CreateName(Fms, Udp) == "fmsUdp" && CreateName(Fms, Tcp) == "fmsTcp"
  {
    assert LowerAscii("DP") == "dp";
    assert LowerAscii("CP") == "cp";
  }

  /** The four clocks have four different names. */
  lemma ClockNamesDistinct(r: Remote, p: Protocol, r': Remote, p': Protocol)
    ensures CreateName(r, p) == CreateName(r', p') <==> r == r' && p == p'
  {
    ClockNames();
    if CreateName(r, p) == CreateName(r', p') {
      assert CreateName(r, p)[0] == CreateName(r', p')[0];
      assert CreateName(r, p)[3] == CreateName(r', p')[3];
    }
  }

  // -------------------------------------------------------- hex preview

  const HEX_DIGITS: string := "0123456789ABCDEF"

  /** String.format("%02X", b). */
  function HexByte(b: byte): (s: string)
    ensures |s| == 2
  {
    [HEX_DIGITS[b / 16], HEX_DIGITS[b % 16]]
  }

  /** The bytes as hex pairs separated by single spaces. */
  function HexJoin(bs: seq<byte>): (s: string)
  {
    if |bs| == 0 then ""
    else if |bs| == 1 then HexByte(bs[0])
    else HexJoin(bs[..|bs| - 1]) + " " + HexByte(bs[|bs| - 1])
  }

  function Shown(length: int, maxBytes: int): nat
  {
    var n := if length < maxBytes then length else maxBytes;
    if n < 0 then 0 else n
  }

  /** toHexPreview(data, maxBytes). */
  function HexPreview(data: seq<byte>, maxBytes: int): string
  {
    HexJoin(data[..Shown(|data|, maxBytes)]) + (if |data| > maxBytes then " ..." else "")
  }

  function HexValue(c: char): int
  {
    if '0' <= c <= '9' then c as int - '0' as int
    else if 'A' <= c <= 'F' then c as int - 'A' as int + 10
    else -1
  }

  /** Each pair is two upper-case hex digits that read back as the byte. */
  lemma HexByteRoundTrip(b: byte)
    ensures forall k :: 0 <= k < 2 ==> HexByte(b)[k] in HEX_DIGITS
    ensures HexValue(HexByte(b)[0]) * 16 + HexValue(HexByte(b)[1]) == b
  {
    var hi, lo := b / 16, b % 16;
    assert forall d :: 0 <= d < 16 ==> HexValue(HEX_DIGITS[d]) == d;
  }

  /** The joined text has three characters per byte less the final space. */
  lemma {:induction false} HexJoinLength(bs: seq<byte>)
    requires |bs| > 0
    ensures |HexJoin(bs)| == 3 * |bs| - 1
  {
    if |bs| > 1 {
      HexJoinLength(bs[..|bs| - 1]);
    }
  }

  /** The joined text: three characters per byte less the final space, the
      pair of byte i at offset 3i, and a space after every pair but the last. */
  lemma {:induction false} HexJoinLayout(bs: seq<byte>, i: nat)
    requires i < |bs|
    ensures |HexJoin(bs)| == 3 * |bs| - 1
    ensures HexJoin(bs)[3 * i..3 * i + 2] == HexByte(bs[i])
    ensures i + 1 < |bs| ==> HexJoin(bs)[3 * i + 2] == ' '
  {
    HexJoinLength(bs);
    if |bs| > 1 {
      var init := bs[..|bs| - 1];
      var head := HexJoin(init);
      HexJoinLength(init);
      assert HexJoin(bs) == head + " " + HexByte(bs[|bs| - 1]);
      if i < |init| {
        HexJoinLayout(init, i);
        assert init[i] == bs[i];
        assert HexJoin(bs)[3 * i..3 * i + 2] == head[3 * i..3 * i + 2];
      } else {
        assert 3 * i == |head| + 1;
      }
    }
  }

  /** The joined text ends in a hex digit, never in a dot. */
  lemma HexJoinEndsInDigit(bs: seq<byte>)
    requires |bs| > 0
    ensures |HexJoin(bs)| > 0 && HexJoin(bs)[|HexJoin(bs)| - 1] in HEX_DIGITS
  {
    HexJoinLayout(bs, |bs| - 1);
    HexByteRoundTrip(bs[|bs| - 1]);
    var t := HexJoin(bs);
    assert t[|t| - 1] == t[3 * (|bs| - 1)..3 * (|bs| - 1) + 2][1];
  }

  /** The preview ends in " ..." exactly when bytes were left out, and is
      three characters per shown byte less one, plus the marker. */
  lemma HexPreviewTruncation(data: seq<byte>, maxBytes: int)
    ensures var s := HexPreview(data, maxBytes);
            var n := Shown(|data|, maxBytes);
            && |s| == (if n == 0 then 0 else 3 * n - 1) + (if |data| > maxBytes then 4 else 0)
            && (|data| > maxBytes ==> s[|s| - 4..] == " ...")
            && (|data| <= maxBytes ==> |s| < 4 || s[|s| - 4..] != " ...")
  {
    var n := Shown(|data|, maxBytes);
    if n > 0 {
      HexJoinLength(data[..n]);
      if |data| <= maxBytes {
        HexJoinEndsInDigit(data[..n]);
        var s := HexPreview(data, maxBytes);
        assert s == HexJoin(data[..n]);
        if |s| >= 4 {
          assert s[|s| - 4..][3] == s[|s| - 1] != '.';
        }
      }
    }
  }

  /** The preview shows the pairs of the first min(len, max) bytes, in order. */
  lemma HexPreviewShowsPrefix(data: seq<byte>, maxBytes: int, i: nat)
    requires i < Shown(|data|, maxBytes)
    ensures var s := HexPreview(data, maxBytes);
            3 * i + 2 <= |s| && s[3 * i..3 * i + 2] == HexByte(data[i])
  {
    var n := Shown(|data|, maxBytes);
    var shown := data[..n];
    var head := HexJoin(shown);
    HexJoinLayout(shown, i);
    assert shown[i] == data[i];
    var s := HexPreview(data, maxBytes);
    assert s[3 * i..3 * i + 2] == head[3 * i..3 * i + 2];
  }

  // ------------------------------------------------- properties of Reload

  /** The reachability gate records its test, then at most the opening. */
  lemma AttemptAppends(t: View, r: Remote, p: Protocol, ip: string, ports: PortTriple, e: Env)
    ensures var w := Attempt(t, r, p, ip, ports, e);
            var n := |t.effects|;
            && n + 1 <= |w.effects| <= n + 2 && w.effects[..n] == t.effects
            && w.effects[n] == PingTested(ip)
            && (n + 1 < |w.effects| ==> w.effects[n + 1] == Opened(OpenIface(p, ip, ports)))
  {
    var w := Attempt(t, r, p, ip, ports, e);
    assert w.effects[..|t.effects|] == t.effects;
  }

  /** The second half of reloadInterface only appends a test and an opening. */
  lemma ConnectAppends(t: View, r: Remote, p: Protocol, fmsConnect: bool, teamText: string, e: Env)
    ensures var w := Connect(t, r, p, fmsConnect, teamText, e);
            var n := |t.effects|;
            && n <= |w.effects| <= n + 2 && w.effects[..n] == t.effects
            && (n < |w.effects| ==> w.effects[n].PingTested?)
            && (n + 1 < |w.effects| ==> w.effects[n + 1].Opened?)
  {
    if !(r == Fms && !fmsConnect) {
      var (ip, cache) := Dial(t, r, teamText, e);
      AttemptAppends(t.(cache := cache), r, p, ip, PortsOf(cache, r), e);
    }
  }

  /** reloadInterface first resets the counters, reports no data and closes
      the old interface; only then does it test reachability, and it opens
      a new interface last. */
  lemma ReloadTearsDownFirst(v: View, r: Remote, p: Protocol, fmsConnect: bool, teamText: string, e: Env)
    ensures var w := Reload(v, r, p, fmsConnect, teamText, e);
            var n := |v.effects| + |TeardownEffects(v.iface, e)|;
            && n <= |w.effects| <= n + 2
            && w.effects[..n] == v.effects + TeardownEffects(v.iface, e)
            && (n < |w.effects| ==> w.effects[n].PingTested?)
            && (forall j :: n < j < |w.effects| ==> w.effects[j].Opened?)
  {
    ConnectAppends(Teardown(v, e), r, p, fmsConnect, teamText, e);
  }

  /** The slot is up after reloadInterface exactly when an interface was
      opened; that interface is on the tested address with the configured
      ports, and for the robot its address becomes the connected address. */
  lemma ReloadOpensOnSuccess(v: View, r: Remote, p: Protocol, fmsConnect: bool, teamText: string, e: Env)
    ensures var w := Reload(v, r, p, fmsConnect, teamText, e);
            && (Get(w.links, r, p) <==> w.iface.Some?)
            && (w.iface.Some? ==>
                  var (ip, cache) := Dial(v, r, teamText, e);
                  && w.iface.value == OpenIface(p, ip, PortsOf(v.cache, r))
                  && e.ping(ip) && e.open(w.iface.value)
                  && w.effects[|w.effects| - 1] == Opened(w.iface.value)
                  && (r == RoboRio ==> w.cache.connectedAddress == Some(ip)
                                       && w.links.rioLastSeenMs == e.now))
  {
    var t := Teardown(v, e);
    if !(r == Fms && !fmsConnect) {
      var (ip, cache) := Dial(t, r, teamText, e);
      assert PortsOf(cache, r) == PortsOf(v.cache, r);
      AttemptOutcome(t.(cache := cache), r, p, ip, PortsOf(cache, r), e);
    }
  }

  /** After teardown, the gate opens an interface exactly when the test and
      the opening both succeed, and then marks the slot up. */
  lemma AttemptOutcome(t: View, r: Remote, p: Protocol, ip: string, ports: PortTriple, e: Env)
    requires t.iface.None?
    ensures var w := Attempt(t, r, p, ip, ports, e);
            && (Get(w.links, r, p) <==> w.iface.Some?)
            && (w.iface.Some? <==> e.ping(ip) && e.open(OpenIface(p, ip, ports)))
            && (w.iface.Some? ==>
                  && w.iface.value == OpenIface(p, ip, ports)
                  && w.effects[|w.effects| - 1] == Opened(w.iface.value)
                  && (r == RoboRio ==> w.cache.connectedAddress == Some(ip) && w.links.rioLastSeenMs == e.now))
  {
    SetOnlyThisSlot(t.links, true, r, p, e.now, r, p);
    SetOnlyThisSlot(t.links, false, r, p, e.now, r, p);
  }

  /** A robot reload that does not come up forces the enable toggle off, and
      forgets the connected address once both robot slots are down. */
  lemma ReloadFailureDisablesRobot(v: View, p: Protocol, fmsConnect: bool, teamText: string, e: Env)
    ensures var w := Reload(v, RoboRio, p, fmsConnect, teamText, e);
            && (!Get(w.links, RoboRio, p) ==> !w.enableAllowed && !w.enableSelected)
            && (!IsInit(w.links, RoboRio) ==> w.cache.connectedAddress.None? && w.cache.connectedLabel.None?)
  {
  }

  /** An FMS reload changes its own slot, its interface and its record of
      effects, and nothing else. */
  lemma FmsReloadTouchesOnlyItsSlot(v: View, p: Protocol, fmsConnect: bool, teamText: string, e: Env)
    ensures var w := Reload(v, Fms, p, fmsConnect, teamText, e);
            && w.cache == v.cache
            && w.enableAllowed == v.enableAllowed && w.enableSelected == v.enableSelected
            && w.links.rioLastSeenMs == v.links.rioLastSeenMs
            && w.links == Set(v.links, Get(w.links, Fms, p), Fms, p, e.now)
  {
  }

  /** With FMS_CONNECT unselected an FMS reload opens nothing and tests nothing. */
  lemma FmsReloadWithoutRequest(v: View, p: Protocol, teamText: string, e: Env)
    ensures var w := Reload(v, Fms, p, false, teamText, e);
            && w.iface.None? && !Get(w.links, Fms, p)
            && w.effects == v.effects + TeardownEffects(v.iface, e)
  {
  }

  // -------------------------------------------------- properties of Cycle

  /** Only the clock's own slot in the table ever changes. */
  lemma CycleOnlyOwnSlot(v: View, r: Remote, p: Protocol, fmsConnect: bool, teamText: string, e: Env,
                         r': Remote, p': Protocol)
    requires Inv(v, r, p) && (r', p') != (r, p)
    ensures Get(Cycle(v, r, p, fmsConnect, teamText, e).links, r', p') == Get(v.links, r', p')
  {
    var m := CycleBody(v, r, p, fmsConnect, teamText, e);
    CycleBodyOnlyOwnSlot(v, r, p, fmsConnect, teamText, e, r', p');
    if r == RoboRio && IsRioStale(m.links, RIO_STALE_MS, e.now) {
      UninitializeOnlyOwnSlot(m, r, p, false, e.now, r', p');
    }
  }

  lemma UninitializeOnlyOwnSlot(v: View, r: Remote, p: Protocol, isFms: bool, now: int, r': Remote, p': Protocol)
    requires (r', p') != (r, p)
    ensures Get(Uninitialize(v, r, p, isFms, now).links, r', p') == Get(v.links, r', p')
  {
    SetOnlyThisSlot(v.links, false, r, p, now, r', p');
  }

  lemma ReloadOnlyOwnSlot(v: View, r: Remote, p: Protocol, fmsConnect: bool, teamText: string, e: Env,
                          r': Remote, p': Protocol)
    requires (r', p') != (r, p)
    ensures Get(Reload(v, r, p, fmsConnect, teamText, e).links, r', p') == Get(v.links, r', p')
  {
    SetOnlyThisSlot(v.links, false, r, p, e.now, r', p');
    SetOnlyThisSlot(v.links, true, r, p, e.now, r', p');
  }

  lemma CycleBodyOnlyOwnSlot(v: View, r: Remote, p: Protocol, fmsConnect: bool, teamText: string, e: Env,
                             r': Remote, p': Protocol)
    requires Inv(v, r, p) && (r', p') != (r, p)
    ensures Get(CycleBody(v, r, p, fmsConnect, teamText, e).links, r', p') == Get(v.links, r', p')
  {
    var v' := v.(effects := v.effects + [Reported(NoData)]);
    ReloadOnlyOwnSlot(v', r, p, fmsConnect, teamText, e, r', p');
    SetOnlyThisSlot(v.links, false, r, p, e.now, r', p');
  }

  /** An FMS tick without FMS_CONNECT reports no data and marks the slot
      down, and does nothing else. */
  lemma CycleFmsNotSelected(v: View, p: Protocol, teamText: string, e: Env)
    requires Inv(v, Fms, p) && Wired(e)
    ensures Cycle(v, Fms, p, false, teamText, e)
         == v.(links := Set(v.links, false, Fms, p, e.now), effects := v.effects + [Reported(NoData)])
  {
  }

  /** A tick on a link that should be up reconnects when the slot is down or
      the write fails, after reporting no data. */
  lemma CycleReconnects(v: View, r: Remote, p: Protocol, fmsConnect: bool, teamText: string, e: Env)
    requires Inv(v, r, p) && Wired(e) && (r == RoboRio || fmsConnect)
    requires !Get(v.links, r, p) || !e.write(v.iface.value)
    ensures CycleBody(v, r, p, fmsConnect, teamText, e)
         == Reload(v.(effects := v.effects + [Reported(NoData)]), r, p, fmsConnect, teamText, e)
  {
  }

  /** After a successful write: a null read marks the slot down without
      reconnecting; data, or any TCP read, is reported and, on a robot
      clock, sets the robot's last-seen time to now, with nothing else
      changed; an empty UDP read changes nothing. */
  lemma CycleReadOutcomes(v: View, r: Remote, p: Protocol, fmsConnect: bool, teamText: string, e: Env)
    requires Inv(v, r, p) && Wired(e) && (r == RoboRio || fmsConnect)
    requires Get(v.links, r, p) && e.write(v.iface.value)
    ensures var m := CycleBody(v, r, p, fmsConnect, teamText, e);
            var data := e.read(v.iface.value);
            && (data.None? ==>
                  m == v.(effects := v.effects + [Reported(NoData)], links := Set(v.links, false, r, p, e.now)))
            && (data.Some? && (|data.value| != 0 || p == Tcp) ==>
                  m == v.(effects := v.effects + [Reported(Parsed(data.value))],
                          links := if r == RoboRio then TouchRio(v.links, e.now) else v.links))
            && (data.Some? && |data.value| == 0 && p == Udp ==> m == v)
  {
  }

  /** Any answer on the robot's TCP link, an empty one included, refreshes
      the robot's last-seen time, so the fail-safe cannot trip on that tick
      however long the robot's UDP link has been silent. */
  lemma TcpAnswerKeepsRobotEnabled(v: View, fmsConnect: bool, teamText: string, e: Env)
    requires Inv(v, RoboRio, Tcp) && Wired(e)
    requires Get(v.links, RoboRio, Tcp) && e.write(v.iface.value) && e.read(v.iface.value).Some?
    ensures var w := Cycle(v, RoboRio, Tcp, fmsConnect, teamText, e);
            w == v.(effects := v.effects + [Reported(Parsed(e.read(v.iface.value).value))],
                    links := TouchRio(v.links, e.now))
  {
    CycleReadOutcomes(v, RoboRio, Tcp, fmsConnect, teamText, e);
    FreshAfterTouch(v.links, Tcp, RIO_STALE_MS, e.now);
  }

  /** Without an updater and a creator the tick does nothing but the
      fail-safe. */
  lemma CycleUnwired(v: View, r: Remote, p: Protocol, fmsConnect: bool, teamText: string, e: Env)
    requires Inv(v, r, p) && !Wired(e)
    ensures CycleBody(v, r, p, fmsConnect, teamText, e) == v
  {
  }

  /** The fail-safe: after any robot tick, a stale link has its slot down
      and the enable toggle off and deselected; it is marked down without
      closing its interface. */
  lemma RioFailSafe(v: View, p: Protocol, fmsConnect: bool, teamText: string, e: Env)
    requires Inv(v, RoboRio, p)
    ensures var m := CycleBody(v, RoboRio, p, fmsConnect, teamText, e);
            var w := Cycle(v, RoboRio, p, fmsConnect, teamText, e);
            && (IsRioStale(m.links, RIO_STALE_MS, e.now) ==>
                  && !Get(w.links, RoboRio, p) && !w.enableAllowed && !w.enableSelected
                  && w.cache == ClearIfDisconnected(m.cache, IsInit(w.links, RoboRio))
                  && w.iface == m.iface && w.effects == m.effects)
            && (IsRioStale(w.links, RIO_STALE_MS, e.now) ==> !w.enableAllowed && !w.enableSelected)
  {
    var m := CycleBody(v, RoboRio, p, fmsConnect, teamText, e);
    ClearingNeverMakesStale(m.links, RoboRio, p, RIO_STALE_MS, e.now);
  }

  /** A robot UDP link that was up but has heard nothing for more than
      600 ms is forced down and disabled by the next empty tick; at exactly
      600 ms it is left alone. */
  lemma StarvedRioLinkIsDisabled(v: View, fmsConnect: bool, teamText: string, e: Env)
    requires Get(v.links, RoboRio, Udp) && v.iface.Some? && Wired(e)
    requires e.write(v.iface.value) && e.read(v.iface.value) == Some([])
    ensures var w := Cycle(v, RoboRio, Udp, fmsConnect, teamText, e);
            && (e.now - v.links.rioLastSeenMs > RIO_STALE_MS ==>
                  !Get(w.links, RoboRio, Udp) && !w.enableAllowed && !w.enableSelected)
            && (e.now - v.links.rioLastSeenMs == RIO_STALE_MS ==> w == v)
  {
  }

  /** restart tears the old interface down before the new reachability test. */
  lemma RestartTearsDownFirst(v: View, r: Remote, p: Protocol, fmsConnect: bool, teamText: string, e: Env)
    ensures var w := Restart(v, r, p, fmsConnect, teamText, e);
            var n := |v.effects| + |TeardownEffects(v.iface, e)|;
            && n <= |w.effects|
            && w.effects[..n] == v.effects + TeardownEffects(v.iface, e)
            && (v.iface.Some? ==> w.effects[n - 1] == Closed(v.iface.value))
            && (n < |w.effects| ==> w.effects[n].PingTested?)
  {
    ReloadTearsDownFirst(v.(links := Set(v.links, false, r, p, e.now)), r, p, fmsConnect, teamText, e);
  }

  /** An FMS clock whose FMS_CONNECT stays unselected never opens an
      interface and never marks its slot up, over any number of ticks; an
      interface it already held is kept, neither closed nor replaced. */
  lemma {:induction false} FmsNeverConnectsUnrequested(v: View, p: Protocol, teamText: string, envs: seq<Env>)
    requires !Get(v.links, Fms, p)
    decreases |envs|
    ensures var w := Run(v, Fms, p, false, teamText, envs);
            !Get(w.links, Fms, p) && w.iface == v.iface && v.effects <= w.effects
    ensures forall j :: |v.effects| <= j < |Run(v, Fms, p, false, teamText, envs).effects|
                     ==> !Run(v, Fms, p, false, teamText, envs).effects[j].Opened?
  {
    if envs != [] {
      var c := Cycle(v, Fms, p, false, teamText, envs[0]);
      assert !Get(c.links, Fms, p) && c.iface == v.iface;
      assert c.effects[..|v.effects|] == v.effects;
      assert forall j :: |v.effects| <= j < |c.effects| ==> !c.effects[j].Opened?;
      FmsNeverConnectsUnrequested(c, p, teamText, envs[1..]);
      var w := Run(c, Fms, p, false, teamText, envs[1..]);
      assert forall j :: |v.effects| <= j < |c.effects| ==> w.effects[j] == c.effects[j];
    }
  }

  /** restart marks its slot down before the reload, so the robot address
      it dials is resolved as if only the other robot slot counted: with
      that slot down too, the resolver treats the robot as disconnected. */
  lemma RestartDialsWithOwnSlotDown(v: View, p: Protocol, fmsConnect: bool, teamText: string, e: Env)
    ensures var w := Restart(v, RoboRio, p, fmsConnect, teamText, e);
            var n := |v.effects| + |TeardownEffects(v.iface, e)|;
            var rioInit := Get(v.links, RoboRio, OtherProtocol(p));
            && n < |w.effects|
            && w.effects[n] == PingTested(Resolve(v.cache, rioInit, teamText, e.now, e.probe).address)
  {
    var v' := v.(links := Set(v.links, false, RoboRio, p, e.now));
    var t := Teardown(v', e);
    SetOnlyThisSlot(v.links, false, RoboRio, p, e.now, RoboRio, OtherProtocol(p));
    assert IsInit(t.links, RoboRio) == Get(v.links, RoboRio, OtherProtocol(p)) by {
      IsInitOfOwnSlots(t.links, t.links, RoboRio);
    }
    var (ip, cache) := Dial(t, RoboRio, teamText, e);
    AttemptAppends(t.(cache := cache), RoboRio, p, ip, PortsOf(cache, RoboRio), e);
  }

  /** A null read on the only robot slot that is up marks it down, but the
      robot stays enabled and its connected address stays remembered: the
      fail-safe does not fire on a link that is no longer initialised, and
      the address is forgotten only by the reload on a later tick. */
  lemma NullReadLeavesRobotEnabled(v: View, p: Protocol, fmsConnect: bool, teamText: string, e: Env)
    requires Inv(v, RoboRio, p) && Wired(e)
    requires Get(v.links, RoboRio, p) && !Get(v.links, RoboRio, OtherProtocol(p))
    requires e.write(v.iface.value) && e.read(v.iface.value).None?
    ensures var w := Cycle(v, RoboRio, p, fmsConnect, teamText, e);
            && !IsInit(w.links, RoboRio)
            && w.cache == v.cache && w.iface == v.iface
            && w.enableAllowed == v.enableAllowed && w.enableSelected == v.enableSelected
            && w.effects == v.effects + [Reported(NoData)]
  {
    var m := CycleBody(v, RoboRio, p, fmsConnect, teamText, e);
    SetOnlyThisSlot(v.links, false, RoboRio, p, e.now, RoboRio, OtherProtocol(p));
    IsInitOfOwnSlots(m.links, m.links, RoboRio);
    assert !IsInit(m.links, RoboRio);
  }

  /** restart closes the interface the clock held. */
  lemma RestartClosesOld(v: View, r: Remote, p: Protocol, fmsConnect: bool, teamText: string, e: Env)
    requires v.iface.Some?
    ensures Closed(v.iface.value) in Restart(v, r, p, fmsConnect, teamText, e).effects
  {
    RestartTearsDownFirst(v, r, p, fmsConnect, teamText, e);
    var w := Restart(v, r, p, fmsConnect, teamText, e);
    var n := |v.effects| + |TeardownEffects(v.iface, e)|;
    assert w.effects[n - 1] == Closed(v.iface.value);
  }

  /** The i-th restart starts from the shared state the one before left. */
  lemma {:induction false} RestartInTurnStep(shared: View, clocks: seq<View>, keys: seq<(Remote, Protocol)>,
                                             fmsConnect: bool, teamText: string, envs: seq<Env>, i: nat)
    requires |clocks| == |keys| == |envs| && i < |keys|
    ensures var done := RestartInTurn(shared, clocks, keys, fmsConnect, teamText, envs);
            var prev := if i == 0 then shared else done[i - 1];
            done[i] == Restart(Handover(prev, clocks[i]), keys[i].0, keys[i].1, fmsConnect, teamText, envs[i])
    decreases i
  {
    if i > 0 {
      var s := Restart(Handover(shared, clocks[0]), keys[0].0, keys[0].1, fmsConnect, teamText, envs[0]);
      var rest := RestartInTurn(s, clocks[1..], keys[1..], fmsConnect, teamText, envs[1..]);
      RestartInTurnStep(s, clocks[1..], keys[1..], fmsConnect, teamText, envs[1..], i - 1);
      var done := RestartInTurn(shared, clocks, keys, fmsConnect, teamText, envs);
      assert done == [s] + rest;
      assert clocks[1..][i - 1] == clocks[i] && keys[1..][i - 1] == keys[i] && envs[1..][i - 1] == envs[i];
    }
  }

  /** After unsetAllInterfaces every clock has closed the interface it held. */
  lemma UnsetAllClosesEveryInterface(clocks: seq<View>, fmsConnect: bool, teamText: string, envs: seq<Env>, k: nat)
    requires |clocks| == 4 && |envs| == 4 && k < 4
    requires clocks[k].iface.Some?
    ensures Closed(clocks[k].iface.value) in UnsetAll(clocks, fmsConnect, teamText, envs)[k].effects
  {
    var s0 := clocks[0].(cache := ForceClear(clocks[0].cache));
    var done := RestartInTurn(s0, clocks, CLOCK_ORDER, fmsConnect, teamText, envs);
    RestartInTurnStep(s0, clocks, CLOCK_ORDER, fmsConnect, teamText, envs, k);
    var prev := if k == 0 then s0 else done[k - 1];
    RestartClosesOld(Handover(prev, clocks[k]), CLOCK_ORDER[k].0, CLOCK_ORDER[k].1, fmsConnect, teamText, envs[k]);
  }

  /** Without FMS_CONNECT, after unsetAllInterfaces neither FMS clock holds an
      interface and both FMS slots are down. */
  lemma UnsetAllWithoutFmsConnect(clocks: seq<View>, teamText: string, envs: seq<Env>)
    requires |clocks| == 4 && |envs| == 4
    ensures var ws := UnsetAll(clocks, false, teamText, envs);
            && ws[2].iface.None? && ws[3].iface.None?
            && !Get(ws[3].links, Fms, Udp) && !Get(ws[3].links, Fms, Tcp)
  {
    var s0 := clocks[0].(cache := ForceClear(clocks[0].cache));
    var done := RestartInTurn(s0, clocks, CLOCK_ORDER, false, teamText, envs);
    RestartInTurnStep(s0, clocks, CLOCK_ORDER, false, teamText, envs, 2);
    RestartInTurnStep(s0, clocks, CLOCK_ORDER, false, teamText, envs, 3);
    var u3 := Handover(done[1], clocks[2]);
    var u4 := Handover(done[2], clocks[3]);
    FmsReloadWithoutRequest(u3.(links := Set(u3.links, false, Fms, Udp, envs[2].now)), Udp, teamText, envs[2]);
    FmsReloadWithoutRequest(u4.(links := Set(u4.links, false, Fms, Tcp, envs[3].now)), Tcp, teamText, envs[3]);
    ReloadOnlyOwnSlot(u4.(links := Set(u4.links, false, Fms, Tcp, envs[3].now)), Fms, Tcp, false, teamText,
                      envs[3], Fms, Udp);
    SetOnlyThisSlot(u4.links, false, Fms, Tcp, envs[3].now, Fms, Udp);
  }

  /** The connected robot address held before unsetAllInterfaces has no
      influence on anything afterwards. */
  lemma UnsetAllForgetsStickyAddress(clocks: seq<View>, clocks': seq<View>, fmsConnect: bool, teamText: string,
                                     envs: seq<Env>)
    requires |clocks| == 4 && |clocks'| == 4 && |envs| == 4
    requires clocks'[1..] == clocks[1..]
    requires clocks'[0].cache == clocks[0].cache.(connectedAddress := clocks'[0].cache.connectedAddress,
                                                  connectedLabel := clocks'[0].cache.connectedLabel)
    requires clocks'[0] == clocks[0].(cache := clocks'[0].cache)
    ensures UnsetAll(clocks', fmsConnect, teamText, envs) == UnsetAll(clocks, fmsConnect, teamText, envs)
  {
    assert ForceClear(clocks'[0].cache) == ForceClear(clocks[0].cache);
    assert clocks'[1] == clocks[1] && clocks'[2] == clocks[2] && clocks'[3] == clocks[3];
  }
}
