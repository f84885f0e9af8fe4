/** NetworkClock: one of the four clocks (robot or FMS, UDP or TCP) that
    keeps a link alive. Each tick writes a frame, reads the answer and
    reports it, reconnecting or marking the link down when that fails. The
    clocks share the link table, the address cache, the enable toggle and the
    team-number field; each method is specified by the function of module
    ClockModel over a View of all of them. */
module Networking {
  import opened Common
  import opened LinkState
  import opened AddressModel
  import opened ClockModel
  import opened InitChecking
  import opened Addressing
  import opened OverlayFields

  /** The main window's controls a clock reads or writes: the enable toggle
      (whether it may be pressed, and whether it is) and FMS_CONNECT. */
  class DriverControls {
    var enableAllowed: bool
    var enableSelected: bool
    var fmsConnectSelected: bool

    constructor ()
      ensures !enableAllowed && !enableSelected && !fmsConnectSelected
    {
      enableAllowed, enableSelected, fmsConnectSelected := false, false, false;
    }
  }

  class NetworkClock {
    const remote: Remote
    const protocol: Protocol
    /** The name and period handed to the Clock base class. */
    const name: string
    const periodMs: nat
    const net: InitChecker
    const addr: AddressConstants
    const controls: DriverControls
    const team: OverlayField
    var iface: Option<Iface>
    /** What this clock has done to its collaborators so far. */
    var effects: seq<Effect>

    /** Everything the clock reads and writes. */
    function View(): View
      reads this, net, net.states, addr, controls
      requires net.Valid()
    {
      ClockModel.View(net.Model(), addr.Snapshot(), controls.enableAllowed, controls.enableSelected,
                      iface, effects)
    }

    /** The clock is built, its interface is loaded at once. */
    constructor (remote: Remote, protocol: Protocol, net: InitChecker, addr: AddressConstants,
                 controls: DriverControls, team: OverlayField, e: Env)
      requires net.Valid()
      modifies net, net.states, addr, controls
      ensures this.remote == remote && this.protocol == protocol
      ensures this.net == net && this.addr == addr && this.controls == controls && this.team == team
      ensures name == CreateName(remote, protocol) && periodMs == PeriodMs(remote)
      ensures net.Valid()
      ensures View() == Reload(ClockModel.View(old(net.Model()), old(addr.Snapshot()),
                                               old(controls.enableAllowed), old(controls.enableSelected),
                                               None, []),
                               remote, protocol, old(controls.fmsConnectSelected), old(team.GetText()), e)
      ensures controls.fmsConnectSelected == old(controls.fmsConnectSelected)
    {
      this.remote := remote;
      this.protocol := protocol;
      name := CreateName(remote, protocol);
      periodMs := if remote == RoboRio then 20 else 500;
      this.net := net;
      this.addr := addr;
      this.controls := controls;
      this.team := team;
      iface := None;
      effects := [];
      new;
      ReloadInterface(e);
    }

    /** uninitialize(isFms). */
    method Uninitialize(isFms: bool, now: int)
      requires net.Valid()
      modifies net, net.states, addr, controls
      ensures net.Valid()
      ensures View() == ClockModel.Uninitialize(old(View()), remote, protocol, isFms, now)
      ensures controls.fmsConnectSelected == old(controls.fmsConnectSelected)
    {
      net.Set(false, remote, protocol, now);
      if !isFms {
        addr.ClearConnectedRioAddressIfDisconnected(net);
      }
      if !isFms {
        controls.enableAllowed := false;
        if controls.enableSelected {
          controls.enableSelected := false;
        }
      }
    }

    /** reloadInterface. */
    method ReloadInterface(e: Env)
      requires net.Valid()
      modifies this, net, net.states, addr, controls
      ensures net.Valid()
      ensures View() == Reload(old(View()), remote, protocol, old(controls.fmsConnectSelected),
                               old(team.GetText()), e)
      ensures controls.fmsConnectSelected == old(controls.fmsConnectSelected)
    {
      TearDown(e);
      Connect(e);
    }

    method TearDown(e: Env)
      requires net.Valid()
      modifies this
      ensures View() == Teardown(old(View()), e)
    {
      effects := effects + [CountersReset];
      if e.updaterSet {
        effects := effects + [Reported(NoData)];
      }
      if iface.Some? {
        effects := effects + [Closed(iface.value)];
        iface := None;
      }
    }

    method Connect(e: Env)
      requires net.Valid()
      modifies this, net, net.states, addr, controls
      ensures net.Valid()
      ensures View() == ClockModel.Connect(old(View()), remote, protocol, old(controls.fmsConnectSelected),
                                           old(team.GetText()), e)
      ensures controls.fmsConnectSelected == old(controls.fmsConnectSelected)
    {
      var isFms := remote == Fms;
      if isFms && !controls.fmsConnectSelected {
        net.Set(false, remote, protocol, e.now);
        return;
      }
      var ip: string;
      if isFms {
        ip := FMS_IP;
      } else {
        ip := addr.GetRioAddress(net, team, e.now, e.probe);
      }
      var ports := if isFms then addr.fmsPorts else addr.rioPorts.Triple();
      Attempt(ip, ports, e);
    }

    method Attempt(ip: string, ports: PortTriple, e: Env)
      requires net.Valid()
      modifies this, net, net.states, addr, controls
      ensures net.Valid()
      ensures View() == ClockModel.Attempt(old(View()), remote, protocol, ip, ports, e)
      ensures controls.fmsConnectSelected == old(controls.fmsConnectSelected)
    {
      var isFms := remote == Fms;
      effects := effects + [PingTested(ip)];
      if !e.ping(ip) {
        Uninitialize(isFms, e.now);
        return;
      }
      var created := if protocol == Tcp then TcpIface(ip, ports.tcp) else UdpIface(ip, ports.udpTx, ports.udpRx);
      if !e.open(created) {
        Uninitialize(isFms, e.now);
        return;
      }
      iface := Some(created);
      effects := effects + [Opened(created)];
      net.Set(true, remote, protocol, e.now);
      if !isFms {
        addr.NoteConnectedRioAddress(Some(ip));
      }
    }

    /** onCycle. */
    method OnCycle(e: Env)
      requires net.Valid() && Inv(View(), remote, protocol)
      modifies this, net, net.states, addr, controls
      ensures net.Valid() && Inv(View(), remote, protocol)
      ensures View() == Cycle(old(View()), remote, protocol, old(controls.fmsConnectSelected),
                              old(team.GetText()), e)
      ensures controls.fmsConnectSelected == old(controls.fmsConnectSelected)
    {
      Tick(e);
      if remote == RoboRio && net.IsRioStale(RIO_STALE_MS, e.now) {
        Uninitialize(false, e.now);
      }
    }

    /** The body of onCycle, before the fail-safe. */
    method Tick(e: Env)
      requires net.Valid() && Inv(View(), remote, protocol)
      modifies this, net, net.states, addr, controls
      ensures net.Valid()
      ensures View() == CycleBody(old(View()), remote, protocol, old(controls.fmsConnectSelected),
                                  old(team.GetText()), e)
      ensures controls.fmsConnectSelected == old(controls.fmsConnectSelected)
    {
      var connFms := remote != Fms || controls.fmsConnectSelected;
      if e.updaterSet && e.creatorSet {
        if connFms {
          if net.Get(remote, protocol) {
            if !e.write(iface.value) {
              effects := effects + [Reported(NoData)];
              ReloadInterface(e);
            } else {
              Receive(e);
            }
          } else {
            effects := effects + [Reported(NoData)];
            ReloadInterface(e);
          }
        } else {
          effects := effects + [Reported(NoData)];
          net.Set(false, remote, protocol, e.now);
        }
      }
    }

    /** The read half of a tick whose write succeeded. */
    method Receive(e: Env)
      requires net.Valid() && Inv(View(), remote, protocol) && net.Get(remote, protocol)
      modifies this, net, net.states
      ensures net.Valid()
      ensures View() == ClockModel.Receive(old(View()), remote, protocol, e.read(old(iface).value), e.now)
    {
      var data := e.read(iface.value);
      if data.None? {
        effects := effects + [Reported(NoData)];
        net.Set(false, remote, protocol, e.now);
      } else if |data.value| != 0 || protocol != Udp {
        effects := effects + [Reported(Parsed(data.value))];
        if remote == RoboRio {
          net.TouchRio(e.now);
        }
      }
    }

    /** restart, without stopping and starting the scheduler. */
    method Restart(e: Env)
      requires net.Valid()
      modifies this, net, net.states, addr, controls
      ensures net.Valid() && Inv(View(), remote, protocol)
      ensures View() == ClockModel.Restart(old(View()), remote, protocol, old(controls.fmsConnectSelected),
                                           old(team.GetText()), e)
      ensures controls.fmsConnectSelected == old(controls.fmsConnectSelected)
    {
      net.Set(false, remote, protocol, e.now);
      ReloadInterface(e);
    }
  }

  /** toHexPreview(data, maxBytes). */
  method ToHexPreview(data: seq<byte>, maxBytes: int) returns (s: string)
    ensures s == HexPreview(data, maxBytes)
  {
    var sb := "";
    var len := if |data| < maxBytes then |data| else maxBytes;
    var i := 0;
    while i < len
      invariant 0 <= i <= Shown(|data|, maxBytes)
      invariant sb == HexJoin(data[..i]) + (if 0 < i < len then " " else "")
    {
      assert data[..i + 1][..i] == data[..i];
      sb := sb + HexByte(data[i]);
      if i + 1 < len {
        sb := sb + " ";
      }
      i := i + 1;
    }
    if |data| > maxBytes {
      sb := sb + " ...";
    }
    s := sb;
  }
}
