/** AddressConstants: the static fields shared by the robot-controller
    clocks, held by one object. Each method is specified by the function of
    module AddressModel that gives its answer and the fields afterwards. */
module Addressing {
  import opened Common
  import opened LinkState
  import opened AddressModel
  import opened InitChecking
  import opened OverlayFields

  class AddressConstants {
    var fmsPorts: PortTriple
    var rioPorts: PortQuad
    var lastProbeMs: int
    var lastProbedAddress: Option<string>
    var lastConnectedRioAddress: Option<string>
    var lastConnectedRioLabel: Option<string>

    function Snapshot(): Cache
      reads this
    {
      Cache(fmsPorts, rioPorts, lastProbeMs, lastProbedAddress,
            lastConnectedRioAddress, lastConnectedRioLabel)
    }

    /** The static initialiser: load the ports of the active year. */
    constructor (year: int)
      ensures Snapshot() == InitialCache(year)
    {
      fmsPorts := FmsPortsFor(year);
      rioPorts := RioPortsFor(year);
      lastProbeMs := 0;
      lastProbedAddress := None;
      lastConnectedRioAddress := None;
      lastConnectedRioLabel := None;
    }

    method ReloadProtocol(year: int)
      modifies this
      ensures Snapshot() == AddressModel.ReloadProtocol(old(Snapshot()), year)
    {
      fmsPorts := FmsPortsFor(year);
      rioPorts := RioPortsFor(year);
    }

    /** getRioAddress at time now, asking net whether the robot link is up,
        reading the team-number field, and asking probe for the 100 ms
        TCP-connect test. */
    method GetRioAddress(net: InitChecker, team: OverlayField, now: int, probe: (string, int) -> bool)
      returns (address: string)
      requires net.Valid()
      modifies this
      ensures var r := Resolve(old(Snapshot()), net.IsInit(RoboRio), team.GetText(), now, probe);
              address == r.address && Snapshot() == r.cache
    {
      if !net.IsInit(RoboRio) {
        lastConnectedRioAddress := None;
      }
      if lastConnectedRioAddress.Some? {
        return lastConnectedRioAddress.value;
      }
      var teamNum := team.CheckedIntParseOrMinusOne();
      var teamText := team.GetText();

      if MatchesIpv4(teamText) {
        return teamText;
      } else if EqualsIgnoreCase(teamText, LOCALHOST) || teamText == LOCALHOST_IP {
        return LOCALHOST;
      }

      if now - lastProbeMs < PROBE_INTERVAL_MS && lastProbedAddress.Some? {
        return lastProbedAddress.value;
      }
      lastProbeMs := now;

      var teamMdns: Option<string> := if teamNum != -1 then Some(MdnsName(teamNum)) else None;
      if teamMdns.Some? && probe(teamMdns.value, rioPorts.tcp) {
        lastProbedAddress := teamMdns;
        return teamMdns.value;
      }
      if probe(USB_RIO_IP, rioPorts.tcp) {
        lastProbedAddress := Some(USB_RIO_IP);
        return USB_RIO_IP;
      }
      if probe(LOCALHOST_IP, rioPorts.shuffleboard) {
        lastProbedAddress := Some(LOCALHOST);
        return LOCALHOST;
      }
      if teamMdns.Some? {
        lastProbedAddress := teamMdns;
        return teamMdns.value;
      }
      lastProbedAddress := Some(NO_ROBOT_IP);
      return lastProbedAddress.value;
    }

    method NoteConnectedRioAddress(address: Option<string>)
      modifies this
      ensures Snapshot() == NoteConnected(old(Snapshot()), address)
      ensures GetConnectedRioLabel() == ComputeRioLabel(address)
    {
      lastConnectedRioAddress := address;
      lastConnectedRioLabel := Some(ComputeRioLabel(address));
    }

    method ClearConnectedRioAddressIfDisconnected(net: InitChecker)
      requires net.Valid()
      modifies this
      ensures Snapshot() == ClearIfDisconnected(old(Snapshot()), net.IsInit(RoboRio))
    {
      if !net.IsInit(RoboRio) {
        lastConnectedRioAddress := None;
        lastConnectedRioLabel := None;
      }
    }

    method ForceClearConnectedRioAddress()
      modifies this
      ensures Snapshot() == ForceClear(old(Snapshot()))
      ensures GetConnectedRioLabel() == ""
    {
      lastConnectedRioAddress := None;
      lastConnectedRioLabel := None;
    }

    /** getConnectedRioLabel. */
    function GetConnectedRioLabel(): (r: string)
      reads this
      ensures r == ConnectedLabel(Snapshot())
    {
      if lastConnectedRioLabel.Some? then lastConnectedRioLabel.value else ""
    }
  }
}
