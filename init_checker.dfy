/** InitChecker: the shared table of which links are up. The four flags
    live in a boolean array that set updates in place; the time of each
    call is passed in as now. */
module InitChecking {
  import opened LinkState

  class InitChecker {
    /** rioUDP, rioTCP, fmsUDP, fmsTCP. */
    const states: array<bool>
    var rioLastSeenMs: int

    ghost predicate Valid()
      reads this
    {
      states.Length == 4
    }

    /** The abstract value of the table. */
    function Model(): Links
      reads this, states
      requires Valid()
    {
      Links(states[..], rioLastSeenMs)
    }

    constructor ()
      ensures Valid() && fresh(states)
      ensures Model() == Initial
    {
      states := new bool[4](_ => false);
      rioLastSeenMs := 0;
      new;
      assert states[..] == [false, false, false, false];
    }

    function Get(r: Remote, p: Protocol): (b: bool)
      reads this, states
      requires Valid()
      ensures b == LinkState.Get(Model(), r, p)
    {
      states[SlotIndex(r, p)]
    }

    method Set(value: bool, r: Remote, p: Protocol, now: int)
      requires Valid()
      modifies this, states
      ensures Valid()
      ensures Model() == LinkState.Set(old(Model()), value, r, p, now)
    {
      states[SlotIndex(r, p)] := value;
      if r == RoboRio && value {
        rioLastSeenMs := now;
      }
    }

    function IsInit(r: Remote): (b: bool)
      reads this, states
      requires Valid()
      ensures b == LinkState.IsInit(Model(), r)
    {
      var idx := RemoteOrdinal(r) * 2;
      states[idx] || states[idx + 1]
    }

    method TouchRio(now: int)
      requires Valid()
      modifies this
      ensures Valid()
      ensures Model() == LinkState.TouchRio(old(Model()), now)
    {
      rioLastSeenMs := now;
    }

    function IsRioStale(maxAgeMs: int, now: int): (b: bool)
      reads this, states
      requires Valid()
      ensures b == LinkState.IsRioStale(Model(), maxAgeMs, now)
    {
      if !IsInit(RoboRio) then false
      else now - rioLastSeenMs > maxAgeMs
    }
  }
}
