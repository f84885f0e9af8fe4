/** The value behind InitChecker: one "initialised" flag per
    (remote, protocol) pair and the instant the robot controller was last
    seen alive. The class in module InitChecking holds the same state in a
    boolean array and is specified by these functions. */
module LinkState {

  datatype Remote = RoboRio | Fms
  datatype Protocol = Udp | Tcp

  function RemoteOrdinal(r: Remote): nat { if r == RoboRio then 0 else 1 }
  function ProtocolOrdinal(p: Protocol): nat { if p == Udp then 0 else 1 }

  /** The slot of a pair: rioUDP, rioTCP, fmsUDP, fmsTCP in this order. */
  function SlotIndex(r: Remote, p: Protocol): (i: nat)
    ensures i < 4
    ensures i / 2 == RemoteOrdinal(r) && i % 2 == ProtocolOrdinal(p)
  {
    RemoteOrdinal(r) * 2 + ProtocolOrdinal(p)
  }

  /** The other channel of the same remote. */
  function OtherProtocol(p: Protocol): Protocol { if p == Udp then Tcp else Udp }

  type Slots = s: seq<bool> | |s| == 4 witness [false, false, false, false]

  datatype Links = Links(slots: Slots, rioLastSeenMs: int)

  /** A fresh InitChecker: every slot false, timestamp 0 (Java's default). */
  const Initial: Links := Links([false, false, false, false], 0)

  function Get(l: Links, r: Remote, p: Protocol): bool
  {
    l.slots[SlotIndex(r, p)]
  }

  /** set(value, remote, protocol) at time now. */
  function Set(l: Links, value: bool, r: Remote, p: Protocol, now: int): Links
  {
    Links(l.slots[SlotIndex(r, p) := value],
          if r == RoboRio && value then now else l.rioLastSeenMs)
  }

  function IsInit(l: Links, r: Remote): bool
  {
    var idx := RemoteOrdinal(r) * 2;
    l.slots[idx] || l.slots[idx + 1]
  }

  function TouchRio(l: Links, now: int): Links
  {
    l.(rioLastSeenMs := now)
  }

  /** isRioStale(maxAgeMs) at time now; the comparison is strict. */
  predicate IsRioStale(l: Links, maxAgeMs: int, now: int)
  {
    IsInit(l, RoboRio) && now - l.rioLastSeenMs > maxAgeMs
  }

  // ------------------------------------------------------------- lemmas

  lemma InitialAllFalse(r: Remote, p: Protocol)
    ensures !Get(Initial, r, p)
    ensures !IsInit(Initial, r) && !IsRioStale(Initial, 0, 1000)
  {
  }

  /** Distinct pairs own distinct slots, and the four slots are all used. */
  lemma SlotIndexBijective(r1: Remote, p1: Protocol, r2: Remote, p2: Protocol)
    ensures SlotIndex(r1, p1) == SlotIndex(r2, p2) <==> r1 == r2 && p1 == p2
    ensures {SlotIndex(RoboRio, Udp), SlotIndex(RoboRio, Tcp), SlotIndex(Fms, Udp), SlotIndex(Fms, Tcp)}
         == {0, 1, 2, 3}
  {
    assert SlotIndex(RoboRio, Udp) == 0 && SlotIndex(RoboRio, Tcp) == 1;
    assert SlotIndex(Fms, Udp) == 2 && SlotIndex(Fms, Tcp) == 3;
  }

  /** set writes its own slot and no other. */
  lemma SetOnlyThisSlot(l: Links, value: bool, r: Remote, p: Protocol, now: int, r': Remote, p': Protocol)
    ensures Get(Set(l, value, r, p, now), r, p) == value
    ensures (r', p') != (r, p) ==> Get(Set(l, value, r, p, now), r', p') == Get(l, r', p')
  {
    SlotIndexBijective(r, p, r', p');
  }

  /** Only setting a robot-controller slot to true records the time. */
  lemma SetTimestamp(l: Links, value: bool, r: Remote, p: Protocol, now: int)
    ensures Set(l, value, r, p, now).rioLastSeenMs
         == (if r == RoboRio && value then now else l.rioLastSeenMs)
  {
  }

  /** isInit is the disjunction of the remote's two slots, so the other
      remote's slots never change it. */
  lemma IsInitOfOwnSlots(l: Links, l': Links, r: Remote)
    ensures IsInit(l, r) <==> Get(l, r, Udp) || Get(l, r, Tcp)
    ensures Get(l, r, Udp) == Get(l', r, Udp) && Get(l, r, Tcp) == Get(l', r, Tcp)
            ==> IsInit(l, r) == IsInit(l', r)
  {
  }

  /** A link that is not up is never stale, however long it has been. */
  lemma NotInitNeverStale(l: Links, maxAgeMs: int, now: int)
    requires !IsInit(l, RoboRio)
    ensures !IsRioStale(l, maxAgeMs, now)
  {
  }

  /** While up, staleness is exactly "more than maxAgeMs elapsed". */
  lemma StaleIffElapsed(l: Links, maxAgeMs: int, now: int)
    requires IsInit(l, RoboRio)
    ensures IsRioStale(l, maxAgeMs, now) <==> now - l.rioLastSeenMs > maxAgeMs
    ensures now - l.rioLastSeenMs == maxAgeMs ==> !IsRioStale(l, maxAgeMs, now)
  {
  }

  /** Right after touchRio or a set(true) on a robot-controller slot, the
      link is not stale at that same instant for any non-negative age. */
  lemma FreshAfterTouch(l: Links, p: Protocol, maxAgeMs: int, now: int)
    requires maxAgeMs >= 0
    ensures !IsRioStale(TouchRio(l, now), maxAgeMs, now)
    ensures !IsRioStale(Set(l, true, RoboRio, p, now), maxAgeMs, now)
  {
  }

  /** Clearing a slot can only end staleness, never start it. */
  lemma ClearingNeverMakesStale(l: Links, r: Remote, p: Protocol, maxAgeMs: int, now: int)
    ensures IsRioStale(Set(l, false, r, p, now), maxAgeMs, now) ==> IsRioStale(l, maxAgeMs, now)
  {
  }
}
