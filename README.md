# open-ds connection core in Dafny

This project models how the open-ds driver station manages its connections, and proves properties of that model. The driver station runs four network clocks: robot controller ("RIO") over UDP and TCP, and field-management system ("FMS") over UDP and TCP. Each clock ticks on its own period. On a tick it writes a frame to its link and reads the answer, and it reconnects or marks the link down when that fails. A fail-safe forces the robot's enable toggle off once the robot has been silent for more than 600 ms.

The clocks share three things:
- the link table (`InitChecker`);
- the robot-address resolver and its cache (`AddressConstants`), which walks a ladder: sticky connected address, manual IPv4 or localhost override, a one-second probe cache, ordered TCP-connect probes, then a fallback;
- the team-number field (`OverlayField`).

The severity switch of the event log (`LogFilter`) is modelled as well.

Files and modules:

| file | module | contents |
|---|---|---|
| common.dfy | `Common` | `Option`, bytes, ASCII case folding, `Integer.parseInt`/`Integer.toString`, splitting text on a separator |
| link_state.dfy | `LinkState` | the link table as a value (`Links`) and its properties |
| init_checker.dfy | `InitChecking` | class `InitChecker`, a `bool` array updated in place and specified by `LinkState` |
| log_filter.dfy | `Logging` | class `LogFilter` |
| overlay_field.dfy | `OverlayFields` | class `OverlayField` (hint and text state, `checkedIntParse`) |
| address_model.dfy | `AddressModel` | constants, the port tables, the IPv4 pattern, labels, the cache, and address resolution as a function (`Resolve`) |
| address_constants.dfy | `Addressing` | class `AddressConstants`; each method is specified by `AddressModel` |
| clock_model.dfy | `ClockModel` | one clock's tick, reload, restart and fail-safe as functions of a `View` (link table, cache, enable toggle, interface, record of effects); `unsetAllInterfaces`; `createName`; `toHexPreview` |
| network_clock.dfy | `Networking` | class `NetworkClock`, whose methods are specified by `ClockModel`; the loop `ToHexPreview` |

The model stands in for the outside world as follows:
- Time is an explicit `now`.
- The outside world is an `Env` of oracles: the discovery probe (host, port → bool), the 200 ms reachability test, whether an interface constructor succeeds, and the results of the write and the read. `Env` also says whether the updater and creator are wired.
- Calls to collaborators that the model cannot see are recorded as a sequence of `Effect`s. These are counter reset, report to the updater, interface close, reachability test and interface open. Recording them lets ordering ("tear down first") be stated.

Points where the code's behaviour is easy to misread; the model follows the code:
- Staleness is strict: a robot link exactly 600 ms old is not stale (`LinkState.StaleIffElapsed`, `ClockModel.StarvedRioLinkIsDisabled`).
- The stale path only marks the link down; it does not close the interface (`ClockModel.RioFailSafe`).
- "127.0.0.1" matches the IPv4 pattern before the localhost test, so `getRioAddress` returns it as typed. The test against the loopback literal in the localhost branch can never succeed (`AddressModel.ResolveLoopbackLiteralVerbatim`).
- A hit in the probe cache does not refresh the probe time. Two calls less than a second apart are guaranteed to agree only when the first one probed, and the window runs from that probe (`AddressModel.ResolveStableWithinProbeInterval`).
- `getRioAddress` forgets the connected address of a disconnected robot but leaves its label (`AddressModel.ResolveForgetsWhenDisconnected`).
- After a failed write the tick does not mark the slot down itself. It reports no data and reloads, and the reload marks the slot down only if it cannot reconnect (`ClockModel.CycleReconnects`).
- The probe cache keeps the time of the last discovery and the answer it gave, not each probe's result.
- An FMS tick with FMS_CONNECT unselected marks the slot down but does not close an interface the clock already held (`ClockModel.FmsNeverConnectsUnrequested`).
- A null read on the only robot slot that is up marks that slot down without disabling the robot or forgetting its address; that happens only at the reload on a later tick (`ClockModel.NullReadLeavesRobotEnabled`).
- Any TCP read that returns, an empty one included, refreshes the robot's last-seen time. So while the robot's TCP link keeps answering, the 600 ms fail-safe never trips, however long the UDP link is silent (`ClockModel.TcpAnswerKeepsRobotEnabled`).

## Model

| member | source | states |
|---|---|---|
| LinkState.InitialAllFalse | src/main/java/com/boomaa/opends/util/InitChecker.java:8-13 | a fresh table has every slot false, no remote initialised, and the robot not stale |
| LinkState.SlotIndexBijective | src/main/java/com/boomaa/opends/util/InitChecker.java:11-16 | the slot index remote*2+protocol is injective and covers the four slots |
| LinkState.SetOnlyThisSlot | src/main/java/com/boomaa/opends/util/InitChecker.java:15-20 | after set(v, r, p), get(r, p) is v and the other three slots are unchanged |
| LinkState.SetTimestamp | src/main/java/com/boomaa/opends/util/InitChecker.java:15-20 | only set(true) on a robot slot records now as last seen; any other set keeps the timestamp |
| LinkState.IsInitOfOwnSlots | src/main/java/com/boomaa/opends/util/InitChecker.java:22-25 | isInit(r) is the OR of r's UDP and TCP slots, so the other remote's slots never affect it |
| LinkState.NotInitNeverStale | src/main/java/com/boomaa/opends/util/InitChecker.java:31-34 | with neither robot slot up, the link is never stale, whatever the elapsed time |
| LinkState.StaleIffElapsed | src/main/java/com/boomaa/opends/util/InitChecker.java:31-36 | with the robot up, stale holds iff now - lastSeen > maxAge, strictly (equal is not stale) |
| LinkState.FreshAfterTouch | src/main/java/com/boomaa/opends/util/InitChecker.java:17-19 | right after touchRio or set(true) on a robot slot at now, the link is not stale for any maxAge >= 0 |
| LinkState.ClearingNeverMakesStale | src/main/java/com/boomaa/opends/util/InitChecker.java:15-36 | setting a slot false can end staleness but never start it |
| InitChecking.InitChecker.constructor | src/main/java/com/boomaa/opends/util/InitChecker.java:8-9 | a new checker holds a fresh 4-slot array equal to the initial table |
| InitChecking.InitChecker.Get | src/main/java/com/boomaa/opends/util/InitChecker.java:11-13 | reads the array slot that the abstract table gives for the pair |
| InitChecking.InitChecker.Set | src/main/java/com/boomaa/opends/util/InitChecker.java:15-20 | the array and timestamp afterwards are the abstract set of the old table |
| InitChecking.InitChecker.IsInit | src/main/java/com/boomaa/opends/util/InitChecker.java:22-25 | agrees with the abstract isInit of the current table |
| InitChecking.InitChecker.TouchRio | src/main/java/com/boomaa/opends/util/InitChecker.java:27-29 | only the timestamp changes, to now |
| InitChecking.InitChecker.IsRioStale | src/main/java/com/boomaa/opends/util/InitChecker.java:31-36 | agrees with the abstract staleness test of the current table |
| Logging.LogFilter.constructor | src/main/java/com/boomaa/opends/util/LogFilter.java:4-6 | of INFO, WARNING and ERROR, initially only ERROR is let through |
| Logging.LogFilter.Allows | src/main/java/com/boomaa/opends/util/LogFilter.java:11-25 | null and unfiltered severities are allowed; INFO, WARNING and ERROR follow their flag |
| Logging.LogFilter.SetInfoEnabled | src/main/java/com/boomaa/opends/util/LogFilter.java:27-41 | the getter and allows(INFO) return the value set; the other flags and severities are unchanged |
| Logging.LogFilter.SetWarningEnabled | src/main/java/com/boomaa/opends/util/LogFilter.java:31-45 | the getter and allows(WARNING) return the value set; the rest is unchanged |
| Logging.LogFilter.SetErrorEnabled | src/main/java/com/boomaa/opends/util/LogFilter.java:35-49 | the getter and allows(ERROR) return the value set; the rest is unchanged |
| OverlayFields.OverlayField.constructor | src/main/java/com/boomaa/opends/display/elements/OverlayField.java:13-19 | a new field shows its hint and getText() is "" |
| OverlayFields.OverlayField.GetText | src/main/java/com/boomaa/opends/display/elements/OverlayField.java:46-50 | "" while the hint shows, otherwise the underlying text; never null |
| OverlayFields.OverlayField.SetText | src/main/java/com/boomaa/opends/display/elements/OverlayField.java:52-56 | the hint flag clears and getText() returns t, or "" for null |
| OverlayFields.OverlayField.Reset | src/main/java/com/boomaa/opends/display/elements/OverlayField.java:21-26 | the hint is restored and getText() returns "" |
| OverlayFields.OverlayField.FocusGained | src/main/java/com/boomaa/opends/display/elements/OverlayField.java:28-35 | an empty field drops its hint for empty text; getText() is unchanged |
| OverlayFields.OverlayField.FocusLost | src/main/java/com/boomaa/opends/display/elements/OverlayField.java:37-44 | an empty field shows its hint again; getText() is unchanged |
| OverlayFields.OverlayField.CheckedIntParse | src/main/java/com/boomaa/opends/display/elements/OverlayField.java:62-68 | the parsed value of getText() when Integer.parseInt accepts it, otherwise the default |
| OverlayFields.OverlayField.CheckedIntParseOrMinusOne | src/main/java/com/boomaa/opends/display/elements/OverlayField.java:58-60 | the parsed value of getText() when it parses, otherwise -1; so a field showing its hint yields -1 |
| OverlayFields.CheckedIntParseAfterSetText | src/main/java/com/boomaa/opends/display/elements/OverlayField.java:52-68 | a field holding the decimal text of a 32-bit number parses back to that number |
| Common.ParseInt | src/main/java/com/boomaa/opends/display/elements/OverlayField.java:62-66 | an accepted text starts with a sign or a digit, the rest is digits, and the value fits in 32 bits |
| Common.ParseIntCharacterised | src/main/java/com/boomaa/opends/display/elements/OverlayField.java:62-66 | parseInt gives n exactly when the text is an optional sign followed by at least one digit, n is the digits' value, negated after '-', and n fits in 32 bits |
| Common.ParseIntOr | src/main/java/com/boomaa/opends/display/elements/OverlayField.java:62-68 | the parsed value when parsing succeeds, otherwise the default |
| Common.NatToString | src/main/java/com/boomaa/opends/networking/AddressConstants.java:70 | the decimal text of a number is nonempty digits without a leading zero, and reads back as the number |
| Common.ParseIntToString | src/main/java/com/boomaa/opends/networking/AddressConstants.java:55-70 | Integer.parseInt reads back every 32-bit value Integer.toString writes |
| Common.JoinSplit | src/main/java/com/boomaa/opends/networking/AddressConstants.java:16 | splitting on the separator loses nothing: joining the pieces gives the text back |
| AddressModel.ProtoYearValue | src/main/java/com/boomaa/opends/networking/AddressConstants.java:91-104 | the year's own entry when it has one, otherwise the 2020 entry, otherwise null |
| AddressModel.UnconfiguredYearFallsBack | src/main/java/com/boomaa/opends/networking/AddressConstants.java:91-104 | a year without its own entry gets exactly the 2020 entry |
| AddressModel.EveryYearUses2020Ports | src/main/java/com/boomaa/opends/networking/AddressConstants.java:17-18 | every year gets FMS ports (1750, 1160, 1121) and RIO ports (1740, 1110, 1150, 1735) |
| AddressModel.LocalhostIsNotIpv4 | src/main/java/com/boomaa/opends/networking/AddressConstants.java:16 | no spelling of "localhost" matches the IPv4 pattern |
| AddressModel.DottedQuadMatches | src/main/java/com/boomaa/opends/networking/AddressConstants.java:16 | any four octets (0-255, no leading zero) joined by dots match the IPv4 pattern |
| AddressModel.TeamAddressMatches | src/main/java/com/boomaa/opends/networking/AddressConstants.java:16 | a team network address such as 10.1.23.2 matches the IPv4 pattern |
| AddressModel.LoopbackLiteralMatches | src/main/java/com/boomaa/opends/networking/AddressConstants.java:13-16 | "127.0.0.1" matches the IPv4 pattern |
| AddressModel.LabelRoundTrip | src/main/java/com/boomaa/opends/networking/AddressConstants.java:137-148 | null gets ""; the USB tether gets "USB (172.22.11.2)"; any loopback spelling gets "Sim (localhost)"; any other address gets "Wi-Fi (address)"; no address gets ""; a label reads back as its address, with loopback named "localhost" |
| AddressModel.ConnectedLabelAfterCacheOps | src/main/java/com/boomaa/opends/networking/AddressConstants.java:115-134 | note sets the computed label; forceClear leaves neither address nor label; clearIfDisconnected is forceClear exactly when the robot is down |
| AddressModel.FirstReachable | src/main/java/com/boomaa/opends/networking/AddressConstants.java:70-82 | candidates are tried in order and the search stops at the first whose probe succeeds: every earlier one failed, the answer is that candidate's, and with no answer every candidate was tried and failed |
| AddressModel.DiscoverFollowsProbeOrder | src/main/java/com/boomaa/opends/networking/AddressConstants.java:70-88 | discovery tries mDNS, then USB, then loopback, stops at the first that answers, otherwise falls back to the mDNS name or 240.0.0.0, and remembers its answer |
| AddressModel.ResolveForgetsWhenDisconnected | src/main/java/com/boomaa/opends/networking/AddressConstants.java:49-51 | with the robot down, the connected address is cleared and its label kept |
| AddressModel.ResolveStickyWhileConnected | src/main/java/com/boomaa/opends/networking/AddressConstants.java:52-54 | a connected address is returned unchanged, without probing and whatever the team text or probe answers |
| AddressModel.ResolveManualOverride | src/main/java/com/boomaa/opends/networking/AddressConstants.java:58-62 | IPv4 text is returned verbatim and any case of "localhost" gives "localhost", with no probe and the probe cache untouched |
| AddressModel.ResolveLoopbackLiteralVerbatim | src/main/java/com/boomaa/opends/networking/AddressConstants.java:58-61 | "127.0.0.1" is returned as typed, because the IPv4 branch catches it first |
| AddressModel.ResolveReusesRecentProbe | src/main/java/com/boomaa/opends/networking/AddressConstants.java:64-67 | within 1000 ms of the last probe, the remembered answer is returned without probing; the cache is left as it was, apart from forgetting the connected address of a robot that is down |
| AddressModel.ResolveProbesInOrder | src/main/java/com/boomaa/opends/networking/AddressConstants.java:68-88 | otherwise the probes run in order and the answer (or fallback) is returned; the cache changes only in the probe time, now, and the remembered answer (and the forgotten connected address of a robot that is down) |
| AddressModel.ResolveStableWithinProbeInterval | src/main/java/com/boomaa/opends/networking/AddressConstants.java:64-68 | within a second of a call that probed, a repeat call gives the same address without probing, whatever reachability does |
| Addressing.AddressConstants.constructor | src/main/java/com/boomaa/opends/networking/AddressConstants.java:19-30 | the static initialiser loads the year's ports and leaves every cache field empty |
| Addressing.AddressConstants.ReloadProtocol | src/main/java/com/boomaa/opends/networking/AddressConstants.java:35-38 | the ports become the year's lookup and nothing else changes |
| Addressing.AddressConstants.GetRioAddress | src/main/java/com/boomaa/opends/networking/AddressConstants.java:48-89 | answer and fields afterwards are those of the resolution ladder over the old fields, link state, team text and probe |
| Addressing.AddressConstants.NoteConnectedRioAddress | src/main/java/com/boomaa/opends/networking/AddressConstants.java:115-118 | records the address, and the shown label becomes the address's computed label |
| Addressing.AddressConstants.ClearConnectedRioAddressIfDisconnected | src/main/java/com/boomaa/opends/networking/AddressConstants.java:120-125 | clears address and label exactly when the robot is not initialised |
| Addressing.AddressConstants.ForceClearConnectedRioAddress | src/main/java/com/boomaa/opends/networking/AddressConstants.java:127-130 | clears address and label; the shown label is "" |
| Addressing.AddressConstants.GetConnectedRioLabel | src/main/java/com/boomaa/opends/networking/AddressConstants.java:132-134 | the stored label, or "" when there is none |
| ClockModel.Attempt | src/main/java/com/boomaa/opends/networking/NetworkClock.java:106-136 | the gate never leaves the slot up without an open interface |
| ClockModel.Connect | src/main/java/com/boomaa/opends/networking/NetworkClock.java:95-136 | choosing the address and ports, then the gate, never leaves the slot up without an interface |
| ClockModel.Reload | src/main/java/com/boomaa/opends/networking/NetworkClock.java:85-137 | after reloadInterface the slot is up only with an open interface |
| ClockModel.Cycle | src/main/java/com/boomaa/opends/networking/NetworkClock.java:33-83 | a tick keeps the invariant that an up slot has an interface |
| ClockModel.Restart | src/main/java/com/boomaa/opends/networking/NetworkClock.java:139-144 | after restart the slot is up only with an open interface |
| ClockModel.Run | src/main/java/com/boomaa/opends/networking/NetworkClock.java:33-83 | any number of ticks keep that invariant |
| ClockModel.UnsetAll | src/main/java/com/boomaa/opends/display/frames/MainFrame.java:308-314 | the four clocks agree afterwards on the shared state the last restart left, and that last view is the fourth restart after the forced clear |
| ClockModel.ClockNames | src/main/java/com/boomaa/opends/networking/NetworkClock.java:159-162 | createName gives "rioUdp", "rioTcp", "fmsUdp" and "fmsTcp" |
| ClockModel.ClockNamesDistinct | src/main/java/com/boomaa/opends/networking/NetworkClock.java:159-162 | two clocks have the same name exactly when they have the same remote and protocol |
| ClockModel.HexByte | src/main/java/com/boomaa/opends/networking/NetworkClock.java:188 | %02X gives exactly two characters |
| ClockModel.HexByteRoundTrip | src/main/java/com/boomaa/opends/networking/NetworkClock.java:188 | both characters are upper-case hex digits and they read back as the byte |
| ClockModel.HexJoinLength | src/main/java/com/boomaa/opends/networking/NetworkClock.java:187-192 | n bytes give 3n-1 characters |
| ClockModel.HexJoinLayout | src/main/java/com/boomaa/opends/networking/NetworkClock.java:187-192 | n bytes give 3n-1 characters; byte i's pair is at offset 3i, followed by a space unless it is the last |
| ClockModel.HexPreviewTruncation | src/main/java/com/boomaa/opends/networking/NetworkClock.java:184-197 | the preview has 3n-1 characters for the n = min(len, max) bytes shown, plus 4 for the marker, and ends in " ..." exactly when len > max |
| ClockModel.HexPreviewShowsPrefix | src/main/java/com/boomaa/opends/networking/NetworkClock.java:186-192 | pair i of the preview is the %02X of byte i, for each of the first min(len, max) bytes |
| ClockModel.HexJoinEndsInDigit | src/main/java/com/boomaa/opends/networking/NetworkClock.java:187-192 | the joined pairs end in a hex digit, so an untruncated preview never ends in " ..." |
| ClockModel.ReloadTearsDownFirst | src/main/java/com/boomaa/opends/networking/NetworkClock.java:85-120 | reloadInterface resets counters, reports no data and closes the old interface before the reachability test, and opens a new interface only after that test |
| ClockModel.ReloadOpensOnSuccess | src/main/java/com/boomaa/opends/networking/NetworkClock.java:100-122 | the slot is up exactly when an interface was opened; it is on the dialled address with the TCP or UDP tx/rx ports, only after reachability and construction succeed; for the robot, the address is noted and last seen is now |
| ClockModel.AttemptOutcome | src/main/java/com/boomaa/opends/networking/NetworkClock.java:106-136 | from a torn-down clock, an interface opens exactly when the test and the constructor succeed, and then the slot is up |
| ClockModel.ReloadFailureDisablesRobot | src/main/java/com/boomaa/opends/networking/NetworkClock.java:146-157 | a robot reload that fails disables and deselects the toggle, and forgets the connected address once the robot is down |
| ClockModel.FmsReloadTouchesOnlyItsSlot | src/main/java/com/boomaa/opends/networking/NetworkClock.java:95-136 | an FMS reload changes only its own slot: cache, enable toggle and robot timestamp are unchanged |
| ClockModel.FmsReloadWithoutRequest | src/main/java/com/boomaa/opends/networking/NetworkClock.java:95-99 | without FMS_CONNECT an FMS reload tears down, sets the slot false, and tests and opens nothing |
| ClockModel.CycleOnlyOwnSlot | src/main/java/com/boomaa/opends/networking/NetworkClock.java:33-83 | a tick, fail-safe included, leaves the other three slots unchanged |
| ClockModel.UninitializeOnlyOwnSlot | src/main/java/com/boomaa/opends/networking/NetworkClock.java:146-147 | uninitialize leaves the other three slots unchanged |
| ClockModel.ReloadOnlyOwnSlot | src/main/java/com/boomaa/opends/networking/NetworkClock.java:85-137 | reloadInterface leaves the other three slots unchanged |
| ClockModel.CycleBodyOnlyOwnSlot | src/main/java/com/boomaa/opends/networking/NetworkClock.java:34-78 | the tick before the fail-safe leaves the other three slots unchanged |
| ClockModel.CycleFmsNotSelected | src/main/java/com/boomaa/opends/networking/NetworkClock.java:70-73 | an FMS tick without FMS_CONNECT reports no data, sets its slot false, and does nothing else (no reload) |
| ClockModel.CycleReconnects | src/main/java/com/boomaa/opends/networking/NetworkClock.java:37-68 | a slot that is down, or a failed write, means report no data and then reload |
| ClockModel.CycleReadOutcomes | src/main/java/com/boomaa/opends/networking/NetworkClock.java:43-62 | a null read sets the slot false without reloading; data or any TCP read is reported and, on a robot clock, sets the last-seen time to now, with nothing else changed; an empty UDP read changes nothing |
| ClockModel.TcpAnswerKeepsRobotEnabled | src/main/java/com/boomaa/opends/networking/NetworkClock.java:43-83 | any answer on the robot's TCP link, even an empty one, refreshes last seen, so the tick ends with the fail-safe not tripped whatever the earlier last-seen time |
| ClockModel.CycleUnwired | src/main/java/com/boomaa/opends/networking/NetworkClock.java:35-78 | without an updater and a creator, the tick changes nothing before the fail-safe |
| ClockModel.RioFailSafe | src/main/java/com/boomaa/opends/networking/NetworkClock.java:80-82 | after any robot tick, a stale link has its slot down, the toggle disabled and deselected, the address cleared only if the robot is now down, and its interface not closed; no robot tick ends stale with the toggle on |
| ClockModel.StarvedRioLinkIsDisabled | src/main/java/com/boomaa/opends/networking/NetworkClock.java:48-82 | a robot UDP link silent for more than 600 ms is disabled by an empty tick; at exactly 600 ms nothing changes |
| ClockModel.RestartTearsDownFirst | src/main/java/com/boomaa/opends/networking/NetworkClock.java:139-144 | restart tears down and closes the old interface before any reachability test |
| ClockModel.RestartDialsWithOwnSlotDown | src/main/java/com/boomaa/opends/networking/NetworkClock.java:139-142 | restart sets its slot down before reloading, so the robot address it tests is resolved with only the other robot slot counting as up |
| ClockModel.NullReadLeavesRobotEnabled | src/main/java/com/boomaa/opends/networking/NetworkClock.java:43-47 | a null read on the only robot slot up marks the robot down but leaves the toggle, the interface and the connected address as they were |
| ClockModel.FmsNeverConnectsUnrequested | src/main/java/com/boomaa/opends/networking/NetworkClock.java:70-99 | over any number of ticks without FMS_CONNECT, an FMS clock never opens an interface or marks its slot up, and keeps any interface it held |
| ClockModel.RestartClosesOld | src/main/java/com/boomaa/opends/networking/NetworkClock.java:139-142 | restart closes the interface the clock held |
| ClockModel.RestartInTurnStep | src/main/java/com/boomaa/opends/display/frames/MainFrame.java:310-313 | each clock restarts from the shared state the previous restart left |
| ClockModel.UnsetAllClosesEveryInterface | src/main/java/com/boomaa/opends/display/frames/MainFrame.java:308-314 | after unsetAllInterfaces, every clock has closed the interface it held |
| ClockModel.UnsetAllWithoutFmsConnect | src/main/java/com/boomaa/opends/display/frames/MainFrame.java:308-314 | without FMS_CONNECT, both FMS clocks end with no interface and both FMS slots down |
| ClockModel.UnsetAllForgetsStickyAddress | src/main/java/com/boomaa/opends/display/frames/MainFrame.java:309 | the connected robot address held before has no effect on the outcome |
| Networking.NetworkClock.constructor | src/main/java/com/boomaa/opends/networking/NetworkClock.java:25-30 | name is createName, the period is 20 ms for the robot and 500 ms for the FMS, and the state afterwards is a reload from no interface |
| Networking.NetworkClock.Uninitialize | src/main/java/com/boomaa/opends/networking/NetworkClock.java:146-157 | the state afterwards is the model's uninitialize of the old state |
| Networking.NetworkClock.ReloadInterface | src/main/java/com/boomaa/opends/networking/NetworkClock.java:85-137 | the state afterwards is the model's reload of the old state, team text and oracles |
| Networking.NetworkClock.TearDown | src/main/java/com/boomaa/opends/networking/NetworkClock.java:86-94 | the state afterwards is the model's teardown |
| Networking.NetworkClock.Connect | src/main/java/com/boomaa/opends/networking/NetworkClock.java:95-105 | the state afterwards is the model's address choice followed by the gate |
| Networking.NetworkClock.Attempt | src/main/java/com/boomaa/opends/networking/NetworkClock.java:106-136 | the state afterwards is the model's reachability gate and open |
| Networking.NetworkClock.OnCycle | src/main/java/com/boomaa/opends/networking/NetworkClock.java:33-83 | the state afterwards is the model's tick with fail-safe; the invariant holds |
| Networking.NetworkClock.Tick | src/main/java/com/boomaa/opends/networking/NetworkClock.java:34-78 | the state afterwards is the model's tick before the fail-safe |
| Networking.NetworkClock.Receive | src/main/java/com/boomaa/opends/networking/NetworkClock.java:43-62 | the state afterwards is the model's handling of the read result |
| Networking.NetworkClock.Restart | src/main/java/com/boomaa/opends/networking/NetworkClock.java:139-144 | the state afterwards is the model's restart; the invariant holds |
| Networking.ToHexPreview | src/main/java/com/boomaa/opends/networking/NetworkClock.java:184-197 | the loop builds exactly the preview whose layout and truncation are proved above |

## Left out

- Real network I/O is replaced by the oracles of `Env`: InetAddress.isReachable, the Socket.connect discovery probe, and TCPInterface/UDPInterface with their write, read and close. An unknown host and an unreachable one both make the reachability oracle answer false.
- The scheduling of the Clock base class and the concurrency of four clocks touching shared static state are not modelled. Ticks and restarts are applied one after another, and `restart` leaves out `end` and `start`.
- System.currentTimeMillis is an explicit `now`, one instant per call. A call that reads the clock several times is modelled as reading it once.
- Debug sticky messages, Logger.OUT lines and Parameter.DEBUG are not modelled: logging only.
- The packet codec is not modelled. CREATOR, UPDATER, getPacketParser, ParserNull and PacketCounters become the effects `CountersReset` and `Reported(NoData | Parsed(bytes))`.
- The reflective field lookup of getProtoYearValue is a map from year to table. The protocol year (MainJDEC.getProtocolYear) is a parameter, since DisplayEndpoint is not part of this model.
- IPV4_REGEX is a predicate: four dot-separated octets 0-255 without leading zeros, which is what the regex accepts. The regex engine itself is not modelled.
- HToggleButton is not modelled. The enable toggle is the pair (enabled, selected) in `DriverControls` and `View`.
- `EventSeverity` constants other than INFO, WARNING and ERROR are collapsed into `Other`.
- Case folding and digits are ASCII only. Java's Unicode case mappings and non-ASCII digits in Integer.parseInt are not modelled.
- `long` and `int` overflow of timestamps and differences is not modelled; time is an unbounded integer.
- PortTriple and PortQuad are not part of this model. Their constructor arguments are taken to be (tcp, udpTx, udpRx[, shuffleboard]) in that order; only the tcp and shuffleboard positions are confirmed by their getters' use in the address probes, so the two UDP ports may be swapped.
- The team-number field the resolver reads is an `HOverlayField`, a headless wrapper that is not part of this model; the model assumes it hands over `OverlayField`'s text, and feeds `Resolve` from `OverlayField.GetText()`.
- Java bytes are modelled unsigned (0..255), which is what `%02X` prints for them.
- MainFrame.unsetAllInterfaces is modelled only as the function `ClockModel.UnsetAll` over the four clocks' views. There is no method over four `NetworkClock` objects, because its frame reasoning is beyond the verifier's budget here. Aliasing between the clocks' shared objects is therefore stated by `Handover`, not by a heap.
- ClockModel.Attempt, ClockModel.Connect, ClockModel.Reload, ClockModel.Cycle, ClockModel.Restart, ClockModel.Run: their own contracts state only the invariant that an up slot has an interface. What they do is stated by the lemmas listed above.
- ClockModel.UnsetAll: its own contract states only that the four clocks agree on the shared state and that the last view is the fourth restart. The order of restarts and their outcomes are stated by ClockModel.RestartInTurnStep and the UnsetAll lemmas.
- A `null` interface in a slot that is up, where the source would dereference null, cannot arise. The invariant `ClockModel.Inv` excludes it, and every operation keeps that invariant.
- The Chrome extension and its helper bridge are not part of this model.
