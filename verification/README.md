# Verified model of the web SSH gateway

This project models five parts of the gateway and its clients in Dafny and proves what they
are relied on for. Verify it with `dafny verify dfyconfig.toml`.

1. **The TCP-over-WebSocket tunnel** (`TunnelModel`, `TunnelSafety`, `TunnelTheorems`,
   `TunnelLoops`). Two programs and two message streams form one transition system. The
   environment is adversarial: reads may return any number of bytes, also together with the
   end of the stream, writes may take any prefix or fail, and either side may tear down at any
   step. The model covers the handshake, the `tunnel-eof` half-close, the closing frame and the
   result channel of each side. The four copier loops and the two write loops are then written
   imperatively, over a reused buffer and a resliced payload, and each is shown to perform a run
   of that system. Messages arrive in order and whole, and a closing frame is the last
   (sections 5.4 and 5.5.1 of RFC 6455); half-close is that of section 3.6.1 of RFC 9293.
2. **Slot reservation** (`Slots`, `SlotLoops`). Any number of handlers, each a program counter
   with a stale local copy of a shared counter, interleave one atomic step at a time. The
   compare-and-swap loop and the life of one SSH session are methods running among adversarial
   others.
3. **The credential vault** (`VaultModel`, `VaultKey`, `VaultRuns`, `VaultIndex`, `VaultStore`).
   Two buckets, versioned records, a pinned master key and its file. Runs may open, put, delete,
   list, migrate, close, be killed at any time, crash at any point of opening, and have the key
   file removed or replaced. Encryption is ideal: a box opens only under its own key and id;
   hashing is injective; a transaction commits or does not.
4. **The browser's panes** (`BrowserPane`, `BrowserWorkspace`, `BrowserActions`). Reconnection
   is a state machine over events of sockets and timers that may be long out of date; around it
   stands the structure of groups, panes and the active pane.
5. **Four smaller cores**: the DNS-over-HTTPS time budget and result (`Doh`), the tunnel's
   keepalive against its read deadline (`Keepalive`), the destination parser (`Destination`) and
   the network policy (`NetworkPolicy`).

`Wrappers`, `Text` and `Sorting` hold an option type, white-space trimming and sorting by name.

In each component `Step` is one event from any state and `Run` any sequence of events, so a
lemma about `Run(Init(), es)` speaks of every reachable state. Where a loop of the original runs
in place, a method repeats it and its contract equates the new state with such a function.

## Findings

These promises hold only under a condition, which is proved to be the exact one.

- *Listing as one owner does not change what another owner lists*: true if and only if the call
  backfills nothing (`VaultIndex.ListingAndOtherOwners`). Records without a summary go to whoever
  lists first; a put without an owner makes such a record, and `VaultIndex.FirstListerTakesAll`
  is a run that ends so. What another owner has stored never changes.
- *A store that opens reads every record of the new format*: true if and only if no untagged
  record begins with the version prefix `GWS2`, be it a legacy record by its nonce or a value
  that is no record at all (`VaultRuns.OpenStoreReadsAll`). Such a legacy record can be neither
  read nor migrated (`VaultRuns.PrefixedNonceNeverOpens`).
- *The ping interval is at most half the idle timeout, and a round trip below half the timeout
  keeps an idle tunnel open*: true if and only if the timeout is at least two seconds. The exact
  bound on the round trip is the timeout less the interval (`Keepalive.SafeExactly`).
- *A pane in state `connected` has a socket, and still does or is no longer `connected` when its
  socket closes*: true all along a run if and only if no `connected` message is taken from the
  current socket while the flag `suppressReconnect` is set
  (`BrowserPane.ConnectedMeansSocketExactly`). A server that sends no `connected` after an `error`
  or `closed` message on the same socket never causes that; `BrowserPane.LateConnectedLeavesNoSocket`
  shows a run of three events in which it happens.
- *When the client returns on the closing frame, stdout is complete*: true if and only if the
  target's stream was read to its end and no chunk was held back, which an end-of-file result of
  the target's copier guarantees. `TunnelTheorems.EarlyTeardownCanTruncate` shows a truncation
  when the other copier of the server reports first.
- *Close other panes leaves the pane it was asked for*: true, while that pane's group exists, if
  and only if the pane is still a session (`BrowserWorkspace.CloseOthersExactly`). If it was
  closed while its menu was open, every pane of the group goes, and the group;
  `BrowserWorkspace.StaleMenuClosesAll` is such a run.
- *An address a deny entry names is refused*: where no allow entry names it, this holds exactly as
  follows (`NetworkPolicy.DenyEntryHoldsExactly`). Both callers turn an IPv4 address in IPv6 form
  into its IPv4 form first, so an entry for the IPv6 form holds nothing: the address is refused if
  and only if its IPv4 form is refused for a reason of its own. `NetworkPolicy.MappedEntryHoldsNothing`
  shows `::ffff:8.8.8.8` admitted by a policy whose one entry it is. Any other address is refused if
  and only if it is without a zone, or is one of the loopback, link-local and private addresses that
  the tests after the lists refuse with a zone too (`NetworkPolicy.ZoneLeavesTests`). Prefixes never
  match an address with a zone, so any zone takes an ordinary address past its deny entry
  (`NetworkPolicy.ZonePassesDenyEntry`), and takes the unspecified address past its test, which
  compares the zone (`NetworkPolicy.ZonedUnspecifiedPasses`).
- *Every target connection the server dials is closed when it is done*: true if and only if its
  reply to the client could be written (`TunnelTheorems.TargetClosedExactly`). Otherwise the server
  returns before it arranges for the close; `TunnelTheorems.UnwrittenReplyLeavesTargetOpen` is the
  run.

## Model

| member | source | states |
|---|---|---|
| TunnelSafety.Reachable | internal/ws/tunnel.go:71-108 | the invariant of bytes, message shapes and results holds after every sequence of events |
| TunnelSafety.BytesKeep | internal/cli/tunnel.go:147-218 | each event, handshake and teardown included, keeps in both directions: on the wire + held = read, and delivered + unwritten = taken |
| TunnelSafety.UpShapeKeeps | internal/cli/tunnel.go:147-169 | the client's messages stay: the request, binary messages of 1 to 32 KiB, at most one `tunnel-eof`; and the server stands where it can within them |
| TunnelSafety.DownShapeKeeps | internal/ws/tunnel.go:95-108 | the server's messages stay: the answer, binary messages, at most one closing frame, sent only in teardown |
| TunnelSafety.ReportsKeep | internal/ws/tunnel.go:97-102 | every result on a channel or taken from it is one copier's own, reported once |
| TunnelTheorems.NothingLostOrReordered | internal/ws/tunnel.go:192-219 | in every reachable state the sink's bytes are a prefix of the source's, and delivered + unwritten + in flight + held is exactly what was read |
| TunnelTheorems.EofComesLast | internal/cli/tunnel.go:157-164 | `tunnel-eof` is the client's last message: sent once at most, after every binary one, with all of stdin before it |
| TunnelTheorems.HalfCloseMeansAllOfStdin | internal/ws/tunnel.go:205-214 | once the target is half-closed it holds exactly all of stdin, then and ever after |
| TunnelTheorems.StdinEndEndsNeitherRelay | internal/cli/tunnel.go:120-125 | no relay ends because stdin ended: the server's first result is the target's end or a failure of either copier, the client's the closing frame or a failure of either |
| TunnelTheorems.TargetDirectionStaysLive | internal/ws/tunnel.go:175-190 | while both relays run and no operation of the target's direction has failed, stdin ended or not, some run delivers everything the target sent so far |
| TunnelTheorems.NoCopierBlocks | internal/cli/tunnel.go:118-126 | a copier with a result to report always finds room on its channel |
| TunnelTheorems.ClosingFrameAccountsForAll | internal/cli/tunnel.go:181-204 | after the closing frame stdout + held = read from the target; stdout is complete iff all was read and nothing held |
| TunnelTheorems.CleanCompletion | internal/ws/tunnel.go:95-108 | first server result the target's end and the client's the closing frame: stdout is everything the target sent |
| TunnelTheorems.BenignRunsComplete | internal/cli/tunnel.go:115-145 | if no operation fails, only the target's end starts teardown and the client returns only with all of it on stdout |
| TunnelTheorems.EarlyTeardownCanTruncate | internal/ws/tunnel.go:100-108 | a run in which the sink fails first and the client ends on the closing frame with less than was sent |
| TunnelTheorems.TargetClosedExactly | internal/ws/tunnel.go:71-108 | once the server is done a dialled target is closed iff the reply to the client was written |
| TunnelTheorems.UnwrittenReplyLeavesTargetOpen | internal/ws/tunnel.go:157-172 | a run that ends with the target open: the reply could not be written |
| TunnelLoops.Source.Read | internal/ws/tunnel.go:178 | one read of an adversarial stream: any bytes into the buffer, possibly together with the end |
| TunnelLoops.WriteAll | internal/ws/tunnel.go:276-288 | the write loop puts the whole payload, also an empty one, on the sink, or all but the part it did not write when it failed, whatever the partial writes |
| TunnelLoops.ReadAndPush | internal/cli/tunnel.go:149-156 | one turn of a reading loop is a run of the reader's events |
| TunnelLoops.CopyTunnelInput | internal/cli/tunnel.go:147-169 | the client's input loop performs a run of the model; nil only with all of stdin and `tunnel-eof` on the wire |
| TunnelLoops.CopyTunnelOutput | internal/cli/tunnel.go:181-204 | the client's output loop performs a run of the model; its result is a failure or the closing frame, never nil |
| TunnelLoops.TunnelSession.CopyTargetToWebSocket | internal/ws/tunnel.go:175-190 | the server's reading loop performs a run of the model; end of file only with all the target sent on the wire; `bytesOut` is what it put on the wire |
| TunnelLoops.TunnelSession.CopyWebSocketToTarget | internal/ws/tunnel.go:192-219 | the server's writing loop performs a run of the model and returns a failure, or a closing frame if the client's messages hold one; `bytesIn` counts what whole messages delivered |
| TunnelLoops.Deliver | internal/ws/tunnel.go:199-203 | one binary message is delivered whole, or the loop ends with the rest unwritten |
| TunnelLoops.HalfClose | internal/ws/tunnel.go:204-214 | a text message half-closes the target if it is `tunnel-eof` and the close succeeds, and otherwise ends the loop as a failure |
| TunnelLoops.FrontReturns | internal/ws/tunnel.go:175-190 | what a reading copier leaves behind for each of its results |
| TunnelLoops.FrontRunIsSystemRun | internal/cli/tunnel.go:147-169 | a reading loop's run is a run of the whole system moving only its half of its pipe |
| TunnelLoops.BackRunIsSystemRun | internal/ws/tunnel.go:192-219 | the same for a writing loop |
| Slots.Reachable | internal/ws/handler.go:129-165 | the invariant of flags, counts and counters holds after any interleaving |
| Slots.CountersAreExact | internal/ws/handler.go:527-538 | each counter equals the handlers holding a slot and stays within 0 to the limit |
| Slots.ReleasedExactlyOnce | internal/ws/handler.go:462-525 | a finished handler released exactly what it acquired, per exit: nothing when refused, one slot on dial failure, failed reply and normal end |
| Slots.AllDoneMeansZero | internal/ws/tunnel.go:35-39 | when all handlers are done both counters are zero |
| Slots.LocalCopyWasLoaded | internal/ws/tunnel.go:245-249 | the value a handler decides on was the counter's at its last `Load` |
| Slots.RefusedOnlyAtLimit | internal/ws/tunnel.go:243-254 | a refusal implies that the counter was at its limit at the last `Load` of that call |
| Slots.StaleOnlyByOthers | internal/ws/handler.go:529-537 | a copy gone stale was made so by another handler's step after the handler's last `Load` |
| Slots.FailedSwapMeansInterference | internal/ws/handler.go:534-536 | a failed compare-and-swap implies that another handler changed the counter since the handler's last `Load` |
| SlotLoops.Registry.Load | internal/ws/handler.go:530 | one atomic load among the others' steps |
| SlotLoops.Registry.CompareAndSwap | internal/ws/handler.go:534 | succeeds exactly when the counter is what was loaded at the instant of the swap, whatever the others did before it |
| SlotLoops.Registry.GiveBack | internal/ws/handler.go:467-471 | the deferred function with the local flag set lowers the counter by one |
| SlotLoops.Registry.KeepSlot | internal/ws/handler.go:467-471 | with the flag cleared it leaves the counter |
| SlotLoops.Registry.Reserve | internal/ws/handler.go:527-538 | the loop performs a run of the model; success raises the counter by one from below the limit, refusal follows a load at the limit |
| SlotLoops.WsSession.HandOver | internal/ws/handler.go:462-525 | the slot passes from the local flag to the session's, owned at each statement |
| SlotLoops.WsSession.HandleConnect | internal/ws/handler.go:462-525 | reserve, dial, hand over, reply; on error the slot was released here or is left to cleanup, never both or neither |
| SlotLoops.WsSession.Cleanup | internal/ws/handler.go:557-577 | releases the slot exactly when the session's flag was still set |
| SlotLoops.WsSession.Serve | internal/ws/handler.go:129-165 | a whole session is a run of the model that ends with as many releases as acquisitions |
| VaultKey.KeyFileRoundTrip | internal/vault/vault.go:220-255 | a written key file reads back as its key, also without the newline; a torn file is no key |
| VaultRuns.OneKeyForAll | internal/vault/vault.go:113-247 | over all runs every new-format record is sealed under the one key whose hash is stored, and an open store has it |
| VaultRuns.OpenStoreReadsAll | internal/vault/vault.go:436-451 | an open store reads every sealed new-format record; every record that looks so, iff no untagged one does |
| VaultRuns.PrefixedNonceNeverOpens | internal/vault/vault.go:535-544 | a legacy record whose nonce begins with the prefix is unreadable and not migratable |
| VaultRuns.FingerprintStays | internal/vault/vault.go:165-182 | once stored the fingerprint never changes |
| VaultRuns.OpensWithThePinnedKeyOnly | internal/vault/vault.go:150-183 | opening succeeds iff the key given, or in the key file, is the pinned one; a missing key file is not replaced |
| VaultRuns.FirstOpenSurvivesCrash | internal/vault/vault.go:185-247 | after a crash at each point of the first open the next open ends with the same key, or fails on a torn key file |
| VaultIndex.CredentialRoundTrip | internal/vault/vault.go:60-103 | a credential survives writing and reading, and the old spelling of the recovery flag is read |
| VaultIndex.PutThenGet | internal/vault/vault.go:267-308 | what is put reads back as returned, with its creation time kept and defaults filled; no other record changes |
| VaultIndex.PutAgrees | internal/vault/vault.go:288-307 | a put with an owner keeps index and records in agreement |
| VaultIndex.DeleteAgrees | internal/vault/vault.go:453-463 | so does a delete |
| VaultIndex.ListDbAt | internal/vault/vault.go:400-424 | a listing stores a summary exactly for each readable record that lacks one |
| VaultIndex.ListingAt | internal/vault/vault.go:361-434 | a listing returns the owner's stored summaries and the new ones, id by id |
| VaultIndex.IndexAgreesWithRecords | internal/vault/vault.go:310-324 | after any run of owned puts every summary has a record and is that credential's summary |
| VaultIndex.SingleOwnerListing | internal/vault/vault.go:337-434 | with one owner, listing = summaries of what ListAvailable returns + stored summaries of legacy records |
| VaultIndex.ListingIsFixpoint | internal/vault/vault.go:361-434 | a second listing writes nothing and returns the same; the legacy count stays |
| VaultIndex.ListingAndOtherOwners | internal/vault/vault.go:361-434 | others' stored summaries stay; what they would list stays iff nothing was backfilled |
| VaultIndex.UnownedPutIsUnlisted | internal/vault/vault.go:298-300 | a put without an owner leaves a record to backfill iff its id had no summary |
| VaultIndex.FirstListerTakesAll | internal/vault/vault.go:400-424 | a run after which another owner's listing has the record before the first listing and not after |
| VaultIndex.MigrationConserves | internal/vault/vault.go:465-520 | migrated + remaining = legacy before; ids, summaries and fingerprint unchanged; a second run migrates none |
| VaultIndex.MigratedAt | internal/vault/vault.go:480-513 | a migrated record holds the same plaintext under the master key; every other record is unchanged |
| VaultStore.Open | internal/vault/vault.go:113-183 | the statements of opening compute the model's step on database and key file |
| VaultStore.LoadMasterKey | internal/vault/vault.go:185-247 | the key given, read or created, and the key file after it |
| VaultStore.Store.Close | internal/vault/vault.go:257-261 | key and salt are zeroed and the store closed |
| VaultStore.Store.Get | internal/vault/vault.go:436-451 | the decrypted credential or none |
| VaultStore.Store.PutForUser | internal/vault/vault.go:267-308 | the completed credential goes to both buckets in one transaction, or nothing changes |
| VaultStore.Store.Delete | internal/vault/vault.go:453-463 | both buckets lose the id in one transaction, or nothing changes |
| VaultStore.Store.ListAvailable | internal/vault/vault.go:337-359 | every readable credential once, sorted by name, and the number of the others; nothing from a closed store |
| VaultStore.Store.ListSummaries | internal/vault/vault.go:361-434 | the owner's listing sorted by name, the missing summaries written in one transaction, and the legacy count |
| VaultStore.Store.LegacyCount | internal/vault/vault.go:522-533 | the number of legacy records, or a failure on a closed store |
| VaultStore.Store.MigrateLegacyFromPassword | internal/vault/vault.go:465-520 | the migrated database and both counts, or nothing changed |
| VaultStore.CollectMigrated | internal/vault/vault.go:474-501 | the read pass: what each migratable record would become, and the number left |
| BrowserPane.ReconnectInvariant | web/app.js:1568-1685 | over every order of events: one retry timer at most; while pending no socket, `reconnecting`, 1 to 5 retries; delays exactly 1, 2, 4, 8, 15 s |
| BrowserPane.AttemptsRunOut | web/app.js:1669-1685 | 5 - retry falls with each scheduled attempt and nothing but a reset raises it |
| BrowserPane.DisconnectHolds | web/app.js:1686-1710 | after a disconnect no socket is created until a reconnect, whatever arrives late |
| BrowserPane.ConnectedMeansSocketExactly | web/app.js:1613-1664 | all along a run, any close included, `connected` implies a current socket iff no `connected` is taken while reconnection is suppressed |
| BrowserPane.DisciplinedIsNeverLate | web/app.js:1613-1651 | no such message comes from a server that sends no `connected` after an error or closed message on the same socket |
| BrowserPane.ConnectedHasSocket | web/app.js:1597-1665 | with a disciplined server `connected` implies a current socket |
| BrowserPane.LateConnectedLeavesNoSocket | web/app.js:1613-1665 | without that discipline it need not |
| BrowserPane.FirstAndOnceIsDisciplined | web/app.js:1613-1621 | a server that sends `connected` first and once is disciplined |
| BrowserPane.PaneSession.HandleError | web/app.js:1652-1654 | an error of the current socket changes the state only |
| BrowserPane.PaneSession.HandleTimer | web/app.js:1684 | a pending timer connects again; any other does nothing |
| BrowserPane.PaneSession.Dispose | web/app.js:1711-1721 | a disposed pane is disconnected and no session |
| BrowserPane.PaneSession.Connect | web/app.js:1568-1583 | the fields after a new connection is begun, the old timer cleared |
| BrowserPane.PaneSession.ScheduleRetry | web/app.js:1669-1685 | the fields after a retry is scheduled or given up |
| BrowserPane.PaneSession.HandleMessage | web/app.js:1597-1651 | a message changes the pane as its type says, and not at all from another socket |
| BrowserPane.PaneSession.HandleClose | web/app.js:1655-1664 | a close of the current socket schedules a retry unless stopped by hand, by an error or by disposal |
| BrowserPane.PaneSession.Disconnect | web/app.js:1686-1703 | all fields after a disconnect |
| BrowserPane.PaneSession.Reconnect | web/app.js:1704-1710 | all fields after a reconnect by hand |
| BrowserWorkspace.WorkspaceInvariant | web/app.js:1304-1471 | groups have 1 to 4 panes, their panes partition the sessions, and the active pane is in the active group or there is no group |
| BrowserWorkspace.ClosedPanesAreSilent | web/app.js:1711-1721 | a closed pane has no socket and no timer, and its late events change nothing |
| BrowserWorkspace.SplitAddsOne | web/app.js:1462-1471 | splitting adds one fresh active pane to the active group, or nothing at four; the first split sets the direction |
| BrowserWorkspace.RemoveSessionKeeps | web/app.js:1722-1735 | removing a pane keeps the invariant, also when its group goes with it |
| BrowserWorkspace.RemoveGroupKeeps | web/app.js:1736-1754 | removing a group keeps the invariant and takes just that group |
| BrowserWorkspace.CycleThereAndBack | web/app.js:2227-2234 | next pane then previous pane, or the reverse, is the identity |
| BrowserWorkspace.CloseOthersExactly | web/app.js:1977-1983 | closing others leaves the pane alone and active iff it is still a session, and otherwise takes its whole group; other groups untouched |
| BrowserWorkspace.StaleMenuClosesAll | web/app.js:1975-1983 | a run of create, split and close pane after which closing others closes the last pane |
| BrowserWorkspace.LogoutClosesAll | web/app.js:2143-2145 | logout leaves no group, session, socket or pending retry |
| BrowserActions.FindIndex | web/app.js:2230 | the first place of the pane, or -1 |
| BrowserActions.Filter | web/app.js:1727 | the panes but one, in order |
| BrowserActions.Page.CreateSession | web/app.js:1304-1354 | a new group with one active pane |
| BrowserActions.Page.CreatePane | web/app.js:1355-1461 | a fresh pane at the end of the group, or none when it is full |
| BrowserActions.Page.SplitActive | web/app.js:1462-1471 | the whole new state after a split |
| BrowserActions.Page.RemoveSession | web/app.js:1722-1735 | the whole new state after a pane is removed |
| BrowserActions.Page.RemoveGroup | web/app.js:1736-1754 | the whole new state after a group is removed |
| BrowserActions.Page.CloseOtherPanes | web/app.js:1977-1983 | the whole new state after the others are closed |
| BrowserActions.Page.Logout | web/app.js:2143-2145 | the whole new state after all groups are removed |
| BrowserActions.Page.CyclePane | web/app.js:2227-2234 | the whole new state after a step to a neighbour |
| BrowserActions.Page.Handle | web/app.js:1711-1787 | any event, from any state with the invariant, moves the page as the model does and keeps it |
| Doh.LookupIsFair | internal/cli/doh.go:74-136 | each endpoint asked gets at least min(D/n, 20 s) and at most 20 s, and together they end within D, if each keeps to its timeout |
| Doh.EveryEndpointGetsItsShare | internal/cli/doh.go:77-83 | the same for the shares themselves, by induction over the endpoints |
| Doh.SuccessComesFirst | internal/cli/doh.go:84-106 | success iff some endpoint has addresses and every one before it had none and left time; what is returned is non-empty and of one family |
| Doh.EndpointPrefersV4 | internal/cli/doh.go:109-136 | an endpoint's IPv6 addresses are returned only when it gave no IPv4 one |
| Doh.OneOutcome | internal/cli/doh.go:76-106 | the conditions on a lookup determine its result and the endpoints it asks |
| Doh.UsableIs | internal/cli/doh.go:194-215 | exactly the addresses of the records of the asked type count |
| Doh.UsableFamily | internal/cli/doh.go:203-213 | an A query yields four-byte addresses only, an AAAA query none that is mapped IPv4 |
| Doh.FilterAddresses | internal/cli/doh.go:194-215 | the loop computes those addresses, in order |
| Doh.AskInOrder | internal/cli/doh.go:76-106 | the loop asks in order until addresses or the end of time, gives each its share, and gathers each failure |
| Doh.Lookup | internal/cli/doh.go:56-107 | each early answer under its condition, and otherwise the loop's with the caller's or the default time |
| Keepalive.TunnelPingInterval | internal/ws/tunnel.go:265-274 | the interval the bounds are about |
| Keepalive.IntervalBounds | internal/ws/tunnel.go:265-274 | 1 to 20 s always; at most half the timeout iff that is at least 2 s |
| Keepalive.StaysAlive | internal/ws/tunnel.go:222-236 | with round trip + interval below the timeout no timely run expires, pongs in any order |
| Keepalive.SlowPongExpires | internal/ws/tunnel.go:164-167 | otherwise some timely run does |
| Keepalive.SafeExactly | internal/ws/tunnel.go:192-197 | no idle stretch expires iff round trip + interval is below the timeout |
| Keepalive.HalfTheTimeoutIsEnough | internal/ws/tunnel.go:265-274 | a round trip below half the timeout is safe iff the timeout is at least 2 s |
| Destination.ParseDestination | internal/cli/cli.go:772-824 | the step by step parser computes the one the lemmas speak of, reasons for failure included |
| Destination.ParseIsTheGrammar | internal/cli/cli.go:772-836 | success with a user, host and port iff the trimmed text has that reading in the grammar |
| Destination.ParseUndoesPrint | internal/cli/cli.go:772-836 | parsing the printed form returns the same user, host and port |
| Destination.SuccessIsUsable | internal/cli/cli.go:826-836 | every success has a host, a user that is absent or not blank, and a port that is absent or 1 to 65535 |
| NetworkPolicy.NewNetworkPolicy | internal/security/network_policy.go:21-80 | a policy is made iff every entry reads; its lists hold exactly the entries and the built-in prefixes; errors name the first bad entry |
| NetworkPolicy.ReadDeny | internal/security/network_policy.go:47-58 | skipping repeated entries loses no prefix |
| NetworkPolicy.PrivateBlocks | internal/security/network_policy.go:69-78 | the built-in private prefixes are the private addresses and IPv6 link-local ones, without zones |
| NetworkPolicy.DenyEntryHoldsExactly | internal/security/network_policy.go:157-177 | an address a deny entry names and no allow entry does is refused as the callers test it: a mapped one iff its IPv4 form is for a reason of its own, any other iff it has no zone or a test after the lists refuses it |
| NetworkPolicy.MappedEntryHoldsNothing | internal/security/network_policy.go:122-127 | `::ffff:8.8.8.8` as literal or as a resolver's answer is admitted although it is the policy's one deny entry |
| NetworkPolicy.ZoneLeavesTests | internal/security/network_policy.go:169-175 | private, loopback and link-local addresses are so with a zone too; only the unspecified one is not |
| NetworkPolicy.ZonePassesDenyEntry | internal/security/network_policy.go:164-168 | an ordinary address refused by its deny entry is admitted with any zone; on a mapped one the zone has no effect |
| NetworkPolicy.ZonedUnspecifiedPasses | internal/security/network_policy.go:169-172 | from empty lists the unspecified address is refused without a zone and admitted with one |
| NetworkPolicy.AdmitsByLists | internal/security/network_policy.go:157-177 | what a policy admits, in terms of the entries it was made from |
| NetworkPolicy.SwitchAdmitsPrivateOnly | internal/security/network_policy.go:140-177 | allowing private ranges admits exactly the private addresses no deny entry names, and nothing else |
| NetworkPolicy.CheckAnswers | internal/security/network_policy.go:140-154 | the loop succeeds iff every address passes and gives the first |
| NetworkPolicy.ResolveAllowedHostPort | internal/security/network_policy.go:104-155 | allowed iff port, name and every address pass, with the literal or the first address; the two other errors exactly when they apply |

## Left out

- The WebSocket library's automatic echo of a closing frame: the receiver's next read fails, which the model has.
- A failed `WriteMessage` puts nothing on the wire here; a message cut off in transit is a failed receive.
- Cancellation by the caller's context in the tunnel is a failure of whichever operation it interrupts.
- The branch of the server's writing loop for a target that is not a TCP connection: the dialler only makes TCP connections.
- Keepalive.StaysAlive: an idle stretch has no data message; a ping that cannot be written ends the pings in the original, and a slow target holds up reading, and neither is modelled here.
- Doh.LookupIsFair: time passes only inside an endpoint's attempt; the original's own computing between attempts takes none here.
- The PTY relay promises no full delivery: its `closed` message does not wait for output.
- JSON and UTF-8 encodings: texts are sequences of characters, and a document is the record it encodes.
- Cryptography: AES-GCM, Argon2 and SHA-256 are ideal.
- Vault calls interleaved with each other: the calls run one at a time.
- A put without an owner skips the index by design; runs about the index put with owners.
- Records of earlier versions are taken to carry the id they are stored under, and readable summaries to agree with them (`Agrees`), in the starting database of the index lemmas.
- Pane objects are values inside the workspace, where the original shares one object between two collections; the pane's own updates in place are the class `PaneSession`.
- BrowserWorkspace.CloseOthersExactly: speaks of panes whose group exists; for a pane of a removed group the original's handler raises an error, and the model changes nothing.
- Activating a group that has no panes raises an error in the original; no reachable group is empty.
- Uniqueness of Herdr session names: they are numbered by pane count.
- Digits of other scripts in a port fail here at the first test and in the original at the second, with the same error.
- The library's address and prefix parsers are parameters; the built-in prefix texts are taken to be read as they are meant.
- URL, HTTP and JSON handling of one DNS query: its outcome is a parameter.
- HTTP routing, cookies, TLS, configuration, logging, terminals, themes and all rendering: single-branch facts and plumbing.
