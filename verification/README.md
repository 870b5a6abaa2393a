# Lockguard: a verified model

Lockguard locks a Windows machine down to a few uses and a local network. A kernel driver refuses changes to its own
files, registry keys and processes, and lets them through only inside a ten-minute *permissive window* that a
challenge-response unlock opens. The same driver installs a LAN-only packet policy. A watchdog service repairs the
files and the wireless filter lists, and a command-line client performs recovery and password changes.

The project models these parts and proves what they keep.

**The driver as a concurrent protocol.** `DriverState` holds the driver's global variables and the effect of each atomic
access. `DriverMachine` is a transition system over them: any number of threads, each running one request at a time, cut
at every clock sample, unlocked read, spin-lock section, interlocked operation and foreign call. A run is any
interleaving with any clock, random bytes, registry contents and failures. On runs, `Window` proves when the window
ends, `Chaining` how leases keep it open, `Unlocking` which nonce each unlock spends and when an unlock succeeds,
`Verdicts` for which reason each unlock is refused and that each refusal is recorded once, `Safety` that nothing guarded
goes through without an unlock, `Verifier` the retry rate limit and when a loaded verifier is final, and `Tamper` that
the tamper counter counts refusals one for one.

**The driver as imperative code.** `DriverObject` has the handlers and callbacks as methods over a class with the
driver's variables; `Names` has their name-matching loops. Each handler is proved to leave the state and give the
outcome of one function, `DriverHandlers.Handle`, and `CallIsItsSteps` proves that this function is what the machine's
steps come to when no other thread runs in between; `RunCall` places such a call in any run. So one description of each
handler serves both views. `Calls` then says of every call what it answers and leaves, with the numbers, bits and cases
of the headers written out and without the handlers' own predicates.

**The packet policy.** `MaskPrefix` has the bit loop that turns an IPv6 mask into a prefix length. `WfpPolicy` proves
that the installed filters, under highest-weight arbitration, permit exactly a plain specification by address intervals
and ports. `WfpEngine` proves that installing them is all or nothing whichever engine call fails, and that removing them
restores what was there, by the transactions and the recorded ids and not only because the source asks for a dynamic
session.

**The watchdog.** `Wlan` has the flat filter-list buffer, its packing and unpacking, and the check and repair of every
interface's lists. `SelfHeal` has the file repair, with a disk on which every operation may fail or be cut off.

**The boundary.** `Wire` has the control codes, the unlock request and the status record; `Client` the recovery and
set-password clients against the driver.

HMAC-SHA256, PBKDF2, the case-folding tables and the numbers of the registry notifications are parameters: every
theorem holds for all of them. So are clocks, random bytes, registry contents, failures and crash points. Where a
theorem needs more (a response that answers no other nonce, an injective file hash, positive or forward clock samples),
it says so in its own `requires`. The filtering engine, the wireless service and the disk are small classes whose every
call may fail.

## Where the code does not do what is said of it

The model follows the code.

- `driver/lockguard.h:50-51` says no lease is granted once the original window is past. `driver/lockguard.c:97` tests
  the *extended* expiry, so leases chain: `WindowOutlivesOriginal` gives the exact condition, and `LeaseIsNotBounded`
  a run from boot on a forward clock in which, after one unlock, status requests alone keep the window open past any
  time.
- `cli/main.go:14-16` says a new password takes effect at once. A loaded verifier is not read again
  (`driver/lockguard.c:49`), so until the next boot the driver accepts only the old one: `OldKeyUntilReboot`,
  `ChangeThenRecover`.
- `driver/lockguard.c:34-35` has the verifier loaded once. A thread already past the test at line 49 can still load
  and replace it after another thread has latched one, and a short read leaves a mixture of the two:
  `LatchCanStillChange` is such a run, `MixtureOpens` an unlock against the mixture, and `LatchFinalExactlyWhen` the
  exact condition.
- `driver/regcb.c:4` says deletes of the protected keys are denied. Line 87 lets any notification numbered zero
  through, and the system header numbers the key deletion of line 106 zero. `KeyChangeStoppedExactlyWhen` gives the
  condition for any numbering, `KeyDeletionPasses` what follows for the header's.
- `driver/lockguard.c:335` answers a stale nonce with STATUS_TIMEOUT, which is not an error status, so the client
  (`cli/main.go:121-127`) reports success although the driver opened nothing: `Client.Recover`.
- `driver/wfp.c:131` says UDP is permitted to the discovery addresses. The filters carry no protocol condition, so
  every protocol is: `UdpOnlyExactlyWhen` and, with TCP, `TcpToDiscoveryPasses`.
- `watchdog/ioctl_windows.go:16-20` says its constants match the header. They need 34 bits and match no handler:
  `UnusedConstantsMatchNothing`. The client uses `ctlCode` instead, which does agree.
- `watchdog/enforce_windows.go:238` speaks of a missing primary. Line 237 takes any read error for one, and then copies
  over the primary in place: `UnreadPrimaryIsEmptied`. A primary that was read is replaced atomically: `RepairPair`.
- `watchdog/wlan_windows.go:12-13` says the check asks for a deny-all entry. Line 240 asks for a list that is not
  empty: `ForeignDenyPasses`. `EnsureWlanFilter` gives the exact condition under which a pass leaves all denied.
- `watchdog/ioctl_windows.go:82` calls 40 the packed size of the status record, which is 32 bytes.

## Model

| member | source | states |
|---|---|---|
| Safety.NothingGuardedWithoutUnlock | driver/lockguard.c:86-118 | In every interleaving, a guarded request that is let through unmodified was allowed by its own check `c`; the latest entry `e` before `c` belongs to an unlock whose key's HMAC is the stored verifier and whose response answers a nonce installed at most 60 s before, installed latest and unspent; and nothing closed the window between `e` and `c` |
| Safety.GatedOutcomes | driver/minifilter.c:80-86 | A callback's request passes, is denied or is stripped, and is stopped only when its name is resolved and matches and it modifies something; a failed lookup passes |
| Safety.PassedByCheck | driver/procnotify.c:79-90 | The check that let a guarded request through is the last step of its own thread before the return, made for that request |
| Safety.ClosedMeansStopped | driver/obcallback.c:56-74 | With the window closed, a guarded request is denied or stripped and recorded, and one that is not guarded passes |
| Safety.KeyChangeStoppedExactlyWhen | driver/regcb.c:87-143 | With the window closed, a change of a protected key is denied if and only if its notification number is not zero |
| Safety.KeyDeletionPasses | driver/regcb.c:94-143 | As built, with the header's numbers and the driver's tables, a closed window denies setting a value, deleting a value and renaming under a protected key, and nothing else on it: its deletion passes |
| Calls.HeaderConstants | driver/lockguard.h:37-52 | The window is 600 s, the nonce's life 60 s, the lease 2 s and the retry interval 10 s in 100-ns units; the buffer lengths are 32, 32, 64, 64 and 32; and the label is LOCKGUARD-VERIFIER-V1, byte by byte |
| Calls.FileCreateCall | driver/minifilter.c:65-87 | A file open is denied and recorded exactly when it asks to delete on close or for one of the five write rights, its name resolved and contains an entry, and the window is closed; how the window is left, and that nothing else changes |
| Calls.FileSetInfoCall | driver/minifilter.c:89-112 | The like for the six information classes |
| Calls.FileWriteCall | driver/minifilter.c:114-128 | The like for a write |
| Calls.FilterUnloadCall | driver/minifilter.c:137-146 | The like for an unload |
| Calls.RegistryCall | driver/regcb.c:82-144 | The like for the four key changes, by class and number |
| Calls.ProcessStartCall | driver/procnotify.c:69-91 | The like for a process start, which asks for the window before it looks at the name |
| Calls.ProcessHandleCall | driver/obcallback.c:51-75 | Exactly which rights a handle to a protected process loses, when, and that each loss is one record |
| Calls.StatusReplyCall | driver/lockguard.c:373-387 | The reply carries the check's own answer and what the check left |
| Calls.LoadCall | driver/lockguard.c:216-253 | A load latches exactly when salt, count and a 32-byte verifier were read and fit; and what each part of a cut-off load leaves |
| Calls.ReloadCall | driver/lockguard.c:47-60 | A retry is made as soon as ten seconds have passed since the last, at passive level and with no verifier loaded, and otherwise nothing changes |
| Calls.DueRetryLoads | driver/lockguard.c:44-66 | When it is due and the registry holds a whole record, the driver then has that verifier |
| Calls.GetNonceIssues | driver/lockguard.c:274-301 | The nonce returned is the one installed, at the time sampled; a short buffer or failing random generator installs none |
| Calls.UnlockOutcome | driver/lockguard.c:303-363 | Each outcome of an unlock if and only if its condition; the nonce is spent whatever the outcome, each refusal is one record, and only success opens the window, for 600 s |
| Calls.WrongResponseRefused | driver/lockguard.c:353-356 | A right key that answers another nonce is refused as a mismatch and recorded, and leaves the window as it was |
| Calls.WrongKeyRefused | driver/lockguard.c:337-342 | A wrong key, or any with no verifier loaded, is refused as such and recorded, whatever it answers |
| Safety.GateInvHolds | driver/minifilter.c:65-146 | At every point of every run a gated request is at one of the gate's steps, and any outcome it carries is either passing or what a closed window prescribes |
| Window.WindowEffect | driver/lockguard.c:70-118 | Of all the steps of all handlers, only the entry section and the check section change the window |
| Window.OpenSinceLastEnter | driver/lockguard.c:88-90 | An open window was opened by an unlock, and nothing has closed it since |
| Window.WindowEndsAtLargestPromise | driver/lockguard.c:97-114 | On any clock, until something closes it, the window is open, every check answers TRUE, and the expiry is the largest of entry + 600 s and sample + 2 s over the checks since |
| Window.WindowEndOnOrderedClock | driver/lockguard.c:109-113 | With samples in order the expiry is the later of entry + 600 s and the last check + 2 s |
| Window.WindowOutlivesOriginal | driver/lockguard.h:50-51 | The window outlives its original ten minutes if and only if some check in it had a sample later than entry + 598 s |
| Window.ExtensionsAreShort | driver/lockguard.c:101-114 | Each extension adds more than 0 and less than 2 s, so k > 0 extensions end strictly between entry + 600 s and entry + 600 s + 2k s |
| Window.ClosedStaysClosed | driver/lockguard.c:98-100 | Once marked closed the window answers FALSE until the next entry, whatever the clock does |
| Window.LeaseHolds | driver/lockguard.c:101-113 | After a check that answered TRUE at n, the window stays open past n + 2 s while no check samples n + 2 s or later and no entry's sample is older than n - 598 s |
| Window.LeaseAgreement | driver/lockguard.h:45-52 | A check that answers FALSE after one that answered TRUE at n, at the unlocked read or under the lock, comes with or after a check that sampled n + 2 s or later |
| Window.EntryKeepsLease | driver/lockguard.c:74-79 | An entry inside a lease keeps it if and only if its sample is at most 598 s older than the lease's |
| Chaining.LeasesChain | driver/lockguard.c:97-113 | A window still open can be kept open past any time by status requests of one idle thread and nothing else, on a clock whose samples never go back |
| Chaining.OpenWindowReached | driver/lockguard.c:274-363 | For any key and nonce a run from boot through one nonce request and one unlock reaches an open window, its clock never going back |
| Chaining.LeaseIsNotBounded | driver/lockguard.h:50-51 | The claimed bound fails: after one unlock, on a forward clock and with only status requests (lockguard.c:373-387) since, the window is still open past any time |
| Unlocking.NonceEffect | driver/lockguard.c:291-323 | Of all the steps of all handlers, only an installation and a consumption change the nonce |
| Unlocking.PendingNonce | driver/lockguard.c:291-323 | A valid nonce is the latest installed and unspent, with its own issue time; when none is valid the buffer is all zeros |
| Unlocking.EveryEntryHasTrail | driver/lockguard.c:303-363 | Every opening of the window is the end of one request that took a nonce, was in time, found a verifier loaded, passed the key check and answered the nonce, in this order |
| Unlocking.EntriesSpendDistinctNonces | driver/lockguard.c:314-323 | Two entries spend two different nonce installations, each the latest before its consumption: an injective map from unlocks to installations |
| Unlocking.UndisturbedUnlockSucceeds | driver/lockguard.c:274-363 | A prompt client with the right key that answers the nonce installed at `g` succeeds when nothing installed or consumed a nonce between its two locked sections, whatever the nonces and the HMAC |
| Unlocking.UnlockSucceedsExactlyWhen | driver/lockguard.c:274-363 | It succeeds if and only if so, as long as its response answers none of the other nonces installed before it is judged |
| Unlocking.RightNonceUnlocks | driver/lockguard.c:325-362 | An unlock that took the nonce it answers, in time and with the right key, goes straight on to the open window whatever other threads do |
| Unlocking.WrongNonceFails | driver/lockguard.c:346-357 | An unlock that took a nonce it does not answer never opens the window |
| Unlocking.NoNonceFails | driver/lockguard.c:325-328 | An unlock that found no nonce is refused for that reason and recorded |
| Unlocking.ShortUnlockTouchesNothing | driver/lockguard.c:305-306 | A request that is too short is answered as such without changing any variable, the nonce included |
| Verdicts.UnlockVerdict | driver/lockguard.c:303-363 | In every interleaving, an unlock whose crypto calls work opens the window after passing all four tests with no record of its thread, or is refused with exactly one; it is refused for a reason if and only if what its own steps found gives that reason |
| Verifier.RetryCellGrows | driver/lockguard.c:54-58 | With positive clock samples the retry cell never goes back, and every winner moves it forward |
| Verifier.WinsAreApart | driver/lockguard.c:47-58 | Any two winning compare-and-swaps store times at least 10 s apart, in the order of the wins |
| Verifier.NoWinSinceRead | driver/lockguard.c:54-58 | No ABA: between a winner's read of the cell and its compare-and-swap nobody else won |
| Verifier.WinsSpread | driver/lockguard.c:55-58 | n wins with stamps in an interval reach at least 10 (n - 1) s into it |
| Verifier.RetryRateLimit | driver/lockguard.c:44-58 | At most floor(L / 10 s) + 1 retries carry stamps in any interval of length L |
| Verifier.DueRetryWins | driver/lockguard.c:54-60 | A thread whose sample is due when it reads the retry cell goes on to load if and only if no other thread wins before its swap; one whose sample is not due never does |
| Verifier.LatchHasTrail | driver/lockguard.c:216-253 | Every latch ends one call of one thread that won the retry, opened the key and read salt, iterations and a 32-byte verifier, in this order and with nothing else in between |
| Verifier.KeyCheckNeedsWholeLoad | driver/lockguard.c:255-270 | Every key check that passes, whatever becomes of the unlock afterwards, comes after such a load, at boot or on a retry, and was made against exactly the bytes that load read unless another load wrote the buffer since |
| Verifier.OpeningNeedsWholeLoad | driver/lockguard.c:337-359 | So it is for every unlock that opens the window |
| Verifier.LoadedBytesStay | driver/lockguard.c:242-248 | The bytes a load stored stay until another load stores some |
| Verifier.BootLoadIsWhole | driver/lockguard.c:216-253 | The boot load latches if and only if all three reads succeed with lengths that fit and a verifier of 32 bytes, and then holds that verifier |
| Verifier.LatchedVerifierIsFinal | driver/lockguard.c:49 | Loaded, and no thread past the gate on its way to a load: the verifier never changes again, whatever the registry holds |
| Verifier.BootLoadIsFinal | driver/lockguard.c:34-35 | A verifier loaded at boot is the one in force throughout the run |
| Verifier.OldKeyUntilReboot | cli/main.go:13-16 | After a load at boot, every unlock that opens the window carries a key for the verifier read at boot |
| Verifier.LatchFinalExactlyWhen | driver/lockguard.c:47-60 | A loaded verifier can still change if and only if some thread is past the gate and on its way to a load |
| Verifier.LatchCanStillChange | driver/lockguard.c:47-60 | For any verifier and any second value of at most 32 bytes, a run in which the first is loaded and latched and a thread held past the gate then writes the second over it: a replacement, or after a short read a mixture under the latch |
| Verifier.MixtureOpens | driver/lockguard.c:242-248 | A key whose HMAC is such a mixture opens the window, though no load read that verifier whole |
| Verifier.ReloadNow | driver/lockguard.c:52-60 | A thread past the gate can write any value of at most 32 bytes over the front of the verifier, loaded already or not |
| Tamper.TamperConservation | driver/lockguard.c:124-131 | The counter is the number of records modulo 2^32, and each record is exactly one refusal: a denial, a strip, a refused unload or a refused unlock, returned or about to be |
| Tamper.TamperAtRest | driver/lockguard.c:124-131 | With every thread idle the counter is the number of refusals returned, modulo 2^32 |
| Tamper.RecordEffect | driver/lockguard.c:325-357 | Only a recording step changes the counter, and it leads to returning a refusal, as nothing else does |
| Tamper.ReportedReply | driver/lockguard.c:373-387 | In every interleaving a status reply carries the answer of its own check and then expiry, count and heartbeat as it read them, in this order |
| Tamper.ReportedCount | driver/lockguard.c:373-387 | The count in it is the number of refusals recorded when that call read the counter |
| Tamper.StripSplits | driver/obcallback.c:64-72 | A strip splits the requested rights into disjoint granted and denied parts whose union is the request; the denied part is not empty and lies in the mask, the granted part outside it |
| DriverHandlers.CallIsItsSteps | driver/lockguard.c:274-387 | Every handler and callback, run alone, takes the small-step machine from its entry to exactly the state and outcome of the whole-call function |
| DriverHandlers.RunCall | driver/lockguard.c:274-387 | Any run with an idle thread goes on to one in which that thread has made any call, alone, with exactly the state and outcome of the whole-call function and every other thread where it was |
| DriverMachine.StaysWellFormed | driver/lockguard.c:31-40 | In every run the buffers keep their sizes and the counter stays a 32-bit number |
| DriverObject.ConstantTimeEqual | driver/lockguard.h:133-140 | The accumulating loop is true exactly on equal contents |
| DriverObject.Driver.IsPermissive | driver/lockguard.c:86-118 | The unlocked reject and the locked section together answer and leave exactly what the machine's check section does |
| DriverObject.Driver.ReadRegBytes | driver/lockguard.c:177-195 | Succeeds if and only if the value was read and fits; then it overwrites the front of the buffer, and otherwise leaves it alone |
| DriverObject.Driver.RecoveryLoadVerifier | driver/lockguard.c:216-253 | Leaves what the whole-load function gives, at whichever read it stops |
| DriverObject.Driver.RecoveryTryReload | driver/lockguard.c:47-66 | Leaves what the reload function gives: gate, interrupt level, rate limit, swap, load |
| DriverObject.Driver.HandleGetNonce | driver/lockguard.c:274-301 | State and outcome of a nonce request, reload included |
| DriverObject.Driver.RecoveryCheckKey | driver/lockguard.c:255-270 | Accepts if and only if a verifier is loaded, the HMAC call works and its result is the stored verifier |
| DriverObject.Driver.ConsumeNonce | driver/lockguard.c:314-323 | Takes the pending nonce once and leaves zeros |
| DriverObject.Driver.HandleUnlock | driver/lockguard.c:303-363 | State and outcome of an unlock request over the raw buffer: each refusal with its record, or the open window |
| DriverObject.Driver.HandleStatus | driver/lockguard.c:373-387 | Reports the answer of a check, which may close or extend the window, and the variables after it |
| DriverObject.Driver.PreCreate | driver/minifilter.c:65-87 | State and outcome of a file open |
| DriverObject.Driver.PreSetInformation | driver/minifilter.c:89-112 | State and outcome of a file change by information class |
| DriverObject.Driver.PreWrite | driver/minifilter.c:114-128 | State and outcome of a file write |
| DriverObject.Driver.UnloadGuard | driver/minifilter.c:137-146 | State and outcome of an unload of the filter |
| DriverObject.Driver.RegistryCallback | driver/regcb.c:82-144 | State and outcome of a registry notification |
| DriverObject.Driver.ProcessNotify | driver/procnotify.c:69-91 | State and outcome of a process start; the window is checked before the name |
| DriverObject.Driver.PreProcessHandle | driver/obcallback.c:51-75 | State and outcome of opening or duplicating a process handle, and the access mask it leaves |
| Names.PathMatches | driver/minifilter.c:26-63 | True exactly when the name resolved and some entry occurs in it as a contiguous case-insensitive substring; offsets are 16-bit and no read leaves the name |
| Names.KeyNameMatchesAny | driver/regcb.c:35-53 | True exactly when the name resolved and some entry is a case-insensitive prefix of it |
| Names.BaseInTable | driver/procnotify.c:45-67 | The backward walk and the table scan are true exactly when the base name equals an entry, length included |
| Names.BasenameIsTheSuffix | driver/obcallback.c:30-33 | The base name is the suffix that holds no separator and starts the path or follows one |
| Names.ContainsMeans | driver/minifilter.c:42-56 | Searching without case is exact substring search among folded names |
| Names.StartsMeans | driver/regcb.c:43-50 | The key search is an exact prefix test of the folded name |
| Names.BaseMeans | driver/procnotify.c:57-67 | The image search compares exactly the folded part after the last separator |
| Names.CaseDoesNotMatter | driver/minifilter.c:53 | Names equal in folded form get the same answer |
| MaskPrefix.PrefixLength | driver/wfp.c:109-116 | For every 16-byte mask the nested loops end with the number of leading one bits, 0 to 128 |
| MaskPrefix.TopBit | driver/wfp.c:113 | After k left shifts the top bit of a byte is its bit k, and after eight nothing is left |
| MaskPrefix.MaskTestIsPrefixTest | driver/wfp.c:97-116 | For a contiguous mask and a network inside it, "address AND mask = network" is "the first prefix bits agree", for every address |
| WfpPolicy.PolicyMeansAllowed | driver/wfp.c:191-211 | For all layers, addresses and ports, and whatever order the filters are held in, traffic is permitted if and only if the interval specification allows it |
| WfpPolicy.UdpOnlyExactlyWhen | driver/wfp.c:131-160 | The comment's promise, discovery over UDP only, is kept for a packet if and only if it is not another protocol to one of the discovery pairs |
| WfpPolicy.TcpToDiscoveryPasses | driver/wfp.c:131-160 | TCP to 224.0.0.251:5353 is let through, against that promise |
| WfpPolicy.V4LanMeans | driver/wfp.c:67-91 | Some IPv4 range filter matches exactly the three ranges of section 3 of RFC 1918 and 169.254/16 |
| WfpPolicy.V6LanMeans | driver/wfp.c:95-129 | Some IPv6 range filter matches exactly fe80::/10 (section 2.4 of RFC 4291) and fc00::/7 (section 3.1 of RFC 4193) |
| WfpPolicy.DiscoveryMeans | driver/wfp.c:133-160 | Some multicast filter matches exactly the two address-and-port pairs |
| WfpPolicy.V6PrefixesAreLeadingOnes | driver/wfp.c:97-116 | The masks of the two IPv6 ranges have 10 and 7 leading ones |
| WfpPolicy.PolicyMembers | driver/wfp.c:191-211 | What is installed is the permits of the four builders and one denial for each of the six layers, nothing else |
| WfpPolicy.PermitsMean | driver/wfp.c:67-160 | The permits of each layer together match exactly its allowed traffic; bind has none |
| WfpPolicy.Best | driver/wfp.c:191-192 | The arbitration: a matching filter no matching filter outweighs, and none only if none matches |
| WfpEngine.Wfp.AddFilter | driver/wfp.c:33-64 | Appends the filter to the session and its id to the table, or changes neither; it succeeds if and only if the table has room and the engine call works |
| WfpEngine.Wfp.InstallV4LanPermit | driver/wfp.c:67-91 | On success the session has gained exactly the four IPv4 permits, in order |
| WfpEngine.Wfp.InstallV6LanPermit | driver/wfp.c:95-129 | On success the session has gained exactly the two IPv6 permits, with prefix lengths found by the bit loop |
| WfpEngine.Wfp.InstallMulticastDiscovery | driver/wfp.c:133-160 | On success the session has gained exactly the two discovery permits |
| WfpEngine.Wfp.InstallDefaultDeny | driver/wfp.c:163-167 | On success the session has gained the denial of that layer |
| WfpEngine.Wfp.InstallDenials | driver/wfp.c:203-211 | On success the session has gained exactly the six denials |
| WfpEngine.Wfp.Initialize | driver/wfp.c:169-221 | On success the recorded ids are distinct and exactly the session's filters, which are the policy and let through exactly the allowed traffic; it succeeds when no call fails, the table has room and the sublayer is new. On failure, dynamic session or not, the machine's filters and sublayers are those before it, and unless the abort itself has failed the close finds the session back at the snapshot with no transaction open |
| WfpEngine.Wfp.Finalize | driver/wfp.c:223-235 | When no call fails and all filters of the session are recorded, deleting the recorded ids and then the sublayer has emptied the session before it is closed, so that dynamic or not the machine is left with what is not the session's; a dynamic session comes to the same whatever fails |
| WfpEngine.Wfp.UpAndDown | driver/lockguard.c:462-491 | Bringing the filters up, or failing to, and down again leaves the machine's filters and sublayers as they were, in any session when no call fails and in a dynamic one always |
| WfpEngine.PolicyFits | driver/wfp.c:19-23 | The policy has 20 filters, which fit the table of 64, of weights 0xF000 and 0x100, so that every permit outweighs every denial |
| Wlan.SsidIdentifies | watchdog/wlan_windows.go:77-93 | A name has a stored form if and only if it is at most 32 bytes, and that form answers to that name and no other |
| Wlan.SsidEqualsMeans | watchdog/wlan_windows.go:88-93 | Any stored SSID, well formed or not, answers to a name exactly when it has its length, at most 32, and its bytes |
| Wlan.PackedLayout | watchdog/wlan_windows.go:183-193 | By offset and place value: the count in bytes 0 to 3, zeros in 4 to 7, and of entry i the length at 8 + 40 i, the SSID at 12 + 40 i and the type at 44 + 40 i, least significant byte first |
| Wlan.UnpackedLayout | watchdog/wlan_windows.go:166-176 | What is read from any buffer long enough for its count is what lies at those places |
| Wlan.GoodMeans | watchdog/wlan_windows.go:233-242 | The check of an interface: the name permitted as type 1, and something denied |
| Wlan.TargetMeans | watchdog/wlan_windows.go:270-276 | The repair of one: the name permitted as type 1, the empty SSID denied as types 1 and 2 |
| Wlan.EntryAt | watchdog/wlan_windows.go:188-193 | Entry i of a packed list lies at 8 + 40 i, inside the buffer |
| Wlan.PackUnpack | watchdog/wlan_windows.go:149-206 | Unpacking a packed list gives it back if and only if its count fits the 32-bit field, and otherwise gives back the part the count reaches |
| Wlan.Pack | watchdog/wlan_windows.go:180-194 | The loop over a fresh buffer of 8 + 40 n bytes fills it with the packed list, every access inside it |
| Wlan.Unpack | watchdog/wlan_windows.go:166-177 | The loop over any well-sized buffer reads the list it holds |
| Wlan.SetFilter | watchdog/wlan_windows.go:180-206 | The list given is the list the service then holds, or on an error nothing changes |
| Wlan.GetFilter | watchdog/wlan_windows.go:149-178 | The list returned is the one the service holds |
| Wlan.FiltersOK | watchdog/wlan_windows.go:208-245 | It reports an error only of a failed last call, and without one is true exactly when every interface permits the name as infrastructure and denies something |
| Wlan.ApplyFilters | watchdog/wlan_windows.go:251-288 | On success every interface holds the target lists; on an error at interface i all before it do, i may have its permit list set, and all others are untouched; a name over 32 bytes changes nothing |
| Wlan.RepairedAt | watchdog/wlan_windows.go:278-286 | The repair sets the listed interfaces, repeated ones included, and no other |
| Wlan.RepairedIsGood | watchdog/wlan_windows.go:208-288 | Apply establishes check: repaired lists pass for every interface and every name of at most 32 bytes |
| Wlan.RepairIsIdempotent | watchdog/wlan_windows.go:251-288 | A second apply changes nothing |
| Wlan.EnsureWlanFilter | watchdog/enforce_windows.go:172-190 | One pass without an error makes the check true, and a pass over good lists or with no configured name writes nothing; with no failing call it leaves every interface denying all networks if and only if the check failed before it or all were denied already |
| Wlan.ForeignDenyPasses | watchdog/wlan_windows.go:240-242 | Denying one foreign network, and not all, passes the check |
| SelfHeal.FileHash | watchdog/enforce_windows.go:254-265 | The hash of the whole file if and only if it exists and reads without an error |
| SelfHeal.CopyFile | watchdog/enforce_windows.go:267-283 | Copies the whole file, or leaves the target as it was or with a front part of the source; a file copied onto itself ends up empty |
| SelfHeal.AtomicReplace | watchdog/enforce_windows.go:286-292 | Wherever it fails or crashes the target is wholly old or wholly new, and only target and stage are touched |
| SelfHeal.RepairPair | watchdog/enforce_windows.go:233-247 | Reports fine only if the pair is settled or its backup could not be read, and an error only of a needed repair whose last operation failed; settles its pair when nothing fails, and writes nothing when it is settled and nothing fails; never touches the backup; a primary that exists and that it could read is wholly old or wholly the backup wherever it fails or crashes |
| SelfHeal.UnreadPrimaryIsEmptied | watchdog/enforce_windows.go:237-241 | An intact primary whose read fails is copied over in place, and a crash then leaves it empty |
| SelfHeal.EnsureFileIntegrity | watchdog/enforce_windows.go:226-250 | Fine if and only if it got through all pairs, each then settled or with a backup that could not be read; otherwise one pair needed a repair that failed or crashed, those before it are as just said and those after it untouched. An uninterrupted pass without failures settles every pair, and over settled pairs writes nothing; cut off anywhere it touches no backup, leaves each primary that exists and that it could read wholly old or wholly the backup, and any other old or a front part of the backup |
| SelfHeal.EnforceThroughCrashes | watchdog/enforce_windows.go:73-93 | After any number of passes cut off anywhere, one clean pass settles every pair, with every backup as it was at the start |
| SelfHeal.SettledMeansEqual | watchdog/enforce_windows.go:242-244 | With an injective hash a settled primary is its backup byte for byte |
| SelfHeal.SourcePairsSeparate | watchdog/enforce_windows.go:226-231 | The two pairs of the source do not write where the other reads or writes, as the theorems above ask |
| Wire.CtlCodeInvertible | watchdog/ioctl_windows.go:23-25 | On its field widths a control code gives all four fields back |
| Wire.DispatchExactly | driver/lockguard.c:400-412 | A code selects a handler if and only if its fields are that handler's: each client code selects its intended handler and no other code does |
| Wire.UnusedConstantsMatchNothing | watchdog/ioctl_windows.go:16-20 | The constants said to match the header overflow 32 bits, and cut to 32 select no handler |
| Wire.UnlockBuffer | cli/main.go:394-404 | The request the client builds is read by the driver as the response and key it was given; other lengths are refused |
| Wire.RequestLayout | driver/lockguard.h:65-68 | The driver takes the response from bytes 0 to 31 and the key from 32 to 63 of any request |
| Wire.Le32RoundTrip | watchdog/ioctl_windows.go:97-99 | Every 32-bit field is read back |
| Wire.Le64RoundTrip | watchdog/ioctl_windows.go:101-105 | Every 64-bit field is read back, negative values included |
| Wire.StatusRoundTrip | watchdog/ioctl_windows.go:73-95 | The client reads back every field of the naturally aligned record, whatever the padding and the rest of its buffer hold |
| Wire.RecordLayout | driver/lockguard.h:70-76 | By offset: version at 0, flag at 4, expiry at 8, count at 16, heartbeat at 24, least significant byte first |
| Wire.ReadLayout | watchdog/ioctl_windows.go:89-93 | The client reads those fields at those offsets |
| Client.Exchange | cli/main.go:111-124 | Nonce and answer: opens the window if and only if both device calls reach the driver, it issues a nonce, the answer comes within 60 s and the driver's verifier is the one the client checked against; which of the two calls is reported as failed otherwise |
| Client.Recover | cli/main.go:79-129 | Which exit is taken: registry, prompt, wrong password, device, nonce call, unlock call or the driver's answer; exactly when recovery opens the window, until when, and that it changes nothing of the window otherwise; and exactly when the client reports success, which includes a nonce gone stale |
| Client.StorePassword | cli/main.go:228-242 | The three gated writes: exactly those before the first that the callback refuses, by the window as the writes themselves keep it, or that fails; none if the key cannot be opened; the driver's loaded verifier is changed in no case |
| Client.TornRecordAccepts | cli/main.go:234-242 | A store that failed past its first write leaves a record that accepts exactly the passwords whose key under the new salt has the old verifier: neither the old nor the new one, unless two derivations come to one verifier |
| Client.ChangeThenRecover | cli/main.go:228-248 | After a stored change, against a driver with a loaded verifier: the client accepts only passwords for the new record, and recovery opens the window if and only if it does accept, nothing fails, it is in time, and the new verifier equals the one the driver had loaded; after a torn one the client refuses all but the passwords above |

## Left out

- Client.Recover: runs its two driver calls with no other thread in between; Unlocking.UnlockSucceedsExactlyWhen is the statement over interleavings.
- Client.ChangeThenRecover: starts at the registry writes; the password check and the unlock before them are those of Client.Recover.
- Wlan.FiltersOK: takes the service's lists to have fewer than 2^32 entries, as their 32-bit counts make them.
- Verifier.RetryRateLimit: takes positive clock samples, since a stored zero means "never tried"; KeQuerySystemTime counts from 1601.
- Times are unbounded integers; overflow of the 64-bit clock arithmetic, tens of thousands of years away, is not modelled.
- Each registry value read into a buffer, and each copy under a lock, is one step; a reader that sees half of such a copy is not modelled.
- Threads see each other's plain writes in the order of the steps; weaker memory orders are not modelled.
- The registration of callbacks and devices, request completion, the rollback in DriverEntry, and the erasing of key material after use.
- How names are found: a resolved name or a failed lookup is an input. Names are the even byte lengths a valid UNICODE_STRING has, and an embedded NUL, at which `_wcsnicmp` stops, is compared like any other character.
- The folding tables of RtlEqualUnicodeString and `_wcsnicmp`: any function on characters.
- The internals of SHA-256, HMAC, PBKDF2 and the random generator; nothing is said about secrecy or timing.
- The action passed to LgAddFilter is two-valued, not the 8-bit parameter the engine's constants are cut to; the second table-bound check in it cannot fire and is not written.
- The filtering engine decides by the filters of this driver's sublayer alone; other sublayers may block more.
- What the watchdog does with driver, boot configuration, WDAC, image-file options and audio devices: process launching and text scraping.
- What the watchdog's heartbeat is used for, and the enforcement loop's ticker: passes are any sequence.
- Windows compares file names without case; `SelfHeal` compares paths as they are spelt.
- The two times in a status reply are integers in the driver model and 64-bit patterns in `Wire`; the conversion between them is not modelled.
- The service control manager, flags, password prompts, the password strength check, configuration files and all PowerShell, XML and INF files.
- The features WhiteList.md plans, for which there is no code.
