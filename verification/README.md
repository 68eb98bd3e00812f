# strfry-namecoin-policy: a verified model

A Dafny 4.11 model of the state machines and codecs inside the strfry write-policy plugin that ties
relay authors to Namecoin names. `dafny verify dfyconfig.toml` checks everything.

| file | models |
|---|---|
| `Circuit.dfy` | the circuit breaker over ElectrumX hosts (`src/circuit.js`) |
| `Failover.dfy` | the retry loop of `nameShow` over the breaker (`src/electrumx.js`) |
| `OrderedMap.dfy`, `LruStore.dfy` | a JavaScript `Map` in insertion order; the store both LRU caches keep |
| `LruCache.dfy` | the in-memory LRU cache (`src/cache.js`) |
| `PersistentCache.dfy` | the LRU cache over an append log (`src/persistent-cache.js`, JSONL backend) |
| `RulesParser.dfy`, `RulesPick.dfy`, `RulesValidator.dfy`, `RulesLoader.dfy` | NIP-9B rules documents: parsing, picking, judging, and the anti-rollback loader (`src/nip9a-*.js`) |
| `RateLimit.dfy` | the token bucket (`src/ratelimit.js`) |
| `NameScript.dfy`, `NameSelection.dfy` | script pushes and name scripts; from a history to the current row (`src/electrumx.js`) |
| `Multiplexer.dfy` | JSON-RPC over one pooled connection (`src/electrumx.js`) |
| `Socks5.dfy` | the SOCKS5 handshake (`src/socks5.js`; RFC 1928) |
| `Identifier.dfy`, `Resolver.dfy` | identifier parsing and the caching resolver (`src/resolver.js`) |
| `PolicyHandler.dfy` | the write-policy handler (`src/index.js`) |
| `EndToEnd.dfy` | the handler and the resolver together |

Each component comes in layers. Functions on a value say what one operation does. Where the source
updates an object, a class with the source's fields does the same in place, loop by loop, and is proved
equal to the function. What each function means is stated apart from it, over the raw fields it works on
(the lemmas named `...Meaning`, `...Exactly` and `...Iff`, and others beside them). Lemmas about the
functions then say what holds of every run: any interleaving of operations, any clock readings, any
contents, unless a clause says otherwise. The clock, the network, sleeping, JSON and number parsing, and
the transaction fetcher are parameters.

## Where the code and its documentation differ

The model follows the code.

- `README.md:114-119` says hosts are tried in list order and open after a failure threshold. The code
  goes round-robin and opens a host on its first failure (`Circuit.RoundRobin`, `Circuit.ExactBackoff`).
- The failover of `README.md:109-119` works for a call that has the breaker to itself
  (`Failover.FailoverSucceeds`). The plugin handles events concurrently (`src/index.js:157`), and calls
  that overlap move each other's cursor and reset each other's failures: with two healthy hosts a call may
  be handed the one that breaks for it at every attempt, whatever the number of retries
  (`Failover.OverlapMayExhaust`). `Failover.OverlappingCallSucceeds` says what is enough for it among any
  other calls.
- `README.md:120-123` says a definitive error records no host failure. It records no success either
  (`src/electrumx.js:234-236`), although the host has answered; when it was a probe, the host keeps its one
  probe slot taken and is handed out to nobody as long as some other host stays healthy
  (`Failover.DefinitiveLosesProbe`, `Failover.LostForever`).
- `src/nip9a-parser.js:126-128` says a ratchet forbids older documents even once its own document is
  dropped. The loader keeps one document per key, so a ratchet above its own document's timestamp is lost
  with it (`RulesLoader.RatchetLostWithItsDocument`); `RulesLoader.PrunedEqualsNaiveIff` says exactly when
  that makes a difference.
- `src/nip9a-loader.js:137-139` and `README.md:325-327` say rules events are offered after the author
  gate. The handler offers them before it (`src/index.js:232-240`), and so does the model.
- `src/electrumx.js:804-805` says junk on a name's script hash cannot censor it. The walk stops after 32
  entries: `NameSelection.HiddenIff` says exactly when others hide a name, and those of its own height
  that the history lists earlier count as much as newer ones.
- `src/persistent-cache.js:271-273` says the next compaction writes the trimmed view. A compaction inside
  `set` comes before that call's eviction and writes up to `max + 1` records; the bound in
  `PersistentCache.LogStaysSmall` allows for it.
- `src/persistent-cache.js:21-23` says the log is compacted when it grows beyond `compactEveryWrites`
  mutations, and `README.md:444-445` speaks of periodic compaction. Opening the file sets the count of
  writes back to zero and compacts nothing (`src/persistent-cache.js:134-162`), so a process restarted
  before that many writes lets the file grow without bound (`PersistentCache.RestartsGrowTheLog`);
  `PersistentCache.LogStaysSmall` says by how much at most for each restart.
- Evicted keys stay in the log and reads are not logged, so a restart may drop a live entry in favour of
  an evicted one (`PersistentCache.ReopenMayLoseALiveEntry`); `PersistentCache.LiveEntryReopensIff` says
  exactly when an entry comes back.
- The resolver's cache key joins name and local part with `|`, which both may contain. Without a bar in
  either, a question has its key to itself (`Resolver.NoBarOwnKey`); with one it shares its key exactly when
  reading the key at another bar gives a question that some identifier asks (`Resolver.KeySharedIff`), and
  exactly then it may be given that question's answer (`Resolver.OwnAnswersIff`).
- A line holding JSON null makes the data handler throw (`src/electrumx.js:500`), which nothing catches:
  `Multiplexer.ProcessedIff` says exactly which streams end the process.
- `src/socks5.js:124-126` re-emits the bytes beyond the SOCKS5 reply so that they are not lost. They are
  not, but what arrives in the same turn of the event loop overtakes them: `Socks5.TunnelBytesExactIff`
  says exactly when the order is kept.
- `src/ratelimit.js:29` allows a burst below 1; such a bucket never grants anything
  (`RateLimit.NoGrantBelowOneToken`).

## Model

| member | source | states |
|---|---|---|
| Circuit.HostBreaker.constructor | src/circuit.js:29-45 | every host starts closed, with the initial cooldown and no failures, and the cursor at the first |
| Circuit.HostBreaker.ThawExpired | src/circuit.js:55-65 | open hosts past their cooldown, and only those, become half-open with a free probe slot |
| Circuit.HostBreaker.PickNext | src/circuit.js:54-87 | the two loops hand out and leave behind what the specification says |
| Circuit.HostBreaker.RecordSuccess | src/circuit.js:89-100 | resets exactly the host named; an index out of range changes nothing |
| Circuit.HostBreaker.RecordFailure | src/circuit.js:102-117 | opens exactly the host named, from the first failure on; doubles the cooldown only after a failed probe |
| Circuit.AllOpenIffNoneAvailable | src/circuit.js:67-87 | a pick is forced exactly when no host is closed, free for a probe, or past its cooldown |
| Circuit.PickMeaning | src/circuit.js:54-87 | host by host, what a pick does: the available host nearest to the cursor, its probe slot taken if it is recovering; the cursor's own host by force, with no record touched, when none is available; other hosts past their cooldown thawed; the cursor one place on |
| Circuit.FailureRests | src/circuit.js:102-117 | a failed host rests for exactly its cooldown; other hosts and the cursor are left alone |
| Circuit.SuccessHeals | src/circuit.js:89-100 | a host that succeeded is as new; nothing else changes |
| Circuit.PickApproaches | src/circuit.js:66-87 | a pick hands out an available host or comes strictly closer to it, and it then stays available whatever the clock does |
| Circuit.NonStarvation | src/circuit.js:54-117 | in any interleaving and with any clock, a host available at the first pick and without a recorded failure is handed out unforced within its distance from the cursor |
| Circuit.NonStarvationWithinN | src/circuit.js:54-117 | any N picks hand out such a host |
| Circuit.ProbeHeld | src/circuit.js:69-80 | a host whose probe is in flight is not handed out unforced until a record of it |
| Circuit.SingleProbe | src/circuit.js:5-11 | a recovering host, once handed out, is not handed out unforced again before a success or failure of it is recorded |
| Circuit.LostStaysLost | src/circuit.js:66-87 | a host whose probe is never recorded is not handed out again, forced or not, as long as some other host stays healthy |
| Circuit.RoundRobin | src/circuit.js:66-80 | while all hosts are healthy, N picks hand out each once, in list order from the cursor |
| Circuit.ForcedRound | src/circuit.js:13-16 | forced probes go round: with no host available at any of the picks, N of them probe each host once, in list order from the cursor, and change no record |
| Circuit.TallyKept | src/circuit.js:89-117 | what a run's records say of a host is kept in its state by every operation |
| Circuit.ExactBackoff | src/circuit.js:102-117 | in every reachable state: cooldown = min(30000 * 2^p, 300000) for p failed probes since the last success; closed iff no failure since; an in-flight flag means half-open |
| Failover.ElectrumXClient.NameShow | src/electrumx.js:200-242 | the loop ends and leaves the breaker as the attempts specification says, whatever other calls do to the breaker during its queries and sleeps; names of bad length touch no host |
| Failover.OneRecordPerAttempt | src/electrumx.js:219-237 | among any other calls, the breaker hears of each attempt once, in order: a failure of the picked host for each broken reply, a success for an answer, nothing for a definitive error; each host is handed out by the breaker as it then stands, and the last reply decides how the call ends |
| Failover.ExhaustedIffAllBroke | src/electrumx.js:219-241 | among any other calls, the retries are exhausted exactly when all were made and every one broke |
| Failover.FailoverSucceeds | src/electrumx.js:219-241 | for a call with the breaker to itself: with a host available at the first attempt that never breaks, and attempts enough to reach it, the retries are never exhausted, whatever the other hosts and the clock do |
| Failover.EnoughRetries | src/electrumx.js:215-241 | for such a call retries >= N - 1 is enough from any cursor |
| Failover.FewerRetriesExhaust | src/electrumx.js:215-241 | with N - 2 retries a healthy last host may never be reached, even by such a call |
| Failover.OverlappingCallSucceeds | src/electrumx.js:219-241 | among any other calls, N attempts reach a host that is available at each of them and never breaks, unless a host this call was handed before becomes available again |
| Failover.OverlapMayExhaust | src/electrumx.js:219-241 | without that, for any number of retries: a run with two healthy hosts in which the call is only ever handed the one that breaks for it, while other calls succeed at both |
| Failover.DefinitiveLosesProbe | src/electrumx.js:234-236 | a definitive error at a recovering host leaves its probe slot taken |
| Failover.LostForever | src/electrumx.js:219-241 | through any number of calls after that, the host is handed out to nobody as long as some other host stays healthy |
| OrderedMap.PutLast | src/cache.js:31-33 | deleting a key and setting it again moves it to the end and keeps the order of the rest |
| OrderedMap.PutKeepsOrder | src/persistent-cache.js:151 | setting a key that is there keeps its place; a new one goes last |
| OrderedMap.RemoveKeepsOrder | src/cache.js:53-55 | deleting a key keeps the order of the others |
| LruStore.GetHolds | src/cache.js:24-35 | a read adds and changes no entry |
| LruStore.SetHolds | src/cache.js:41-51 | after a write, what is held is the new entry or one held before, unchanged |
| LruCache.LRUCache.Get | src/cache.js:24-35 | returns the live value and moves it last, or drops an expired entry |
| LruCache.LRUCache.Set | src/cache.js:41-51 | the new entry is last with its own expiry, then the oldest are evicted |
| LruCache.LRUCache.EvictOldest | src/cache.js:46-49 | the newest `max` entries remain |
| LruCache.LRUCache.Delete | src/cache.js:53-55 | removes the key and says whether it was there |
| LruCache.LRUCache.Clear | src/cache.js:57-59 | leaves nothing |
| LruCache.Inclusion | src/cache.js:24-59 | on any trace, the smaller cache's entries are at every point a recency-order subsequence of the larger one's |
| LruCache.BiggerNeverMisses | src/cache.js:24-59 | what a smaller cache answers, a larger one answers with the same value |
| LruCache.RecentlyUsedStays | src/cache.js:31-49 | an entry is never evicted while fewer than `max` other keys have been used since it was |
| LruCache.WrittenStays | src/cache.js:41-51 | the same from a fresh write |
| LruCache.ReadStays | src/cache.js:31-34 | the same from a read that hits |
| LruCache.WrittenIsRead | src/cache.js:24-51 | what a read answers after a write and fewer than `max` other keys: the value, exactly until its own or the cache's time to live has passed |
| LruCache.DeletedIsMissed | src/cache.js:53-59 | a key deleted or cleared away is not answered |
| LruCache.EvictionKeepsIff | src/cache.js:46-49 | eviction keeps exactly the entries with fewer than `max` others behind them |
| PersistentCache.PersistentLRU.constructor | src/persistent-cache.js:56-86 | opens on the replay of the file, trimmed to `max` |
| PersistentCache.PersistentLRU.InitJsonl | src/persistent-cache.js:134-162 | the replay loop |
| PersistentCache.PersistentLRU.AppendJsonl | src/persistent-cache.js:164-173 | one record more, and a compaction when it is due |
| PersistentCache.PersistentLRU.CompactJsonl | src/persistent-cache.js:175-192 | the file becomes the live store's records in recency order |
| PersistentCache.PersistentLRU.EvictIfNeeded | src/persistent-cache.js:268-279 | drops the oldest from the store, never from the file |
| PersistentCache.PersistentLRU.Get | src/persistent-cache.js:195-213 | an expired entry is deleted and logged, a live one moves last and is not |
| PersistentCache.PersistentLRU.Set | src/persistent-cache.js:217-229 | store, log, compaction and eviction in the source's order |
| PersistentCache.PersistentLRU.Delete | src/persistent-cache.js:249-257 | logged whether or not the key was there |
| PersistentCache.PersistentLRU.Clear | src/persistent-cache.js:259-266 | one record empties the store |
| PersistentCache.ReplayIsLastUnexpiredWrite | src/persistent-cache.js:134-158 | replay with expiry equals, key by key, what the file last says, less what has expired |
| PersistentCache.SnapshotSaysStore | src/persistent-cache.js:175-192 | a compacted file says exactly what the store says |
| PersistentCache.CompactionRoundTrip | src/persistent-cache.js:134-192 | reopening after a compaction rebuilds the unexpired entries in the same recency order |
| PersistentCache.NothingStale | src/persistent-cache.js:134-192 | with nothing expired that is the whole store |
| PersistentCache.MomentsCovered | src/persistent-cache.js:134-279 | after every append, rename and eviction the file still says of each live key what the store says |
| PersistentCache.RunCovered | src/persistent-cache.js:134-279 | the same after any run |
| PersistentCache.CrashSafe | src/persistent-cache.js:134-279 | stop any run at any moment of any operation: a replay at any later time yields every unexpired live entry with its value and expiry |
| PersistentCache.ReplayNeverResurrects | src/persistent-cache.js:134-279 | what a replay yields for a key is the last value written to it, never one since overwritten, deleted or cleared |
| PersistentCache.CrashNeverResurrects | src/persistent-cache.js:134-279 | the same at any moment of the next operation, on either side of a compaction's rename |
| PersistentCache.RunAsInMemory | src/persistent-cache.js:6-8 | until it is reopened the persistent cache holds just what the in-memory one would, in the same order |
| PersistentCache.LastWord | src/persistent-cache.js:164-266 | at each moment of an operation the file's last word on its key is what the operation says: value and expiry set, or nothing after a delete, a clear or an expired read |
| PersistentCache.CompactionBeforeEviction | src/persistent-cache.js:217-229 | a compaction inside a write of a new key leaves one record more than the store held, the evicted entry's among them |
| PersistentCache.ReplayOrder | src/persistent-cache.js:134-158 | of two keys a replay yields, the one first set since it was last deleted, cleared or set already expired comes first, whatever was rewritten later |
| PersistentCache.LogStaysSmall | src/persistent-cache.js:134-192 | from a compaction on, restarts included, the log holds at most max + 1 records, one for each write since, and compactEveryWrites - 1 for each restart since the last compaction |
| PersistentCache.LogFromAnyFile | src/persistent-cache.js:134-192 | the same from any file opened, with its own records in place of a compaction's |
| PersistentCache.RestartsGrowTheLog | src/persistent-cache.js:134-173 | n lives of m < compactEveryWrites writes each leave the file with n * m records more and never compacted: the bound is attained |
| PersistentCache.ReopenKeepsAll | src/persistent-cache.js:134-162 | a file that replays to at most `max` entries is reopened without loss |
| PersistentCache.LiveEntryReopensIff | src/persistent-cache.js:134-162 | an unexpired live entry comes back exactly when the file set fewer than `max` other keys, for the first time in their present life, after it |
| PersistentCache.ReopenMayLoseALiveEntry | src/persistent-cache.js:268-279 | a family of runs whose restart loses a live entry and brings back an evicted one |
| RulesParser.ParseRulesEvent | src/nip9a-parser.js:42-120 | the single pass yields, for each field, what the last saying tag, or all of them in order, say; nothing without a `d` tag |
| RulesParser.Absorb | src/nip9a-parser.js:54-101 | the switch on one tag's name |
| RulesParser.CarriesIff | src/nip9a-parser.js:42-120 | an event carries a document exactly when it is of kind 34551 and some `d` tag names one |
| RulesParser.TagChangesFields | src/nip9a-parser.js:25-101 | what one more tag does to the fields, over its raw fields: which tags count, which add up, which argument goes where, and which tags are ignored |
| RulesPick.PickActiveRules | src/nip9a-parser.js:133-147 | both loops compute the floor and the pick |
| RulesPick.FloorMeaning | src/nip9a-parser.js:135-140 | the floor is the least number from 0 up that no ratchet exceeds |
| RulesPick.PickMeaning | src/nip9a-parser.js:122-147 | the pick is as late as any candidate and clears every ratchet; none exactly when all are below the floor |
| RulesPick.PickIsFirst | src/nip9a-parser.js:141-146 | among candidates of the latest timestamp the first is picked |
| RulesValidator.PolicyFor | src/nip9a-validator.js:39-47 | deny iff some rule denies; allow iff some rule allows and none denies |
| RulesValidator.RuleForKind | src/nip9a-validator.js:49-54 | the first rule for the kind, if any |
| RulesValidator.Validate | src/nip9a-validator.js:68-143 | the first gate that fails, in order |
| RulesValidator.VerdictMeaning | src/nip9a-validator.js:68-143 | the verdict is the first gate that fails, each gate stated over the document's own fields, and none exactly when none fails |
| RulesValidator.DenyWinsInAnyOrder | src/nip9a-validator.js:31-47 | the order of the `p` tags does not matter, and a deny outweighs any allows |
| RulesValidator.TagChangesVerdict | src/nip9a-validator.js:80-143 | what one more `p` tag anywhere does to any verdict: nothing for another author; a deny denies unless the rules are stale; an allow lifts a failed web-of-trust gate and nothing else |
| RulesValidator.SmallerIsNoWorse | src/nip9a-validator.js:93-111 | an accepted event stays accepted at any smaller size, and a verdict not about size stays the same |
| RulesLoader.Nip9aLoader.constructor | src/nip9a-loader.js:45-66 | nothing known, nothing active |
| RulesLoader.Nip9aLoader.Offer | src/nip9a-loader.js:145-184 | accepts exactly the events that carry a document of the pinned owner, `d` tag and community, not older than another held for its key, and recomputes the active one |
| RulesLoader.Nip9aLoader.Active | src/nip9a-loader.js:190-192 | the cached pick |
| RulesLoader.OfferMeaning | src/nip9a-loader.js:145-184 | which events are taken, over the parsed fields and the document held; one not taken changes nothing, one taken replaces the document of its pubkey and `d` tag and no other |
| RulesLoader.OnlyTheOwner | src/nip9a-loader.js:153-168 | under a pin, in every run every document held or active has the owner's pubkey and the pinned `d` tag and no community but the pinned one |
| RulesLoader.RunKept | src/nip9a-loader.js:170-179 | per key, the loader holds a document as late as any ever offered, and only offered ones |
| RulesLoader.ActiveIsLatestEverOffered | src/nip9a-loader.js:170-179 | the active document is at least as late as every acceptable one ever offered |
| RulesLoader.ActiveWasOffered | src/nip9a-loader.js:170-179 | and is one of them |
| RulesLoader.AntiRollback | src/nip9a-loader.js:145-184 | once a document has been active, none created earlier is ever active again, even across stretches with none |
| RulesLoader.ActiveNeverStale | src/nip9a-validator.js:71-78 | the active document never makes the validator report stale rules |
| RulesLoader.PrunedAgreesIff | src/nip9a-loader.js:145-184 | keeping one document per key picks one of the same timestamp as keeping all would, or none as it would, exactly when no deciding ratchet was dropped; timestamps may coincide |
| RulesLoader.PrunedEqualsNaiveIff | src/nip9a-loader.js:145-184 | and the very same document, when only one is at the latest timestamp |
| RulesLoader.PrunedEqualsNaive | src/nip9a-loader.js:145-184 | so always when each ratchet is at or below its own document's timestamp, in any order and with repeats |
| RulesLoader.RatchetLostWithItsDocument | src/nip9a-parser.js:126-128 | two offers after which a document below an earlier ratchet is active |
| RateLimit.TokenBucket.constructor | src/ratelimit.js:25-35 | starts full |
| RateLimit.TokenBucket.Refill | src/ratelimit.js:38-47 | gains rps per second up to the burst; a clock step back changes nothing |
| RateLimit.TokenBucket.TryAcquire | src/ratelimit.js:53-60 | takes a token exactly when one is there |
| RateLimit.TokenBucket.TimeToWait | src/ratelimit.js:81-88 | until the next whole token, capped by the time remaining, at least 5 ms |
| RateLimit.TokenBucket.Round | src/ratelimit.js:78-90 | one round of the loop: over, or one round less to go |
| RateLimit.TokenBucket.Acquire | src/ratelimit.js:68-91 | the polling loop terminates, whatever other acquirers do between its rounds and however the clock moves between its readings, with the outcome of the waiting specification |
| RateLimit.AlwaysSound | src/ratelimit.js:38-60 | 0 <= tokens <= burst always, and the refill time is the largest reading, with any clock |
| RateLimit.Potential | src/ratelimit.js:38-60 | grants plus tokens left never exceed tokens at the start plus the gain |
| RateLimit.Conservation | src/ratelimit.js:38-60 | exactly: grants, tokens left and what the cap cut off are the tokens at the start plus the gain, so a grant costs one token and a refusal none |
| RateLimit.RefusedWhenUsedUp | src/ratelimit.js:53-60 | a poll is refused exactly when the grants before it and the cut have used up all but less than one token |
| RateLimit.BurstAtOnce | src/ratelimit.js:53-60 | of n polls at one reading as many are granted as there are whole tokens |
| RateLimit.GainMeaning | src/ratelimit.js:42 | the gain is rps tokens a second |
| RateLimit.WindowBound | src/ratelimit.js:38-60 | with a monotone clock, any window of polls grants at most burst + rps * its length |
| RateLimit.BoundFromConstruction | src/ratelimit.js:38-60 | with any clock, the same from construction to the largest reading |
| RateLimit.NoGrantBelowOneToken | src/ratelimit.js:29-60 | a burst below 1 never grants |
| RateLimit.FewSleeps | src/ratelimit.js:77-90 | at most one sleep per 5 ms of queue time, whatever the others take |
| RateLimit.EndsOnTime | src/ratelimit.js:77-90 | with exact sleeps the loop ends less than 5 ms past the deadline |
| RateLimit.LoneWaiterExactly | src/ratelimit.js:68-91 | exactly when a lone waiter is granted, for any lag between clock readings and any overrun of its sleep: when its token is due at once, at the first round's refill, or when its one sleep ends |
| RateLimit.LoneWaiterSucceeds | src/ratelimit.js:68-91 | a lone waiter succeeds whenever the time to the next token fits in queueMs, unless the deadline passes between two readings of its first round |
| RateLimit.LoneWaiterIff | src/ratelimit.js:68-91 | with exact sleeps and readings it succeeds exactly when that time is at most queueMs, or 5 ms if queueMs is positive but smaller |
| NameScript.PushRoundTrip | src/electrumx.js:651-717 | reading inverts pushing for all data shorter than 2^32, anywhere in any script |
| NameScript.PrefixFree | src/electrumx.js:651-669 | no push is a proper prefix of another |
| NameScript.ReadAdvances | src/electrumx.js:685-717 | every read stays in bounds, advances, and returns the bytes before its end |
| NameScript.PushIsShortest | src/electrumx.js:651-717 | no push that reads to the same data is shorter |
| NameScript.WritesHeader | src/electrumx.js:651-669 | the writer uses one of the four header forms, lengths in little-endian order |
| NameScript.ReadMeaning | src/electrumx.js:685-717 | the reader reads exactly the four header forms, shortest or not, with all their bytes in the script |
| NameScript.IndexScriptInjective | src/electrumx.js:671-678 | index scripts of different names differ, neither a prefix of the other |
| NameScript.AsciiExact | src/electrumx.js:770-774 | a name survives its decoding exactly when it is 7-bit |
| NameScript.UpdateRoundTrip | src/electrumx.js:741-775 | UPDATE scripts parse to their name and value, whatever follows |
| NameScript.FirstUpdateRoundTrip | src/electrumx.js:749-757 | so do FIRSTUPDATE scripts with a 20-byte rand |
| NameScript.FirstUpdateFallback | src/electrumx.js:757-763 | with any other second push they are read as an UPDATE |
| NameScript.NoNameScript | src/electrumx.js:741-768 | what is no name script: too short, another operation, a name without a value, a 20-byte rand without a value |
| NameScript.IndexScriptBytes | src/electrumx.js:671-678 | the index script byte by byte |
| NameScript.IndexScriptParses | src/electrumx.js:671-775 | the index script of a name parses as an update of it to the empty value |
| NameSelection.ParseNameFromTx | src/electrumx.js:777-792 | a row if and only if some output, at any place, parses as a script for the expected name, and then the first one's |
| NameSelection.MatchMeaning | src/electrumx.js:846-857 | an entry matches exactly when its transaction can be fetched and some output of it is for the name |
| NameSelection.FilterHistory | src/electrumx.js:820-834 | exactly the confirmed entries with enough confirmations, in order |
| NameSelection.FilteredExactly | src/electrumx.js:820-834 | which entries are eligible, over the raw items: confirmed, with a hash, and with the confirmations demanded where the tip is known |
| NameSelection.NewestPermutes | src/electrumx.js:838 | the sort is a descending permutation |
| NameSelection.NewestStable | src/electrumx.js:838 | and keeps the order of entries of equal height |
| NameSelection.Walk | src/electrumx.js:841-860 | the first match, and one fetch per entry up to it |
| NameSelection.SelectNameRowFromHistory | src/electrumx.js:817-880 | the selection, with at most 32 fetches, of the newest eligible entries in order |
| NameSelection.RowIsNewestMatch | src/electrumx.js:798-880 | a returned row is the first one for the name in an unexpired match, with 36000 less its depth as blocks left, and no eligible match of the whole history is higher |
| NameSelection.ExpiredMeansAllExpired | src/electrumx.js:863-868 | "expired" means some match exists and every eligible match is expired |
| NameSelection.NotHiddenByFewNewer | src/electrumx.js:803-805 | a match with at most 32 entries as high is never answered "no row" |
| NameSelection.HiddenByManyNewer | src/electrumx.js:840-841 | 32 higher entries that do not match hide it |
| NameSelection.PlaceOfEntry | src/electrumx.js:838 | the sort puts each entry behind exactly the higher ones and those of its height listed earlier |
| NameSelection.WalkFindsFirst | src/electrumx.js:838-860 | the walk settles on the match with the fewest entries ahead, ties by height included |
| NameSelection.HiddenIff | src/electrumx.js:803-861 | for every history: "no row" if and only if every match has 32 or more eligible entries ahead of it |
| NameSelection.NoRowIff | src/electrumx.js:817-861 | with at most 32 eligible entries, "no row" means exactly that none matches |
| NameSelection.IneligibleChangesNothing | src/electrumx.js:823-834 | unconfirmed, under-confirmed or malformed items change nothing, wherever inserted |
| NameSelection.MoreConfirmationsNeverHigher | src/electrumx.js:820-834 | more confirmations never select a higher entry nor revive an expired name |
| NameSelection.ExpiresInRange | src/electrumx.js:863-879 | with a known tip, 1 <= expires_in <= 36000 - (minConf - 1) |
| Multiplexer.PooledConnection.constructor | src/electrumx.js:404-422 | nothing pending, first id 1 |
| Multiplexer.PooledConnection.OnData | src/electrumx.js:490-514 | delivers the complete lines and keeps the rest, up to a line that throws |
| Multiplexer.PooledConnection.HandleLine | src/electrumx.js:493-512 | settles the pending call of the line's id, and nothing else; throws on JSON null |
| Multiplexer.PooledConnection.Call | src/electrumx.js:516-535 | refused without an id when dead or unconnected; a failed write settles the call at once |
| Multiplexer.PooledConnection.TimedOut | src/electrumx.js:520-525 | settles a call still pending |
| Multiplexer.PooledConnection.Kill | src/electrumx.js:537-551 | settles everything pending, once |
| Multiplexer.ChunkingIndependence | src/electrumx.js:490-514 | two chunks do what their concatenation does: same pending calls and settlements, and the same buffer unless the process has ended |
| Multiplexer.AnyChunking | src/electrumx.js:490-514 | any cutting of a stream ends as splitting it at newlines and delivering the lines one by one, up to the first that throws |
| Multiplexer.LinesMeaning | src/electrumx.js:491-494 | the lines, each with its newline, and the rest are the stream, and no newline is left in them |
| Multiplexer.LineMeaning | src/electrumx.js:495-512 | a line with the id of a pending call settles that call with its reply, and no other; JSON null ends the process; any other line does nothing |
| Multiplexer.IssueMeaning | src/electrumx.js:516-535 | a call gets the next id and is pending, or settled by its failed write; refused when dead or unconnected |
| Multiplexer.TimerMeaning | src/electrumx.js:520-525 | a timer settles its own call if still pending |
| Multiplexer.KillMeaning | src/electrumx.js:537-551 | a kill settles everything pending, in order; a second one does nothing |
| Multiplexer.ProcessedIff | src/electrumx.js:490-514 | a stream ends the process exactly when one of its complete lines is JSON null, in any cutting |
| Multiplexer.ExactlyOnce | src/electrumx.js:490-551 | in every run each issued id is pending or settled, exactly once, no other id is either, and dead is absorbing with nothing pending |
| Multiplexer.ExactlyOnceFromStart | src/electrumx.js:404-551 | from the start of a connection |
| Multiplexer.SettledForItsOwnReason | src/electrumx.js:490-551 | a call is settled only by a line with its id, its own timeout, its own failed write, or a kill; settlements are never undone |
| Socks5.Handshake.constructor | src/socks5.js:50-77 | the greeting is sent |
| Socks5.Handshake.OnData | src/socks5.js:79-134 | one chunk in each stage; bytes beyond the reply are deferred |
| Socks5.Handshake.EmitDeferred | src/socks5.js:127-130 | the next turn emits what was deferred |
| Socks5.ReplyDecidedEarly | src/socks5.js:103-121 | later bytes never change a decided reply |
| Socks5.GrantedIff | src/socks5.js:103-122 | the reply is complete exactly when the stream begins with a granted reply in the format of section 6 of RFC 1928, for each address type, and where it ends |
| Socks5.RefusedIff | src/socks5.js:105-119 | which streams are refused, and with which error |
| Socks5.ChoiceMeaning | src/socks5.js:82-101 | what the server's choice of method leads to |
| Socks5.ReplyAnyChunking | src/socks5.js:103-134 | in the reply stage any chunks and turns lead to waiting, failure or an open tunnel as the whole stream would |
| Socks5.DecidingChunk | src/socks5.js:103-122 | a stream that decides the reply does so in one of its chunks |
| Socks5.TunnelBytes | src/socks5.js:122-131 | which bytes the caller gets and in which order: what arrives before the next turn, the rest of the reply's chunk, what arrives later |
| Socks5.TunnelBytesExactIff | src/socks5.js:122-131 | they are exactly the stream after the reply if and only if the deferred bytes and those arriving before the turn read the same in either order |
| Socks5.TunnelBytesExact | src/socks5.js:122-131 | so always when a turn follows the chunk that completes the reply, for every address type |
| Socks5.GreetingChunkingIff | src/socks5.js:82-101 | exactly when the greeting stage depends on the cutting: bytes behind the server's choice wait for the next chunk |
| Socks5.ChoiceThenRequest | src/socks5.js:82-101 | the choice of no authentication, in any chunks and turns, leads to one request |
| Socks5.RequestInjective | src/socks5.js:91-98 | different targets have different requests |
| Socks5.RequestReadsBack | src/socks5.js:90-98 | a server reads the request, in the format of section 4 of RFC 1928, as the target it was written for |
| Identifier.ParsedCanBeLookedUp | src/resolver.js:67-113 | whatever parses is namespaced, within bounds, and never refused by `nameShow` for its length |
| Identifier.SpellingsAgree | src/resolver.js:17-26 | the spellings of a plain stem parse alike |
| Identifier.BehindDotBit | src/resolver.js:87-95 | `local@stem.bit` exactly: the local part as written, the name, and when it is accepted |
| Identifier.BehindNamespace | src/resolver.js:96-99 | the same for `local@d/stem` and `local@id/stem` |
| Identifier.AskableIff | src/resolver.js:67-113 | the image of the parser: which names and local parts some trimmed, lower-case identifier parses to, exactly |
| Identifier.AsciiBound | src/resolver.js:6-13 | for 7-bit names the 64-character stem is the only bound, in either namespace |
| Identifier.RenderRoundTripIff | src/resolver.js:82-104 | `local@name` parses back to itself exactly for namespaced names in bounds without `@` that do not end in `.bit` |
| Resolver.NamecoinResolver.Begin | src/resolver.js:218-228 | parses, and reads the cache under the name's key |
| Resolver.NamecoinResolver.Finish | src/resolver.js:231-284 | answers as an uncached lookup does and stores it with the time to live of its class; failures and refusals store nothing |
| Resolver.KeyInjective | src/resolver.js:222 | among names without a bar keys are unambiguous |
| Resolver.NoBarOwnKey | src/resolver.js:222 | a question without a bar in its name or local part shares its key with no other |
| Resolver.KeyReadings | src/resolver.js:222 | the names with a given key are its readings, one for each bar |
| Resolver.KeySharedIff | src/resolver.js:222 | a question shares its key with another that some identifier asks exactly when its key, read at another bar, is askable |
| Resolver.OwnAnswersIff | src/resolver.js:218-284 | in every run of such questions a cached answer comes from a lookup of the very question, exactly when it shares its key with none |
| Resolver.AmbiguousIdentifiers | src/resolver.js:222 | a family of identifier pairs that parse to different names with one key |
| Resolver.BoundedStaleness | src/resolver.js:218-303 | a cached answer is that of the last lookup stored under its key, less than its class's time to live ago; of the very same name for every question without a bar, whatever else the run asks |
| Resolver.CachedForItsClass | src/resolver.js:231-303 | what a lookup leaves in the cache and until when, for each outcome: nothing, a short-lived miss, or what the record says of the local part under the name |
| Resolver.SharedKeyServesOther | src/resolver.js:222-284 | when two questions share a key, a lookup for one is served to the other for as long as it lives |
| Resolver.WrongAnswerServed | src/resolver.js:222-284 | the same for that family of identifiers |
| Resolver.FailuresLeaveNoTrace | src/resolver.js:231-274 | a thrown or rate-limited lookup changes no later answer |
| PolicyHandler.Handler.constructor | src/index.js:196-202 | nobody verified, no rules, nothing awaiting |
| PolicyHandler.Handler.CheckRules | src/index.js:315-346 | the rules gate and the imeta gate |
| PolicyHandler.Handler.Handle | src/index.js:204-349 | every branch up to the await |
| PolicyHandler.Handler.Resume | src/index.js:272-295 | the answer decides; only a match verifies the author |
| PolicyHandler.AcceptedIff | src/index.js:204-349 | what is accepted at once, exactly, for each kind of request |
| PolicyHandler.RefusalMeaning | src/index.js:204-335 | what waits for the resolver, exactly, and what each refusal says |
| PolicyHandler.AnswerMeaning | src/index.js:272-295 | the answer is accepted exactly when it names the event's pubkey, and exactly then the author is known from now on |
| PolicyHandler.RunVouched | src/index.js:291-303 | an author in the store was put there by its latest verification and expires with it |
| PolicyHandler.AcceptedAuthorsAreVerified | src/index.js:204-303 | with the gate on, every accepted event of non-zero kind, rules events included, follows within the time to live an accepted metadata event of the same pubkey whose identifier resolved to it |
| PolicyHandler.StoreIsCache | src/index.js:291-303 | over any run the verified authors are an in-memory LRU cache under the gate's looks and the verifications |
| PolicyHandler.VerifiedAuthorPasses | src/index.js:291-303 | the converse: once verified, an author is not refused as unverified for the time to live, as long as fewer than `max` other authors come by |
| PolicyHandler.LoaderFollowsOffers | src/index.js:232-240 | the loader has seen exactly the run's rules events, those refused by the author gate included |
| PolicyHandler.AcceptedUnderLatestRules | src/index.js:315-335 | every accepted ordinary event passes the active rules, which are at least as late as any acceptable document ever offered; with none active only if none is required |
| EndToEnd.YieldIsRecent | src/resolver.js:218-284 | whatever the resolver yields goes back to a lookup less than a time to live before |
| EndToEnd.AcceptedAuthorsWereLookedUp | src/index.js:204-303 | with the gate on, an accepted event of non-zero kind goes back to a lookup whose record names its pubkey, less than twice the time to live before and the handler's delay |

## Left out

- Sockets, TLS, certificate pins, DNS, stdin and stdout, file watching, the SQLite backend, metrics and logging: foreign calls.
- `src/config.js`, `src/connect.js`, `src/metrics.js`, `bin/`: environment parsing, connection racing and counters.
- SHA-256, JSON and UTF-8 decoding, number parsing, trimming and lower-casing beyond ASCII: parameters, or left to the caller.
- `extractFromValue` and `classifyParseFailure`: parameters of the resolver, since they only take JSON values apart.
- The log file is a sequence of records replaced atomically with one writer; torn lines, failed writes and several caches on one file are not modelled.
- Cached `undefined` values, which one cache stores as null and the other treats as a miss, and `has`, which is a read.
- Clock readings, capacities and times to live are whole numbers, and an infinite time to live is not one of them; in the token bucket everything is real, without floating-point rounding.
- NameScript.PushRoundTrip: data of 2^32 bytes or more, for which the source throws.
- NameSelection.NewestPermutes: the library sort is a function, as the source has no loop of its own; its stability is proved in NewestStable.
- NameSelection.SelectNameRowFromHistory: fetching is a function of the hash, and the awaits between fetches do not appear since the walk shares no state; the tip is echoed in the row by the source and not here.
- The idle timer, connecting and the callbacks of a killed connection: a kill may come at any time in the model.
- `runResolve` and its handshake, script hash and tip cache: an attempt in Failover has one reply.
- Socks5.Handshake.constructor: host names over 255 bytes and ports out of range, for which the source throws; the timeout and the error, end and close events, which only end the handshake.
- Resolver.NamecoinResolver.Begin: under concurrent calls `lastWasRateLimited` is that of the latest, as in the source; nothing is claimed of it.
- Event ids and messages of the handler's replies, and the quota and web-of-trust callbacks, which the handler does not pass.
- RulesLoader.PrunedEqualsNaiveIff: which of several documents at the latest timestamp is picked, as that depends on the order of the candidates; PrunedAgreesIff covers them up to that choice.
- Socks5.TunnelBytes: the caller attaches its handler before the next data event, as it does when it goes on at once after the handshake.
- PolicyHandler.Handler.constructor: both caches are the in-memory one, as without a cache path; what restarts do to the persistent one is in PersistentCache.
