# dwho, verified

A Dafny model of the stateful and the text-building parts of dwho, with proofs of what they
promise. `dafny verify dfyconfig.toml` checks the whole project.

| files | what they model |
|---|---|
| `SessionStore`, `MemoryBackend`, `RedisBackend`, `SessionProtocol`, `SessionManager` | sessions: the storage contract, its two backends, the protocol of many callers over one store, the manager's calls |
| `SqlText`, `SqlLike`, `SqlClauses`, `SqlReading`, `SqlMeaning`, `SqlPlaceholders` | the SQL clause builder, a reader of the text it builds, and what that text means |
| `Paths`, `Walks`, `PathIndex`, `EventPaths` | the watcher's path index, the pruned walk that fills it, lookups and destinations |
| `Base64`, `TokenCodec` | base64, session tokens, the legacy and the authenticated token format |
| `Runtime`, `RuntimeRuns`, `RuntimeHooks` | the one-shot runtime with failing hooks, its runs, and which hooks its operations call |
| `Documents`, `Dispatch`, `ProcessWait` | nested mutable documents and their deep copies, strict notification dispatch, the subprocess wait and cleanup |

**Sessions.** A backend is known by a contract over "eager views": what is live in a store at
a time. The contract covers operations during which the clock moves (the window `[n, n']`), so
the memory backend, which reads its clock several times under its lock, meets it as it is.
`SessionProtocol` interleaves any number of callers at every clock reading and every backend
operation, knowing the backend by that contract alone; each method of the manager class hands
back, as a ghost result, the steps of that protocol it performs, one call on its own key, and
such steps carry any run on (`CallExtendsRun`), so what holds of every run covers them.
`NoResurrection` assumes nothing about the first state or the tokens drawn. The theorems about
grants and the absolute limit assume that a successful draw is a new token and that manager
and backend read one monotone clock. Time is real-valued seconds.

**SQL.** The text is read back by a tokenizer and a recursive-descent parser with the usual
precedence, for any list of reserved words. Values are NULL, texts or numbers; a row gives
every column a value. The builder's loops are methods proved against the clause functions
whose meaning is then proved.

**Paths.** Dictionary keys are the raw texts the code stores; components come from
normalisation as `os.path.abspath` does it. The walk's tree, the watch descriptors and the
success of a removal are what a command meets when it runs, and arbitrary.

**Failing hooks and handlers.** Which hook raises, how each delivery is answered and when a
child exits are arbitrary parameters or arbitrary choices, so the theorems hold for all of them. A
handler may change every mapping of the documents it is given, at any depth, and do so again
whenever a later delivery is made.

Where the code and its documentation, or a natural reading of it, part ways, the model follows
the code:

- docs/sessions.md says renewal never exceeds the absolute lifetime. True of grants and reads;
  the stored expiry may pass it by the delay between the clock reading and the backend write of
  one operation that wrote this entry, and by no more (`AbsoluteCap`, `OwnDelay`), whether the write is a renewal's (`RenewalPassesLimit`) or a
  create's (`CapExceededByDelay`). It is respected all along a run exactly if every write comes
  within its slack: a create's within what idle leaves of absolute, a touch's early enough that
  its lifetime, counted from the write, ends by the limit (`CapExact`).
- The touch script shortens the life of a key that has no expiry (`TouchNeverShortensIff`); the
  backend never creates one.
- Deleting an expired entry that was not yet purged answers true in memory, and so does
  revoking it (`DeleteExpired`, `RevokeExpired`).
- The identifier check lets reserved words through; such a text is rejected by the database
  (`ReservedColumn`), and exactly such texts are (`ConditionMeaning`, `SearchMeaning`).
- A search without columns builds text that is no condition (`SearchNeedsColumns`).
- Two spellings of one directory, added one after the other, compete in the lookup: the one the
  dictionary keeps first answers (`SpellingsCompete`, `EarliestAnswers`). The answer is
  independent of the dictionary's order exactly if the spellings of a directory hold the same
  configuration (`OrderIrrelevant`). Python 2, which the package supports, promises no order.
- The destination of an event file compares texts, not components (`TextPrefixSlips`), with the
  configured path as it was written. A file that dispatch hands out goes where it should exactly
  if that path is the normalised one, with or without one slash at its end, and a prefix of the
  file's; or if it is no prefix and the destination is the directory itself
  (`DispatchedDestination`). "/a//" leaves the file where it is (`DoubledSlashStays`), "/a/."
  takes the dot off a hidden file's name (`TrailingDotSwallows`).
- A prefix does not confine the destination: with prefix "/p" and destination "/..", a file
  dispatched from "/a/f" goes to "/f" (`PrefixEscaped`). It stays below the prefix exactly if its
  destination comes back down through the components of the prefix that it climbed out of; a
  destination that never climbs does (`PrefixedDestination`).
- The legacy decoder accepts many spellings of a token (`LegacySpellings`).

## Model

| member | source | states |
|---|---|---|
| SessionStore.EagerForever | dwho/sessions/__init__.py:23-31 | stores that agree on what is live now answer alike at every later time |
| SessionStore.OneInstantIsEager | dwho/sessions/__init__.py:23-31 | at one instant the contract is exactly the behaviour of a map that drops entries the moment they expire |
| MemoryBackend.Clock.Read | dwho/sessions/memory.py:12-16 | the clock is monotone and may advance at every reading |
| MemoryBackend.NewMemoryBackend | dwho/sessions/memory.py:12-18 | a capacity below one is refused; otherwise an empty backend |
| MemoryBackend.MemorySessionBackend.Expire | dwho/sessions/memory.py:20-25 | an entry is returned if live, and removed if found dead; nothing else changes |
| MemoryBackend.MemorySessionBackend.Purge | dwho/sessions/memory.py:33-34 | the purge removes dead entries only, and every entry dead since before it began |
| MemoryBackend.MemorySessionBackend.Admit | dwho/sessions/memory.py:29-36 | key taken, no room even after the purge, or room; the live view is untouched |
| MemoryBackend.MemorySessionBackend.Create | dwho/sessions/memory.py:27-38 | meets the create contract; never exceeds the capacity; refused for lack of room only if that many entries are live, and at a fixed instant exactly then |
| MemoryBackend.MemorySessionBackend.Read | dwho/sessions/memory.py:40-43 | meets the read contract: the eager map's answer, nothing live lost |
| MemoryBackend.MemorySessionBackend.Touch | dwho/sessions/memory.py:45-52 | meets the touch contract: the later of the two expiries, never an insertion |
| MemoryBackend.MemorySessionBackend.Delete | dwho/sessions/memory.py:54-56 | removes the key; true exactly if an entry, live or dead, was there |
| MemoryBackend.DeleteExpired | dwho/sessions/memory.py:54-56 | an entry created and left until it has expired is still answered with true when deleted |
| RedisBackend.RedisServer.TouchScript | dwho/sessions/redis.py:6-12 | answers 1 exactly if the key is present and leaves the later of the two deadlines; otherwise changes nothing |
| RedisBackend.RedisSessionBackend.Create | dwho/sessions/redis.py:19-20 | meets the create contract, for any eviction by the server |
| RedisBackend.RedisSessionBackend.Read | dwho/sessions/redis.py:22-23 | meets the read contract |
| RedisBackend.RedisSessionBackend.Touch | dwho/sessions/redis.py:25-27 | meets the touch contract, the same as in memory |
| RedisBackend.RedisSessionBackend.Delete | dwho/sessions/redis.py:29-30 | meets the delete contract |
| RedisBackend.TouchNeverShortensIff | dwho/sessions/redis.py:7-10 | the script never shortens a life exactly for keys that carry an expiry |
| SessionProtocol.StepOnKey | dwho/sessions/__init__.py:107-145 | only a create that draws a key brings it to life, only a delete aimed at it removes it early, its value never changes and its expiry never comes closer |
| SessionProtocol.NoResurrection | dwho/sessions/__init__.py:133-145 | after a revoke's delete no later read finds the key and no later touch succeeds, even for a renewal that read before the delete, over every interleaving |
| SessionProtocol.StepKeepsInv | dwho/sessions/__init__.py:86-145 | every step keeps the invariant over live entries, grants, callers and the revoked set |
| SessionProtocol.RenewTtlLongest | dwho/sessions/__init__.py:137-140 | the lifetime a renewal asks for is the longest in whole seconds within the idle lifetime and the absolute limit; there is none exactly in the last second |
| SessionProtocol.GrantHonoured | dwho/sessions/__init__.py:86-141 | any read completed before a grant lapses returns the granted session unless it was revoked, whatever runs in between |
| SessionProtocol.TouchHonoured | dwho/sessions/__init__.py:133-141 | a renewal's touch completed before the grant lapses cannot fail unless it was revoked, and grants the same session again |
| SessionProtocol.AbsoluteCap | dwho/sessions/__init__.py:93-141 | no grant lapses after the absolute limit, no read succeeds at or after it, a stored expiry passes it by at most the delay of one operation that wrote that entry, stored records are never invalid |
| SessionProtocol.OwnDelay | dwho/sessions/__init__.py:93-141 | for every live entry of every run there is a create or renewal that wrote it, whose own delay between clock reading and write bounds how far the entry outlives its limit |
| SessionProtocol.CreatedLifetime | dwho/sessions/__init__.py:93-104 | the record stored by a create keeps its content and the creating manager's absolute lifetime for ever |
| SessionProtocol.CapExact | dwho/sessions/__init__.py:93-141 | stored expiry respects the absolute limit in every state of a run exactly if every create and touch in it was written within its slack |
| SessionProtocol.StepCapped | dwho/sessions/__init__.py:93-141 | one step keeps stored expiry within the absolute limit exactly if its backend write is within its slack |
| SessionProtocol.CapExactAtOneInstant | dwho/sessions/__init__.py:133-141 | so with operations that see one instant, stored expiry never passes the absolute limit |
| SessionProtocol.RenewalPassesLimit | dwho/sessions/__init__.py:133-141 | a concrete run in which every write is within its slack but the last, a renewal's touch a second late, which leaves the entry a second past the limit |
| SessionProtocol.CapExceededByDelay | dwho/sessions/__init__.py:93-104 | a concrete create whose one second of delay leaves an entry a second past the limit |
| SessionProtocol.KeysIndependent | dwho/sessions/__init__.py:107-145 | steps on other keys change neither whether a key is live nor what it holds |
| SessionKeys.KeyInjective | dwho/sessions/__init__.py:17-18 | with an injective digest, a storage key determines its namespace and its token |
| SessionManagers.SessionManager.Check | dwho/sessions/__init__.py:107-131 | backend read, validation, expiry check and deletion: the steps of one protocol call on this key, and its outcome told from what the store held |
| SessionManagers.SessionManager.Read | dwho/sessions/__init__.py:107-131 | malformed tokens touch nothing; otherwise exactly one protocol read: a session answered was live and valid, an error means a record that is not, and no answer means dead or past its limit, and gone |
| SessionManagers.SessionManager.Renew | dwho/sessions/__init__.py:133-141 | exactly one protocol renewal: the longest grant that some clock reading within the call allows, covered by the entry it leaves; none only for a session that is dead or in its last second |
| SessionManagers.SessionManager.Revoke | dwho/sessions/__init__.py:143-145 | exactly one protocol revocation of this token's key, which removes it alone from what is live; true exactly if the token is well-formed and its entry was there |
| SessionManagers.SessionManager.RevokeExpired | dwho/sessions/__init__.py:143-145 | revoking a session that no read finds any more answers true while its entry is unpurged |
| SessionManagers.SessionManager.Allocate | dwho/sessions/__init__.py:101-105 | at most three draws, stopping at the first success or a store full of live entries; given up only if all three tokens are in use |
| SessionManagers.SessionManager.Create | dwho/sessions/__init__.py:86-105 | invalid arguments store nothing; otherwise exactly one protocol create drawing these tokens only, whose grant lasts the idle lifetime and is covered by the new entry, and whose record lasts the absolute one |
| SessionManagers.NewSessionManager | dwho/sessions/__init__.py:70-80 | a manager is made exactly for a namespace of 1 to 64 URL-safe characters and lifetimes in order and in range |
| SessionManagers.CallExtendsRun | dwho/sessions/__init__.py:86-145 | a manager's call made where a run has got to gives a longer run, to which every guarantee applies |
| SessionManagers.NamespacesIsolated | dwho/sessions/__init__.py:74-84 | whatever any number of managers do under other namespaces, lookups under this one cannot tell |
| Base64.DecodeEncode | dwho/helpers/crypto.py:75-82 | the lenient decoder undoes the encoder on every byte string |
| Base64.Alphabet | dwho/helpers/crypto.py:75-82 | the alphabet of RFC 4648, and the decoder's inverse of it |
| Base64.GroupDigits | dwho/helpers/crypto.py:75-82 | three bytes and their four characters are one number in base 256 and in base 64 |
| Base64.TailDigits | dwho/helpers/crypto.py:75-82 | one or two last bytes are filled up with zero bits and padding characters |
| Base64.DecodeLengths | dwho/helpers/crypto.py:78-81 | of padded text in the alphabet, the decoder accepts exactly what ends on a whole byte with enough padding |
| Base64.GeneratedTokenMatches | dwho/sessions/__init__.py:102-102 | every token made of 32 bytes passes the token pattern |
| Base64.TokenPatternExact | dwho/sessions/__init__.py:17-17 | the pattern admits exactly the 43-character texts in the URL-safe alphabet |
| Base64.TokenAlphabet | dwho/sessions/__init__.py:102-102 | a token is the encoding in the URL-safe alphabet without its padding |
| Base64.TokenInjective | dwho/sessions/__init__.py:102-102 | different draws make different tokens |
| TokenCodec.UnpadInvertsPad | dwho/helpers/crypto.py:43-56 | on whole blocks, unpadding succeeds exactly on what padding produces, and undoes it |
| TokenCodec.PadExact | dwho/helpers/crypto.py:43-46 | padding adds 1 to 16 bytes, each holding their number, up to a whole block |
| TokenCodec.UnpadExact | dwho/helpers/crypto.py:48-56 | unpadding takes off exactly such a padding, from data of any length, and refuses everything else |
| TokenCodec.CbcChains | dwho/helpers/crypto.py:74-75 | each cipher block enciphers its plain block combined with the cipher block before, the first with the initial vector |
| TokenCodec.XorExact | dwho/helpers/crypto.py:74-75 | the combination differs in exactly the bits where the two differ |
| TokenCodec.CbcDecryptEncrypt | dwho/helpers/crypto.py:74-89 | CBC decryption undoes encryption over any block permutation |
| TokenCodec.CbcEncryptDecrypt | dwho/helpers/crypto.py:74-89 | and encryption undoes decryption |
| TokenCodec.NormalizedKey | dwho/helpers/crypto.py:58-66 | keys under 16 bytes are refused; the key used is the longest AES-sized proper prefix, or all of a 16-byte key |
| TokenCodec.PayloadOfEncoding | dwho/helpers/crypto.py:75-82 | the slash and space substitutions lose nothing on encoder output |
| TokenCodec.DecryptExact | dwho/helpers/crypto.py:77-89 | a legacy token decrypts to data exactly when its bytes are an IV and the CBC encryption of the padded data under it |
| TokenCodec.LegacyRoundTrip | dwho/helpers/crypto.py:68-89 | for every usable key, IV and data, decrypt undoes encrypt |
| TokenCodec.LegacySpellings | dwho/helpers/crypto.py:77-84 | a character the decoder skips, put anywhere into a legacy token, changes nothing |
| TokenCodec.AuthenticatedExact | dwho/helpers/crypto.py:111-134 | an authenticated token is accepted with data exactly when it is the string printed for that data under some 16-byte nonce |
| TokenCodec.AuthenticatedLayout | dwho/helpers/crypto.py:104-134 | prefix, nonce, tag, ciphertext in this order, sealed under the prefix; keys of 16, 24 or 32 bytes only, both ways |
| TokenCodec.AuthenticatedCanonical | dwho/helpers/crypto.py:129-130 | accepted tokens are equal exactly when their payloads are |
| SqlLike.EscapedStep | dwho/classes/objects.py:93-93 | the three replacements in this order escape character by character |
| SqlLike.EscapedMatches | dwho/classes/objects.py:92-93 | an escaped term matches itself and only itself, whatever pattern follows |
| SqlLike.LikePatternCorrect | dwho/classes/objects.py:90-95 | the pattern for a term matches exactly the texts that contain the term |
| SqlClauses.IdentifierExact | dwho/classes/objects.py:47-52 | a name is accepted exactly if it is a dot-join of one or more non-empty parts of letters, digits and underscores, none starting with a digit |
| SqlClauses.PrepareCondition | dwho/classes/objects.py:54-77 | refuses exactly when a key is no identifier; otherwise the condition clause |
| SqlClauses.PrepareCondLike | dwho/classes/objects.py:79-95 | refuses exactly when a column is no identifier; otherwise the LIKE clause |
| SqlClauses.Search | dwho/classes/objects.py:269-278 | the search clause, its parameters in the order of the two parts |
| SqlClauses.Update | dwho/classes/objects.py:348-364 | refuses mismatched or empty columns and bad identifiers; otherwise the update clause, SET values first |
| SqlReading.ParseName | dwho/classes/objects.py:47-52 | an identifier is read back as one column, or rejected exactly if a component is reserved |
| SqlReading.ParseCond | dwho/classes/objects.py:62-75 | each rendered condition is read back as meant whatever follows, or rejected exactly if its column is reserved |
| SqlReading.ParseConj | dwho/classes/objects.py:77-77 | joined conditions are read back as their conjunction, placeholders numbered left to right |
| SqlReading.ParseDisj | dwho/classes/objects.py:90-95 | joined LIKE tests are read back as their disjunction |
| SqlReading.ParseSets | dwho/classes/objects.py:353-354 | assignments are read back column by column, each with the next placeholder |
| SqlMeaning.ConditionMeaning | dwho/classes/objects.py:54-77 | the clause is accepted exactly when no column in it is reserved, uses each value once, and selects exactly the rows where every condition holds |
| SqlMeaning.SearchMeaning | dwho/classes/objects.py:269-278 | the search text is accepted exactly when no column is reserved and selects exactly the rows where some column contains the term and every condition holds |
| SqlMeaning.SearchNeedsColumns | dwho/classes/objects.py:271-272 | with no search columns the text is rejected |
| SqlMeaning.UpdateMeaning | dwho/classes/objects.py:348-364 | each column is set to its own value on exactly the rows where every condition holds |
| SqlMeaning.ReservedColumn | dwho/classes/objects.py:47-52 | a valid identifier whose text a database rejects |
| SqlPlaceholders.ConditionPlaceholders | dwho/classes/objects.py:64-77 | as many question marks as values in a condition clause |
| SqlPlaceholders.SearchPlaceholders | dwho/classes/objects.py:271-278 | and in a search clause |
| SqlPlaceholders.UpdatePlaceholders | dwho/classes/objects.py:353-364 | and in an update clause |
| Paths.UnderExact | dwho/classes/inotify.py:436-436 | the text test for "is or lies below" holds exactly when the components are a prefix |
| Paths.DeeperIsLonger | dwho/classes/inotify.py:434-434 | among the ancestors of one path, longer text means deeper |
| Paths.JoinComponents | dwho/classes/inotify.py:366-369 | joining a name adds exactly one component, trailing slash or not |
| Paths.ComponentsOfText | dwho/classes/inotify.py:435-435 | normalised texts are fixed points |
| Walks.WalkRec | dwho/classes/inotify.py:362-369 | the loop that prunes `dirs` in place yields the top-down visit without descent below excluded directories |
| Walks.WalkMeetsExactly | dwho/classes/inotify.py:362-369 | the walk yields exactly the directories with no excluded proper ancestor in it, and just its top if that is no directory |
| Walks.WalkRegistersExactly | dwho/classes/inotify.py:294-311 | what is registered has no excluded ancestor or self, and all such directories are; a top that is no directory alone |
| Walks.WalkedBelow | dwho/classes/inotify.py:362-369 | everything yielded lies at or below the top, component-wise |
| PathIndex.DWhoInotify.GetCfgPath | dwho/classes/inotify.py:430-438 | the sorted scan over some order of the keys; so the configuration of the longest ancestor-or-self key by components, None exactly if there is none |
| PathIndex.ScanExact | dwho/classes/inotify.py:430-438 | over all orders of the keys, the scan gives exactly the configurations of the component-wise nearest keys |
| PathIndex.EarliestAnswers | dwho/classes/inotify.py:434-437 | among several nearest keys the one the dictionary keeps first answers, the sort being stable |
| PathIndex.OrderIrrelevant | dwho/classes/inotify.py:430-438 | the scan gives one answer for every path, whatever the order of the keys, exactly if keys that spell one directory hold one configuration |
| PathIndex.SpellingsCompete | dwho/classes/inotify.py:434-462 | after two ADD commands for one directory under two spellings, the scan answers with the one or the other configuration depending on which key is kept first |
| PathIndex.DWhoInotify.Watch | dwho/classes/inotify.py:284-312 | a descriptor for every directory walked, -2 for excluded ones; the whole fails exactly if one that is not excluded cannot be watched |
| PathIndex.DWhoInotify.AddWatch | dwho/classes/inotify.py:440-466 | writes the configuration under every registered path, or nothing if a watch failed |
| PathIndex.DWhoInotify.RemWatch | dwho/classes/inotify.py:468-487 | removes exactly the component-wise subtree, or nothing if the path is unknown or the removal failed |
| PathIndex.DWhoInotify.Run | dwho/classes/inotify.py:489-508 | the index is the fold of the commands up to the first of unknown mode |
| PathIndex.LastWriterWins | dwho/classes/inotify.py:440-508 | a path is configured exactly when some ADD wrote it and no later effective REM covers it; the last ADD wins |
| PathIndex.WritesExactly | dwho/classes/inotify.py:284-312 | an ADD writes exactly the directories it reaches with nothing excluded on the way, if all of them can be watched |
| PathIndex.LookupAfterRem | dwho/classes/inotify.py:482-487 | after a removal, paths outside the subtree keep their answers, and the whole subtree answers as its root |
| PathIndex.KeysStayBelow | dwho/classes/inotify.py:440-508 | every key lies at or below its configuration's path, over every run |
| PathIndex.AddedAnswers | dwho/classes/inotify.py:430-462 | the scan answers a path just registered with the configuration just added, in every order of the keys, exactly if no other spelling of it holds another one |
| EventPaths.DispatchedDestination | dwho/classes/inoplugs.py:189-204 | a file handed out by the lookup goes to its path relative to the configured one, below the destination, exactly if the configured text is a prefix that spells its directory plainly, or no prefix and the destination is that directory |
| EventPaths.DoubledSlashStays | dwho/classes/inoplugs.py:198-199 | a path configured with two slashes at its end leaves a dispatched file where it is |
| EventPaths.TrailingDotSwallows | dwho/classes/inoplugs.py:198-199 | a path configured with a dot at its end takes the dot off a dispatched file's name |
| EventPaths.PrefixedDestination | dwho/classes/inoplugs.py:201-204 | with a prefix the destination is the one without it, below what its climb leaves of the prefix; it stays below the prefix exactly if it comes back down through what it climbed out of |
| EventPaths.PrefixEscaped | dwho/classes/inoplugs.py:201-204 | a dispatched file whose climbing destination leaves the prefix |
| EventPaths.TextPrefixSlips | dwho/classes/inoplugs.py:198-199 | outside dispatch, a mere text prefix is mistaken for a parent |
| EventPaths.StaysWithout | dwho/classes/inoplugs.py:189-204 | without options a file stays whatever the prefix; without a destination, or under a text that is no prefix of its path, it keeps its own path, below the prefix if there is one |
| Runtime.DWhoRuntime.Initialize | dwho/runtime.py:35-82 | refusals, then the initialization plan up to the first raising hook, with cleanup |
| Runtime.DWhoRuntime.Boot | dwho/runtime.py:52-77 | the guarded body carries out the plan: watcher, modules, plug-ins, watcher plug-ins |
| Runtime.DWhoRuntime.Start | dwho/runtime.py:84-101 | refusal unless ready, then the start plan up to the first raising hook, with cleanup |
| Runtime.DWhoRuntime.StopAll | dwho/runtime.py:109-126 | every callback runs in order, the first error is raised, a stopped runtime does nothing |
| RuntimeRuns.ExecStopsAtFirst | dwho/runtime.py:51-81 | hooks run in plan order, none after the first that raises, whose error is the outcome |
| RuntimeRuns.ExecPaired | dwho/runtime.py:52-77 | in any execution, a plug-in is registered exactly if its safe_init was called, and the watcher exactly if making it was tried and worked |
| RuntimeRuns.StepKeeps | dwho/runtime.py:35-126 | every operation keeps the lifecycle invariant |
| RuntimeRuns.Lifecycle | dwho/runtime.py:35-126 | in every run no callback runs twice or early, all have run in registration order once stopped; a plug-in is stopped exactly if its own safe_init was called, the watcher exactly if making it was tried and worked |
| RuntimeRuns.StoppedForGood | dwho/runtime.py:111-113 | once stopped, no operation changes anything or calls a hook |
| RuntimeRuns.FailureReported | dwho/runtime.py:35-107 | wherever a run has got to, an initialize or start calls its whole plan, or raises the first hook's error after stopping everything registered, whatever the cleanup raised, or refuses and changes nothing |
| RuntimeRuns.StopRaisesFirst | dwho/runtime.py:109-126 | wherever a run has got to, stop calls all that was registered and raises the error of the first callback that raises, and nothing exactly if none does |
| RuntimeHooks.InitializeCalls | dwho/runtime.py:35-82 | wherever a run has got to, initialize is refused exactly if not new, lacking a registrar its modules need, or given a used extension; otherwise it calls the hooks of the registries in order, or those up to the first that raises |
| RuntimeHooks.BootHooksMembers | dwho/runtime.py:52-77 | those hooks initialize every module and plug-in and, when watching, the watcher and its plug-ins, and set up exactly the enabled ones |
| RuntimeHooks.BootHooksOrder | dwho/runtime.py:52-77 | in the order modules, plug-ins, watcher, its plug-ins, each one's hooks together |
| RuntimeHooks.StartCalls | dwho/runtime.py:84-101 | start is refused exactly unless ready; otherwise it calls its hooks in order, or those up to the first that raises |
| RuntimeHooks.LaunchHooksMembers | dwho/runtime.py:87-97 | those hooks start exactly the enabled plug-ins with autostart and, when watching, the watcher's likewise and the watcher, each once, in the order of the registries, the watcher last |
| Dispatch.DWhoPushNotifications.Select | dwho/classes/notifiers.py:156-183 | succeeds exactly if every name is known, every chosen one can send, and one is chosen; yields the chosen names in order |
| Dispatch.DWhoPushNotifications.AcceptableExact | dwho/classes/notifiers.py:156-183 | a selection is accepted exactly if all names are known, one is chosen, and each chosen one has handlers, none of them a legacy one |
| Dispatch.DWhoPushNotifications.TagsDecide | dwho/classes/notifiers.py:166-171 | `always` chooses, a shared tag chooses, `all` also chooses `never`, and tags asked for together choose what each would |
| Dispatch.ValidTagExact | dwho/classes/notifiers.py:43-43 | a strict tag is an alphanumeric, 1 to 29 characters more among which underscore, dash and dot may be, and an alphanumeric |
| Dispatch.DWhoPushNotifications.PlanEntry | dwho/classes/notifiers.py:225-249 | the plan goes through the selected names in order and through the handlers of each in order |
| Dispatch.DWhoPushNotifications.ConfiguredExact | dwho/classes/notifiers.py:239-241 | the rendered configuration differs from the stored one in its address alone, which is the rendering of the stored address |
| Dispatch.DWhoPushNotifications.NamedVarsExact | dwho/classes/notifiers.py:208-229 | the variables are the caller's, the notification's name, and the caller's once more |
| Documents.Document.DeepCopy | dwho/classes/notifiers.py:238-248 | a copy says the same at every depth and shares no mapping with the original |
| Dispatch.DWhoPushNotifications.CallOne | dwho/classes/notifiers.py:245-249 | a handler gets what the three documents say; whatever it does to its copies, or to anything handed out before, neither they nor what is stored change |
| Dispatch.DWhoPushNotifications.DeliverAll | dwho/classes/notifiers.py:243-253 | each handler gets its own deep copies of configuration, template and variables, in order, until one fails |
| Dispatch.DWhoPushNotifications.RunStrict | dwho/classes/notifiers.py:208-267 | deliveries are a prefix of the plan with unspoilt arguments; a normal return means the whole plan acknowledged; a rendering failure is one, met after everything planned before it; stored configurations are unchanged |
| Dispatch.DWhoPushNotifications.Send | dwho/classes/notifiers.py:185-207 | invalid arguments or selection mean no delivery at all |
| Dispatch.DWhoPushNotifications.CollectedReplies | dwho/classes/notifiers.py:249-252 | the results hold for each name exactly its replies in order |
| ProcessWait.Child.WaitProcess | dwho/classes/notifiers.py:549-559 | polls at most once more than sleeps fit before the deadline, never sleeping longer than the poll interval; every poll but a last, successful one found the child running; False only at or after the deadline; True exactly if the child is collected, and then no poll at or after the deadline found it running |
| ProcessWait.Child.Cleanup | dwho/classes/notifiers.py:659-672 | the child ends up collected; terminated exactly if the first poll finds it running, and killed, after the grace second, exactly if no poll finds it gone |
| ProcessWait.Execute | dwho/classes/notifiers.py:620-674 | every exit after a spawn leaves the child collected; if a poll of the wait finds it gone its exit code decides; if none does it is a timeout past the deadline; what the cleanup finds running is terminated, and killed if never found gone |

## Left out

- The JSON text of session records: a record is stored as its fields and its length; NaN and infinite expiry dates, and Redis returning bytes, do not arise.
- SHA-256, AES, EAX and random bytes: parameters with the laws used (injective, permutation, partial inverse); the lock around each memory operation is the method boundary.
- Redis errors and the instant of expiry itself: a key counts as expired from its deadline on.
- The other SQL operations (`get`, `get_count`, `get_all`, `exists`, `delete`, `create`), ORDER BY, LIMIT and OFFSET: they reuse the condition clause or are single checks.
- SqlMeaning.Eval: LIKE on a number is false and values of different kinds are unequal; collation, implicit conversion and escaping of the table name are the database's.
- Relative paths, `//` roots, symbolic links in normalisation, glob expansion, watches the kernel adds by itself, the worker threads and the timing of the command queue.
- Runtime concurrency: operations are serialized by the caller, as the class demands; copying the configuration and binding route registrars do not fail.
- The legacy notification path, HTTP and Redis delivery, environment and argument assembly, output reader threads; the run's own variables other than the name and the copy of the caller's.
- Documents.Document: a tree of mappings with texts at its leaves; lists, numbers and a mapping that occurs twice in one document are not modelled. Rendering an address or a template is one arbitrary step each.
- ProcessWait.Child.Wait: a blocking wait is taken to return.
- YAML configuration, module loading, pickle, the terminal and web interfaces.
