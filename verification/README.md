# Verified model of `packages/core`

A Dafny model of the parts of `packages/core` whose correctness is a statement about all inputs
or all runs: the SRP-6a key agreement, the inter-process file lock, the token and configuration
stores shared by several processes, the WebSocket client with lock commands and paged pushes on
top of it, the credentials provider, device sync, history paging, and the encodings underneath.

Check the whole project with `dafny verify dfyconfig.toml` (Dafny 4.11).

## How to read it

| module | models |
|---|---|
| `ModArith`, `Srp` | `device-srp.js`: square-and-multiply, `padHex`, enrolment, both sides' premaster secret. SHA-256 and HKDF are arbitrary functions |
| `Hex`, `Base64`, `Decimal`, `Url` | the Node and JavaScript codecs the encodings rest on (section 4 of RFC 4648, UTF-8, `encodeURIComponent`, `URLSearchParams`) |
| `ShareKey` | `sharekey.js`: printer and parser of `ssm://UI?` links |
| `Bits`, `AesCmac` | `aes-cmac.js`: doubling in GF(2^128) and the MAC of RFC 4493, over any block cipher |
| `Canonical` | `canonicalize` of `config.js` |
| `FileLock` | `withFileLock` as atomic steps of many processes, with crashes |
| `Tokens`, `Auth` | `tokens.js` and the state changes of the login flows in `auth.js` |
| `LockedFile` | re-read, merge and write of `tokens.js` and `config.js` as separate steps inside the lock |
| `Config`, `DeviceSync`, `SyncRecords` | `ConfigStore`, the three-way merge, `_syncDevices`, `uniqueName`; what a sync leaves in the records and reports |
| `Transport`, `WsClient`, `LockCommand` | `Hub3WsClient` as steps, its methods on its own fields, and `dispatchTrigger` on top |
| `Credentials` | `makeCognitoCredentialsProvider` |
| `Chunks`, `History` | `subscribeChunks` with `collectChunks` and `getUserDevices`; `getAllDeviceHistory` |

Where the original changes fields step by step (`Hub3WsClient`, `ConfigStore`, `FileTokenStore`,
`dispatchTrigger`, the credentials closure, `subscribeChunks`, the sync loops, `modPow`, `dbl`,
`aesCmac`) the model has classes and loops, proved against functions on values; the claims about
runs are lemmas on those functions. Interleavings are sequences of atomic steps: what happens
between two awaits, or one system call of the lock.

## What the proofs found

Seven statements one would expect are false of the code, and the model gives the exact condition
for each.

- `secure-fs.js:94-99` says the rename-based takeover closes the window in which two processes
  hold the lock. It does not: `FileLock.TwoReapersBreakExclusion` is a run without any delay in
  which two processes are inside `fn`, because the inode is compared only after the rename has
  freed the path. Call a step safe when its reaping rename finds the inode it judged and no
  verdict by age (by mtime, as the source ages it) falls on a lock that a live process holds. A
  step keeps exclusion exactly when it is safe (`FileLock.ExclusiveStepExactlyWhenSafe`), a run
  keeps it throughout exactly when all its steps are (`FileLock.RunIsExclusiveExactlyWhenSafe`),
  and then at most one process is inside `fn` (`FileLock.MutualExclusion`). A pending verdict
  beside a process inside `fn` is always enough to let two in
  (`FileLock.VerdictBesideHolderLetsTwoIn`).
- `secure-fs.js:258-264` says a late holder never removes a new owner's lock. In safe runs the
  release unlinks its own lock only (`FileLock.SafeReleaseUnlinksItsOwn`). In any state with a
  holder past `staleMs` between the two calls of its release, another process's lock is unlinked
  and two get in, with every rename on target (`FileLock.LateReleaseBreaksExclusion`); past
  `staleMs` inside `fn`, the takeover alone suffices (`FileLock.LateHolderIsJoined`). Such states
  are reached from the start (`FileLock.LateHolderIsReachable`). A compare and unlink in one step
  would spare every other lock in any run (`FileLock.AtomicReleaseSparesOthers`). What the comment
  is right about: a holder that was taken over before its stat leaves the new lock alone, in any
  run (`FileLock.TakenOverLockIsLeft`). The restore of a missed rename is no safety net when
  somebody got in meanwhile (`FileLock.RestoreReplacesLock`).
- A token save does not always keep the larger freshness: a save dated before 1970 over a missing
  file lowers it. For a given save the rule holds over every disk state exactly when the save is
  not dated before 1970 (`Tokens.MergeKeepsFreshest`, `Tokens.SaveBefore1970`).
- Deleting a device named like an inherited property (`constructor`, `toString`, ...) does not
  reach the disk, because the merge asks `k in incomingCol`. `Config.DeletedKeyIsGone` has both
  directions, `Config.DeletedConstructorStays` the example.
- `transport.js:225` says no reconnect follows a close by the user. One does exactly when a token
  refresh was under way (`Transport.ClosedForGoodExactlyWhen`).
- Clearing the credentials cache lasts until the next call exactly when no refresh is under way
  (`Credentials.ClearLastsExactlyWhen`).
- `canonicalize` prints a number that overflowed while parsing (`1e999`) as `null`, so equality up
  to key order has to identify the two (`Canonical.Same`, last case).

Under the lock the saves of `tokens.js` and `config.js` are the same saves taken one at a time,
however their reads, merges and writes interleave with other processes and wherever one crashes
(`LockedFile.SavesAreSerial`); with two processes inside, the first save written is lost
(`LockedFile.TwoInsideLoseASave`).

A late reply after a timeout settles the next request of its key
(`Transport.LateReplySettlesNextRequest`), so after a timeout a lock acknowledgement can reach
the next command. In every run acknowledgements meet commands in the order they were sent, and
the k-th meets the k-th for all of them exactly when none of those commands failed or still waits
(`LockCommand.AcksPairExactlyWhenAllReplied`).

## Model

| member | source | states |
|---|---|---|
| `Srp.ModPow` | packages/core/src/device-srp.js:52-61 | The square-and-multiply loop returns base^exp mod N for every base, also a negative one under the truncated remainder; 1 for a non-positive exponent |
| `ModArith.JsRem` | packages/core/src/device-srp.js:54-54 | The truncated remainder is the mathematical one or that minus the modulus, is smaller than the modulus in size, and takes the sign of the dividend |
| `Srp.PadHexKeepsValue` | packages/core/src/device-srp.js:86-91 | padHex keeps the number, has whole bytes and a clear sign bit |
| `Srp.PadHexIsShortest` | packages/core/src/device-srp.js:86-91 | Any sign-safe text of a value is padHex's with zero bytes in front, so padHex is the shortest |
| `Srp.PadHexIsSignedBytes` | packages/core/src/device-srp.js:86-91 | The bytes of padHex are the shortest big-endian two's complement of the number, for every number |
| `Srp.FieldRoundTrip` | packages/core/src/device-srp.js:106-114 | A base64 field made from padHex reads back as the number, with a clear top bit |
| `Srp.GenerateDeviceVerifier` | packages/core/src/device-srp.js:102-115 | The server reads exactly g^x mod N and the salt from the enrolment fields |
| `Srp.GenerateEphemeralA` | packages/core/src/device-srp.js:158-165 | The draw loop stops at the first exponent with g^a not 0 modulo N and returns that pair |
| `Srp.EveryDrawSucceeds` | packages/core/src/device-srp.js:158-165 | In the fixed 3072-bit group no draw is ever rejected |
| `Srp.SrpPasswordSecrets` | packages/core/src/device-srp.js:197-217 | B divisible by N, or u = 0, are the two errors; otherwise u = H(A, B), x = H(salt, inner digest), S = (B - k g^x)^(a + u x) mod N with k = H(N, g), and the key is HKDF of the bytes of S salted with those of u |
| `Srp.PremasterSecretsAgree` | packages/core/src/device-srp.js:197-217 | (B - k g^x)^(a + u x) = (A v^u)^b modulo N for every modulus above 1 and all g, k, x, u, a, b, also when the base is negative |
| `Srp.EnrolThenLogin` | packages/core/src/device-srp.js:197-217 | Enrolment then login: x at login is x at enrolment for any hex text of the stored salt, and both sides derive one secret and key |
| `Srp.HonestLogin` | packages/core/src/device-srp.js:102-217 | The whole exchange with an honest server that takes k, u and the key from bytes by itself, nothing assumed: both have one secret and one key, and the client refuses exactly when B or u is 0 |
| `Srp.HashedBytes` | packages/core/src/device-srp.js:124-140 | k hashes the bytes of N then g, u those of A then B, and x those of the salt then the inner digest |
| `Hex.ToStringValue` | packages/core/src/device-srp.js:87-87 | toString(16) is lower-case, has the value, and has no leading zero |
| `Hex.AnyNumeralIsPadded` | packages/core/src/auth.js:822-830 | Any hex text the server may send for a number is its shortest text with zeros in front, up to case |
| `Hex.DecodeEncode` | packages/core/src/sharekey.js:84-90 | Whole-byte hex survives decoding and encoding up to case |
| `Hex.EncodeDecode` | packages/core/src/sharekey.js:132-142 | Bytes survive being written as hex, in lower case |
| `Hex.DecodeIgnoresCase` | packages/core/src/sharekey.js:84-90 | Letter case never changes the decoded bytes, malformed text included |
| `Base64.RoundTrip` | packages/core/src/sharekey.js:90-90 | Base64 decodes to the bytes it was made from, for every length |
| `Base64.Alphabet` | packages/core/src/sharekey.js:90-102 | Base64 text uses the 64 symbols and padding only, so it contains no separator of a query |
| `Base64.SymbolsInOrder` | packages/core/src/sharekey.js:90-90 | The symbols are those of RFC 4648, section 4, in its order |
| `Url.Utf8RoundTrip` | packages/core/src/sharekey.js:103-103 | UTF-8 decodes to the text it was made from |
| `Url.ComponentRoundTrip` | packages/core/src/sharekey.js:103-103 | A percent-encoded component decodes to the text it was made from |
| `Url.ComponentHasNoSeparator` | packages/core/src/sharekey.js:103-103 | A percent-encoded component contains no separator |
| `Url.ComponentAlphabet` | packages/core/src/sharekey.js:103-103 | A percent-encoded component consists of unreserved characters, the five marks and percent signs |
| `Decimal.ParsePrinted` | packages/core/src/sharekey.js:151-153 | parseInt reads back a printed natural number |
| `Decimal.PrintHasNoLeadingZero` | packages/core/src/sharekey.js:101-101 | A printed natural number has no leading zero |
| `ShareKey.ShareKeyRoundTrip` | packages/core/src/sharekey.js:60-158 | Parsing a built link returns every field up to hex case, for the 4-byte and the 64-byte public key layout |
| `ShareKey.DashedUuidReturns` | packages/core/src/sharekey.js:144-146 | A dashed UUID stripped of dashes is regrouped to itself in capitals |
| `ShareKey.FieldsReturn` | packages/core/src/sharekey.js:131-143 | The four fields come out of the decoded bytes at their offsets |
| `ShareKey.ParsedParts` | packages/core/src/sharekey.js:131-143 | Bytes laid out as type, 16-byte key, 4- or 64-byte public key, 2-byte index and 16-byte UUID are parsed into these parts |
| `ShareKey.ShareKeyFormat` | packages/core/src/sharekey.js:60-105 | The text of a link, byte by byte, with 4 public key bytes from product type 5 on and 64 below, and the guest key in the place of the secret key |
| `ShareKey.BuiltExactlyWhenComplete` | packages/core/src/sharekey.js:60-84 | A link is built exactly when the model is known and no field is missing |
| `AesCmac.Dbl` | packages/core/src/aes-cmac.js:29-36 | The shift loop is multiplication by x in GF(2^128) |
| `AesCmac.PolyRoundTrip` | packages/core/src/aes-cmac.js:29-36 | Blocks and polynomials over GF(2) of degree below 128 correspond one to one |
| `AesCmac.XorInPlace` | packages/core/src/aes-cmac.js:70-76 | The in-place loop xors a block into another |
| `AesCmac.AesCmac` | packages/core/src/aes-cmac.js:44-84 | For any cipher and message the result is the MAC of RFC 4493, section 2.4; a key that is not 16 bytes is refused |
| `AesCmac.LastCbcBlock` | packages/core/src/aes-cmac.js:80-83 | The last block of one CBC pass over the message is what the stepwise loop of RFC 4493 computes |
| `AesCmac.MacIsMaskedCbc` | packages/core/src/aes-cmac.js:54-84 | The MAC is the CBC-MAC of the message whose last block is masked with x L when complete, and padded and masked with x^2 L otherwise, L the polynomial of the encrypted zero block |
| `Canonical.CanonicalExactlyWhenSame` | packages/core/src/config.js:993-1000 | Two values have one canonical text exactly when they are equal up to key order, at any depth |
| `Canonical.StringUnambiguous` | packages/core/src/config.js:994-994 | A quoted string ends where it ends, whatever follows, lone surrogates and escapes included |
| `Canonical.SortedUnique` | packages/core/src/config.js:997-997 | Two strictly sorted lists with the same members are one list |
| `FileLock.MutualExclusion` | packages/core/src/secure-fs.js:186-276 | In every run of safe steps at most one live process is inside fn |
| `FileLock.RunIsExclusiveExactlyWhenSafe` | packages/core/src/secure-fs.js:186-276 | A run keeps the exclusion invariant throughout exactly when every reaping rename finds the inode it judged and no verdict by age falls on a lock that a live process holds |
| `FileLock.TimelyRunIsSafe` | packages/core/src/secure-fs.js:137-172 | When every holder lets go within staleMs of its create, the condition comes down to the renames |
| `FileLock.OwnedStep` | packages/core/src/secure-fs.js:198-247 | Every step keeps: lock files are dated in order, processes only refer to existing ones, and only its creator holds one |
| `FileLock.StaleVerdictMeansUnheld` | packages/core/src/secure-fs.js:137-172 | Unless it is by age on a held lock, a stale verdict falls only on a lock that no live process holds |
| `FileLock.ExclusiveStep` | packages/core/src/secure-fs.js:198-275 | Every safe step keeps the exclusion invariant |
| `FileLock.ExclusiveStepExactlyWhenSafe` | packages/core/src/secure-fs.js:198-275 | A step of an exclusive state keeps the invariant exactly when it is safe |
| `FileLock.AtomicReleaseSparesOthers` | packages/core/src/secure-fs.js:265-274 | In any run, however late the holder, a compare-and-unlink in one step leaves every other holder's lock in place |
| `FileLock.SafeReleaseUnlinksItsOwn` | packages/core/src/secure-fs.js:265-274 | The two-call release unlinks its own lock in every safe run, and nobody holds a lock right after |
| `FileLock.TakenOverLockIsLeft` | packages/core/src/secure-fs.js:258-274 | In any run, safe or not, a release that finds another lock on the path leaves it there, and its process unlinks nothing until it has created a lock again |
| `FileLock.UnlinkFollowsMatch` | packages/core/src/secure-fs.js:265-274 | In any run the unlink of a release follows its own stat that showed the own inode |
| `FileLock.LockLeavesPathOnlyBy` | packages/core/src/secure-fs.js:198-276 | In any run a lock leaves the path only by an unlink of a release, a reaping rename or a restore; no failed write, timeout or crash removes it |
| `FileLock.LateReleaseBreaksExclusion` | packages/core/src/secure-fs.js:265-274 | In any state with a holder past staleMs between the two calls of its release, a takeover, the holder's unlink and one more entrant put two inside fn, with every rename on target |
| `FileLock.LateHolderIsJoined` | packages/core/src/secure-fs.js:137-172 | In any state with a holder past staleMs inside fn, one takeover puts a second process inside, with every rename on target |
| `FileLock.LateHolderIsReachable` | packages/core/src/secure-fs.js:186-276 | A run from the start reaches a holder past staleMs between the two calls of its release |
| `FileLock.LateUnlinkRemovesOthersLock` | packages/core/src/secure-fs.js:269-271 | The unlink of such a holder removes whatever lock is there by then |
| `FileLock.AbandonedLockIsRecovered` | packages/core/src/secure-fs.js:210-254 | A lock whose holder died, or which is too old, is taken over by one process alone in a bounded number of its own steps |
| `FileLock.JudgesAbandoned` | packages/core/src/secure-fs.js:137-172 | A lock is judged stale exactly when it is older than staleMs or its recorded process is gone |
| `FileLock.LockAgesFromItsWrite` | packages/core/src/secure-fs.js:146-151 | A lock ages from the write of its record, however long that took after the create |
| `FileLock.LockIsHandedOver` | packages/core/src/secure-fs.js:186-276 | A waiting process gets the lock that the holder releases |
| `FileLock.MissedRenameIsUndone` | packages/core/src/secure-fs.js:225-245 | A rename that moved another lock than the judged one is undone when nobody steps in between |
| `FileLock.RestoreReplacesLock` | packages/core/src/secure-fs.js:225-245 | The restore goes over a lock created meanwhile, whose holder is then inside beside the old one and leaves the restored lock alone at its release |
| `FileLock.LateRenameLetsTwoIn` | packages/core/src/secure-fs.js:225-245 | A reaper that renames another lock than it judged lets a third process in beside its live holder |
| `FileLock.VerdictBesideHolderLetsTwoIn` | packages/core/src/secure-fs.js:212-247 | In any state that satisfies the invariant, a stale verdict beside a process inside fn means the rename will miss, and two can be inside with no time passing |
| `FileLock.TwoReapersBreakExclusion` | packages/core/src/secure-fs.js:186-276 | From the start, with no time passing, such a run exists |
| `LockedFile.SavesAreSerial` | packages/core/src/tokens.js:188-199 | With re-read, merge and write as separate steps of many processes that may crash, the file after any run with safe lock steps is that of the same saves taken one at a time |
| `LockedFile.TwoInsideLoseASave` | packages/core/src/tokens.js:188-199 | With two processes inside, both re-read before either writes, and the file is that of the last save alone |
| `LockedFile.TokenSavesUnderLock` | packages/core/src/tokens.js:188-207 | Over all such runs of saves and clears, freshness on disk is the maximum written since the last clear, and the four auth fields are those of the last save that reached it |
| `LockedFile.ConfigSavesUnderLock` | packages/core/src/config.js:475-496 | Over all such runs of configuration saves, an entry on disk or written by any save, and deleted by none, is still there (one named `__proto__` aside) |
| `LockedFile.ConfigValueUnderLock` | packages/core/src/config.js:475-496 | and its value is that of the last save that held it |
| `LockedFile.ConfigDeleteUnderLock` | packages/core/src/config.js:475-496 | An entry that the last save deleted is gone, an inherited name aside |
| `Tokens.FileTokenStore.Load` | packages/core/src/tokens.js:60-67 | A missing file is no tokens, a corrupt one an error |
| `Tokens.FileTokenStore.Save` | packages/core/src/tokens.js:188-199 | Save writes the merge with what is on disk; a corrupt file is overwritten |
| `Tokens.FileTokenStore.Clear` | packages/core/src/tokens.js:205-207 | Clear removes the file |
| `Tokens.FreshnessIsLatest` | packages/core/src/tokens.js:94-102 | Freshness is the later of the last refresh and the expiry of the token in ms, 0 where one cannot be read |
| `Tokens.MergedField` | packages/core/src/tokens.js:140-155 | Only the four auth fields can come from the disk, only those it has, and only when it is strictly fresher and the save is no discard |
| `Tokens.MergeKeepsFreshestExactlyWhen` | packages/core/src/tokens.js:94-155 | The exact condition under which a save leaves the larger of the two freshnesses on disk |
| `Tokens.MergeKeepsFreshest` | packages/core/src/tokens.js:94-155 | For one save this holds over every disk state exactly when the save is not dated before 1970 |
| `Tokens.SaveBefore1970` | packages/core/src/tokens.js:94-102 | The concrete save that lowers freshness |
| `Tokens.FreshnessNeverDrops` | packages/core/src/tokens.js:140-199 | Over any run of saves from any snapshots between discards, disk freshness never drops and is the maximum so far |
| `Tokens.TokensOfLastFreshest` | packages/core/src/tokens.js:140-155 | From any disk state not fresher than all of the saves, those a discard leaves included, the four auth fields on disk are those of the last save that reached the maximum, never a mixture |
| `Tokens.FresherDiskKeepsItsTokens` | packages/core/src/tokens.js:140-155 | A disk strictly fresher than every save keeps its four auth fields |
| `Auth.Flow.BeginRefresh` | packages/core/src/auth.js:207-226 | A call answers with a valid token, a refresh request, or the right error, and takes the load step |
| `Auth.Flow.RefreshSucceeded` | packages/core/src/auth.js:276-289 | Updating the snapshot field by field and saving it is the refresh step |
| `Auth.Flow.RefreshRejected` | packages/core/src/auth.js:256-272 | A rejected refresh drops the three tokens whatever the disk holds, and keeps the device |
| `Auth.Flow.LoginVerified` | packages/core/src/auth.js:649-664 | Saving the tokens with the device just confirmed, or none, is the login step |
| `Auth.Flow.DeviceVerified` | packages/core/src/auth.js:597-632 | Saving the device of the snapshot it authenticated with is the device login step |
| `Auth.Flow.DeviceRejected` | packages/core/src/auth.js:612-626 | Dropping a device the server no longer knows is the step of that name |
| `Auth.Flow.Bootstrap` | packages/core/src/auth.js:919-938 | An import is refused exactly when a token is missing or the login check fails; otherwise it is the import step |
| `Auth.Flow.Logout` | packages/core/src/auth.js:875-910 | Logout is the step that leaves no tokens |
| `Auth.StepKeepsConsistent` | packages/core/src/auth.js:592-664 | Every flow keeps: a device key comes with the group key and password of its own confirmation |
| `Auth.StoredDeviceIsOneConfirmation` | packages/core/src/auth.js:207-290 | The same over every run of any number of flows with snapshots of any age |
| `Auth.StoredDeviceNeverBlocksRefresh` | packages/core/src/auth.js:177-195 | So getValidIdToken never refuses stored tokens for their device, and the key it sends has its password on disk |
| `Auth.TokensAfterRejection` | packages/core/src/auth.js:256-272 | After a rejected refresh the next saves bring their own four tokens, whatever was on disk before |
| `Auth.AcceptedExactlyWhenAppTokens` | packages/core/src/auth.js:177-195 | Tokens are accepted exactly when neither audience nor client is another one's and a device has its two secrets |
| `Auth.AnswerIsExact` | packages/core/src/auth.js:207-226 | A token is answered exactly when the stored one outlives now by more than the margin, a refresh is asked for exactly when it does not and there is a refresh token, and else the matching error |
| `Auth.RefreshIsAnswered` | packages/core/src/auth.js:276-290 | After a refresh that the disk is not fresher than, the disk has the rotated tokens and the next call answers the new one |
| `Auth.LoadThenRefresh` | packages/core/src/auth.js:207-289 | Load and refresh together rotate the tokens of the disk and lose nothing else |
| `Auth.RejectionNeedsLogin` | packages/core/src/auth.js:256-272 | After a rejected refresh the next call asks for a login, and the confirmed device is still stored |
| `Auth.DeviceAfterFlow` | packages/core/src/auth.js:592-664 | Which device is on disk right after each flow, whatever others saved before |
| `Auth.LoginIsAnswered` | packages/core/src/auth.js:649-664 | After a login the next call answers its token while it is valid, and then refreshes with its refresh token and device |
| `Auth.BootstrapIsAnswered` | packages/core/src/auth.js:919-938 | After an import the next call answers its token, under the app's client |
| `Config.ConfigStore.Load` | packages/core/src/config.js:403-437 | The first load normalises and remembers the keys; later loads return the cache; the forbidden endpoint is rewritten. Files of the current schema version |
| `Config.ConfigStore.Save` | packages/core/src/config.js:452-497 | Save writes the three-way merge and remembers its own keys |
| `Config.ConfigStore.RemoveLock` | packages/core/src/config.js:664-671 | A removed lock known to the store is gone from the file, unless its name is an inherited one, and is no longer the default lock |
| `Config.SaveIsThreeWay` | packages/core/src/config.js:347-370 | In any run, right after a save every entry of the store is on disk with its value, and another one of the disk stays with its own value unless the store deleted it |
| `Config.SaveKeepsSettings` | packages/core/src/config.js:347-370 | The settings and defaults of a save win over the disk's, and settings it lacks stay |
| `Config.LoadReadsSave` | packages/core/src/config.js:403-497 | A save followed by the first load of another store hands over every entry and setting; the forbidden endpoint is never loaded |
| `Config.OpenedKeepsFile` | packages/core/src/config.js:296-305 | A load keeps every entry and setting of the file but the forbidden endpoint, and fills in the missing ones |
| `Config.MergeCollection` | packages/core/src/config.js:356-367 | The two loops build the key-by-key union without the deleted keys |
| `Config.UndeletedKeyStays` | packages/core/src/config.js:347-370 | A key that no store deletes stays on disk once written, over every run of any number of stores |
| `Config.ValueStaysThroughForeignSaves` | packages/core/src/config.js:347-370 | Its value is untouched by saves of stores that do not hold it |
| `Config.ValueIsLastSavers` | packages/core/src/config.js:347-497 | The value of an entry that no store deletes is that of the last save that held it |
| `Config.BaselineIsRemembered` | packages/core/src/config.js:431-437 | A store remembers the keys of its last load or save until its next save |
| `Config.DeletedKeyIsGone` | packages/core/src/config.js:347-497 | A key a store had at its last load or save and has deleted is gone right after its save; an inherited name stays exactly if the disk had it |
| `Config.DeletedConstructorStays` | packages/core/src/config.js:361-363 | The concrete failure |
| `Config.ProtoIsDropped` | packages/core/src/config.js:360-366 | An entry named __proto__ survives no save over an existing file |
| `DeviceSync.DeviceTable.SyncDevices` | packages/core/src/config.js:685-736 | The two loops compute the specified table and the three reports |
| `DeviceSync.DeviceTable.TakeIn` | packages/core/src/config.js:693-718 | One accepted device updates the entry of its UUID or adds one |
| `DeviceSync.DeviceTable.Prune` | packages/core/src/config.js:720-732 | The prune loop removes exactly the doomed entries, in order |
| `DeviceSync.AcceptedPresent` | packages/core/src/config.js:685-736 | After a sync every accepted device has an entry |
| `DeviceSync.UuidsStayDistinct` | packages/core/src/config.js:692-718 | Normalised UUIDs stay distinct |
| `DeviceSync.NamesStayDistinct` | packages/core/src/config.js:714-717 | Names stay distinct and no device loses its name before pruning |
| `DeviceSync.SyncedNamesAreDistinct` | packages/core/src/config.js:685-736 | The table a sync leaves, pruning included, has distinct names |
| `DeviceSync.UnmentionedEntryStays` | packages/core/src/config.js:720-732 | An entry the list does not mention stays as it is unless pruning is on, it is in the synced view and unprotected |
| `DeviceSync.EntryKeepsItsName` | packages/core/src/config.js:685-736 | Whatever the list says, an entry keeps its name and UUID unless pruning is on, the list omits it, it is in the synced view and unprotected |
| `DeviceSync.OtherViewStays` | packages/core/src/config.js:720-732 | The lock sync and the Hub3 sync each leave every entry outside their own view under its name, mentioned by the list or not |
| `DeviceSync.PointedHub3Stays` | packages/core/src/config.js:744-770 | A Hub3 that a remote points at keeps its name through both syncs, mentioned by the list or not |
| `DeviceSync.ReplacedExactlyWhenChanged` | packages/core/src/config.js:702-711 | An entry is replaced exactly when it differs in more than key order |
| `DeviceSync.SettledStays` | packages/core/src/config.js:698-712 | Syncing a device again over its result finds nothing to change, local-only properties included |
| `DeviceSync.SyncTwice` | packages/core/src/config.js:685-736 | Repeating a sync on a list with distinct UUIDs changes nothing and reports nothing |
| `DeviceSync.FindUniqueName` | packages/core/src/config.js:1032-1037 | The loop terminates on the finite name set and returns the first free name |
| `DeviceSync.UniqueNameIsFresh` | packages/core/src/config.js:1032-1037 | The name is neither a key nor an inherited name |
| `DeviceSync.NormalizedExactlyWhenSame` | packages/core/src/crypto.js:153-155 | Two UUIDs normalise alike exactly when they are equal up to dashes and the case of letters |
| `SyncRecords.SyncedRecordIsServers` | packages/core/src/config.js:692-718 | After a sync the record of every accepted device has the server's latest value of every property except the three local ones, what the server dropped is gone, and stateInfo is never stored |
| `SyncRecords.LocalPropertyStays` | packages/core/src/config.js:176-176 | A stored category, ssmPublicKey or keyIndex survives every sync that mentions the entry |
| `SyncRecords.ReportsAreExact` | packages/core/src/config.js:685-736 | Added are exactly the new names, removed exactly those that are gone, and updated exactly those with another record |
| `SyncRecords.DefaultFollowsTable` | packages/core/src/config.js:714-731 | The default is never a removed name, stays if set and not removed, and is set only by a sync that may |
| `SyncRecords.FirstLockIsDefault` | packages/core/src/config.js:744-770 | The first lock taken in becomes the default lock; a Hub3 never does |
| `SyncRecords.WhatIsAccepted` | packages/core/src/config.js:744-770 | A lock sync takes in exactly the listed models with a UUID and a key, a Hub3 sync the two Hub3 models with a UUID |
| `SyncRecords.ViewOfRecord` | packages/core/src/config.js:968-985 | A record's view is its category, or that of its model, and a lock without a model |
| `Transport.EveryRunIsValid` | packages/core/src/transport.js:262-278 | In every run a request is unsettled exactly while its resolver sits once in its key's non-empty queue with its timer armed, and no resolver runs twice |
| `Transport.SettlementIsFinal` | packages/core/src/transport.js:262-278 | A settled request keeps its settlement |
| `Transport.ReplySettlesOldest` | packages/core/src/transport.js:526-533 | A reply settles the oldest outstanding request of its key and nothing else |
| `Transport.ReconnectKeepsAndCloseRejects` | packages/core/src/transport.js:486-502 | An active reconnect keeps every outstanding request; any close rejects them all |
| `Transport.LateReplySettlesNextRequest` | packages/core/src/transport.js:271-274 | After a timeout, the late reply settles the next request of the key |
| `Transport.EveryPayloadIsInOnePlace` | packages/core/src/transport.js:584-621 | At any time each accepted payload is exactly one of written, dropped, discarded or queued |
| `Transport.QueueStaysAged` | packages/core/src/transport.js:584-597 | With a clock that never goes back the queue is ordered by age |
| `Transport.OpenDropsExactlyExpired` | packages/core/src/transport.js:599-608 | Dropping from the head removes exactly the entries older than a minute |
| `Transport.WireOrderIsAcceptanceOrder` | packages/core/src/transport.js:584-621 | If no write throws, payloads go out in the order they were accepted |
| `Transport.EveryClientIsFine` | packages/core/src/transport.js:136-621 | The three invariants for every run of a new client |
| `Transport.EveryQuietClientKeepsOrder` | packages/core/src/transport.js:584-621 | A new client none of whose writes throws writes in acceptance order |
| `Transport.PutAwayIsNeverWritten` | packages/core/src/transport.js:226-241 | After a close by the user, or a loss before the initial connect is answered, the queue is empty and nothing accepted before and unwritten then is ever written |
| `Transport.GoneIsNeverWritten` | packages/core/src/transport.js:599-608 | What was dropped or discarded is never written, in any run |
| `Transport.OthersKeepPayloads` | packages/core/src/transport.js:584-621 | No other step discards anything: a queued payload is written, stays queued, or is dropped by an open, and a new one is written or queued |
| `Transport.ClosedForGoodExactlyWhen` | packages/core/src/transport.js:226-253 | After such a close no run without a connect has a socket or writes again, exactly when no token refresh was under way and no reconnect timer is left |
| `Transport.FreshStartAfterClose` | packages/core/src/transport.js:203-253 | After it a connect works again, and the next send is all that goes out |
| `Transport.LostConnectionComesBack` | packages/core/src/transport.js:407-480 | Which losses arm the reconnect timer, and that it brings the connection back and writes what was queued within a minute |
| `Transport.ReconnectComesBack` | packages/core/src/transport.js:486-502 | An active reconnect does the same at once, and nothing after a close by the user |
| `Transport.ConnectThenSendIsWritten` | packages/core/src/transport.js:203-223 | Connect and open leave a client connected with nothing queued, and a send goes straight out |
| `Transport.ConnectAgainChangesNothing` | packages/core/src/transport.js:203-206 | A connect while one is pending or the client is open changes nothing |
| `Transport.EveryLinkIsOk` | packages/core/src/transport.js:203-253 | In every run a pending initial connect excludes an open status and a close by the user |
| `Transport.FlushDropsExpired` | packages/core/src/transport.js:599-608 | A flush drops a payload exactly when more than a minute has passed since it was queued |
| `WsClient.Hub3WsClient.constructor` | packages/core/src/transport.js:140-188 | The new client is in the initial state |
| `WsClient.Hub3WsClient.Connect` | packages/core/src/transport.js:203-223 | Connect opens a socket unless one is open or being opened |
| `WsClient.Hub3WsClient.Ask` | packages/core/src/transport.js:262-278 | A request registers its resolver and timer and sends or queues its payload |
| `WsClient.Hub3WsClient.Send` | packages/core/src/transport.js:284-286 | A send writes or queues its payload |
| `WsClient.Hub3WsClient.OnMessage` | packages/core/src/transport.js:507-533 | A message settles the first resolver of its key |
| `WsClient.Hub3WsClient.OnTimeout` | packages/core/src/transport.js:271-274 | A timeout settles its request and removes its resolver |
| `WsClient.Hub3WsClient.UnregisterPending` | packages/core/src/transport.js:563-569 | The resolver is spliced out and an empty queue removed |
| `WsClient.Hub3WsClient.RejectAllPending` | packages/core/src/transport.js:572-579 | Every resolver runs exactly once and the map is emptied |
| `WsClient.Hub3WsClient.FlushMessageQueue` | packages/core/src/transport.js:599-621 | The two loops drop the stale head and write in order until a write throws |
| `WsClient.Hub3WsClient.OnOpen` | packages/core/src/transport.js:378-395 | An open flushes the queue and answers the initial connect |
| `WsClient.Hub3WsClient.OnClose` | packages/core/src/transport.js:407-436 | A close rejects all requests, and discards the queue when the initial connect fails |
| `WsClient.Hub3WsClient.Close` | packages/core/src/transport.js:226-253 | A close by the user rejects all requests and discards the queue |
| `WsClient.Hub3WsClient.Reconnect` | packages/core/src/transport.js:486-502 | An active reconnect opens a new socket unless the user closed the client |
| `LockCommand.DispatchTrigger` | packages/core/src/lock.js:62-89 | A command on a connection that is not open is refused and nothing is queued; otherwise it is sent and subscribed |
| `LockCommand.Trigger.Settle` | packages/core/src/lock.js:71-76 | Only the first outcome counts, and it ends the subscription |
| `LockCommand.Trigger.OnStatePush` | packages/core/src/lock.js:81-85 | A push settles a command when it names its device or none |
| `LockCommand.Trigger.OnRequestSettled` | packages/core/src/lock.js:89-108 | The acknowledgement, refusal, timeout or failure becomes the outcome |
| `LockCommand.EveryRunIsOrderly` | packages/core/src/lock.js:62-110 | With any number of commands in flight, every run keeps the invariant behind the next four rows, timeouts and disconnects included |
| `LockCommand.CommandsEndAsTheyShould` | packages/core/src/lock.js:62-110 | In every run a command ends only by a push for its device or for none, or by its own request: acknowledged by a reply that does not refuse, rejected by one that does, timed out, or failed with the connection |
| `LockCommand.AcksMeetCommandsInOrder` | packages/core/src/lock.js:87-110 | In every run the commands that acknowledgements settled form an increasing list with every reply on it, and whatever still waits was sent later |
| `LockCommand.AcksPairExactlyWhenAllReplied` | packages/core/src/lock.js:87-110 | The k-th acknowledgement met the k-th command for all of them exactly when the first commands, as many as there were acknowledgements, were all answered |
| `LockCommand.CalmRunsPair` | packages/core/src/lock.js:87-110 | Without timeouts and disconnects the k-th acknowledgement is the k-th command's own, even one a push settled earlier |
| `LockCommand.PushSettlesExactlyConcerned` | packages/core/src/lock.js:81-85 | In any run a push settles exactly the unsettled commands of its device, up to dashes and case, or all when it names none |
| `LockCommand.DeviceIsTheOneSentTo` | packages/core/src/lock.js:62-69 | The device of a command is the one it was dispatched to, in every run |
| `LockCommand.ContinuationEnds` | packages/core/src/lock.js:89-108 | Once the continuation of its settled request runs, a command has ended |
| `LockCommand.OutcomeIsFinal` | packages/core/src/lock.js:71-76 | An outcome never changes |
| `Credentials.Provider.GetCredentials` | packages/core/src/aws-credentials.js:426-432 | A call is answered from the cache, joins the refresh in flight, or starts one |
| `Credentials.Provider.OnToken` | packages/core/src/aws-credentials.js:380-385 | With a token the refresh goes on with the identity known by then, or looks one up |
| `Credentials.Provider.OnIdentity` | packages/core/src/aws-credentials.js:385-400 | An identity leads to the matching attempt at credentials, and a second look-up is counted |
| `Credentials.Provider.OnCredentials` | packages/core/src/aws-credentials.js:386-421 | Credentials are cached with their identity; a recoverable error forgets the identity once |
| `Credentials.Provider.OnFinally` | packages/core/src/aws-credentials.js:428-430 | When a refresh is over the next call may start another |
| `Credentials.Provider.ClearTheCache` | packages/core/src/aws-credentials.js:434-440 | Clearing drops credentials and identity, and the persisted copy when the store accepts it |
| `Credentials.SingleFlight` | packages/core/src/aws-credentials.js:426-432 | In every run at most one refresh is in flight |
| `Credentials.CallDuringRefreshJoins` | packages/core/src/aws-credentials.js:426-432 | A call during a refresh starts no second one |
| `Credentials.CallStartsRefreshExactlyWhen` | packages/core/src/aws-credentials.js:426-432 | In any run a call starts a refresh exactly when nothing is cached beyond the margin and none is in flight |
| `Credentials.RefreshDelivers` | packages/core/src/aws-credentials.js:380-421 | A refresh asks with the known identity, looking one up only when none is, and its callers get the issued credentials, which are cached and persisted |
| `Credentials.RecoversExactlyWhen` | packages/core/src/aws-credentials.js:386-402 | A first refusal is recovered from exactly when it is ResourceNotFound or Validation; any other, and any second one, is the answer |
| `Credentials.ClearLastsExactlyWhen` | packages/core/src/aws-credentials.js:434-440 | A cleared cache stays empty until the next call exactly when no refresh is under way |
| `Credentials.RefusedWritesKeepStore` | packages/core/src/aws-credentials.js:404-418 | A refused write leaves the persisted copy as it was |
| `Credentials.AnswerIsSharedAndFinal` | packages/core/src/aws-credentials.js:426-432 | All callers of one refresh get one answer, which never changes |
| `Credentials.CachedAnswerHasMargin` | packages/core/src/aws-credentials.js:427-427 | A cached answer is valid for longer than the margin |
| `Credentials.IdentityResolvedAgainAtMostOnce` | packages/core/src/aws-credentials.js:385-402 | A refresh resolves the identity again at most once, and only after one of the two recoverable errors |
| `Credentials.RestartKeepsCredentials` | packages/core/src/aws-credentials.js:304-330 | Over every run whose writes are accepted, a process started at any moment has the same cached credentials and known identity |
| `Chunks.Collector.OnPush` | packages/core/src/org.js:820-843 | A push is refused, gathered, or completes the collection |
| `Chunks.Collector.OnFrame` | packages/core/src/util.js:172-186 | An error frame of the own action and operation ends the collection; others are ignored |
| `Chunks.Collector.OnTimeout` | packages/core/src/util.js:143-155 | A timeout rejects, or resolves with the partial list when asked to |
| `Chunks.NothingIsLeftBehind` | packages/core/src/util.js:125-142 | Unsettled it holds its timer and subscriptions, settled it holds none |
| `Chunks.SettlesOnce` | packages/core/src/util.js:136-142 | Nothing changes after it settled |
| `Chunks.SettlesAtFirstEnd` | packages/core/src/org.js:790-847 | For every sequence of events the first one that ends the collection settles it with the pages since the latest page 1, or all pages when appending only |
| `Chunks.WholeListIsCollected` | packages/core/src/org.js:820-843 | A list pushed page by page leaves the collection unsettled until the last page, which resolves it with exactly that list and its length |
| `Chunks.UnsettledWhileNothingEnds` | packages/core/src/devices.js:77-108 | Without such an event it stays unsettled and holds that list |
| `Chunks.CollectedAppend` | packages/core/src/org.js:832-833 | One more page extends the reference list as the handler does |
| `History.GetAllDeviceHistory` | packages/core/src/devices.js:360-380 | Against a server that pages a strictly descending list the loop returns exactly its first min(length, maxPages * pageSize) records |
| `History.OlderThanSeen` | packages/core/src/devices.js:376-377 | Asking for what is older than the last record seen gives the rest of the list |

## Left out

- FileLock: the lock is a step system, not one sequential method, since its claims are about interleavings; directory creation, file modes, the deadline's error text and partial writes of the record are not modelled, a clock that goes back, reused inode numbers and reused pids are assumed away.
- FileLock.MutualExclusion: speaks of runs of safe steps, because these are exactly the runs that keep the invariant (FileLock.RunIsExclusiveExactlyWhenSafe); the others include FileLock.TwoReapersBreakExclusion and FileLock.LateReleaseBreaksExclusion.
- FileLock.AtomicReleaseSparesOthers: speaks of a compare and unlink in one step; with the two calls of the source the statement holds in safe runs (FileLock.SafeReleaseUnlinksItsOwn) and fails for any late holder (FileLock.LateReleaseBreaksExclusion).
- LockCommand.CalmRunsPair: speaks of runs without timeouts and disconnects, because after one a late acknowledgement shifts to the next command (Transport.LateReplySettlesNextRequest); the condition for all runs is LockCommand.AcksPairExactlyWhenAllReplied.
- LockedFile: the write is one step, as it is a rename of a finished temporary file; a file that cannot be parsed counts as no file, as the merge treats it.
- LockCommand.DispatchTrigger: the signature, history and command number of the frame are not modelled.
- Transport: heartbeats, idle and sleep detection, back-off delays and the token refresh callback appear only as the steps they cause (reconnect, socket opens or closes); subscribers and listeners of other messages are outside.
- WsClient.Hub3WsClient.Connect: the moment between the answer of the initial connect and the clearing of its promise is not modelled.
- WsClient.Hub3WsClient.OnMessage: the JSON parsing of a raw message and the fan-out to subscribers and listeners are not part of it.
- Config.ConfigStore.Load: migration of version 1 files, the derived views written by `_reproject` and a `default` object that lacks one of its two fields are not modelled.
- Config: `init` is not modelled; edits between load and save are arbitrary. A store whose own object had its prototype replaced through a name `__proto__` is not modelled.
- DeviceSync: baseName and the position of a new key in the object are parameters; lower-casing in normalizeUuid is that of ASCII letters; the saving at the end is Config's; remotes sync is left out because it has the same shape.
- Tokens: dates and token claims are read by arbitrary functions; a stored property is missing, null or a string.
- Auth: the HTTP calls and the pending-login file are not modelled; an imported triple counts as one confirmation.
- Credentials: the two service calls are results of any kind; corrupt persisted records are not modelled.
- Chunks: what parseChunk reads from a message is an input; the spread of a result object is its fields.
- History: the server is a function that pages a fixed list; a list that changes between pages is not modelled.
- ShareKey: a key level given as text, and a device model named like an inherited property, are not modelled; texts are sequences of Unicode scalar values, so the URIError of encodeURIComponent on a lone surrogate does not arise.
- Base64: how Node treats text after a padding character is not modelled; the round trips do not meet it.
- Url: a malformed UTF-8 sequence decodes to one replacement character per offending byte, which is coarser than the decoder's; the round trips do not meet it.
- Srp: SHA-256, HMAC and HKDF are arbitrary functions and no secrecy is claimed; random draws are a parameter.
- AesCmac: the block cipher is an arbitrary function on 16-byte blocks.
- Canonical: a number is identified by its JavaScript rendering, so -0 and 0 are one; values that JSON cannot hold (undefined, functions) are not modelled.
- The command line, the serve daemon, BLE, HTTP and SigV4 code are not modelled. `access.js`, `iot.js`, `ir.js`, `company.js`, `payment.js`, `schedule.js` and `account.js` build requests and pass answers on, with no property of their own.
