# Orbis agent: verified model

A Dafny model of the parts of the Orbis monitoring agent whose guarantees rest on ordering,
interleaving or bit arithmetic: the offline message buffer, MQTT sessions and reconnection, the
token codec, the configuration patcher, the subnet scan, self-update, the command lifecycle,
plugin handles and log batches.

`dafny verify dfyconfig.toml` verifies the whole project.

| file | what it models |
|---|---|
| `Buffer.dfy` | the buffer as one thread sees it: store, prune, batched flush |
| `BufferProtocol.dfy` | the buffer under any number of senders and flushers |
| `MqttClient.dfy`, `Backoff.dfy` | connect, subscribe and the reconnect loop; its delays |
| `MqttSession.dfy` | connect, loss, reconnect, subscribe and disconnect, interleaved |
| `Base64.dfy` | the token codec, with the decoder's wrapping accumulator, and the token framing |
| `Replacement.dfy` | leftmost, non-overlapping replacement for any compiled pattern |
| `ConfigPattern.dfy` | the pattern `key\s*=\s*"[^"]*"` as a scanner |
| `PatchOrder.dfy` | when two keys may be patched in either order |
| `ConfigManager.dfy` | `save()` on the fields `device_id` and `token` |
| `Subnet.dfy`, `AnyMask.dfy` | mask to prefix, prefix to hosts, in 32-bit arithmetic; masks that are not contiguous |
| `ScanWindow.dfy` | the window of 32 probes, and a whole scan of the local network |
| `UpdateManager.dfy` | backup, download, verification, replacement, restart, rollback |
| `CommandExecutor.dfy` | one command from payload to statuses, and the update it may start |
| `CommandQueue.dfy` | callback, worker and stop around the command queue, interleaved |
| `PluginLoader.dfy` | loading, collecting and unloading, with a record of every handle |
| `LogCollector.dfy` | filtering, batching, and batches on their way out |
| `Arithmetic.dfy`, `Positions.dfy`, `Options.dfy` | powers of two, division facts, ascending positions, an option type |

Concurrent code is a state machine: one step is one region under a mutex, one atomic access, or
one call outside a lock, and a theorem speaks of every run. Code that one thread runs is a method
proved against a specification. C++ exceptions are results, and what the outside world answers
(broker, files, plugins, processes, completion order) is an arbitrary function or choice.

## What the proofs found

* Patching `device_id` and `token` does not commute on every file. It does exactly when no match of
  one field starts inside a leftmost match of the other (`PatchOrder.CommuteIffUntangled`);
  `ConfigManager.OrderCanMatter` gives files where it fails.
* The documented delay `min(max, min * 2^attempt)` (the repository's README.md:122) leaves out the
  cap of the exponent at 10. Code and formula agree at every attempt exactly when `min` is 0, or
  positive with `max <= 1024 * min` (`Backoff.DocumentedFormulaIff`).
* The table is pruned when it already holds 100,000 rows, before the insert, so it never exceeds the
  cap; the repository's README.md:132 says when it exceeds 100,000.
* A client can stay disconnected for good: exactly when a reconnect loop ends because it finds the
  flag up (`MqttSession.StuckExactly`). That takes a session lost between its connect and the raising
  of its flag (`MisledMeansEarlyLoss`), and it happens (`EarlyLossCanStick`).
* An update whose new binary is already in place ends without any result message when setting the
  mode bits throws (`UpdateManager.ModeFailure`). `EndingExactly` states all runs that end without
  one: also a removal that throws, and a failed backup whose error text, a path included, is not UTF-8.
* After a rename that failed, the live file is intact and is overwritten by the rollback all the same
  (`UpdateManager.UpdateManager.KeepOld`).
* A shell command without a payload runs the command line `null`: a missing payload reads as JSON null,
  whose text is taken as the command (`CommandExecutor.ShellCommand`).
* A stop that notifies between the worker's test and its sleep is missed
  (`CommandQueue.WakeUpCanBeLost`), and the worker fails to end exactly when that happens and nothing
  wakes it afterwards (`StopMissedExactly`).
* A worker that ends after a stop leaves exactly those commands unexecuted that arrived after its last
  look at the stop flag (`CommandQueue.StopDropsOnlyLate`).
* A mask that is not contiguous makes the scan leave the subnet, of every interface address, exactly
  when its low byte is not that of the contiguous mask (`AnyMask.StaysInsideIff`).
* A plugin that throws while it is asked for its name or version leaks its handle; otherwise every
  handle is closed exactly once (`PluginLoader.Live`).
* Malformed JSON does not unload a plugin, as src/plugins/PluginLoader.hpp:39 says it does: the parse
  error is caught and the plugin kept (`PluginLoader.MalformedIsKept`).

## Model

| member | source | states |
|---|---|---|
| Buffer.LocalBuffer.Store | src/buffer/LocalBuffer.cpp:76-97 | the new row has a fresh id and comes last; before it, a full table lost its oldest rows; at most 100,000 rows remain |
| Buffer.LocalBuffer.PruneIfNeeded | src/buffer/LocalBuffer.cpp:176-195 | from 100,000 rows on, exactly the newest 99,000 stay; below, nothing changes |
| Buffer.PruneKeepsNewest | src/buffer/LocalBuffer.cpp:183-193 | pruning keeps the newest rows, acts exactly from 100,000 rows on, and then leaves 99,000 |
| Buffer.LocalBuffer.FlushInBatches | src/buffer/LocalBuffer.cpp:103-156 | for every positive batch size: publishes the longest prefix the link accepts, deletes exactly it, returns its length, stops at the first refusal |
| Buffer.LocalBuffer.Flush | src/buffer/LocalBuffer.cpp:103-156 | the same with batches of 50 |
| Buffer.LocalBuffer.PublishThenDelete | src/buffer/LocalBuffer.cpp:129-146 | a row is deleted exactly when the link took it, and no other row is |
| Buffer.LocalBuffer.FlushBatch | src/buffer/LocalBuffer.cpp:129-146 | a batch goes out up to the first refusal, and the table shrinks by exactly what went out |
| Buffer.DeleteAtFront | src/buffer/LocalBuffer.cpp:136-144 | deleting an id at or below the oldest row removes that row or nothing |
| Buffer.DeleteByIdKeepsOthers | src/buffer/LocalBuffer.cpp:138-142 | a delete by id keeps exactly the rows with another id |
| Buffer.DeleteByIdKeepsOrder | src/buffer/LocalBuffer.cpp:138-142 | and keeps their order |
| Buffer.StoredGrew | src/buffer/LocalBuffer.cpp:76-97 | any number of stores, one after the other, appends their rows in order; old rows leave only beyond 100,000, oldest first, and then more than 99,000 rows stay |
| Buffer.GrewWithinCap | src/buffer/LocalBuffer.cpp:76-97 | as long as there are no more than 100,000 rows in all, none is missing |
| Buffer.GrewThen | src/buffer/LocalBuffer.cpp:76-97 | two such stretches of stores are one |
| BufferProtocol.WaterMark | src/buffer/LocalBuffer.cpp:50 | in every reachable state of any interleaving the table is exactly the rows ever stored above a mark |
| BufferProtocol.DeleteRemovesOldestOrNothing | src/buffer/LocalBuffer.cpp:129-146 | whatever ran since its batch was read, a flusher's delete removes the oldest row or nothing |
| BufferProtocol.StoreKeepsCap | src/buffer/LocalBuffer.cpp:76-97 | in every interleaving a store leaves at most 100,000 rows and removes an oldest-first prefix |
| BufferProtocol.Retention | src/buffer/LocalBuffer.cpp:176-195 | behind a pruned row come 99,000 newer rows and the one whose store pruned it; pruning stores are 1,000 stores apart |
| BufferProtocol.FlusherOrder | src/buffer/LocalBuffer.cpp:106-150 | each flusher publishes strictly increasing ids, whatever the others do |
| BufferProtocol.AtMostOncePerFlusher | src/main.cpp:541-544 | a row is published at most once per flusher, so at most f times with f flushers |
| BufferProtocol.AtLeastOnce | src/main.cpp:610-615 | every message of a finished publish call was handed to the client library, or each of its stored copies is in the table, was handed over, or was pruned |
| BufferProtocol.SenderStory | src/main.cpp:610-615 | a call ends posted exactly if its one attempt was accepted, and goes to the buffer exactly if it was refused |
| BufferProtocol.SenderKeepsMessage | src/main.cpp:610-615 | whatever runs in between, a call goes on with its own topic, payload and number of copies |
| BufferProtocol.DirectOnce | src/main.cpp:610-615 | a call hands its message to the client library directly at most once |
| BufferProtocol.RefusalEndsFlusher | src/buffer/LocalBuffer.cpp:129-150 | a refused publish ends its flusher: in every continuation it publishes nothing more |
| BufferProtocol.FinishedFor | src/buffer/LocalBuffer.cpp:106-150 | a flusher ends only at a refusal or on an empty table |
| BufferProtocol.FetchReads | src/buffer/LocalBuffer.cpp:106-127 | a fetch reads the 50 oldest rows, or all |
| BufferProtocol.StepKeepsInv | src/buffer/LocalBuffer.cpp:76-156 | every atomic step keeps the invariants on table, batches, order, losses, senders and prunes |
| BufferProtocol.PrunesApart | src/buffer/LocalBuffer.cpp:183-184 | distances of 1,000 stores between neighbouring prunes hold between any two |
| BufferProtocol.ReplaysBounded | src/main.cpp:541-544 | a row replayed at most once by each flusher is replayed at most as often as there are flushers |
| MqttSession.ResubscriptionComplete | src/mqtt/MQTTClient.cpp:98-113 | up to a disconnect, outside all windows a live session is subscribed to exactly the recorded topics, each recorded once |
| MqttSession.NeverTwoReconnectors | src/mqtt/MQTTClient.cpp:216-229 | two threads never hold the right to dial, and none while a session lives |
| MqttSession.StuckExactly | src/mqtt/MQTTClient.cpp:266 | until shutdown or disconnect, the client is stuck (session lost, nobody will ever dial) exactly when a reconnect loop ended because it found the flag up |
| MqttSession.DownExactlyWhenReconnecting | src/mqtt/MQTTClient.cpp:260-317 | as long as no loop ended that way, after the first connect and until shutdown or disconnect the session is down exactly when one thread is reconnecting |
| MqttSession.MisledMeansEarlyLoss | src/mqtt/MQTTClient.cpp:301-303 | a loop finds the flag up only in runs that lose a session before its flag was raised |
| MqttSession.StuckForever | src/mqtt/MQTTClient.cpp:266 | once nobody will dial, no continuation of the run connects again |
| MqttSession.ComesBack | src/mqtt/MQTTClient.cpp:216-317 | a thread that has the right to dial, left alone with a broker that accepts, ends with a live session, the flag up and every recorded topic subscribed |
| MqttSession.ReplayEnds | src/mqtt/MQTTClient.cpp:305-310 | a replay left alone subscribes all recorded topics and frees the mutex |
| MqttSession.ShutdownHonoured | src/mqtt/MQTTClient.cpp:265-274 | after a shutdown no thread starts to dial: only a dial already under way can make one more session |
| MqttSession.LoopsWindDown | src/mqtt/MQTTClient.cpp:224-274 | after a shutdown no thread enters the reconnect loop, and none in it waits again |
| MqttSession.DisconnectCloses | src/mqtt/MQTTClient.cpp:119-124 | a disconnect that finds the flag up ends the session and then lowers the flag |
| MqttSession.LockedWhileReplaying | src/mqtt/MQTTClient.cpp:108-113 | a thread holds the subscription mutex exactly while it replays |
| MqttSession.SubscribeRecords | src/mqtt/MQTTClient.cpp:171-180 | a call of subscribe() past its first region has recorded its topic for good |
| MqttSession.EarlyLossCanStick | src/mqtt/MQTTClient.cpp:301-303 | a concrete run that ends disconnected with nobody reconnecting |
| MqttSession.StepKeepsResubscribed | src/mqtt/MQTTClient.cpp:171-194 | every step keeps each recorded topic subscribed, or a thread bound to subscribe it |
| MqttSession.StepKeepsOneReconnector | src/mqtt/MQTTClient.cpp:216-229 | every step keeps the right to dial with one thread at most |
| MqttClient.MqttClientWrapper.Resubscribe | src/mqtt/MQTTClient.cpp:108-113 | the recorded subscriptions are granted in order |
| MqttClient.MqttClientWrapper.Subscribe | src/mqtt/MQTTClient.cpp:171-194 | a topic is recorded once, with its first QoS, also when offline; it is subscribed exactly when connected |
| MqttClient.MqttClientWrapper.Connect | src/mqtt/MQTTClient.cpp:98-117 | a new session is granted exactly the recorded subscriptions |
| MqttClient.MqttClientWrapper.ReconnectLoop | src/mqtt/MQTTClient.cpp:260-318 | for a loop that ends: one wait of the exact delay before each dial, all dials refused but the accepted last one, no shutdown seen before it ended, and the subscriptions of the session it ends with |
| Backoff.NoOverflowIff | src/mqtt/MQTTClient.cpp:267-269 | the product stays in 32 bits for every attempt exactly when 1024 * min does |
| Backoff.NeverFallsIff | src/mqtt/MQTTClient.cpp:267-269 | delays never fall exactly when the minimum is not negative, or the maximum is at most 1024 times it |
| Backoff.DocumentedFormulaIff | README.md:122 | the code equals the documented formula at every attempt exactly when the exponent cap cannot show |
| Backoff.UncappedFalls | README.md:122 | for a negative minimum the documented formula falls below every bound |
| Backoff.TotalDelayClosedForm | src/mqtt/MQTTClient.cpp:265-272 | for every maximum: the first n delays sum to min * (2^k - 1) + (n - k) * longest, with longest = min(max, 1024 * min) and k the first attempt that reaches it |
| Backoff.DelayAround | src/mqtt/MQTTClient.cpp:267-269 | below the first saturated attempt the delay doubles, from it on it is the longest |
| Backoff.CapIsMaximum | src/mqtt/MQTTClient.cpp:267-269 | the cap of the exponent acts like a maximum of 1024 * min |
| Backoff.SaturatesByTen | src/mqtt/MQTTClient.cpp:269 | the longest delay is reached by the tenth attempt |
| Base64.TablesInverse | src/config/ConfigManager.cpp:32-58 | the decoder's table inverts the encoder's on all 64 symbols |
| Base64.SymbolIs | src/config/ConfigManager.cpp:32-33 | the encoder's table is the 64-character alphabet of RFC 4648 |
| Base64.LookupIs | src/config/ConfigManager.cpp:49-58 | the decoder's table gives each character its place in that alphabet, and -1 to every other |
| Base64.SextetsCutGroup | src/config/ConfigManager.cpp:40-43 | the four shifted and masked sextets are the base-64 digits of the 24-bit group (section 4 of RFC 4648) |
| Base64.B64Encode | src/config/ConfigManager.cpp:31-46 | the loop writes the groups of the specification |
| Base64.EncodeDigits | src/config/ConfigManager.cpp:36-44 | every four characters are the base-64 digits of the 24-bit value of three bytes, with padding exactly for the missing ones |
| Base64.EncodeLength | src/config/ConfigManager.cpp:35 | the output has 4 characters per started group of 3 bytes |
| Base64.EncodeShape | src/config/ConfigManager.cpp:31-46 | only alphabet characters and padding are written |
| Base64.EncodePads | src/config/ConfigManager.cpp:41-43 | padding follows only padding, or a character whose sextet is a multiple of four |
| Base64.WrapKeepsLowBits | src/config/ConfigManager.cpp:64-67 | wrapping to 32 bits keeps the low 12 bits, all that is ever read |
| Base64.B64Decode | src/config/ConfigManager.cpp:48-72 | with a wrapping accumulator, on every input: the bytes that the sextets of the alphabet prefix spell, group by group |
| Base64.DecodeLength | src/config/ConfigManager.cpp:62-70 | an alphabet prefix of length k gives floor(3k/4) bytes |
| Base64.RoundTrip | src/config/ConfigManager.cpp:31-72 | decoding an encoding gives back every byte sequence |
| Base64.TokenRoundTrip | src/config/ConfigManager.cpp:125-195 | decrypting an encrypted token gives it back, for any cipher that undoes itself and pads |
| Base64.TokenLayout | src/config/ConfigManager.cpp:160-163 | what is stored decodes to the 16-byte IV followed by the ciphertext |
| Base64.BadTokenIsEmpty | src/config/ConfigManager.cpp:166-193 | fewer than 17 bytes, or bytes the cipher cannot open, read as the empty token |
| Replacement.RegexReplace | src/config/ConfigManager.cpp:285 | the scan computes leftmost, non-overlapping replacement, for any filling of the matches |
| Replacement.RewriteNext | src/config/ConfigManager.cpp:285 | up to the next match the text stays, the match is filled in for its own position and length, and the scan goes on behind it |
| Replacement.RewriteIsPatch | src/config/ConfigManager.cpp:285 | a replacement without references depends on the matched text only, not on its place |
| Replacement.OutlineKept | src/config/ConfigManager.cpp:283-286 | everything outside the matches stays, in place |
| Replacement.PatchTwice | src/config/ConfigManager.cpp:283-286 | replacing twice is replacing once |
| Replacement.BothTwice | src/config/ConfigManager.cpp:283-289 | two keys patched twice are two keys patched once, and every match of either key, at any position, reads its value |
| Replacement.OutlineBothKept | src/config/ConfigManager.cpp:288-289 | on untangled text everything outside the matches of both keys stays, in place |
| Replacement.OneThenOther | src/config/ConfigManager.cpp:288-289 | on untangled text one key after the other is a single scan for both |
| Replacement.OrdersAgree | src/config/ConfigManager.cpp:288-289 | on untangled text the order of the keys does not matter |
| ConfigPattern.OpeningComplete | src/config/ConfigManager.cpp:284 | the scanner accepts every text of the form key, spaces, equals sign, spaces, quote, with its length |
| ConfigPattern.OpeningSound | src/config/ConfigManager.cpp:284 | and nothing else |
| ConfigPattern.WhiteSpaceIs | src/config/ConfigManager.cpp:284 | white space is exactly the characters 9 to 13 and 32 |
| ConfigPattern.CanonicalMatches | src/config/ConfigManager.cpp:284-285 | the replacement text is a match of its own length, whatever follows |
| ConfigPattern.PatchMakesNoNew | src/config/ConfigManager.cpp:284-285 | a replacement creates no match that was not there |
| ConfigPattern.OpeningInCanonical | src/config/ConfigManager.cpp:284-285 | inside a replacement text no opening of a key starts, except within the text's own key, unless its quoted value has one |
| ConfigPattern.OtherNotInside | src/config/ConfigManager.cpp:284-289 | no match of the other key starts inside a replacement text whose quoted value has no opening of it |
| ConfigPattern.OwnNotInside | src/config/ConfigManager.cpp:284-285 | no further match of its own key starts inside a replacement text whose quoted value has no opening of it |
| ConfigPattern.KeysExclusive | src/config/ConfigManager.cpp:288-289 | the two patterns never match at the same place |
| PatchOrder.TangledOrdersDiffer | src/config/ConfigManager.cpp:288-289 | on tangled text some values make the order show |
| PatchOrder.CommuteIffUntangled | src/config/ConfigManager.cpp:288-289 | the two patches commute for all fitting values exactly on untangled text |
| ConfigManager.ConfigManager.Save | src/config/ConfigManager.cpp:268-299 | succeeds exactly when the file reads and writes; then both keys are replaced in it, with the values as the library fills them in, and literally for values without a dollar sign; else it is untouched |
| ConfigManager.WrittenIsSaved | src/config/ConfigManager.cpp:283-289 | for values without a dollar sign a save is the two patches |
| ConfigManager.SaveTwice | src/config/ConfigManager.cpp:268-299 | saving twice is saving once, and every match of either key, at any position, reads the saved value |
| ConfigManager.GeneratedValues | src/config/ConfigManager.cpp:75-91 | for every UUID and every encrypted token: save twice is save once, every match reads its value, and on untangled text the order of the fields does not matter |
| ConfigManager.SaveKeepsOutside | src/config/ConfigManager.cpp:283-289 | on untangled text a save keeps every character outside the matches of both keys, in place |
| ConfigManager.OutsideKept | src/config/ConfigManager.cpp:283-286 | on any text one patch keeps every character outside the matches of its key, in place |
| ConfigManager.OrderOfFields | src/config/ConfigManager.cpp:288-289 | when the two fields could be patched in either order, exactly |
| ConfigManager.OrderCanMatter | src/config/ConfigManager.cpp:288-289 | a family of files on which the order matters |
| ConfigManager.TokenIsSavedLast | src/config/ConfigManager.cpp:288-289 | device_id is replaced first, then token: what a save makes of a token that embeds a device_id field |
| ConfigManager.FieldsAre | src/config/ConfigManager.cpp:285-289 | the two lines a save writes, literally |
| ConfigManager.UuidFits | src/config/ConfigManager.cpp:75-91 | a UUID has no quote and no dollar sign, and no opening of either key |
| ConfigManager.TokenFits | src/config/ConfigManager.cpp:160-163 | an encrypted token has no quote and no dollar sign, and no opening of either key, though it may contain "token" |
| ConfigManager.ConfigManager.SetToken | src/config/ConfigManager.cpp:320-323 | the stored token fits what a save requires |
| Subnet.CountPrefix | src/services/NetworkScanner.cpp:188-191 | the loop ends and counts the leading ones of every mask |
| Subnet.PrefixOfMask | src/services/NetworkScanner.cpp:188-191 | a contiguous mask has its own length as prefix, and no other |
| Subnet.ShiftedMaskIsMask | src/services/NetworkScanner.cpp:212-214 | the 32-bit shift of the Windows branch gives the mask whose prefix the loop counts |
| Subnet.NetworkInterval | src/services/NetworkScanner.cpp:186 | the addresses that agree with ip under the mask are one interval inside 32 bits |
| Subnet.ExpandCidr | src/services/NetworkScanner.cpp:232-256 | nothing outside prefixes 16 to 30; else the next addresses, wrapping at 32 bits, at most 254 |
| Subnet.AndMask | src/services/NetworkScanner.cpp:186 | masking clears the host bits and keeps the others |
| Subnet.DetectSubnet | src/services/NetworkScanner.cpp:184-191 | network and prefix of an interface, for every mask |
| Subnet.ScanTargets | src/services/NetworkScanner.cpp:184-256 | for every address and any mask the addresses that follow the masked one; for a contiguous mask of prefix 16 to 30 ascending hosts without wrap, exactly the usable addresses up to the 254th, all of them from prefix 24 on |
| AnyMask.StaysInsideIff | src/services/NetworkScanner.cpp:184-251 | for every interface address and any mask of prefix 16 to 30 the probed addresses stay in its subnet exactly when the low byte of the mask is that of the contiguous mask |
| AnyMask.LowestBitLeaves | src/services/NetworkScanner.cpp:249-250 | the probe as far from the network address as the lowest bit of the mask is outside the subnet, also when it wraps |
| ScanWindow.Scan.Run | src/services/NetworkScanner.cpp:109-142 | for any completion order: at most 32 unfinished probes, each of the first hosts probed once until a stop, neighbours exactly the live ones |
| ScanWindow.Scan.MakeRoom | src/services/NetworkScanner.cpp:119-123 | with 32 futures, waits for the oldest and drops it; with fewer the window stays as it is |
| ScanWindow.Scan.Launch | src/services/NetworkScanner.cpp:125-140 | the next host is probed, and the window stays within 32 |
| ScanWindow.Scan.Finish | src/services/NetworkScanner.cpp:127-139 | a probe that ends adds its host exactly when it answers |
| ScanWindow.AnswersOfDistinct | src/services/NetworkScanner.cpp:116-141 | among distinct hosts each live one is found once |
| ScanWindow.ScanLocalNetwork | src/services/NetworkScanner.cpp:98-142 | for any mask of prefix 16 to 30 and any stop: each live address among the probed ones behind the masked address, once, nothing else; for a contiguous mask these are the usable addresses; how far the probes get |
| UpdateManager.UpdateManager.Update | src/services/UpdateManager.cpp:59-121 | the disk is the last entry of an append-only record. First only the backup changes; once it is the original it stays so in every later state, also during a rollback. Up to a rollback the record goes on by single writes, removes and one rename, and every entry is recoverable. How the update ends, its exact messages (OutcomeTold, StepsTold and StepsInOrder say which), and the three files at the end |
| UpdateManager.EndingExactly | src/services/UpdateManager.cpp:59-121 | how each update ends, in terms of the single steps: ten endings, each with its exact condition |
| UpdateManager.OutcomeTold | src/services/UpdateManager.cpp:84-119 | success, rollback and failure are told exactly for an update, a rolled-back one, and a failed or mismatched download |
| UpdateManager.StepsTold | src/services/UpdateManager.cpp:81-110 | each other step is told exactly when the update came to it |
| UpdateManager.StepsInOrder | src/services/UpdateManager.cpp:81-119 | steps are told in the order of the workflow, each at most once, and an outcome directly before the result |
| UpdateManager.SafeWrites | src/services/UpdateManager.cpp:73-83 | writing the backup or the download, however far it gets, keeps every state recoverable |
| UpdateManager.UpdateManager.Write | src/services/UpdateManager.cpp:74 | each content of a file being written is one entry of the record |
| UpdateManager.UpdateManager.CopyFile | src/services/UpdateManager.cpp:73-79 | the exact states of the disk during a copy, also when it breaks off; only the target changes |
| UpdateManager.UpdateManager.BackUp | src/services/UpdateManager.cpp:72-79 | the backup is the original when it completes; on the way only the backup changes, and every state is recoverable |
| UpdateManager.UpdateManager.DownloadBinary | src/services/UpdateManager.cpp:172-197 | the exact states of the disk during a download; only the download changes, whatever curl does |
| UpdateManager.UpdateManager.Download | src/services/UpdateManager.cpp:81-83 | every state during the download is recoverable and keeps the backup |
| UpdateManager.UpdateManager.VerifySha256 | src/services/UpdateManager.cpp:203-236 | true exactly when the download can be read and has the expected digest |
| UpdateManager.UpdateManager.Fetch | src/services/UpdateManager.cpp:81-97 | goes on exactly with an accepted download; otherwise the download is gone unless its removal throws |
| UpdateManager.UpdateManager.Rename | src/services/UpdateManager.cpp:254-257 | one further state, in which the download is the live file and gone from its own place, or none |
| UpdateManager.UpdateManager.Rollback | src/services/UpdateManager.cpp:289-304 | the exact states of the overwriting copy; the live file is the backup when it completes, whatever is reported |
| UpdateManager.UpdateManager.Install | src/services/UpdateManager.cpp:99-121 | replacement, restart and rollback: ending, record, files and messages |
| UpdateManager.UpdateManager.KeepOld | src/services/UpdateManager.cpp:101-107 | after a failed rename the untouched live file is copied over; the original survives if that copy completes |
| UpdateManager.OneResult | src/services/UpdateManager.cpp:73-119 | one result message, at the end, true for an update only; none when an exception escapes, be it from a message, a removal or the mode bits |
| UpdateManager.NothingLost | src/services/UpdateManager.cpp:72-107 | in a recoverable state the live file is the original or has the demanded digest, and the original exists |
| UpdateManager.ModeFailure | src/services/UpdateManager.cpp:258-261 | a run that installs the new binary and reports no result |
| CommandExecutor.LifecycleEndsOnce | src/services/CommandExecutor.cpp:142-180 | one terminal status, at the end |
| CommandExecutor.CommandExecutor.ExecuteCommand | src/services/CommandExecutor.cpp:132-182 | for every payload and every point of failure: the lifecycle of a command with an identifier, when it is a lone failure, and what happens without one; what is done to the host is what this type of command asks for, once, exactly when executing is published or an update starts, and nothing else; which commands can succeed; when an update starts, and the exact statuses, when nothing throws |
| CommandExecutor.CommandExecutor.Attempt | src/services/CommandExecutor.cpp:134-175 | the same up to the catch clause: what is published before an exception, and when there is one |
| CommandExecutor.DidAsAsked | src/services/CommandExecutor.cpp:145-174 | type by type, the effect of a command in terms of its fields: collection only for collect_now, scan only for scan_network, restart only for restart_service, the command line and the update from their own fields |
| CommandExecutor.StatusesAsAsked | src/services/CommandExecutor.cpp:145-174 | which commands say executing, and which succeed |
| CommandExecutor.CommandExecutor.HandleShell | src/services/CommandExecutor.cpp:227-255 | which command line runs, and the statuses around it |
| CommandExecutor.CommandExecutor.DispatchUpdate | src/services/CommandExecutor.cpp:150-170 | an update starts only with readable fields, an address and a digest |
| CommandExecutor.CommandExecutor.Handle | src/services/CommandExecutor.cpp:145-174 | per type of command the statuses when it does not throw, when it can throw, and its effect exactly when it says executing or starts an update |
| CommandExecutor.ExecuteThrough | src/services/CommandExecutor.cpp:160-169 | a command and its update report together; a successful update carries the digest the command asked for |
| CommandQueue.ArrivalsConserved | src/services/CommandExecutor.cpp:95-126 | in every run arrivals are the executed, then the current, then the queued commands |
| CommandQueue.ParkedOnlyIdle | src/services/CommandExecutor.cpp:113-116 | the worker sleeps on an empty queue, or a notification is still due |
| CommandQueue.OwnStepsEnd | src/services/CommandExecutor.cpp:111-126 | left alone, worker and notifications come to rest |
| CommandQueue.RestMeansDone | src/services/CommandExecutor.cpp:111-126 | at rest everything that arrived was executed; after a stop that ended the worker, all but what arrived after its last look at the flag |
| CommandQueue.StopDropsOnlyLate | src/services/CommandExecutor.cpp:111-126 | when the worker has ended, it had executed everything that had arrived by some earlier look at the stop flag, and the queue holds exactly what arrived after it |
| CommandQueue.StopMissedExactly | src/services/CommandExecutor.cpp:82-87 | at rest after a stop the worker has not ended exactly when a stop notified it between its test and its sleep and it has slept since |
| CommandQueue.WakeUpCanBeLost | src/services/CommandExecutor.cpp:82-86 | a run that ends asleep after a stop |
| CommandQueue.AsleepForGood | src/services/CommandExecutor.cpp:82-87 | in every continuation a worker asleep after a stop with no notification due sleeps on, until a further command, a further stop or a spurious wake-up |
| CommandQueue.StepKeepsInv | src/services/CommandExecutor.cpp:82-126 | every step conserves arrivals, and keeps the worker's sleep justified |
| PluginLoader.NoUseAfterClose | src/plugins/PluginLoader.cpp:101-109 | in a legal record a closed handle is never used again |
| PluginLoader.UsedWhileOpen | src/plugins/PluginLoader.cpp:57-109 | in a legal record every use is of a handle opened before, exactly once, and not closed since |
| PluginLoader.LegalEnd | src/plugins/PluginLoader.cpp:31-33 | a legal record that leaves nothing open closed every opened handle exactly once, last |
| PluginLoader.PluginLoader.LoadPlugin | src/plugins/PluginLoader.cpp:56-89 | a plugin is added exactly when it opens, is complete and names itself; an incomplete one is closed, one that throws leaks; the exact uses of its handle |
| PluginLoader.PluginLoader.LoadAll | src/plugins/PluginLoader.cpp:39-54 | the usable plugins up to the first that throws are added in directory order |
| PluginLoader.LoadedPositions | src/plugins/PluginLoader.cpp:47-51 | the names added are those of exactly the usable files in front of the first that throws, in order |
| PluginLoader.PluginLoader.UnloadAll | src/plugins/PluginLoader.cpp:95-99 | each plugin is closed once, in order; nothing stays open but what leaked |
| PluginLoader.PluginLoader.CollectAll | src/plugins/PluginLoader.cpp:115-141 | each plugin asked once in order; exactly the failing ones closed, last first, and erased; the rest in original order; entries delivered in order |
| PluginLoader.DeliveredPositions | src/plugins/PluginLoader.cpp:118-126 | one group for each plugin that returned at least one entry, holding exactly its entries, in the order of the plugins, and nothing else |
| PluginLoader.KeptPositions | src/plugins/PluginLoader.cpp:118-140 | the plugins kept are exactly those that did not throw, in the order of the list |
| PluginLoader.ClosingsPositions | src/plugins/PluginLoader.cpp:136-140 | the handles closed are those of exactly the plugins that threw, each once, from the end of the list on |
| PluginLoader.PollsAre | src/plugins/PluginLoader.cpp:118-121 | the i-th use is a collect() of the i-th plugin |
| PluginLoader.PluginLoader.Poll | src/plugins/PluginLoader.cpp:118-134 | each plugin is asked once, in order; the failed indices are exact and ascending |
| PluginLoader.PluginLoader.RemoveFailed | src/plugins/PluginLoader.cpp:136-140 | exactly the failed plugins are closed, last first, and erased; the rest keeps its order |
| PluginLoader.PluginLoader.UnloadPlugin | src/plugins/PluginLoader.cpp:101-109 | the handle is closed once and dropped |
| PluginLoader.NoFailures | src/plugins/PluginLoader.cpp:136-140 | a stretch of plugins without failures changes neither what is kept nor what is closed |
| PluginLoader.KeptRemoval | src/plugins/PluginLoader.cpp:139 | erasing the failed plugin in front of the part already cleaned is one more step of keeping |
| PluginLoader.KeptAre | src/plugins/PluginLoader.cpp:137-140 | what stays is what did not throw |
| PluginLoader.MalformedIsKept | src/plugins/PluginLoader.cpp:167-170 | malformed JSON neither unloads a plugin nor delivers anything |
| PluginLoader.Live | src/plugins/PluginLoader.cpp:31-141 | over any sequence of calls up to destruction no closed handle is used, and every handle is closed exactly once exactly when no plugin throws while it is loaded |
| LogCollector.CollectFromPlugins | src/services/LogCollector.cpp:154-172 | the entries of all plugins that have an allowed level, in order; the plugins that threw are gone |
| LogCollector.AcceptAll | src/services/LogCollector.cpp:158-170 | the loops over plugins and entries compute the filter of all entries |
| LogCollector.FilterPositions | src/services/LogCollector.cpp:158-170 | the filter keeps exactly the entries of a configured level, or all when none is configured, in order |
| LogCollector.FilterConcat | src/services/LogCollector.cpp:158-170 | filtering plugin by plugin is filtering the whole |
| LogCollector.BatchesCut | src/services/LogCollector.cpp:123-140 | batches joined are the entries; each holds 1 to 100, all but the last 100 |
| LogCollector.PayloadsAreBatches | src/services/LogCollector.cpp:126-142 | the payloads sent are the dumps of these batches, in order, up to the first whose dump throws |
| LogCollector.PublishEntries | src/services/LogCollector.cpp:123-147 | each batch is published once, or its body is stored as two rows (by the publish lambda and by the fallback), until a dump throws, which ends the cycle; the table then holds the old rows and all of these, apart from an oldest part that leaves only beyond 100,000 rows |
| LogCollector.PublishBatch | src/services/LogCollector.cpp:142-146 | one batch: published and the table untouched, or stored twice; the table exactly |
| LogCollector.BothAreLast | src/services/LogCollector.cpp:143-146 | both rows of a refused batch are in the table, last, also when the first or the second store prunes |
| LogCollector.BatchGrows | src/services/LogCollector.cpp:142-146 | a batch adds its rows to the table, none or two, and takes away none but the oldest of a full one |
| LogCollector.SendBatch | src/services/LogCollector.cpp:142-146 | the same for the real table and the record of all rows |
| LogCollector.TwoCopies | src/services/LogCollector.cpp:143-146 | counting a publication as two copies, every batch has exactly two, none lost |
| LogCollector.Publish | src/main.cpp:610-615 | the publish lambda hands a message to the link once; accepted, the table is untouched; refused, its row comes behind all rows that a full table keeps |
| LogCollector.CollectAndPublish | src/services/LogCollector.cpp:101-148 | a whole cycle: which entries, and where their batches end up, on the wire or in the table |

## Left out

- ConfigManager.ConfigManager.Save: what the C++ library puts in for a replacement string with dollar signs is a parameter; UUIDs and encrypted tokens have none.
- ConfigManager.SaveTwice: requires values without quotes in which no opening of either key starts, as in all generated values (ConfigManager.GeneratedValues).
- UpdateManager.UpdateManager.Rollback: makes no claim of safety about a crash during the copy, which overwrites the live file in place.
- MqttClient.MqttClientWrapper.ReconnectLoop: speaks of loops that end, within any number of attempts; the source's loop runs on while the broker refuses and nobody shuts down.
- SQLite statements that fail: the source logs and goes on, the model lets every statement succeed. Timestamps and attempt counters of rows.
- Paho, OpenSSL, curl, toml11, spdlog and sockets, except for the laws named in the members that use them. A subscribe on a live session succeeds.
- The log sink that publishes while the publish mutex is held; publishing is one step in the models.
- The path of the running binary is fixed during an update; on Linux it can read differently after the rename. Two updates at the same time are not modelled.
- JSON, TOML and dotted-quad syntax: payloads are fields, files are text, addresses are numbers.
- A publish function or a failure report that throws inside the handler of executeCommand. The device identifier, which every message carries, is taken to be UTF-8.
- Output, error text and exit code of a command, and the truncation of long output; a result message is its status.
- Exceptions while a scan starts a probe; ports, hostnames and response times of neighbours.
- `cleanup` functions of plugins have no effect in the model; repeated loading of one file counts as separate handles.
- Heartbeat, watchdog, onboarding, system metrics, the bundled plugins, service installation, command-line parsing and MessageQueue, which nothing instantiates: input and output, or easy members.
