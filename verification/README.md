# Verified models of the server's in-memory protocols

This project models the parts of the IRC server whose correctness depends on whole runs, and proves what
they are for.

* **Write-behind persistence.** `ClientWriteback` and `ChannelWriteback` are step systems: one step per
  critical section, read of a part, or database transaction, interleaved in any way. `ClientWriter` and
  `ChannelWriter` are the same code with its loops, each proved to be a run of the step system.
* **Channels.** `ChannelRegistry` has the sections of the channel manager as functions and the interleavings
  of joins, quits, cleanups, renames and registrations; `ChannelManager` is the class that updates its maps;
  `ChannelSkeletons` is the set of skeletons. `ChannelModes` and `ChannelPrivileges` are the rank order and
  non-escalation, `Channel` the commands.
* **Labeled responses.** `BatchStream` is a reader that follows only BATCH lines and batch tags;
  `ResponseBuffer` is the writer, proved to emit a stream that reads back as what was described;
  `LabeledResponse` states that for every balanced sequence of calls. The formats are those of the IRCv3
  batch and labeled-response extensions.
* **Accounts.** `NickIndex` and `AccountManager` are the cache of reserved nicks against a rebuild from the
  datastore, `NickUnregister` what unregistering and renaming accounts do to it, and `NickRuns` whole runs of
  all of these; `CertfpIndex` and `CertfpStore` are the fingerprint index against the credentials.
* **Time.** `Fakelag`, `IdleTimer`, `Bans` and `BanManager`. Time is an integer.
* **Smaller structures.** `ClientIndex`, `OperClasses` and `LruMap`.

`dafny verify dfyconfig.toml` checks everything.

## What turned out not to hold

Each of these has a run or an input, and the exact condition under which the property does hold.

* A client's dirty bits can stay unwritten at rest: exactly if the client is not always-on, is logged out, or
  a Store was for a shutdown.
* A channel's can if IsClean may be called, which does not look at the bits afterwards: in a run exactly if the
  last attempt to take the lock is one that IsClean makes fail while bits are dirty.
* The set of channel skeletons keeps a name that no channel has: exactly if a channel goes whose entry still has
  the skeleton from before a renaming, which it has if the channel was registered when it was renamed.
* The nickname cache loses sync when an operator drops somebody else's nick (the account that is looked up is
  assigned to a variable of an inner scope), when a registration is undone after a confusable name was
  verified or reserved, when an account is unregistered that has a nick which is not written as it folds, when
  a name without an account is erased that is reserved, and when an account is renamed to a name with another
  skeleton, also while it is being verified (Rename does not take the mutex). A client that is still logged
  into an account that was unregistered can reserve a nick, which then is in the cache but not in a rebuild; if
  the name has been registered again meanwhile, this happens when that account expires. A Rename that stores
  its name after the account is gone leads to the wrong skeleton when the name is erased. `NickRuns` has a run
  for each, and the condition for all of them.
* The fingerprint index loses an entry when an account expires whose credentials have been changed before it was
  verified: they are stored without the time limit that the entry still has, and outlive the account. It keeps
  an entry that nobody lists when what is left of such credentials is replaced by a registration.
* A ban can be lifted early by the callback of an earlier kline of negative duration that was created in the
  same instant; this takes two equal readings of a clock of nanoseconds with a write to the datastore in
  between, so it will hardly ever happen. A dline of negative duration replaces the saved ban but not
  the one in force.
* Eviction from a map of read markers can miss the oldest entry when a time in it is the zero time.
* A class of operators can lack a capability of the class it extends, since capabilities are fixed up again
  at each level: exactly if one of the configured strings changes when it is fixed up twice.

## Model

| member | source | states |
|---|---|---|
| ClientWriteback.StepKeepsInv | irc/client.go:1900-2003 | every critical section, cell read and transaction of markDirty, wakeWriter, writeLoop, performWrite and Store keeps the invariant: the lock is held by exactly one thread between TryLock and Unlock, no stored version is ahead of memory, every difference is dirty or carried by a thread, dirty bits have somebody who will look |
| ClientWriteback.StepKeepsWakeup | irc/client.go:1900-1932 | dirty bits are never left without a lock holder or a thread that has yet to test them or try the lock |
| ClientWriteback.StepKeepsTracked | irc/client.go:1934-1982 | a cell that differs from the database is dirty, about to be marked, or about to be saved as it is |
| ClientWriteback.StepKeepsVersions | irc/client.go:1934-1982 | stored versions only grow and never overtake memory, also while a write has read some cells and not others |
| ClientWriteback.RunKeepsInv | irc/client.go:1900-2003 | the invariant over every interleaving |
| ClientWriteback.StoredVersionsNeverGoBack | irc/client.go:1934-1982 | over any run the version of each attribute part in the database never decreases |
| ClientWriteback.WakeupNeverLost | irc/client.go:1900-1932 | for a logged-in always-on client without shutdown stores: dirty bits imply that some thread holds the lock, will test the bits or will try the lock |
| ClientWriteback.QuiescentStoreIsMemory | irc/client.go:1900-2003 | when all threads are done the database equals memory, no bit is dirty and the lock is free |
| ClientWriteback.NeverStuck | irc/client.go:1911-2003 | as long as a thread is left, one of them can take a step |
| ClientWriteback.StoreIsBlocking | irc/client.go:1985-2003 | once a Store is over, each attribute it was given is stored at least as new as memory was when it began |
| ClientWriteback.StoreWritesWhatWasThere | irc/client.go:1985-2003 | the same for all attributes of the call, from the call on |
| ClientWriteback.NotAlwaysOnIsNotWritten | irc/client.go:1900-1909 | a run in which a client that is not always-on ends dirty and unsaved |
| ClientWriteback.LoggedOutIsNotWritten | irc/client.go:1934-1944 | a run in which a logged-out client loses its dirty bits without a write |
| ClientWriteback.ShutdownStoreLosesWakeup | irc/client.go:1985-1997 | a run in which a mark during a shutdown Store is not written |
| ClientWriteback.ConvergesExactlyWhenSupported | irc/client.go:1900-2003 | every run that comes to rest has the database equal to memory if and only if the client is always-on and logged in and no Store is for a shutdown |
| ClientWriteback.InOrder | irc/client.go:1946-1981 | the attributes that performWrite saves are exactly the dirty ones |
| ClientWriter.Client.PerformWrite | irc/client.go:1934-1982 | clears the dirty bits and leaves in the database the memory version of every dirty or requested attribute and the old version of the others; nothing if logged out; is a run of the step system |
| ClientWriter.Client.SaveAttributes | irc/client.go:1946-1981 | the loop over attributes: exactly the dirty ones are saved |
| ClientWriter.Client.ReadAttribute | irc/client.go:1946-1958 | the loop over an attribute's parts reads all of them |
| ClientWriter.Client.MarkDirty | irc/client.go:1900-1909 | sets the bits; with an always-on client and a free lock no bit is dirty when the writer ends, and everything that was dirty is written (or, logged out, cleared unwritten), whatever other goroutines mark in between; otherwise the bits stay |
| ClientWriter.Client.WakeWriter | irc/client.go:1911-1915 | starts a writer exactly if the lock is free, with the same outcome, also for a logged-out client |
| ClientWriter.Client.WriteLoop | irc/client.go:1917-1932 | the writer goes round as long as other goroutines have marked something in between; it ends with the lock free, no bit dirty, everything that was dirty or marked meanwhile equal to memory in the database, and the rest as it was there |
| ClientWriter.Client.WriteOnce | irc/client.go:1920-1930 | one round: exactly what was marked during the write is dirty after it, and the writer goes on exactly if that is something |
| ClientWriter.Client.WriteDisturbed | irc/client.go:1921-1923 | a write during which another goroutine marks attributes: those stay dirty, the others are saved |
| ClientWriter.Client.Disturb | irc/client.go:1900-1915 | a markDirty that finds the lock taken leaves its bits |
| ClientWriter.Client.Store | irc/client.go:1985-2003 | writes the requested and the dirty attributes before it returns; bits marked during it are written by the writer that it wakes, but stay dirty after a Store for a shutdown |
| ChannelWriteback.StepKeepsInv | irc/channel.go:191-308 | every step, with failing writes and IsClean, keeps: lock ownership, stored versions at most those in memory, every difference covered by a bit, a mutator or a write in flight |
| ChannelWriteback.StepKeepsTracked | irc/channel.go:279-308 | a change is covered by a dirty bit, a thread that has yet to mark it, or a write that will save it or put its bits back |
| ChannelWriteback.ChangesAreNeverForgotten | irc/channel.go:191-308 | over every interleaving memory differs from the stored record only while a bit is dirty, a mutator has not marked yet or a write is in flight, and the record never goes back |
| ChannelWriteback.AtRestOnlyDirtyBitsHideChanges | irc/channel.go:191-308 | at rest without dirty bits the record is memory |
| ChannelWriteback.MarkDuringIsClean | irc/channel.go:191-221 | a run to the state in which a change was marked while IsClean holds the lock |
| ChannelWriteback.IsCleanLosesWakeup | irc/channel.go:207-227 | from there the change stays dirty at rest |
| ChannelWriteback.ConvergesExactlyWithoutIsClean | irc/channel.go:191-308 | every run that comes to rest has the record equal to memory if and only if IsClean is not called |
| ChannelWriteback.StepKeepsWriter | irc/channel.go:191-276 | as long as no TryLock of a writer fails because IsClean has the lock, dirty bits have a writer with the lock or a thread that will look at them |
| ChannelWriteback.ConvergesExactlyUnlessLastIsTaken | irc/channel.go:191-308 | a run that comes to rest, with any number of IsClean calls and failing writes, has the record equal to memory and no bit dirty if and only if the last attempt of a writer or Store to take the lock was not one that IsClean made fail while bits were dirty |
| ChannelWriter.Channel.ExportRegistration | irc/channel.go:292-293 | copies the whole record |
| ChannelWriter.Channel.PerformWrite | irc/channel.go:279-308 | writes memory if the channel is registered, a bit is set and the datastore takes it; puts the bits back if not, and drops those of an unregistered channel |
| ChannelWriter.Channel.WriteLoop | irc/channel.go:230-254 | after any number of failed writes the loop ends with no bit dirty and, if anything was written, the record equal to memory; it asks for a cleanup exactly if the channel is empty |
| ChannelWriter.Channel.UnlockAndTest | irc/channel.go:236-253 | the writer goes on exactly if bits are dirty, and calls Cleanup exactly if none are and the channel is empty |
| ChannelWriter.Channel.MarkDirty | irc/channel.go:191-201 | with a free lock everything dirty is written, otherwise, and for an unregistered channel, the bits stay |
| ChannelWriter.Channel.WakeWriter | irc/channel.go:223-227 | starts a writer exactly if the lock is free |
| ChannelWriter.Channel.Store | irc/channel.go:259-276 | the record is memory afterwards, through the woken writer if the blocking write fails; Store itself calls Cleanup exactly if no bit is dirty after the write and the channel is empty |
| ChannelWriter.Channel.IsClean | irc/channel.go:207-221 | true exactly if the lock is free, nobody is in the channel and nobody has registered it; the lock is as before |
| ChannelRegistry.StepKeepsInv | irc/channelmanager.go:105-344 | every step of joins, quits, cleanups, renames and (un)registrations keeps: entries stand under the current casefolded name, pendingJoins counts the joins in flight, channels in use are found |
| ChannelRegistry.EnterKeepsInv | irc/channelmanager.go:113-143 | the section of Join that finds or creates the channel counts exactly one join on it |
| ChannelRegistry.CleanupKeepsInv | irc/channelmanager.go:156-180 | maybeCleanup uncounts its join and deletes only an entry without joins and members |
| ChannelRegistry.UnregistrationKeepsInv | irc/channelmanager.go:263-276 | SetUnregistered with its cleanup |
| ChannelRegistry.RenameKeepsInv | irc/channelmanager.go:307-344 | Rename moves the entry with the channel's name |
| ChannelRegistry.MembersKeepInv | irc/channel.go:829-848 | joining and leaving members |
| ChannelRegistry.ChannelsInUseAreFound | irc/channelmanager.go:105-344 | over every interleaving a channel with a member or a join in flight is the one in chans under its current name, and every entry's pendingJoins is the number of joins in flight on it |
| ChannelRegistry.CleanupIsWatched | irc/channelmanager.go:156-180 | after a cleanup an empty unregistered channel that is still there has another join, cleanup or writer coming, or is being looked at by IsClean |
| ChannelRegistry.UnregisteredIsWatched | irc/channelmanager.go:263-276 | a channel that is unregistered while it is empty is removed at once, or has a join, cleanup or writer coming |
| ChannelRegistry.WriterKeepsInv | irc/channel.go:230-276 | writers that take and release the lock of a channel change nothing in the registry |
| ChannelRegistry.StepKeepsNoLeak | irc/channelmanager.go:141-180 | every step keeps that an empty unregistered channel, whether or not it ever was registered, has a join, a cleanup or a writer in flight that will look at it |
| ChannelRegistry.NoEmptyChannelIsLeft | irc/channelmanager.go:141-180 | over every interleaving, with writers and registrations: when nothing is in flight every channel in chans has a member or a founder |
| ChannelRegistry.EnterOutcome | irc/channelmanager.go:105-143 | which channel Join finds or creates, and when it refuses: an unusable or purged name, no right to create channels, a confusable name |
| ChannelRegistry.CleanupOutcome | irc/channelmanager.go:156-180 | a cleanup takes an entry away exactly if no other join is pending, nobody is in the channel, nobody owns it, and its lock is free |
| ChannelRegistry.RegistrationOutcome | irc/channelmanager.go:190-245 | which error a registration gives; it succeeds exactly for an account, while enabled, and a channel that is there and has no founder, and sets that founder and nothing else |
| ChannelRegistry.UnregistrationOutcome | irc/channelmanager.go:247-277 | an unregistration succeeds only for the founder, and removes the entry exactly if nothing holds the empty channel |
| ChannelRegistry.RenameOutcome | irc/channelmanager.go:279-344 | which error Rename gives, and that it changes the name and key of one channel and nothing else of it |
| ChannelRegistry.StepKeepsFounder | irc/channel.go:310-345 | a founder changes only from nobody by a registration of that account, or to nobody by an unregistration of the founder |
| ChannelRegistry.StepChangesMembers | irc/channel.go:764-853 | a step brings a client into a channel exactly if it is the end of its join, and takes one out exactly if it is its quit |
| ChannelRegistry.StepGoesOn | irc/channel.go:223-257 | the quit that empties a channel cleans up; a writer writes again as long as bits are dirty and the lock is free, and cleans up an empty channel that it leaves |
| ChannelRegistry.FounderStays | irc/channel.go:310-345 | over every run a channel stays with its founder until that account itself unregisters it |
| ChannelRegistry.FounderHasRegistered | irc/channel.go:310-345 | over every run whoever has become the founder of a channel has registered it |
| ChannelManager.ChannelManager.EnterJoin | irc/channelmanager.go:113-143 | the code of the section, against ChannelRegistry.Enter: purged, missing, confusable and found channels |
| ChannelManager.ChannelManager.MaybeCleanup | irc/channelmanager.go:156-168 | nothing for a channel that is not the one found; otherwise ChannelRegistry.MaybeCleanup |
| ChannelManager.ChannelManager.MaybeCleanupInternal | irc/channelmanager.go:170-180 | the entry and its skeleton go exactly if no join is pending and the channel is clean |
| ChannelManager.ChannelManager.SetRegistered | irc/channelmanager.go:209-245 | the code, against ChannelRegistry.SetRegistered: succeeds exactly for an account, while enabled, and a channel without a founder; no founder is replaced |
| ChannelManager.ChannelManager.SetUnregistered | irc/channelmanager.go:247-277 | the code, against ChannelRegistry.SetUnregistered; no channel of another founder is changed |
| ChannelManager.ChannelManager.Rename | irc/channelmanager.go:280-344 | moves entry, name and skeleton, or changes nothing |
| ChannelSkeletons.StepMirrorsExactlyIfHarmless | irc/channelmanager.go:122-344 | one step of anything that changes the registry leaves the set exactly the skeletons of the current names if and only if it does not delete an entry whose kept skeleton is an old one; entries get an old one exactly when a registered channel is renamed to another skeleton |
| ChannelSkeletons.DeletionIsRightExactlyIfFresh | irc/channelmanager.go:174-179 | deleting an entry deletes the right skeleton if and only if the one kept with the entry is that of the current name |
| ChannelSkeletons.RenameKeepsMirror | irc/channelmanager.go:310-342 | renaming, or refusing to, keeps the set the mirror of the names |
| ChannelSkeletons.RenameKeepsFresh | irc/channelmanager.go:335-338 | the entry keeps an old skeleton exactly if the channel is registered and the new name has another one |
| ChannelSkeletons.EnterKeepsMirror | irc/channelmanager.go:122-140 | so does creating a channel, or refusing to; a new entry has the skeleton of its name |
| ChannelSkeletons.MirrorsExactlyIfHarmless | irc/channelmanager.go:122-344 | a whole run of joins, quits, cleanups, writers, registrations and renames keeps the set the mirror of the names at every point if and only if each of its steps is harmless |
| ChannelSkeletons.SetIsMirror | irc/channelmanager.go:122-344 | from an empty registry, over every run in which no registered channel is renamed to another skeleton, the set is exactly the skeletons of the current names, which are distinct |
| ChannelSkeletons.RegisteredRenameBreaks | irc/channelmanager.go:336-342 | a run after which no channel is left, but the skeleton of a name is still in the set |
| BatchStream.OneMoreLine | irc/responsebuffer.go:75-79 | what a reader of BATCH lines and batch tags sees after one more line: a node in the batch its tag names |
| BatchStream.ReadContent | irc/responsebuffer.go:60-73 | a message tagged with the innermost open batch is read as its next node |
| BatchStream.ReadStart | irc/responsebuffer.go:194-206 | a batch start with a new ID opens a batch inside the innermost one |
| BatchStream.ReadEnd | irc/responsebuffer.go:209-222 | a batch end closes the innermost batch |
| BatchStream.ReadWrapped | irc/responsebuffer.go:168-180 | sending an outer batch start first and tagging untagged lines with it wraps everything read into that batch |
| BatchStream.RetaggedChildren | irc/responsebuffer.go:285-290 | tagging only untagged lines moves the top level into the outer batch and nothing else |
| ResponseBuffer.ResponseBuffer.AddMessage | irc/responsebuffer.go:60-79 | the buffered line gets the innermost nested batch tag and is read as described |
| ResponseBuffer.ResponseBuffer.Add | irc/responsebuffer.go:82-84 | one more message in the innermost open batch |
| ResponseBuffer.ResponseBuffer.StartNestedBatch | irc/responsebuffer.go:194-206 | opens a batch exactly if the session has the capability |
| ResponseBuffer.ResponseBuffer.EndNestedBatch | irc/responsebuffer.go:209-222 | closes the innermost batch if that is the one named, otherwise nothing |
| ResponseBuffer.ResponseBuffer.AddSplitMessage | irc/responsebuffer.go:125-149 | a multiline message is one complete batch in the innermost batch, or one message per line without the capability |
| ResponseBuffer.ResponseBuffer.ComposeMultilineBatch | irc/client.go:1534-1559 | start, tagged lines in order, end |
| ResponseBuffer.ResponseBuffer.AddEach | irc/responsebuffer.go:140-146 | the fallback: one message per line, in order |
| ResponseBuffer.ResponseBuffer.SendBatchStart | irc/responsebuffer.go:168-180 | starts the outer batch once, with the label |
| ResponseBuffer.ResponseBuffer.SendBatchEnd | irc/responsebuffer.go:182-190 | closes the outer batch if there is one |
| ResponseBuffer.ResponseBuffer.SendMessages | irc/responsebuffer.go:285-294 | every line in order, tagged with the outer batch where it has no tag |
| ResponseBuffer.ResponseBuffer.IsCollapsible | irc/responsebuffer.go:241-254 | first and last line belong to the same batch and nothing was flushed |
| ResponseBuffer.ResponseBuffer.Flush | irc/responsebuffer.go:235-306 | what is sent so far still reads as the tree; a labeled response now has its outer batch |
| ResponseBuffer.ResponseBuffer.LabelResponse | irc/responsebuffer.go:264-282 | the label goes to the only batch, the outer batch, the only message or an ACK, and the outer batch exists exactly if something was flushed or there is more than one node |
| ResponseBuffer.ResponseBuffer.Send | irc/responsebuffer.go:227-306 | for balanced batches the stream is legal, every batch is closed, and it reads back as the described tree; with a label it is one message or one batch. In every case what is open after it is exactly what was left open, and a label is on the first line and on no other |
| ResponseBuffer.ResponseBuffer.GenerateBatchID | irc/client.go:308-311 | a new ID is larger than all before it, although other goroutines take IDs of the same session |
| ResponseBuffer.ShowsWhenComplete | irc/responsebuffer.go:241-254 | the collapse test on first and last line is right: the tree has one node exactly if the buffer is one line or starts and ends with the same batch |
| ResponseBuffer.LineIsBuffered | irc/responsebuffer.go:60-79 | a buffered line reads as described whether or not it is later tagged with the outer batch |
| ResponseBuffer.BatchStartIsBuffered | irc/responsebuffer.go:168-180 | sending the start of the outer batch puts everything buffered inside it |
| LabeledResponse.EmitSplit | irc/responsebuffer.go:125-149 | single-line and multiline messages add exactly the described nodes |
| LabeledResponse.EmitNested | irc/responsebuffer.go:194-222 | a nested batch adds one group with what is inside, or only the inside without the capability |
| LabeledResponse.Emit | irc/responsebuffer.go:60-222 | any balanced sequence of calls with flushes anywhere adds exactly what it describes |
| LabeledResponse.Respond | irc/responsebuffer.go:60-306 | for every balanced sequence of calls ended by Send the emitted stream decodes to exactly the described tree; the label is on one line, everything else is inside that batch, and the outer batch appears exactly if a flush or more than one node needs it; an empty labeled response is an ACK |
| LabeledResponse.NoMessageIsLost | irc/responsebuffer.go:125-149 | with and without the batch and multiline capabilities a session gets the same messages in the same order |
| ChannelModes.PrivsAreRanks | irc/channel.go:498-512 | the case analysis is a rank comparison: halfop or more, and a target rank of at most what that rank reaches |
| ChannelModes.HigherHasMorePrivs | irc/channel.go:498-512 | whoever ranks at most m reaches at most what m reaches, which is at most m |
| ChannelModes.Highest | irc/modes/modes.go:395-405 | a mode of the set that none outranks |
| ChannelModes.UmodeGreaterThan | irc/modes.go:358-367 | the walk down the list is the strict rank order, also for the zero mode |
| ChannelModes.HighestChannelUserMode | irc/modes/modes.go:395-405 | the loop finds the highest mode |
| ChannelPrivileges.StepKeepsInv | irc/modes.go:164-192 | every MODE, AMODE, KICK, CS OP, join or part step keeps: actors at most m, stored grants as they were above m and none new above the reach of m, changes in flight within what their issuer may do |
| ChannelPrivileges.AmodeKeepsGrants | irc/modes.go:370-438 | AMODE by clients of rank at most m changes no grant above m and makes none above the reach of m |
| ChannelPrivileges.CheckModeKeepsInv | irc/modes.go:164-192 | MODE checks by clients of rank at most m let through only additions within their reach |
| ChannelPrivileges.StepGives | irc/channel.go:829-848 | every mode a member gains in a step is within the actors' reach or its own stored grant |
| ChannelPrivileges.StepChangesMembers | irc/channel.go:764-853 | a step brings a client into the channel exactly if it ends its join, and takes one out exactly if it ends a kick of it or is its quit; a kick of somebody who is not there does nothing |
| ChannelPrivileges.NoEscalation | irc/modes.go:164-438 | after any interleaving in which only clients with live and stored rank at most m act: no stored grant above m appears or disappears, no grant above the reach of m is made, and every live mode was there before, is within that reach, or is the client's own stored grant |
| ChannelPrivileges.NoHigherRank | irc/modes.go:164-438 | no member's rank ends above m, its own earlier rank and its own stored rank |
| ChannelPrivileges.HigherModesAreSafe | irc/channel.go:594-614 | a member with a mode above m keeps it through every such run until it parts itself: it is neither deprived nor kicked |
| Channel.Channel.ApplyModeToMember | irc/channel.go:1471-1496 | changes one mode of a present member and says whether anything changed |
| Channel.Channel.ApplyChannelModeChanges | irc/modes.go:155-340 | each change is checked against the modes that the previous ones left, SAMODE skips the check, and exactly those that changed something are reported; without SAMODE the whole is a run in which only the client acts |
| Channel.AfterChangeIs | irc/modes.go:164-192 | a change of a mode has an effect exactly by SAMODE, by the founder, on one's own mode downwards, or on a mode that one's own has privileges over, and then exactly on that mode of that member |
| Channel.LastChangeWins | irc/modes.go:155-340 | by SAMODE or by the founder, every member ends up with exactly the modes that the last change of each says |
| Channel.AppliedReplays | irc/modes.go:155-340 | what is reported as applied, replayed without any check, gives the new members, and each of it changes something |
| Channel.Channel.ProcessAccountToUmodeChange | irc/modes.go:370-438 | who may change or list grants, by ranks; the grant is changed exactly if permitted and different; a list names exactly the grants |
| Channel.Channel.ListGrants | irc/modes.go:423-433 | every grant once |
| Channel.Channel.Amode | irc/chanserv.go:210-303 | the grant, if the channel is registered and the account exists or is only deprived, and the mode of every current member of that account |
| Channel.Channel.Kick | irc/channel.go:1542-1582 | removes the target exactly if the client is the founder, has privileges over a target that is not, or has the privilege of an operator |
| Channel.Channel.Join | irc/channel.go:764-853 | which of limit, key, invitation, ban and account keeps a client out that is not exempt, and that it is let in exactly if none does; then a new member gets its stored grant, or operator if it is the first one of an unregistered channel |
| Channel.Channel.CsOp | irc/chanserv.go:305-366 | the own grant for oneself, founder for the founder, operator for somebody the founder names, or a refusal |
| NickIndex.IndexIsUnique | irc/accounts.go:148-230 | two rebuilds of the same datastore give the same maps, in whatever order it is read |
| NickIndex.RegisterOutcome | irc/accounts.go:353-474 | which error a registration gives; it succeeds exactly if nothing speaks against the request, nothing reserves the name and there neither is nor was an account of it, and adds one account that is not verified |
| NickIndex.VerifyOutcome | irc/accounts.go:899-1007 | which error Verify gives; it succeeds only with the right code, and verifies the account that is named and no other |
| NickIndex.NameOutcome | irc/accounts.go:1878-1899 | a stored rename and an expiry: which name, account and reservation they change |
| NickIndex.SetNickReservedOutcome | irc/accounts.go:1268-1377 | which error reserving and dropping give, with the limit of additional nicks, and what they change |
| NickIndex.DropOutcome | irc/accounts.go:1348-1359 | dropping leaves exactly the nicks that fold to something else |
| NickIndex.RegisterKeepsInv | irc/accounts.go:353-474 | registering, or refusing to, reserves nothing yet and keeps the cache what a rebuild would give |
| NickIndex.ReadNameFinds | irc/accounts.go:924-950 | what Verify reads before its transaction is the skeleton of the account's name, which is not reserved by anything |
| NickIndex.CommitIsRightExactly | irc/accounts.go:952-1007 | the transaction of Verify with its change of the cache is right if and only if it is refused or the name still has the skeleton that was read; then it reserves exactly the name of the account |
| NickIndex.ReserveIsRightExactly | irc/accounts.go:1268-1377 | reserving is right if and only if it is refused or the account that the client is logged into is still there; then it adds exactly one item to what is reserved |
| NickIndex.DropKeepsInv | irc/accounts.go:1337-1377 | dropping an own nick takes exactly one item out of what is reserved, one that folds to the nick |
| NickIndex.SelfDropKeepsInv | irc/accounts.go:1268-1377 | the whole self-service drop, also by a client whose account is not there any more |
| NickIndex.ExpireIsRightExactly | irc/accounts.go:430-434 | an unverified account that expires leaves the cache right if and only if it has no additional nicks; then what is reserved stays the same |
| NickIndex.DroppedSkeletonIs | irc/accounts.go:1348-1357 | the skeleton that is deleted is that of the nick as it was reserved |
| NickRuns.CacheIsAlwaysRebuilt | irc/accounts.go:148-230 | through any run of Register, Verify in its two parts, reserve, self-drop and expiry the cache is the only rebuild of the datastore |
| NickRuns.StepIsRightExactlyIfHarmless | irc/accounts.go:920-2040 | one step of anything that changes accounts or nicks, by clients whose account may be gone and with Rename between the parts of Verify, keeps cache and datastore in agreement if and only if it is harmless by a condition on the state before it |
| NickRuns.CacheIsRightExactlyIfHarmless | irc/accounts.go:148-2040 | a whole run of registrations, verifications, reservations, drops, expiries, operators' drops, unregistrations and renames, interleaved as the mutex allows, keeps the cache right throughout if and only if each of its steps is harmless |
| NickRuns.StepVerifies | irc/accounts.go:972-988 | an account becomes verified only by a Verify of it with the right code |
| NickRuns.VerifiedWithCode | irc/accounts.go:899-1007 | over every run, for every account that is verified at its end and was not all along there is a Verify of it with the right code, since when it has been there and verified |
| NickRuns.OperatorDropBreaks | irc/accounts.go:1280-1377 | a run from an empty store to an operator's drop of another user's nick, which leaves cache and datastore different |
| NickRuns.UndoneRegistrationBreaks | irc/accounts.go:476-479 | a run from an empty store to an undone registration that takes away the skeleton of a verified account |
| NickRuns.UnfoldedNickBreaks | irc/accounts.go:2017-2032 | a run from an empty store to an Unregister that leaves the entry of an unfolded nick |
| NickRuns.ErasedNickBreaks | irc/accounts.go:1955-2032 | a run from an empty store to the erasure of a name that is somebody's nick |
| NickRuns.RenameBreaks | irc/accounts.go:1878-1899 | a run from an empty store to a rename that leaves the old skeleton |
| NickRuns.RenameDuringVerifyBreaks | irc/accounts.go:920-1007 | a run from an empty store in which a Rename comes between the two parts of a Verify |
| NickRuns.StaleReserveBreaks | irc/accounts.go:1936-1954 | a run from an empty store in which a client reserves a nick after its account was unregistered |
| NickRuns.ExpiryBreaks | irc/accounts.go:1268-1377 | a run from an empty store in which it does so when the name was registered again, and that account expires |
| NickRuns.LateRenameBreaks | irc/accounts.go:1878-1899 | a run from an empty store in which a Rename stores its name after the account was unregistered |
| NickIndex.NickToAccountFindsOwner | irc/accounts.go:232-250 | the account that is looked up is nonempty exactly if the nick or its skeleton is reserved; it is the owner of the item with that nick, and else the owner of the item with that skeleton |
| NickIndex.OperatorDropIsRightExactlyForOwnNicks | irc/accounts.go:1280-1377 | an operator's drop keeps the cache right if and only if nothing is done, the nick is not reserved, or it is the operator's own |
| NickUnregister.UnregisterIsRightExactly | irc/accounts.go:1907-2040 | unregistering an account keeps the cache right if and only if each of its additional nicks is written as it folds and, for an unverified account, as Register undoes itself, nobody else has the skeleton of its name; the datastore stays consistent either way |
| NickUnregister.UnregisterOutcome | irc/accounts.go:1955-1996 | nothing of the account is left in the datastore but, unless it is erased, the name of one that was verified; nothing else changes |
| NickUnregister.UnregisteredKeys | irc/accounts.go:2013-2032 | which keys leave the cache: the name and its skeleton unless protected, and the nicks as they are written with their skeletons |
| NickUnregister.DeletesTheRightNicks | irc/accounts.go:2017-2032 | the keys that are deleted for the nicks are those that should go if and only if each nick is written as it folds |
| NickUnregister.DeletesTheRightSkeletons | irc/accounts.go:2017-2032 | the skeletons that are deleted are those that should go if and only if the account is verified or nobody else has that of its name |
| NickUnregister.AbsentUnregisterIsRightExactly | irc/accounts.go:1955-2032 | unregistering a name without an active account keeps the cache right if and only if it erases a former account whose name is protected, under the skeleton it had, or neither name nor skeleton is reserved |
| NickUnregister.RenameIsRightExactlyForTheSameSkeleton | irc/accounts.go:1878-1899 | what Rename stores keeps the cache right if and only if the account is not verified, or not there, or its skeleton stays the same |
| NickIndex.DeletedFromIndex | irc/accounts.go:2017-2032 | deleting keys is right exactly if the deleted keys that exist are those of the items that go |
| NickUnregister.MovedIndex | irc/accounts.go:1956-1962 | a name that stays protected after its account is gone keeps its index entry |
| AccountManager.AccountManager.BuildNickToAccountIndex | irc/accounts.go:148-230 | the loops over accounts, nicks and former accounts build exactly the index of what is reserved |
| AccountManager.AccountManager.NickToAccount | irc/accounts.go:232-250 | nonempty exactly if the nick or its skeleton is reserved; the owner of the item with that nick, and else the owner of the item with that skeleton; empty for what does not fold |
| AccountManager.AccountManager.Register | irc/accounts.go:353-474 | the code against NickIndex.Register, with the order of its refusals; cache and datastore agree afterwards |
| AccountManager.AccountManager.Verify | irc/accounts.go:899-1007 | the code against NickIndex.Verify, with a Rename between its parts or without; without one cache and datastore agree afterwards |
| AccountManager.AccountManager.Commit | irc/accounts.go:952-1007 | the transaction of Verify and its change of the cache |
| AccountManager.AccountManager.StoreName | irc/accounts.go:1890-1894 | the transaction of Rename |
| AccountManager.AccountManager.Unregister | irc/accounts.go:1947-2040 | the code, with its loop over the nicks, against NickUnregister.Unregister |
| AccountManager.AccountManager.SetNickReserved | irc/accounts.go:1268-1377 | the code against NickIndex.SetNickReserved, with the shadowed variable and with accounts that are not there any more; cache and datastore agree after a self-drop, and after a reserve that is refused or whose account is there |
| AccountManager.AccountManager.NicksWithout | irc/accounts.go:1348-1359 | the nicks that stay and the skeleton that goes |
| CertfpIndex.EditedList | irc/accounts.go:2450-2489 | adding and removing keep at most five distinct fingerprints and change the list by exactly one |
| CertfpIndex.EditedOutcome | irc/accounts.go:2430-2491 | a new passphrase replaces the old one and leaves the fingerprints, fingerprints leave the passphrase, and which error each edit gives |
| CertfpIndex.ReadAndEditOutcome | irc/accounts.go:791-838 | which error the first phase gives; without privileges credentials are not empty before or after |
| CertfpIndex.CommitOutcome | irc/accounts.go:841-861 | which error the swap gives; it changes the credentials of one account and at most one entry |
| CertfpIndex.RegisterOutcome | irc/accounts.go:445-474 | a registration refuses a taken account and a taken fingerprint, and stores the passphrase, the fingerprint and its entry |
| CertfpIndex.VerifyOutcome | irc/accounts.go:955-998 | verifying changes no credentials, and takes the time limits of the account and its fingerprints away |
| CertfpIndex.DeletionOutcome | irc/accounts.go:1950-2011 | deleting an account, an entry and letting an account expire: exactly which credentials and entries go |
| CertfpIndex.CommitKeepsInv | irc/accounts.go:843-858 | the compare-and-swap transaction keeps index and credentials inverse, whatever happened since the read |
| CertfpIndex.RegisterKeepsInv | irc/accounts.go:437-474 | a registration with an account or a fingerprint that is taken changes nothing, and no registration changes an entry that is there |
| CertfpIndex.RegisterLeavesEntry | irc/accounts.go:437-474 | a registration over credentials that an expired account has left behind with a fingerprint leaves an entry that nobody lists |
| CertfpIndex.VerifyKeepsInv | irc/accounts.go:989-996 | storing the fingerprints again changes no entry |
| CertfpIndex.BeginUnregisterKeepsInv | irc/accounts.go:1947-1996 | deleting the account leaves the index as it is, and every entry that leads to the account is on the list to be deleted |
| CertfpIndex.UnregisterNextKeepsInv | irc/accounts.go:1998-2011 | deletes the next entry exactly if it still leads to the account |
| CertfpIndex.ExpireKeepsInv | irc/accounts.go:430-434 | the expiry of an account keeps index and credentials inverse if and only if its credentials go with it or have no fingerprint that does |
| CertfpIndex.StepIsInverseExactlyIfHarmless | irc/accounts.go:437-861 | every transaction leaves the index the inverse of the credentials if and only if it is harmless by a condition on the state before it |
| CertfpIndex.InverseExactlyIfHarmless | irc/accounts.go:437-861 | a whole run of edits, registrations, verifications, unregistrations and expiries keeps the index the inverse throughout if and only if each of its steps is harmless |
| CertfpIndex.IndexIsInverse | irc/accounts.go:791-861 | in every run in which no credentials are changed that still have a time limit: at all times every listed fingerprint leads to its account, no two accounts list the same one, none lists more than five, and without an Unregister under way the index has nothing else |
| CertfpIndex.PasswordOutlivesEntry | irc/accounts.go:586-595 | a run from an empty store in which a new password for an unverified account outlives the index entry |
| CertfpIndex.EntryOutlivesCredentials | irc/accounts.go:437-474 | a run from an empty store after which an entry is left that nobody lists |
| CertfpIndex.InverseExactlyWithoutTimeLimit | irc/accounts.go:430-595 | the index is inverse in every run if and only if unverified accounts have no time limit |
| CertfpStore.AccountCredentials.AddCertfp | irc/accounts.go:2450-2470 | appends, or refuses a duplicate or a sixth |
| CertfpStore.AccountCredentials.RemoveCertfp | irc/accounts.go:2472-2491 | removes, or refuses what is not listed |
| CertfpStore.Datastore.PrepareEdit | irc/accounts.go:791-838 | the first phase of addRemoveCertfp and setPassword, with its refusals |
| CertfpStore.Datastore.CommitEdit | irc/accounts.go:841-861 | the second phase |
| CertfpStore.Datastore.EditCredentials | irc/accounts.go:791-861 | undisturbed: the error of the check or of a fingerprint in use, with nothing changed, or the new passphrase with the old fingerprints, or the old passphrase with the fingerprint added or removed together with its entry; no other account changes |
| CertfpStore.Datastore.Register | irc/accounts.go:445-474 | the certfp part of Register |
| CertfpStore.Datastore.Verify | irc/accounts.go:980-998 | stores everything again without a time limit |
| CertfpStore.Datastore.Unregister | irc/accounts.go:1947-2011 | the account is gone, with exactly the entries of its fingerprints that lead to it |
| Fakelag.Fakelag.Suspend | irc/fakelag.go:50-55 | off, idempotently |
| Fakelag.Fakelag.Unsuspend | irc/fakelag.go:58-63 | as configured, whatever was suspended before |
| Fakelag.Fakelag.Touch | irc/fakelag.go:66-123 | every command adds one release to the history: at once when fakelag is off or the command has a budget, and otherwise as the last governed release demands; never before it came |
| Fakelag.Fakelag.SpendBudget | irc/fakelag.go:71-74 | a command on a budget takes one from it and is released at once |
| Fakelag.Fakelag.TouchGoverned | irc/fakelag.go:77-122 | the two-state machine decides by the last release alone: burst, next of the burst, or spaced |
| Fakelag.NextFollowsWell | irc/fakelag.go:77-122 | a burst starts at least a cooldown after the previous command and has at most max(BurstLimit, 1) commands; spaced commands are at least the spacing apart; nothing is released early |
| Fakelag.WindowTakesTime | irc/fakelag.go:99-121 | bursts and spaced commands in a window take at least their cooldowns and spacings together |
| Fakelag.WindowHoldsFew | irc/fakelag.go:80-95 | the number of commands in a window by its bursts and spaced commands |
| Fakelag.RateBound | irc/fakelag.go:66-123 | the governed commands released in any interval of length T number at most max(BurstLimit,1)*(1+T/Cooldown) + T/(Window/MessagesPerWindow) + 1, and without MessagesPerWindow at most max(BurstLimit,1)*(1+T/Cooldown) |
| Fakelag.IntervalBound | irc/fakelag.go:66-123 | the commands in any interval of the history in which fakelag was on, with those on a budget, number at most that bound plus the budget spent in the interval |
| Fakelag.BudgetsAddUp | irc/fakelag.go:71-74 | over any history, the budgets left and the commands released on them add up to the budgets there were |
| Fakelag.TouchAll | irc/fakelag.go:66-123 | for every sequence of commands that arrive at one session: each is released by Touch as its budget or the last governed release demands, never before it came, and of all that is released in any interval of length T there are at most that bound plus what is left of the budgets when the interval begins |
| Fakelag.CommandIsPrompt | irc/fakelag.go:77-122 | a governed command is released when it comes, if it is the first, or comes more than a cooldown after the last, or fewer than BurstLimit came since such a gap; any other waits exactly for the spacing or cooldown after the last one |
| Fakelag.FirstBurstIsPrompt | irc/fakelag.go:80-95 | the first max(BurstLimit, 1) governed commands of a session are released when they come |
| Fakelag.BurstIsCounted | irc/fakelag.go:80-95 | the machine's burst count does not run ahead of the commands since the last such gap, and nothing is spaced before there were BurstLimit |
| Fakelag.BudgetIsUsed | irc/fakelag.go:71-74 | a command is released on its budget exactly as often as that says, before anything else |
| Fakelag.SpendingLeavesLess | irc/fakelag.go:71-74 | a command released on a budget uses up exactly one unit of the budgets |
| IdleTimer.Session.Touch | irc/client.go:886-897 | a line clears the pending PING and starts the timer the first time; a running timer is not touched and is still early enough |
| IdleTimer.Session.HandleIdleTimeout | irc/client.go:899-945 | destroys exactly at last line + disconnect timeout with a PING pending; sends the PING within a second before or at last line + ping timeout; rearms for a time that is not too late |
| IdleTimer.Session.StaySilent | irc/client.go:899-945 | a silent session is destroyed exactly at its last line + disconnect timeout, after a PING no later than last line + ping timeout |
| ClientIndex.RenamedKeepsInv | irc/client_lookup_set.go:235-242 | moving a client to free names keeps both indices holding the same clients, each once and under its own current names |
| ClientIndex.RenamedIndex | irc/client_lookup_set.go:235-242 | and touches no other client |
| ClientIndex.ClientManager.Get | irc/client_lookup_set.go:32-43 | finds a client exactly if it is registered under that name and not removed |
| ClientIndex.ClientManager.RemoveInternal | irc/client_lookup_set.go:45-76 | deletes only entries that are the client's own; an error if one was missing |
| ClientIndex.ClientManager.Remove | irc/client_lookup_set.go:79-85 | the client is gone for good and nobody else is affected |
| ClientIndex.ClientManager.MarkDestroyed | irc/client.go:1345-1352 | only a client without sessions that is not always-on is destroyed, and exactly one caller gets to do it |
| ClientIndex.ClientManager.SetClientNick | irc/client.go:1181-1200 | fails exactly for a destroyed client |
| ClientIndex.ClientManager.SetNick | irc/client_lookup_set.go:89-243 | which of its errors is given, in the order of the tests; succeeds exactly if both names are free for the client, the nick is new to it and not reserved, this is no dry run and the client lives; displaces nobody; never brings a removed client back; reattaches exactly to a living client of the same account with the nick, where that is allowed |
| ClientIndex.ClientManager.Rename | irc/client_lookup_set.go:235-243 | the change of names and entries is all or nothing |
| OperClasses.NewClass | irc/config.go:816-848 | a class gets its own capabilities and those of the class it extends, fixed up again, and a title |
| OperClasses.FixupOutcome | irc/config.go:785-787 | both prefixes of a capability are taken away, and nothing else is |
| OperClasses.Visit | irc/config.go:800-848 | one configured class: there already, waiting, added, or the error |
| OperClasses.Pass | irc/config.go:799-854 | one pass adds every class that can be added when it is visited and says whether any is missing |
| OperClasses.OperatorClasses | irc/config.go:784-858 | terminates; succeeds exactly if every chain of extended classes ends; reports a missing class exactly if some class extends one that does not exist; gives every class its own and its parent's capabilities |
| OperClasses.AssemblyIsUnique | irc/config.go:799-850 | what is assembled does not depend on the order of iteration |
| OperClasses.ClosedNeverResolves | irc/config.go:793-797 | classes that only extend each other never resolve |
| OperClasses.CapabilitiesComeFromAncestors | irc/config.go:820-836 | a capability of a class is exactly one of an ancestor, fixed up once per level and once more |
| OperClasses.AssembledAreFixed | irc/config.go:784-850 | if fixing up twice is fixing up once for all configured capabilities, those of the assembled classes do not change any more |
| OperClasses.ExtendingLoses | irc/config.go:784-850 | for every capability that changes again: a configuration of two classes that is assembled, in which the one that extends lacks the capability of the other |
| OperClasses.InheritsExactlyIfFixedOnce | irc/config.go:784-850 | for every set of capability strings: in every configuration with capabilities from it, every class has at least the capabilities of the class it extends, if and only if no string of the set changes when it is fixed up a second time |
| OperClasses.DoublePrefixIsLost | irc/config.go:784-790 | such a configuration, with a prefix written twice |
| Bans.TimersAlwaysMatch | irc/kline.go:85-136 | over every run, also with negative durations, expiration timers exist exactly for temporary bans, and know which ban they are for |
| Bans.AddOutcome | irc/kline.go:85-128 | a ban that is not over is there with a timer for its end if it has one, and one that is over changes nothing |
| Bans.RemoveOutcome | irc/kline.go:116-184 | removal takes ban and timer away, expiry only those that the callback is for |
| Bans.LoadedOutcome | irc/kline.go:223-256 | a restart has exactly the saved bans that are not over |
| Bans.ExpiredIsLeaving | irc/kline.go:95-126 | a ban whose time is over has its timer due or its callback waiting |
| Bans.StepKeepsCallback | irc/kline.go:116-126 | a callback that is late never matches a ban whose time is not over |
| Bans.StepKeepsMem | irc/kline.go:85-191 | every step keeps timers, bans in force and late callbacks in order |
| Bans.BanStays | irc/kline.go:85-191 | in every run of every configuration a ban stays in force for its whole duration unless removed or replaced, however many old callbacks there are, if no kline of negative duration was added for its key at the instant of its creation |
| Bans.StepKeepsInstant | irc/kline.go:85-128 | every step keeps that no callback is late for a ban in force of this key and instant, unless such a kline is added |
| Bans.StepKeepsStore | irc/kline.go:138-189 | memory and datastore differ only while a change is being saved, or in bans whose time is over |
| Bans.ReloadIsMemory | irc/kline.go:223-256 | with nothing pending a restart loads exactly the bans in memory |
| Bans.StaleCallbackHits | irc/kline.go:95-126 | a run in which the callback of a kline of negative duration deletes a newer ban with the same creation time |
| Bans.StaysExactlyWithoutNegativeKlines | irc/kline.go:85-191 | bans stay for their duration in every run if and only if there are no klines of negative duration |
| Bans.NegativeDlineIsOnlySaved | irc/dline.go:118-127 | a run in which a dline of negative duration replaces the saved ban but not the one in memory |
| Bans.ReloadsExactlyWithoutNegatives | irc/dline.go:100-220 | a restart gives the bans in memory in every run if and only if no negative durations are asked for |
| BanManager.BanManager.CancelTimer | irc/kline.go:130-136 | the timer is gone |
| BanManager.BanManager.AddInternal | irc/kline.go:85-128 | replaces ban and timer, with the different treatment of negative durations by klines and dlines |
| BanManager.BanManager.ProcessExpiration | irc/kline.go:116-126 | deletes only a ban with the callback's creation time |
| BanManager.BanManager.RemoveEntry | irc/kline.go:175-184 | removes ban and timer |
| BanManager.BanManager.LoadFromDatastore | irc/kline.go:223-256 | the loop loads exactly the records with time left, in any order, with timers for the temporary ones |
| BanManager.BanManager.CheckMasks | irc/kline.go:205-221 | banned exactly if some entry matches some mask; the ban is one of those, and an unconditional one if there is any, in any order of iteration |
| LruMap.LeastRecent | irc/getters.go:560-566 | with positive times the loop finds a least entry, in whatever order it comes across them |
| LruMap.ScanFindsLeast | irc/getters.go:560-566 | with positive times that is a least entry |
| LruMap.LeastIsFoundExactlyWithoutZeros | irc/getters.go:561-564 | the loop finds a least entry in every order of iteration if and only if no time is zero or all are |
| LruMap.EvictedIsTop | irc/getters.go:557-568 | adding a key to a full map and evicting the least leaves the keys with the largest times ever seen |
| LruMap.KeptIsTop | irc/getters.go:557-558 | so does an update that fits |
| LruMap.UpdatedIsTop | irc/getters.go:552-570 | every outcome of an update with a positive time, in any order of iteration, keeps the map the top of the times so far |
| LruMap.RunIsTop | irc/getters.go:552-570 | over any run of updates with positive times the map is the streaming top N |
| LruMap.ZeroTimeIsKept | irc/getters.go:557-568 | a run of three updates, the first with the zero time, in which the key that is evicted is newer than one that stays |
| LruMap.Times.Update | irc/getters.go:552-570 | takes any time: what is stored is the latest one of the key, and only the evicted key goes; as long as no time was zero the map is the streaming top N of its whole history |

## Left out

- Sockets, TLS, websockets, the HTTP API, scripts, e-mail, web push and logging: I/O and calls into other programs.
- Password hashing, SCRAM, OAuth and JWT: a passphrase hash is a number, and credentials are equal exactly if their serialized forms are.
- CasefoldName, CasefoldChannel and Skeleton are partial functions about which nothing is assumed, except where a lemma says so: that folding does not give the empty string or "*" (irc/strings.go:125-134), for Unregister that folding twice changes nothing, and for channels that names begin with # and their skeletons are not empty (irc/strings.go:84-97, irc/strings.go:178-188).
- Numerics, translations, help texts and the dispatch of commands: text.
- Go's memory model, panics and the scheduler: a critical section is one step, and an interleaving is a sequence of steps. A run has no fairness; that work goes on is stated as the absence of stuck states.
- ClientWriter.Client.WriteLoop: other goroutines mark attributes between the clearing of the bits and the test of them, as often as its argument says; all other interleavings are in the step system of ClientWriteback. A client that is marked forever keeps the loop going forever.
- ClientWriter.Client.Store: takes the writeback lock when it is free; waiting for it is in the step system, where the step is enabled only with the lock free.
- ChannelWriter.Channel.Store: the same.
- ChannelWriter.Channel.WriteLoop: a datastore that fails forever keeps the loop going forever; the method is given how often it fails.
- Errors of the account database in a client's performWrite: the code ignores them, and the model has none.
- ChannelWriteback: the channel stays registered, or stays unregistered, since SetUnregistered changes the record's key during a write.
- Purge of channels, and the cache of members that Quit and Join regenerate: the code marks their race as open (irc/channel.go:1597). Loading of channels at start-up.
- ChannelManager.ChannelManager.SetRegistered: the blocking Store that follows, with its error, is ChannelWriter.Channel.Store.
- ChannelManager.ChannelManager.SetUnregistered: that the stored record is deleted and the access grants are reset; whether the lock is busy is a parameter here and a state in the interleavings.
- ChannelManager.ChannelManager.Rename: that the channel and its members are marked dirty, and the new time of registration.
- In the interleavings of the registry a refused join is a step that may happen at any time; the conditions themselves are in Channel.Join, where matching a mask against a list and the key are parameters.
- Text of messages and all tags but batch and label in the response buffer; SendRawMessage failing; lines that other goroutines send to the session in between, which carry neither this label nor these batch IDs.
- ResponseBuffer.ResponseBuffer.ComposeMultilineBatch: the time, msgid, account, bot and concat tags of its lines.
- ResponseBuffer.ResponseBuffer.Send: with batches left open it says what is open and where the label is, not how the stream reads.
- Channel.Channel.ApplyChannelModeChanges: list, key, limit, forward and flag modes, which do not touch privileges.
- CS CLEAR, founder transfers and the loading of a member's modes at start-up. Operators and founders act in Channel, but not in the non-escalation claim, which is about everybody else.
- A client that changes its account, or a nickname that passes to another client between a check and its effect, during the non-escalation run. CS DEOP is MODE with removals only.
- NickIndex: each test that Register makes before it looks at the nicks has its outcome as a parameter. The parts of Unregister and Rename that are not about nicks. What an unverified account stores expires in one step, and the rebuild of the cache has no Rename in between.
- CertfpIndex.ExpireKeepsInv: what was stored with one time limit expires in one step.
- AccountManager.AccountManager.SetNickReserved: where its contract gives only the new state, that is not always in sync; NickRuns.CacheIsRightExactlyIfHarmless says when.
- Nick enforcement settings and accountToMethod.
- Fakelag: commands sent while it is off are not limited. Cooldown and spacing are positive, since otherwise nothing is bounded. The bound is for the release of commands, not for their arrival.
- IdleTimer: timers fire when they are due. A line that takes the lock late is covered up to a slack that is less than the time between PING and disconnect. Destruction for other reasons.
- ClientIndex.ClientManager.SetNick: the checks before the critical section, and what AddSession does to the sessions.
- Bans: writes to the datastore do not fail, time does not pass within a critical section, and CheckIP of dlines, which returns any matching network rather than the strictest.
- LruMap: times before the zero time of Go.
- OperClasses: the operators themselves, which the configuration assigns to these classes. The article in the whois line is always "a", as in the code, whose test for a vowel cannot succeed (irc/config.go:841).
- MonitorManager and AcceptManager, which keep two maps of clients mirrored; SnoManager, the sets of clients per notice mask; MessageCache, whose two ways of building a message differ on purpose. Schema migrations and import.
