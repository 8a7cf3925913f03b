# Verified models of the core of `base/`

These Dafny files model the parts of `base/` whose correctness depends on more than one function at
a time, and prove what they promise for every input, every run and every interleaving:

- **Command lines** (`text`, `string_split`, `quoting`, `splitting`, `command_line`, `arguments_string`,
  `normalisation`): the Windows argument quoter as the inverse of the CommandLineToArgvW splitting
  rules; the class `CommandLine`, whose fields `argv_`, `switches_` and `begin_args_` always agree;
  which lines survive being printed and split again; and which argument vectors are normalised by
  one initialisation.
- **Containers that change while they are iterated** (`callback_list`, `callback_values`,
  `callback_script`, `callback_list_class`, `id_map`, `id_map_class`): `CallbackList` with re-entrant
  `Notify`, and `IDMap` with deferred removal and pointer ownership. Each is a class over a state machine; the laws about passes and
  iterations are proved over all runs of the machine.
- **Protocols on one atomic word** (`atomic_ops`, `atomic_clients`, `lazy_instance`): the
  compare-and-swap retry loops, the sequence number, the barrier closure, and `LazyInstance`, as
  interleaved steps of any number of threads on sequentially consistent memory; what they
  return, and that they return.
- **Destruction at exit** (`at_exit`, `at_exit_class`): the stack of exit managers together with
  lazily built instances that use one another.
- **Codecs and layouts** (`base64`, `environment`, `environment_block`, `big_endian`,
  `big_endian_cursor`): RFC 4648 base64, environment blocks in both of their memory layouts, and
  big-endian integers of any width with their bounded cursors.

Code that updates fields in place is a class or a method with loops; each such method is proved
against a function on values, and the laws are lemmas about that function.

Some promises hold only under a condition. Where that is so the exact condition is part of the
theorem ("if and only if"), and a lemma with a concrete input shows that the condition is needed:

- Quoting skips empty arguments and does not look at tabs: `Splitting.SplitUndoesQuoting`,
  `Splitting.TabSplitsAnArgument`, `Splitting.EmptyArgumentIsLost`.
- The tokens `-=` and `--=` are stored as a bare prefix, and a value-less switch name may end in
  whitespace: `Normalisation.InitIsIdempotent`, `Normalisation.BarePrefixBecomesArgument`,
  `Normalisation.TrailingSpaceIsLost`. Whatever the input, the second initialisation is final.
- An appended switch says the same when its entry is read back only if its name has no `=` and
  trimming takes nothing off its end: `Normalisation.AppendedReadsBack`,
  `Normalisation.TrailingSpaceOfValueIsLost`.
- On POSIX a switch that ends in its own `=` is printed without it:
  `ArgumentsStrings.PosixTextIsExact`, `ArgumentsStrings.LastEqualsIsLost`.
- `IDMap::Clear` on a map that does not own its pointers and is not being iterated does nothing,
  although its name says otherwise: `IdMaps.ClearEmpties`, `IdMaps.ClearKeepsExternalEntry`.
- Base64 text with non-zero unused bits is accepted and is not what the encoder writes
  (section 3.5 of RFC 4648): `Base64.EncodeAfterDecode`, `Base64.UnusedBitsAreLost`.
- Altering an environment twice with the same changes appends again a variable whose name holds an
  equals sign: `Environments.AlterTwice`, `Environments.EqualsInNameIsAppendedAgain`. When
  such names upset the lookup of variables is the condition of `Environments.ChangesAreObeyed`.

Verify with `dafny verify dfyconfig.toml`.

## Model

| member | source | states |
|---|---|---|
| Quoting.QuoteForCommandLineToArgvW | base/command_line.cc:106-146 | the loop over backslash runs computes `Quote`, the recursive escaping that the splitting theorems are about |
| Quoting.QuoteIsNeeded | base/command_line.cc:109-112 | exactly the arguments without a space, a backslash and a quote are left as they are |
| Quoting.PushBackslashes | base/command_line.cc:131-132 | the inner loop appends exactly `count` backslashes |
| Quoting.EscapeRun | base/command_line.cc:117-135 | a run of backslashes, taken at once as the loop does, is escaped as if it were met one character at a time |
| Quoting.RunConcat | base/command_line.cc:107-108 | the CommandLineToArgvW splitter reads a concatenation as one part after the other, its pending backslashes and quotes carried over |
| Splitting.RunEscape | base/command_line.cc:116-143 | inside quotes, reading the escaped form of any text and the closing quote adds exactly that text to the token and leaves the quotes, whatever backslash runs and quotes it holds |
| Splitting.SplitUndoesJoin | base/command_line.cc:261-289 | a line of printed entries splits back into its entries if and only if every entry survives its own printing; covers bare names and quotes that open in mid-token |
| Splitting.StrayQuotes | base/command_line.cc:272-278 | an entry with an unquoted quote character never reads back: the splitter can hold strictly fewer quotes and backslashes than the entries weigh |
| Splitting.SplitUndoesQuoting | base/command_line.cc:104-146 | quoting each argument, joining by spaces and splitting gives back the list if and only if every argument is nonempty and any argument with a tab is quoted for another reason |
| Splitting.TabSplitsAnArgument | base/command_line.cc:109-112 | a bare tab makes two arguments out of one |
| Splitting.EmptyArgumentIsLost | base/command_line.cc:109-112 | an empty argument disappears |
| ArgumentsStrings.SplitUndoesPrinting | base/command_line.cc:261-289 | on Windows, splitting the arguments string gives exactly `argv_[1..]` if and only if every entry is acceptable: switch names without separators or quotes, no switch ending in a bare `=`, other entries quotable; the change of mode after `--` included |
| ArgumentsStrings.TextIsJoin | base/command_line.cc:261-289 | the printed string is the join of one piece for each entry, the pieces of switches up to the first terminator having a raw prefix |
| ArgumentsStrings.PosixTextIs | base/command_line.cc:261-289 | on POSIX the printed string is the entries of `argv_[1..]` with a space between each two, but for the last `=` of a switch without a value |
| ArgumentsStrings.PosixTextIsExact | base/command_line.cc:261-289 | it is exactly those entries if and only if no switch before the first terminator ends in its own `=` |
| ArgumentsStrings.LastEqualsIsLost | base/command_line.cc:273-283 | on POSIX `--a=` is printed as `--a` |
| CommandLines.GetSwitchPrefixLength | base/command_line.cc:44-51 | the loop over the prefixes finds the length of the longest one that matches, slash counting only where it is a prefix |
| CommandLines.IsSwitch | base/command_line.cc:55-69 | a switch is a token with a prefix and more; it is cut at the first equals sign |
| Text.TrimCuts | base/command_line.cc:76-78 | trimming takes whitespace off both ends of a text and nothing from between |
| CommandLines.LastWriterWins | base/command_line.cc:347 | the map built by the appends holds exactly the keys that were appended, each with the value of its last append |
| CommandLines.CommandLine.constructor | base/command_line.cc:151-160 | an empty line whose three fields agree |
| CommandLines.CommandLine.SetProgram | base/command_line.cc:295-297 | replaces the first entry by the trimmed program and nothing else |
| CommandLines.CommandLine.InitFromArgv | base/command_line.cc:240-246 | forgets the old contents; the new line is the trimmed program, the switches in order, and the arguments in order |
| CommandLines.CommandLine.AppendSwitchNative | base/command_line.cc:338-355 | inserts at the divider the name, with `--` in front if it has no prefix, and `=value` if there is a value; the rest of the vector is kept, and map and divider are kept in step |
| CommandLines.AppendedIsFound | base/command_line.cc:338-355 | with whichever prefix a switch is appended, or with none, it is found under its name with the value that it was given, and no other switch is affected |
| CommandLines.CaseMattersOnPosix | base/command_line.cc:340-346 | two names are the same switch on Windows exactly when they differ at most in the case of ASCII letters, on POSIX only when they are equal |
| Normalisation.AppendedReadsBack | base/command_line.cc:338-355 | the entry that an append leaves, prefixed or not, is read back as a switch with the same key and the same value if and only if the name has no `=`, is more than a bare prefix or has a value, and trimming takes nothing off the end; an unprefixed name comes back as `--` and the name |
| Normalisation.TrailingSpaceOfValueIsLost | base/command_line.cc:338-355 | a value that ends in a space is read back without it |
| Normalisation.VectorCarriesTheLine | base/command_line.cc:240-246 | a line of such switches reads back as a whole: whoever is initialised from its vector has the same map of switches and the same arguments |
| CommandLines.CommandLine.AppendArgNative | base/command_line.cc:399-401 | appends one argument; switches and divider unchanged |
| CommandLines.CommandLine.AppendSwitchesAndArguments | base/command_line.cc:72-92 | appends what parsing the trimmed tokens gives, switches before the arguments already present; the first terminator ends switch parsing for good |
| CommandLines.CommandLine.AppendToken | base/command_line.cc:76-90 | one turn of that loop |
| CommandLines.CommandLine.AppendArguments | base/command_line.cc:403-408 | appends the other line's switches and arguments as parsed again from its vector, and takes its program when asked; a line with nothing but its program may be appended to itself |
| CommandLines.EachTurnAddsOne | base/command_line.cc:75-91 | each turn of the loop adds exactly one entry, so a longer line that is appended to itself never comes closer to the end of its vector |
| CommandLines.CommandLine.CopySwitchesFrom | base/command_line.cc:366-373 | copies name by name, from another line or from the line itself; from another line, or from itself by names without a prefix, it appends exactly the named switches that the source had, with the values that it had, in the order of the names |
| CommandLines.CopyAppends | base/command_line.cc:366-373 | copying name by name is appending the named switches at once, also when the line copies from itself by names without a prefix, since its map then stays the same |
| CommandLines.CopiedAreFound | base/command_line.cc:366-373 | after copying by names without a prefix, a switch that is named and that the source has is found with the source's value, every other one as before |
| CommandLines.CommandLine.HasSwitch | base/command_line.cc:299-301 | true exactly for the keys of the last-writer-wins map, ignoring case on Windows |
| CommandLines.CommandLine.GetSwitchValueNative | base/command_line.cc:322-327 | the value of the last append, or the empty string |
| CommandLines.CommandLine.GetArgumentsString | base/command_line.cc:261-289 | the loop prints every entry after the first, joined by spaces, quoting values of switches before the terminator and whole entries otherwise |
| CommandLines.EntryString | base/command_line.cc:272-286 | one entry's printed form: raw name and quoted value for a switch, quoted whole otherwise |
| CommandLines.CommandLine.GetArgs | base/command_line.cc:375-384 | the arguments without the first terminator among them |
| CommandLines.CommandLine.PrependWrapper | base/command_line.cc:410-420 | the pieces of the wrapper, split on spaces, go before the head of the line; nothing else changes, so the switches, the map and `GetArgs()` are kept; an empty wrapper changes nothing |
| StringSplit.SplitString | base/strings/string_split.cc:14-34 | the loop cuts at every separator and trims every piece; exactly a text of nothing but whitespace without a separator gives no piece |
| StringSplit.CutUndone | base/strings/string_split.cc:14-34 | no piece holds the separator, and the untrimmed pieces with the separators between them are the text |
| CommandLines.ParseMeaning | base/command_line.cc:72-92 | parsing gives the switch tokens before the first terminator, and as arguments the other tokens before it, then it and every token after it |
| CommandLines.ArgsAfterInit | base/command_line.cc:240-246 | after initialisation `GetArgs()` is the stable subsequence of non-switch tokens minus the first terminator |
| Normalisation.InitIsIdempotent | base/command_line.cc:240-246 | initialising again from `argv()` gives the same three fields if and only if every value-less switch token keeps its shape (its name is more than a prefix and does not end in whitespace) |
| Normalisation.InitTwiceIsFinal | base/command_line.cc:240-246 | for every vector, a third initialisation changes nothing after the second |
| Normalisation.BarePrefixBecomesArgument | base/command_line.cc:347-352 | `-=` becomes a switch with an empty name the first time and an argument the second time |
| Normalisation.TrailingSpaceIsLost | base/command_line.cc:76-82 | a name that ends in whitespace, kept by the `=` after it, loses the whitespace the second time |
| Normalisation.RereadUnstable | base/command_line.cc:346-352 | if printing and reading again shows the same switches, all of them kept their shape |
| CallbackLists.StepKeepsInv | base/callback_list.h:86-172 | in every step: callbacks that are not null are in bijection with live subscriptions, null entries exist only while an iterator lives, the count is the number of live iterators, and none of them refers to an erased node, across compaction too |
| CallbackLists.RunKeepsInv | base/callback_list.h:86-172 | the same over every run |
| CallbackLists.NothingLeftBehind | base/callback_list.h:151-154 | once all subscriptions and iterators are gone the list is empty and the count zero: the destructor's two checks hold |
| CallbackLists.PassLaw | base/callback_list.h:131-141 | at every moment of every run, what an iterator has returned followed by what it will still return is what was live at its start, then what was added while its saved position was not the end, minus what was unsubscribed before its turn |
| CallbackLists.FinishedPass | base/callback_list.h:193-200 | a finished pass returned exactly those nodes, in list order, once each |
| CallbackLists.AddPending | base/callback_list.h:103-107 | an addition joins a pass exactly when the iterator's saved position is not the end |
| CallbackLists.UnsubscribePending | base/callback_list.h:86-91 | an unsubscription takes exactly its own node out of every pass, whether it resets or erases |
| CallbackLists.GetNextPending | base/callback_list.h:131-141 | GetNext returns the first pending node and leaves the rest, or finds nothing pending |
| CallbackLists.CopyPending | base/callback_list.h:119-123 | a copied iterator has yet to return exactly what the one it was copied from has |
| CallbackLists.GoneForGood | base/callback_list.h:86-91 | a callback that has been unsubscribed is never returned again, by any pass, nested or not |
| CallbackLists.PendingGrowth | base/callback_list.h:103-107 | a pass that is not advanced grows by at most one node for each addition |
| CallbackValues.AddCarries | base/callback_list.h:103-107 | the node that an addition makes carries the callback that was handed over |
| CallbackValues.StepKeepsCallback | base/callback_list.h:86-172 | no step changes the callback of a node that stays subscribed |
| CallbackValues.SubscribedCarry | base/callback_list.h:86-91 | exactly the subscribed nodes carry a callback |
| CallbackValues.RunCarries | base/callback_list.h:86-172 | in every run, a node that is still subscribed carries the callback that was handed to the Add that made it |
| CallbackValues.PassRunsTheGiven | base/callback_list.h:131-141 | the callbacks that a pass gets, in order, are those handed to Add for the nodes that it returns, one for one |
| CallbackListObjects.CallbackList.constructor | base/callback_list.h:148-149 | an empty list without iterators |
| CallbackListObjects.CallbackList.AddCallback | base/callback_list.h:103-107 | inserts a new node with that callback at the end, the subscription names that node, and every other subscription keeps its callback |
| CallbackListObjects.CallbackList.DestroySubscription | base/callback_list.h:86-91 | resets the node while iterators live, erases it otherwise |
| CallbackListObjects.CallbackList.GetIterator | base/callback_list.h:113-117 | a new iterator at the first node, counted |
| CallbackListObjects.CallbackList.CopyIterator | base/callback_list.h:119-123 | a new iterator that has yet to return what the other one has, counted |
| CallbackListObjects.CallbackList.DestroyIterator | base/callback_list.h:125-129 | uncounts the iterator and compacts when it was the last |
| CallbackListObjects.CallbackList.Compact | base/callback_list.h:164-172 | the erasing loop leaves exactly the entries that still have a callback, in order |
| CallbackListObjects.CallbackList.FirstWithCallback | base/callback_list.h:132-133 | the skipping loop stops at the first entry with a callback at or after the position, or at the end |
| CallbackListObjects.CallbackList.Next | base/callback_list.h:131-141 | returns that entry's node and callback, or neither, and moves past it |
| CallbackListObjects.CallbackList.RunNext | base/callback_list.h:197-199 | one turn of Notify: the next callback performs the next turn of the script and nothing else; additions still to come plus nodes still pending strictly decrease |
| CallbackListObjects.CallbackList.RunAll | base/callback_list.h:197-199 | the loop of Notify ends with nothing pending, having let one callback after the other perform its turn |
| CallbackListObjects.CallbackList.Notify | base/callback_list.h:193-200 | under re-entrant additions, removals and nested passes: terminates, leaves a valid list, and ran in list order and once each exactly the callbacks subscribed at its start or added while it was not at the end, and not unsubscribed before their turn; each is the callback that was handed to Add |
| CallbackListObjects.CallbackList.Perform | base/callback_list.h:197-199 | a callback performs exactly its actions, one after the other, in a legal run that neither advances nor destroys an older iterator |
| CallbackListObjects.CallbackList.PerformOne | base/callback_list.h:197-199 | exactly that action: an addition, the end of a subscription that is alive, or a whole pass with its own iterator |
| CallbackListObjects.NotifyRuns | base/callback_list.h:193-200 | what a pass with nothing left pending has run, in terms of the subscriptions at its start and of the callbacks handed to Add |
| IdMaps.StepKeepsInv | base/id_map.h:58-235 | in every step: pending removals are stored keys and there are none at depth zero, the depth is the number of iterators, no iterator refers to an erased entry, and the pointers handed to an owning map are each stored or deleted as often as they were handed over |
| IdMaps.StepAbs | base/id_map.h:58-104 | each operation acts on the plain map of unremoved entries as its name says, except that Clear leaves an external map alone when nothing iterates |
| IdMaps.ClearEmpties | base/id_map.h:95-104 | Clear empties the map if and only if it owns its pointers, is being iterated, or is empty already |
| IdMaps.ClearKeepsExternalEntry | base/id_map.h:212-215 | an external map with one entry still has it after Clear |
| IdMaps.SizeIsAbstract | base/id_map.h:119-122 | `size()` is the number of unremoved entries, during iteration too |
| IdMaps.LookupMeaning | base/id_map.h:111-117 | Lookup agrees with the unremoved entries at depth zero, and during iteration still finds pending removals |
| IdMaps.GeneratedIdsAreNew | base/id_map.h:58-66 | a map that only generates its ids never generates one that is stored |
| IdMaps.IdsCountUp | base/id_map.h:58-66 | the generated ids count up by one for each addition without an id |
| IdMaps.EveryPointerIsDeletedOnce | base/id_map.h:212-235 | over a whole life an owning map deletes every pointer exactly as often as it was handed over and never more often on the way; an external map deletes none |
| IdMaps.VisitLaw | base/id_map.h:133-203 | at every moment of every run with any number of overlapping iterators, where an iterator has arrived followed by where it will still arrive is what lay ahead of it at the start, minus what was removed before it got there |
| IdMaps.IterationVisits | base/id_map.h:133-203 | a finished iteration arrives, in table order and once each, at the first id and then at exactly the ids of the abstract map that were not removed first |
| IdMaps.CopyStands | base/id_map.h:141-145 | a copied iterator stands where the other one stands, or, if that entry is pending removal, at the first entry that the other one has yet to reach |
| IdMaps.LastCloseLeaves | base/id_map.h:154-163 | when the last iterator dies exactly the unremoved entries are left, in order |
| IdMapObjects.IDMap.constructor | base/id_map.h:40-44 | an empty map that starts its ids at one |
| IdMapObjects.IDMap.AddData | base/id_map.h:58-66 | stores the pointer under the next id, which is returned and used up |
| IdMapObjects.IDMap.AddDataWithID | base/id_map.h:72-77 | stores the pointer under the given id |
| IdMapObjects.IDMap.RemoveId | base/id_map.h:79-93 | erases and releases at depth zero, records the id otherwise, ignores unknown ids |
| IdMapObjects.IDMap.EraseOne | base/id_map.h:87-89 | one entry leaves the table, and an owning map deletes its pointer |
| IdMapObjects.IDMap.ClearAll | base/id_map.h:95-104 | releases everything at depth zero, records every id otherwise |
| IdMapObjects.IDMap.MarkAll | base/id_map.h:100-102 | the loop records every stored id |
| IdMapObjects.IDMap.ReleaseAll | base/id_map.h:212-226 | an owning map deletes every pointer and empties its table, an external map does nothing |
| IdMapObjects.IDMap.DeleteAll | base/id_map.h:220-223 | the loop deletes each stored pointer once |
| IdMapObjects.IDMap.Size | base/id_map.h:119-122 | the number of unremoved entries |
| IdMapObjects.IDMap.IsEmpty | base/id_map.h:106-109 | true exactly when no unremoved entry is left |
| IdMapObjects.IDMap.Lookup | base/id_map.h:111-117 | the pointer of an unremoved or pending entry, NULL otherwise |
| IdMapObjects.IDMap.SkipRemovedEntries | base/id_map.h:193-199 | the loop stops at the first entry that is not pending removal |
| IdMapObjects.IDMap.NewIterator | base/id_map.h:187-191 | raises the depth and settles on the first unremoved entry from the start position on |
| IdMapObjects.IDMap.OpenIterator | base/id_map.h:135-139 | a new iterator from the beginning |
| IdMapObjects.IDMap.CopyIterator | base/id_map.h:141-145 | a new iterator at the entry of the other one, or past it to the next one that is not pending removal |
| IdMapObjects.IDMap.IsAtEnd | base/id_map.h:165-168 | at the end nothing lies ahead |
| IdMapObjects.IDMap.GetCurrent | base/id_map.h:170-178 | the key and pointer of the entry, which is still stored even if it has been removed meanwhile |
| IdMapObjects.IDMap.AdvanceIterator | base/id_map.h:180-184 | moves to the next entry that is not pending removal |
| IdMapObjects.IDMap.Compact | base/id_map.h:228-235 | the loop carries out exactly the pending removals |
| IdMapObjects.IDMap.CloseIterator | base/id_map.h:154-163 | lowers the depth and compacts when it reaches zero |
| IdMapObjects.IDMap.Destroy | base/id_map.h:48-52 | deletes what an owning table still holds, pending removals included |
| AtomicOps.StepRefines | base/atomicops_internals_gcc.h:15-53 | every step of every loop either changes nothing shared or is the whole one-step operation with its specified result |
| AtomicOps.RunsAreLinear | base/atomicops.h:63-86 | in every interleaving of any number of threads, with swaps that may fail for no reason on ARM, the word and every returned value are those of executing the completed calls one after the other in the order in which they took effect |
| AtomicOps.WroteIsVisible | base/atomicops.h:63-70 | a compare-and-swap has written exactly when it returns the value that it expected; one that has not leaves the word alone |
| AtomicOps.OneSwapWins | base/atomicops.h:63-70 | of calls that all try to swap the same value out exactly the first writes, and all later ones are given what it wrote |
| AtomicOps.ExchangesHandOver | base/atomicops.h:72-76 | exchanges pass the values on: each is given what the one before it left, and the last value stays |
| AtomicOps.RetriesArePaid | base/atomicops_internals_gcc.h:19-52 | if swaps fail only for a reason, a call has gone round its loop at most as often as other threads have written the word since it began |
| AtomicOps.AloneCommits | base/atomicops_internals_gcc.h:15-53 | a call that runs alone, from wherever the others have left it, takes effect in at most three steps, as the one-step operation |
| AtomicOps.CallsAreLockFree | base/atomicops_internals_gcc.h:15-53 | in every run in which swaps fail only for a reason, a call that has not returned has taken at most one step more than twice the number of writes by other threads since it began |
| AtomicOps.OtherStepPaid | base/atomicops_internals_arm_gcc.h:175-214 | a step of another thread that makes a retry certain is itself a write, and pays for it |
| AtomicOps.IncrementsAddUp | base/atomicops_internals_gcc.h:41-53 | increments executed one after the other leave the start plus everything added, modulo 2^32 |
| AtomicOps.WordIsTheSum | base/atomicops_internals_gcc.h:41-53 | in every interleaving of increments by any amounts, the word is its start plus all committed increments modulo 2^32 |
| AtomicClients.SequenceNumbersAreConsecutive | base/atomic_sequence_num.h:24-27 | however the threads interleave, the calls are given 0, 1, 2, ... in the order in which they take effect |
| AtomicClients.BarrierRunsOnce | base/barrier_closure.cc:28-50 | at most n runs of a barrier for n: the zero check never fires, the closure is executed at most once and only after n decrements, nobody is about to execute it once it has been reset, and it has been executed and reset once n runs have finished, or executed at construction if n is zero |
| AtomicClients.ChecksPass | base/barrier_closure.cc:29 | at every moment of every run, a thread about to check the count would find it above zero |
| AtomicClients.AloneFinishes | base/barrier_closure.cc:28-34 | wherever the others have stopped, a thread that runs alone finishes its run of the barrier in at most six moves |
| AtomicClients.MoveKeeps | base/barrier_closure.cc:28-34 | in every step: the count is n minus the decrements that took effect, and only the thread that reached zero runs and resets the closure |
| AtomicClients.LoopThreads | base/atomic_ref_count.h:31-39 | a decrement that takes effect lowers the count by one and tells its caller whether it reached zero |
| LazyInstances.StepKeepsInv | base/lazy_instance.h:137-170 | in every step: the word is 1 exactly while one creator is between its swap and its store, nobody else passes the swap, and afterwards the instance is fully constructed, once |
| LazyInstances.WordOnlyAdvances | base/lazy_instance.cc:18-56 | the word only goes from 0 to 1 and from 1 to the instance, the latter by its creator |
| LazyInstances.OneInstanceForAll | base/lazy_instance.h:137-170 | in every run of any number of threads the constructor is entered at most once, the destructor registered at most once, and every call that returned got the same, fully constructed instance |
| LazyInstances.SpinnersAreNotStuck | base/lazy_instance.cc:34-36 | a spinning thread waits for a creator that can always step; the creator's steps bring the word closer, no other step moves it away, and then the spinner leaves its loop |
| LazyInstances.CreatorPublishes | base/lazy_instance.cc:41-56 | left alone, the creator publishes in at most three steps |
| LazyInstances.AloneReturns | base/lazy_instance.h:137-170 | a call that runs alone while nobody else is creating returns the instance, fully constructed, in at most eight steps, from before its start or from anywhere inside |
| LazyInstances.PublishedCallsReturn | base/lazy_instance.h:152-168 | once the instance is published, three steps of its own complete a call, whatever the other threads do |
| LazyInstances.CreatorIsEnough | base/lazy_instance.cc:41-56 | in every interleaving the instance is published once its creator has taken the at most three steps that it lacks |
| LazyInstances.WaitingCallsReturn | base/lazy_instance.cc:29-40 | in every interleaving a caller that finds the instance under construction gets its answer from three steps of its own after the creator has taken its steps |
| LazyInstances.CreatorRegisters | base/lazy_instance.cc:53-55 | in every interleaving the destructor of an instance that is not leaky has been registered, once, when its creator has taken at most four steps |
| AtExit.PointerKeeps | base/lazy_instance.h:137-170 | one use of an instance, with everything its constructor uses in turn, leaves it created and every instance registered after those its constructor used |
| AtExit.ProcessUnwinds | base/at_exit.cc:62-75 | every registered task runs exactly once, newest first, and every destructor finds the registering instances that its constructor used still alive |
| AtExit.NothingLeft | base/lazy_instance.h:199-204 | after the only manager has processed its tasks no registering instance is left, and the next use builds a fresh one |
| AtExit.StepKeepsQuiet | base/at_exit.cc:24-80 | every operation between constructors keeps: one task for each live registering instance, in a workable order, over all shadowing managers |
| AtExit.DependenciesOutliveDependents | base/at_exit.cc:51-75 | in every run, no destructor ever finds a registering instance that its constructor used already destroyed |
| AtExit.NothingIsLost | base/at_exit.cc:51-75 | in every run of a fresh process each callback has run exactly as often as it was registered, but for what is still waiting, and each instance has been destroyed exactly as often as it has been built, but for the one that is alive |
| AtExit.RegisterFlat | base/at_exit.cc:51-59 | a registered task is the newest of all tasks |
| AtExit.FreshIsQuiet | base/at_exit.cc:22 | a process without managers and instances starts that way |
| AtExitObjects.Process.constructor | base/at_exit.cc:22 | nothing registered, nothing constructed |
| AtExitObjects.Process.NewManager | base/at_exit.cc:77-80 | a new empty manager shadows the others |
| AtExitObjects.Process.RegisterTask | base/at_exit.cc:51-59 | pushes the task on the newest manager |
| AtExitObjects.Process.RunTask | base/lazy_instance.h:199-204 | for an instance, deletes it and resets its word |
| AtExitObjects.Process.RunNewest | base/at_exit.cc:71-73 | one turn: run the newest task, then take it off |
| AtExitObjects.Process.ProcessCallbacksNow | base/at_exit.cc:62-75 | the loop runs the newest manager's tasks once each, newest first, every destructor finding its dependencies alive |
| AtExitObjects.Process.DestroyManager | base/at_exit.cc:33-42 | processes the tasks, then uncovers the manager below, whose tasks are untouched |
| AtExitObjects.Process.UseDependencies | base/lazy_instance.h:156-158 | the constructor of an instance uses its dependencies one after the other, building those that are absent |
| AtExitObjects.Process.Complete | base/lazy_instance.cc:41-56 | publishes the instance, then registers its destruction unless it is leaky |
| AtExitObjects.Process.Pointer | base/lazy_instance.h:137-170 | builds the instance if it is absent, its dependencies first, and registers its destruction afterwards |
| Base64.Base64Encode | base/base64.cc:21-62 | the loop writes the encoding of section 4 of RFC 4648 and exactly `((n + 2) / 3) * 4` characters, all in bounds |
| Base64.EncodeQuad | base/base64.cc:33-58 | one turn writes the four characters of up to three bytes and keeps what is before them |
| Base64.Quad | base/base64.cc:33-58 | the shifts and masks of one turn write the next group of section 4 of RFC 4648, padded |
| Base64.NextGroupFirst | base/base64.cc:32-59 | the encoding is one such group after the other |
| Base64.GroupWritesTheNumber | base/base64.cc:33-58 | the four characters of a full group write in base 64 the number that its three bytes write in base 256 |
| Base64.DigitIsInTable | base/base64.cc:15-18 | the digits are the table of the code |
| Base64.KnownEncodings | base/base64.cc:21-62 | the examples of section 10 of RFC 4648, and a text of the last two digits |
| Base64.EncodeLength | base/base64.cc:24 | the encoding fills exactly the reserved length |
| Base64.Base64Decode | base/base64.cc:64-118 | on text that does not end in three pads: every store is in bounds, exactly `out_len` bytes are written, the result is the decoding, and malformed text is refused |
| Base64.AcceptsPaddedTexts | base/base64.cc:64-118 | accepted are exactly the texts of whole groups that are digits followed by up to two pads, and each pad is one byte less |
| Base64.DecodeChar | base/base64.cc:90-107 | accepts exactly the alphabet, and a pad only where the final run of pads may stand |
| Base64.AddSextet | base/base64.cc:108-114 | one turn keeps: the complete groups are stored, the rest is in the accumulator |
| Base64.StoreGroup | base/base64.cc:109-114 | storing one more group keeps what the earlier groups wrote and stays in bounds |
| Base64.DecodeGroup | base/base64.cc:110-112 | stores up to three bytes of a group, the first without asking for room |
| Base64.AccumFour | base/base64.cc:108-112 | the bytes cut from the accumulator after four characters are the three bytes of the group |
| Base64.DecodeUndoesEncode | base/base64.cc:21-118 | decoding the encoding of any byte string gives that byte string |
| Base64.EncodeUndoesDecode | base/base64.cc:64-118 | encoding what an accepted text decodes to gives the text with its unused bits cleared |
| Base64.EncodeAfterDecode | base/base64.cc:64-118 | it differs at most in the last character before the padding, and not at all if and only if the unused bits are zero (section 3.5 of RFC 4648) |
| Base64.UnusedBitsAreLost | base/base64.cc:64-118 | `QR==` is accepted and is encoded back as `QQ==` |
| EnvironmentBlocks.ParseEnvLine | base/environment.cc:106-118 | the two loops find the key before the first `=` and the length of the line with its null |
| EnvironmentBlocks.CopyLines | base/environment.cc:192-202 | the loop packs exactly the lines whose key is not changed, in order, and records where each starts |
| EnvironmentBlocks.PushChange | base/environment.cc:209-212 | the four appends write the line `key=value` and its null |
| EnvironmentBlocks.AppendChanges | base/environment.cc:205-214 | the loop appends the changes with a value as `key=value` in key order, and records where each starts |
| EnvironmentBlocks.AlterEnvironmentPosix | base/environment.cc:185-233 | the returned allocation is laid out for the altered lines: pointers, null pointer, packed strings, and less than one word to spare |
| EnvironmentBlocks.Allocate | base/environment.cc:216-232 | computes the number of words, copies the strings and fills in the pointers |
| EnvironmentBlocks.FillStorage | base/environment.cc:224-225 | the copied bytes are the packed strings |
| EnvironmentBlocks.FillPointers | base/environment.cc:228-230 | each pointer is the start of the storage plus its index, and the last one is null |
| EnvironmentBlocks.WordsFor | base/environment.cc:216-218 | the smallest number of words that hold the bytes |
| EnvironmentBlocks.BlockReadsBack | base/environment.cc:216-232 | every pointer lands on its own null-terminated string, which is its line, inside the allocation and before the next one starts |
| EnvironmentBlocks.StringsAreLines | base/environment.cc:216-232 | the strings of a POSIX block, taken as an environment, are the lines that it was laid out for |
| EnvironmentBlocks.PosixTwice | base/environment.cc:185-233 | a second call on the block of the first one is for the same lines if and only if the changes are absorbed |
| EnvironmentBlocks.CopyBlock | base/environment.cc:149-162 | the loop over a Windows block keeps exactly the lines whose key is not changed, in order |
| EnvironmentBlocks.AppendValues | base/environment.cc:165-173 | the loop appends the changes with a value in key order |
| EnvironmentBlocks.AlterEnvironmentWindows | base/environment.cc:145-181 | the returned block holds the altered lines and ends in two nulls, even when there is no line |
| EnvironmentBlocks.BlockEnds | base/environment.cc:175-179 | every block, that of no lines too, ends in two nulls |
| EnvironmentBlocks.BlockEndsOnce | base/environment.cc:175-179 | two nulls are next to each other nowhere but at the end of a block, where a reader stops |
| EnvironmentBlocks.BlockRoundTrip | base/environment.cc:175-179 | a block reads back as the lines it was made of |
| EnvironmentBlocks.BlockTwice | base/environment.cc:145-181 | a second call with the same changes returns the same block if and only if the changes are absorbed |
| Environments.AlterTwice | base/environment.cc:185-214 | altering twice with the same changes equals altering once if and only if the key of every appended line is the name of a change |
| Environments.PlainNamesAreAbsorbed | base/environment.cc:185-214 | names without `=` always meet that condition |
| Environments.EqualsInNameIsAppendedAgain | base/environment.cc:205-214 | a name with `=` need not: its line is appended by each call |
| Environments.UnchangedStayInFront | base/environment.cc:192-202 | lines that no change names stay where they are, in front of everything else |
| Environments.LastChangeIsAppendedLast | base/environment.cc:205-214 | the line of a variable that was not set comes after those of the changes before it |
| Environments.LookupAltered | base/environment.cc:185-214 | a changed variable has its new value, or none if that is empty, and any other variable has the value it had, provided every appended line belongs to a variable that the changes set |
| Environments.ChangesAreObeyed | base/environment.cc:185-214 | that holds for every environment and every variable if and only if the part before any `=` of each appended name is a name with a value in the changes |
| Environments.PlainNamesAreShadowed | base/environment.cc:205-214 | names without `=` always meet that condition |
| Environments.AlterCompose | base/environment.cc:185-214 | two calls look up like one call with the first map overridden by the second, where all three maps meet that condition |
| Environments.PlainAlterCompose | base/environment.cc:185-214 | for names without `=` nothing else is asked, and the overridden map is again listed in key order |
| Environments.AlterClean | base/environment.cc:185-214 | lines and changes without null characters give lines without null characters, and no empty line appears |
| BigEndian.ReadBigEndian | base/big_endian.h:26-34 | the shifting loop, starting from a sign-extended char, reads the two's complement or unsigned number that the bytes write, at any width |
| BigEndian.WriteBigEndian | base/big_endian.h:38-44 | the loop, running backwards, writes the bytes of the value, most significant first, and nothing else |
| BigEndian.ShiftIn | base/big_endian.h:30-32 | after the shift the low byte is free, and adding the next byte is the conversion of the longer number |
| BigEndian.SignedConverts | base/big_endian.h:28 | converting the sign-extended number of all bytes gives the value in the type's range, unsigned types included |
| BigEndian.ValueOfDigits | base/big_endian.h:26-44 | reading what was written gives the value, for every value of every format |
| BigEndian.DigitsOfValue | base/big_endian.h:26-44 | writing what was read gives the bytes |
| BigEndian.ValueInRange | base/big_endian.h:26-34 | what is read is in the range of its type |
| BigEndian.NumberBounds | base/big_endian.h:26-34 | the first byte carries the most weight |
| BigEndianCursors.ReadsWhatWasWritten | base/big_endian.cc:43-267 | for every sequence of writes and skips, a reader that starts where the writer did and makes the same kinds of calls gets each value and each byte string back, and fails exactly where the writer failed |
| BigEndianCursors.OutsideIsKept | base/big_endian.cc:245-267 | a run of a writer moves forward and keeps every byte outside the range it passed over |
| BigEndianCursors.FailedWritesLeaveNoTrace | base/big_endian.cc:245-267 | without the calls that fail, a run of a writer ends in the same state and no other call has another outcome |
| BigEndianCursors.FailedReadsLeaveNoTrace | base/big_endian.cc:20-50 | the same for a reader |
| BigEndianCursors.BigEndianReader.constructor | base/big_endian.cc:10-12 | a cursor at the start of its part of the buffer |
| BigEndianCursors.BigEndianReader.Remaining | base/big_endian.h:73 | the number of bytes left, cast to a 32-bit int: up to 2^31 - 1 it is exactly the largest size that still fits |
| BigEndianCursors.BigEndianReader.Skip | base/big_endian.cc:20-25 | advances by `len` exactly when that many bytes are left, and otherwise fails with the position untouched |
| BigEndianCursors.BigEndianReader.ReadBytes | base/big_endian.cc:27-33 | the next bytes, advancing past them, exactly when enough are left, and otherwise a failure with the position untouched |
| BigEndianCursors.BigEndianReader.PeekBytes | base/big_endian.cc:131-136 | the next bytes; changes nothing in either case |
| BigEndianCursors.BigEndianReader.Read | base/big_endian.cc:43-50 | the next number, advancing past it, exactly when enough bytes are left, and otherwise a failure with the position untouched |
| BigEndianCursors.BigEndianReader.Peek | base/big_endian.cc:145-151 | the next number; changes nothing in either case |
| BigEndianCursors.BigEndianReader.ReadOrZero | base/big_endian.cc:91-129 | the next number, or zero with the position untouched when too few bytes are left |
| BigEndianCursors.BigEndianWriter.constructor | base/big_endian.cc:232-233 | a cursor at the start of its part of the buffer |
| BigEndianCursors.BigEndianWriter.Remaining | base/big_endian.h:141 | the same for a writer |
| BigEndianCursors.BigEndianWriter.Skip | base/big_endian.cc:245-250 | advances without writing exactly when there is room, and otherwise fails with position and buffer untouched |
| BigEndianCursors.BigEndianWriter.WriteBytes | base/big_endian.cc:252-258 | writes exactly those bytes and advances past them exactly when there is room, and otherwise fails with position and buffer untouched |
| BigEndianCursors.BigEndianWriter.Write | base/big_endian.cc:260-267 | writes exactly the bytes of the value and advances past them exactly when there is room, and otherwise fails with position and buffer untouched |

## Left out

- CommandLines.CommandLine.AppendArguments: not for a line with more than its program appended to itself, where the source's loop runs over the vector that it is extending and never ends (CommandLines.EachTurnAddsOne).
- IdMapObjects.IDMap.AddData: only while no iterator is alive, since an insertion may rebuild the table and the class promises safety for removals only; the table order after an insertion is a parameter, and ids below the largest 32-bit number are required.
- IdMapObjects.IDMap.AddDataWithID: likewise only while no iterator is alive.
- IdMapObjects.IDMap.AdvanceIterator: an iterator at the end is not advanced, as the source demands of its callers.
- AtomicClients.SequenceNumbersAreConsecutive: up to 2^31 - 1 calls, after which the source's subtraction overflows.
- LazyInstances.OneInstanceForAll: one creation, since OnExit while other threads use the instance is a mistake of the caller; what OnExit does is in AtExit, in one thread.
- AtExit.DependenciesOutliveDependents: for one thread; with several, an instance is published before its destructor is registered, so the order of registration says nothing about use. Tasks do not register tasks, since the manager's lock is held while they run.
- Base64.Base64Decode: text that ends in three pads is excluded, because the first store of a group is not guarded; shifts and masks are written as divisions and remainders.
- Protocols on an atomic word are state machines on values, one shared access a step; fences, memory orderings and the assembly variants are left out, memory is sequentially consistent.
- The Iterator and Subscription objects of `CallbackList` and the Iterator objects of `IDMap` are entries of a table in the container, since they live and die with calls on it; memory of freed callbacks and deleted pointers is not modelled.
- What running callbacks do in a `Notify` is a finite script of additions, removals and nested passes; callbacks with arguments are not modelled.
- Pointer arithmetic is on natural numbers: `ptr_ + len` does not wrap around.
- Program-name parsing of CommandLineToArgvW, `GetCommandLineString` and `ParseFromString`: the first token has rules of its own.
- Conversions between wide, UTF-8 and ASCII strings, and locales: characters are code units, lower-casing is of ASCII letters, whitespace is ASCII whitespace.
- `IDMap::Iterator::operator=` names members that do not exist, so it is never instantiated; `LazyInstance::operator==` is one branch on the word.
- Reading and writing doubles, and the resets of the cursors, which repeat their constructors.
- Thread checks, DCHECKs that only restate a precondition, and reference counts of callbacks.
- File, path, process and event-recorder code, callback and bind templates, hashing and INI parsing: operating system calls, type machinery, or easier members.
