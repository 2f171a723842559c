# Verified kernels of the NVC VHDL compiler

This project models the state-heavy kernels of NVC and proves what they are
relied upon for: the lock-free identifier table, the hash tables, the analysis
that finds the implicit sensitivity of a process, the binary file layer, bit
masks and the unique-driver analysis built on them, edit distance, and a few
smaller list algorithms. `dafny verify dfyconfig.toml` checks everything.

How the parts fit together:

- **Concurrency.** `InternTable` and `ConcurrentHash` are state machines in which
  every atomic load, store and compare-and-swap is one step of one thread. A run
  is any sequence of calls and steps of any number of threads. The two invariant
  files show that each step keeps an inductive invariant, the theorem files say
  what follows for whole runs, and the answer, load and progress files that no call is
  lost and a thread on its own gets on. Memory that the source frees late is never reused.
- **Objects.** The sequential tables, masks, file buffers, location contexts,
  interval lists, the frame cache and the unit list are classes with the source's
  fields. Their methods are proved against functions on values (`LinearTable`,
  `Words`, `Codec`, `Coverage.Place`, `FrameCache.Touch`, ...), and the properties
  are lemmas about those functions.
- **Meaning.** `Sensitivity` transcribes the analysis over a reduced syntax tree;
  `ProcessSemantics` gives an executable meaning to process bodies, with the
  operations on values left open; the theorems relate the two.

Where the code does less than its purpose suggests, the model follows the code,
and the project gives the inputs on which it falls short and the condition under
which it does not:

- `build_wait` does not look at the index expressions of a nested target such as
  `a(i).f`, at waveform delays, or at the prefixes of history and array attributes
  (`g(y)'length`), and `is_static` accepts `s(0 to n)'length` whatever `n` is.
  Soundness holds when everything a body reads lies inside a reported name
  (`SensitivityProof.SensitivityIsSound`); for an assignment, and for an if or case between
  two different assignments, with fixed reported names that is necessary as well
  (`SensitivityNeeded.ExactForAssignments`, `SensitivityChoice.ExactForChoices`); an expression
  has a fixed value exactly when it reads nothing (`SensitivityExact.FixedIff`). Bodies of each
  kind that go wrong are in `SensitivityExamples`.
- A `chash_put` that overwrites a key can meet the copier of a resize at its slot. Puts
  and gets are linearizable and no assertion fails as long as no put writes another
  value over one that the copier has read and not yet marked as moved, and the copier
  never comes to mark a slot that a put holds. Otherwise the copier holds an overtaken
  value, by which the put can get lost (`LostUpdate`), or the assertion at src/hash.c:611
  fails (`ConcurrentHashTheorems.CleanRunIff`). A put that seizes the slot while
  the copier is anywhere between reading its key and marking it makes that assertion
  reachable (`ConcurrentHashOrder.OrderlyRunIff`), but need not do harm: one that
  is done before the copier reads the value is kept
  (`LostUpdate.OverwriteBeforeReadIsKept`). Putting every key at most once is always safe
  (`ConcurrentHashOrder.PutsOnceAreLinearizable`). The comment at src/hash.c:673-674 says the
  CAS to busy avoids lost updates.
- A case choice that extends the interval it directly follows is not compared with the
  intervals after it: values that it repeats there are not reported, and the
  missing-value count then comes out too small (`Coverage.TouchingChoiceHidesGap`). Both
  diagnoses are right if and only if every choice joins at most one interval of the list
  when its turn comes (`Coverage.BothRightIff`); so they are for choices that are pairwise
  disjoint (`Coverage.DisjointChoicesIff`). The branch at src/bounds.c:480-483 cannot be
  reached: the loop condition excludes it.
- Driving an external name makes a process forget what it drove before. A part of a
  signal that it drives again is then recorded twice, and `has_unique_driver` denies
  that the part has one driver (`DriverSets.UniqueDriver`,
  `DriverSets.DrivenAgainAfterExternal`).
- Tables created with one or two slots can fill up, after which looking up an
  absent key does not end (`LinearTable.ProbeEndsIff`, `HashTables.TwoSlotsFill`).
- An identifier that is empty or holds a NUL, and a reference of 2^31 or more, do not
  read back as written (`IdentCodec.ReadsBackIff`). One longer than a block, 61440
  bytes although 65534 are allowed, fails the assertion at src/fbuf.c:516.

## Model

| member | source | states |
|---|---|---|
| Probing.TriangularVisitsAll | src/ident.c:164-188 | Adding 1, 2, 3, ... modulo a power of two visits every slot within one table length, so an unbounded probe meets any free slot. |
| Probing.LinearVisitsAll | src/hash.c:102-117 | Cyclic linear probing reaches every slot within one table length. |
| InternInvariant.StepKeepsInv | src/ident.c:149-339 | Every step of every thread keeps the invariant of the resize protocol, and tables, identifiers and results only advance. |
| InternInvariant.FreeSlotRemains | src/ident.c:164-188 | While the copier probes the doubled table there is a free slot ahead of it on its path. |
| InternTheorems.ReachableInv | src/ident.c:149-339 | The invariant holds after every run of any threads. |
| InternTheorems.RunsOnlyAdvance | src/ident.c:151-251 | Over any continuation of a run, slots only go from NULL to an identifier to MOVED, and nothing installed or returned is taken back. |
| InternTheorems.CanonicalInterning | src/ident.c:253-288 | Two calls anywhere in a run return the same identifier if and only if their strings are equal, before, during and after resizes. |
| InternTheorems.NoFault | src/ident.c:164-251 | No assertion of the resize protocol fails in any interleaving. |
| InternTheorems.CopierProbeEnds | src/ident.c:237-251 | At most one thread copies at a time and its probe stays inside the new table. |
| InternTheorems.InternedStaysReachable | src/ident.c:164-288 | Every identifier sits in exactly one slot of the published table, with no NULL slot before it on its probe path. |
| InternTheorems.UniqueRequestsGetNewIdents | src/ident.c:467-505 | An identifier returned to a unique request was never returned to any call before. |
| InternAnswers.StepOutcome | src/ident.c:253-339 | Every step carries a request on, refuses a string that is too long, returns the identifier that has the string (nothing to a unique request), or, if none has it, adds one and returns exactly that. |
| InternAnswers.EveryAnswer | src/ident.c:253-339 | In any run an answer is the identifier of the string asked for, there is none only for a unique request on a string already interned, and every identifier was the answer to some call. |
| InternAnswers.EveryCallAnswered | src/ident.c:253-362 | In any run every call is answered exactly once, or its thread is still at it. |
| InternAnswers.CallEnds | src/ident.c:253-288 | Running alone while no resize is under way, a call is answered, refused or finds that the table must grow within 22 steps. |
| InternAnswers.ResizeEnds | src/ident.c:164-251 | Running alone, the copier publishes the new table and goes back to its request. |
| IdentHash.HashUpdate | src/ident.c:114-127 | The loop computes the FNV hash of the bytes up to a NUL or the given count and returns how many it used. |
| IdentHash.FnvConcat | src/ident.c:114-127 | Hashing two pieces in turn is hashing their concatenation. |
| IdentHash.HashIgnoresCase | src/ident.c:114-127 | Strings that differ in letter case only, for the letters of ISO 8859-1, have the same hash. |
| IdentHash.CaseCompare | src/ident.c:770-808 | The comparison decides equality up to letter case; its quick test on length and hash loses nothing. |
| IdentHash.HashOfLetterA | src/ident.c:114-127 | The hash of the letter A in either case is the published FNV-1a value. |
| IdentHash.MatchesParts | src/ident.c:290-339 | Comparing piece by piece decides equality with the joined string. |
| IdentHash.PrefixRequest | src/ident.c:532-557 | The pieces and the hash handed to the table for a prefix, separator and suffix are those of the joined string. |
| IdentHash.UniqRequest | src/ident.c:467-505 | The pieces and the hash handed over for a unique identifier are those of prefix and suffix, marked unique. |
| IdentHash.ChainIsWhole | src/ident.c:114-127 | Hashing any number of NUL-free pieces in turn is hashing the joined string. |
| InternInvariant.MatchesIff | src/ident.c:253-339 | The test of a slot, by hash and bytes or by hash, length and piece after piece, accepts exactly the identifier of the joined string. |
| IdentHash.EntryPointsProper | src/ident.c:341-362 | Runs made of calls of the entry points satisfy what the theorems about runs ask of requests. |
| IdentHash.PartsAreWhole | src/ident.c:290-339 | With the chained hash and the comparison by pieces, interning pieces returns the identifier of the whole string, wherever the two calls fall in a run. |
| IdentHash.PrefixIsWhole | src/ident.c:532-557 | In particular for a prefix, a separator and a suffix. |
| EditDistance.NoScriptCheaper | src/ident.c:736-765 | No edit script from one string to the other costs less than the recurrence says. |
| EditDistance.CheapestScript | src/ident.c:736-765 | Some edit script costs exactly that much, so the distance is the minimum over all scripts. |
| EditDistance.Symmetric | src/ident.c:736-765 | The distance is symmetric. |
| EditDistance.ZeroOnlyIfEqual | src/ident.c:736-765 | The distance is zero if and only if the strings are equal. |
| EditDistance.Triangle | src/ident.c:736-765 | The distance satisfies the triangle inequality, by composing scripts. |
| EditDistance.Bounds | src/ident.c:736-765 | The distance is at least the difference of the lengths and at most the longer length. |
| EditDistance.FillRow | src/ident.c:748-757 | One pass over the row buffers turns a row of distances into the next. |
| EditDistance.Distance | src/ident.c:736-765 | The rolling two-row computation returns the minimum script cost. |
| ConcurrentHashInvariant.StepKeepsInv | src/hash.c:551-786 | Every step of puts, overwrites, gets and resizes keeps the invariant of the FREE/BUSY/INUSE/MOVED protocol, unless it writes another value over one the copier has just read, or marks a slot that a put holds. |
| ConcurrentHashTheorems.RunsOnlyAdvance | src/hash.c:551-698 | Over any run without such a step no slot becomes free again or loses its key, moved slots are frozen, and the history of writes only grows. |
| ConcurrentHashWrites.EachPutWritesOnce | src/hash.c:640-698 | In any run at all, no put writes twice, and a put that returned wrote its value between its call and its return. |
| ConcurrentHashTheorems.Linearizable | src/hash.c:640-786 | In runs without such a step, puts and gets, overlapping or not and across resizes, are linearizable: a put takes effect at a write of its own, a get returns the value its key has at some moment between call and return. |
| ConcurrentHashTheorems.QuietGetSeesLastPut | src/hash.c:751-786 | A get during which its key is not written returns the value of the last put, NULL if there was none. |
| ConcurrentHashTheorems.TableIsHistory | src/hash.c:575-698 | At every moment the published table maps exactly the keys written so far to their latest values, each in one slot that a probe reaches. |
| ConcurrentHashTheorems.OneSlotPerKey | src/hash.c:575-698 | No table, past, published or being filled, holds a key in two slots. |
| ConcurrentHashTheorems.NoFault | src/hash.c:575-636 | In runs without such a step none of the source's assertions fails, including the one on a key copied twice and the one on a failed CAS. |
| ConcurrentHashTheorems.CleanRunIff | src/hash.c:575-698 | A run has no such step if and only if in no state along it an assertion has failed or the copier holds a value that is not the latest of its key. |
| ConcurrentHashOrder.OrderlyRunsAreClean | src/hash.c:575-698 | A run in which no put seizes a slot between the copier's read of its key and the mark has no such step. |
| ConcurrentHashOrder.SeizeDooms | src/hash.c:575-614 | After a seizure in that window the copier, going on alone, fails an assertion. |
| ConcurrentHashOrder.OrderlyRunIff | src/hash.c:575-614 | A run has no seizure in the window if and only if at no point along it the copier, going on alone, would fail an assertion. |
| ConcurrentHashOrder.PutsOnceAreLinearizable | src/hash.c:640-786 | A run that puts every key at most once is linearizable and no assertion fails, whatever the schedule. |
| ConcurrentHashTheorems.CopierProbeEnds | src/hash.c:585-599 | One thread resizes at a time and its probe ends inside the doubled table. |
| ConcurrentHashLoad.EveryCallAnswered | src/hash.c:640-786 | In any run every call is answered exactly once, or its thread is still at it. |
| ConcurrentHashLoad.LoadBounded | src/hash.c:640-668 | The member count is the number of keys less those about to be counted, and the keys are at most half the slots of the published table and one for each thread. |
| ConcurrentHashProgress.CallReturns | src/hash.c:640-786 | Running alone while no resize is under way, no slot is held and one is free, a get, or a put that need not grow the table, returns within as many steps as there are slots and six. |
| ConcurrentHashProgress.ResizeEnds | src/hash.c:575-638 | Running alone while no put holds a slot, the copier publishes the new table and goes back to its put. |
| LostUpdate.OverwriteInWindowIsLost | src/hash.c:592-610 | In any state, an overwrite that falls between the copier's read of the value and its CAS returns, and the new table keeps the old value. |
| LostUpdate.OverwriteBeforeReadIsKept | src/hash.c:592-610 | In any state, an overwrite that seizes the slot after the copier read the key and ends before it reads the value is in the new table. |
| LostUpdate.LostUpdate | src/hash.c:592-685 | For any two values there is a run from an empty table in which a put of the second returns and a later get returns the first. |
| LinearTable.ProbeEndsIff | src/hash.c:134-144 | A probe ends if and only if the key is in the table or some slot is empty. |
| LinearTable.EmptyMeansAbsent | src/hash.c:134-144 | An empty slot at the end of a probe shows that no slot holds the key. |
| LinearTable.Insert | src/hash.c:106-116 | Filling that slot keeps every live key reachable and distinct and changes the lookup of this key only. |
| LinearTable.Overwrite | src/hash.c:120-132 | Writing or clearing the value of the matching slot changes the lookup of its key only. |
| LinearTable.OneMoreSlot | src/hash.c:80-98 | Lookups in the slots seen so far by a rebuild change by exactly the next live entry. |
| HashTables.HashTable.Get | src/hash.c:134-144 | Returns the value the table holds for the key, NULL if none; ends on every table of at least four slots. |
| HashTables.HashTable.Delete | src/hash.c:120-132 | Makes the lookup of the key NULL and changes no other. |
| HashTables.HashTable.Rebuild | src/hash.c:66-101 | Doubling the table and dropping deleted keys changes no lookup and no assertion fails. |
| HashTables.HashTable.Put | src/hash.c:64-118 | Updates the lookup of the key only, rebuilds exactly when more than half full, and tells whether the key had a slot (a value, after a rebuild). |
| HashTables.TwoSlotsFill | src/hash.c:41-54 | A table of two slots holding two keys has no probe that ends for any other key. |
| HashSet.PointerSet.Insert | src/hash.c:458-487 | Adds exactly the key, counts it if it is new, and rebuilds exactly when more than half full. |
| HashSet.PointerSet.Rebuild | src/hash.c:460-476 | Inserting every old key again into the doubled table keeps the set and the count, and those insertions never rebuild. |
| HashSet.PointerSet.Contains | src/hash.c:489-500 | Decides membership; ends on every table of at least four slots. |
| IntHash.IntHashTable.Get | src/hash.c:414-429 | A cached answer equals a full lookup, and the cache afterwards holds this key and answer. |
| IntHash.IntHashTable.Put | src/hash.c:360-412 | Updates one lookup, keeps the cache equal to a full lookup, and terminates although the rebuild calls put again. |
| IntHash.IntHashTable.Rebuild | src/hash.c:362-390 | Putting every entry again into the doubled table changes no lookup, and those puts never rebuild. |
| GenericHash.GenericTable.MatchesIff | src/hash.c:900-914 | With equal keys hashing alike, the test on stored hash and comparison accepts exactly the live slot of an equal key, even where a delete cleared the hash. |
| GenericHash.GenericTable.Get | src/hash.c:917-930 | Returns the value held for a key equal to the one given. |
| GenericHash.GenericTable.Delete | src/hash.c:932-948 | Makes the lookup of all equal keys NULL and changes no other. |
| GenericHash.GenericTable.Put | src/hash.c:860-915 | Updates the lookup of all equal keys and no other. |
| GenericHash.GenericTable.Rebuild | src/hash.c:866-894 | The rebuild by stored hashes changes no lookup, and no key pointer is met twice. |
| Sensitivity.FindRef | src/common.c:1526-1541 | The loop down the prefixes of a name finds the declaration it refers to, if any. |
| SensitivityPrefix.RefIsBase | src/common.c:1526-1541 | That declaration is the one at the base of the name. |
| SensitivityPrefix.LongestPrefix | src/common.c:1886-1945 | The longest static prefix is a prefix all of whose indices and ranges pass the static test, and every such prefix is a prefix of it. |
| SensitivityPrefix.StaticNameReported | src/common.c:2265-2340 | A signal name all of whose steps are static is reported as exactly itself. |
| SensitivityPrefix.NameReported | src/common.c:2265-2340 | For any signal name exactly its longest static prefix is reported, then what the remaining indices are reported to read, from left to right. |
| SensitivityPrefix.BodyMentioned | src/common.c:2245-2518 | Nothing is reported that does not occur in a value, an index, a range or a condition of the body. |
| SensitivityPrefix.StaticIff | src/common.c:1773-1884 | Among names, literals, folded calls and attributes of types the static test accepts exactly what reads nothing. |
| SensitivityTerms.FixedValue | src/common.c:1773-1884 | An expression that reads nothing has the value of its symbolic form, in every state and for every interpretation. |
| SensitivityExact.FixedIff | src/common.c:1773-1884 | An expression has the same value in all states if and only if it reads neither signals nor variables, the bounds and calls in the prefix of an array attribute included. |
| SensitivityExact.SliceLengthIsNotFixed | src/common.c:1857-1876 | The static test accepts the length of a slice of a signal bounded by a variable, which depends on that variable. |
| SensitivityProof.NameWalk | src/common.c:1886-1945 | A name whose indices read nothing denotes the same part of the same signal in every state. |
| SensitivityReported.StmtsAreReportable | src/common.c:2265-2518 | Everything reported for a body is a signal, an external name, or a composite name of a signal that is its own longest static prefix. |
| SensitivityReported.StaticIsFixed | src/common.c:1773-1884 | What the static test accepts reads nothing, if no array attribute occurs in it. |
| SensitivityProof.SameValue | src/common.c:2265-2400 | Signal states that agree on some names give the same value to every expression whose reads lie inside those names. |
| SensitivityProof.SensitivityIsSound | src/common.c:2245-2518 | For every interpretation and running time, signal states that agree on the reported names give the same variables, scheduled assignments and messages, if every read of the body lies inside a reported name. |
| SensitivityPlain.PlainIsSound | src/common.c:2245-2518 | So for every body that reads no signal where `build_wait` does not look: indices below the outermost one of a target, delays, prefixes of history attributes, bounds and calls in prefixes of array attributes. |
| SensitivityNeeded.DifferRun | src/common.c:2245-2263 | An interpretation that keeps terms apart makes an assignment behave differently when a part that it reads differs. |
| SensitivityNeeded.ExactForAssignments | src/common.c:2245-2518 | An assignment to a signal or variable whose reported names are fixed depends on them only, if and only if all that it reads, visited or not, lies inside them. |
| SensitivityReported.ExactWithoutBounds | src/common.c:2245-2518 | So for every assignment without an array attribute in a reported name. |
| SensitivityChoice.ExactForChoices | src/common.c:2245-2518 | Likewise for an if or case statement, with fixed reported names, between two assignments that do different things. |
| SensitivityExamples.NestedTargetIsMissed | src/common.c:2245-2263 | Assigning a literal to `a(i).f` depends on `i`, which is not reported. |
| SensitivityExamples.CallLengthIsMissed | src/common.c:2368-2378 | Assigning `g(y)'length` depends on `y`, which is not reported. |
| SensitivityExamples.DelayIsMissed | src/common.c:2265-2518 | A delay that is a signal matters and is not reported. |
| SensitivityExamples.HistoryIsMissed | src/common.c:2368-2378 | Assigning `y'last_value` depends on `y`, which is not reported. |
| SensitivityExamples.HistoryConditionIsMissed | src/common.c:2368-2378 | So does choosing between two values by `y'last_value`. |
| SensitivityExamples.ReportedAroundIsEnough | src/common.c:2245-2518 | Assigning `y` to `a(y(0)).f` is safe, since all of `y` is reported. |
| SensitivityExamples.MovingIndexIsMissed | src/common.c:1857-1876 | The element `a(s(0 to n)'length)` is reported as static, but another element is read once the variable `n` is assigned. |
| Adler.Blockwise | src/fbuf.c:245-254 | Summing block by block is summing the whole. |
| Adler.ReduceLate | src/fbuf.c:177-221 | Reducing at the end gives the same sums as reducing after every byte. |
| Adler.ClosedForm | src/fbuf.c:112-175 | The unreduced sums of a block are the plain and the position-weighted sum of its bytes. |
| Adler.VectorSums | src/fbuf.c:137-146 | The vector instructions on 32 bytes add up to the plain and the weighted sum, without saturation. |
| Adler.SumChunk | src/fbuf.c:126-149 | A block of vectors yields both sums of its bytes without exceeding 32 bits in any lane. |
| Adler.UpdateAvx2 | src/fbuf.c:112-175 | The vector update returns the reference sums for every length. |
| Adler.Update | src/fbuf.c:177-221 | The scalar update returns the reference sums for every length, with one conditional subtraction per eight bytes and no 32-bit overflow. |
| Adler.KnownSums | src/fbuf.c:177-221 | The reference gives the well-known sums of the string "Wikipedia". |
| Codec.LebFits | src/fbuf.c:593-603 | A 64-bit value takes at most the ten bytes reserved for it. |
| Codec.LebLengthIff | src/fbuf.c:593-603 | The encoding takes at most k bytes if and only if the value is below 128^k. |
| Codec.LebDigit | src/fbuf.c:593-603 | Byte k is digit k to the base 128, with the top bit set on all but the last. |
| Codec.LebRoundTrip | src/fbuf.c:593-603 | The bytes of a number end where its continuation bits say and have its value. |
| Codec.LebSnoc | src/fbuf.c:660-679 | Reading left to right, the next byte adds its seven bits at the next weight. |
| Codec.ZigZagRoundTrip | src/fbuf.c:605-609 | The signed encoding is undone by the decoding. |
| Codec.ZigZagLength | src/fbuf.c:605-609 | A signed number takes at most k bytes if and only if twice its value lies from -128^k up to 128^k. |
| SignedWords.OneWord | src/fbuf.c:605-609 | Every 64-bit number is held by exactly one machine word, bit by bit. |
| SignedWords.ZigZagOfWord | src/fbuf.c:605-609 | For every 64-bit number, shifting its two's complement and mixing in the sign gives the word of the encoded number. |
| SignedWords.UnZigZagOfWord | src/fbuf.c:681-685 | The decoding formula on the word of an encoded number gives the two's complement of the number. |
| Codec.ZigZagWordCases | src/fbuf.c:605-609 | On machine words the shift-and-xor formula is the two-case arithmetic one. |
| Codec.UnZigZagWordCases | src/fbuf.c:681-685 | Likewise for decoding. |
| Codec.FixedRoundTrip | src/fbuf.c:611-644 | Little-endian words read back as written. |
| Codec.FixedDigit | src/fbuf.c:611-644 | Byte j is digit j to the base 256. |
| FileBuffer.Writer.MaybeFlush | src/fbuf.c:514-543 | A flush moves the pending bytes into a block, loses nothing, keeps the sums those of all blocks, and leaves room for what follows. |
| FileBuffer.Writer.PutUInt | src/fbuf.c:593-603 | Appends exactly the encoding of the value. |
| FileBuffer.Writer.PutInt | src/fbuf.c:605-609 | Appends exactly the signed encoding. |
| FileBuffer.Writer.WriteFixed | src/fbuf.c:611-644 | Appends the little-endian bytes. |
| FileBuffer.Writer.WriteRaw | src/fbuf.c:646-651 | Appends the bytes; pending data never exceeds a block. |
| FileBuffer.Writer.Close | src/fbuf.c:545-591 | All data is in the blocks; the last block of a file that is not empty, and no other, is marked as the end; the sums are those of the data. |
| FileBuffer.Reader.GetUInt | src/fbuf.c:660-679 | Reads one number of any length and keeps its low 64 bits. |
| FileBuffer.Reader.ReadFixed | src/fbuf.c:687-729 | Reads a little-endian word. |
| FileBuffer.Reader.Get | src/fbuf.c:660-736 | Reading an item of the same kind gives back the item and stops at its end. |
| FileBuffer.RoundTrip | src/fbuf.c:514-743 | Any sequence of typed writes reads back unchanged; blocks hold exactly its encoding; the blockwise sums of the writer equal the one-shot sums of the reader. |
| IdentCodec.ReadsBack | src/ident.c:399-465 | A record just written reads back as its identifier, although the negated length travels as a large positive number. |
| IdentCodec.WriteKeepsOther | src/ident.c:399-416 | Overwriting the mark of another context does not disturb what that context wrote. |
| IdentCodec.RoundTrip | src/ident.c:381-465 | However writing contexts interleave, within the 65535 generations the source asserts, each one's records read back as exactly the identifiers it was asked to write. |
| IdentCodec.ReadsBackIff | src/ident.c:399-465 | One more record is read as the identifier it was written for if and only if a new identifier is not empty and holds no NUL, and a reference is below 2^31. |
| IdentCodec.ReadFile | src/ident.c:418-465 | Reading the bytes of a file of records gives what the records say. |
| IdentCodec.FileRoundTrip | src/ident.c:381-465 | The records of a context, written through the blocks of a file and read from them, give back the identifiers it was asked to write. |
| FileExamples.ThreeIdentifiers | src/ident.c:399-416 | The bytes written for no identifier, a new one and the same again. |
| Locations.LocWriter.Write | src/diag.c:298-323 | Writes the file index once and then the wrapped differences from the previous location. |
| Locations.AdvanceDiff | src/diag.c:397-400 | Adding a wrapped 32-bit difference to the old value gives the new one. |
| Locations.LocReader.Resolve | src/diag.c:367-393 | A file number read from the index becomes a reference to a file of the same name; a file is added only if it was unknown. |
| Locations.LocReader.Read | src/diag.c:343-407 | A location reads back with equal lines, columns and deltas and a file of the same name. |
| Locations.ReadAll | src/diag.c:343-407 | So does every sequence of locations written in one context, whatever files the reading process knew. |
| Locations.WriteAll | src/diag.c:298-323 | The file holds the index and the differences, nothing else. |
| FileExamples.TwoLocations | src/diag.c:298-323 | The bytes written for two locations in one file. |
| Words.RangeRefines | src/mask.c:43-60 | Shifting, subtracting and masking yields exactly the requested positions. |
| Words.AndRefines | src/mask.c:62-76 | Machine and is and on each position. |
| Words.OrRefines | src/mask.c:94-108 | Machine or is or on each position. |
| Words.NotRefines | src/mask.c:62-76 | Machine complement is complement of each position. |
| Words.OneRefines | src/mask.h:35-59 | A shifted one is the set of one position. |
| Words.ConstantsRefine | src/mask.c:43-60 | The words 0 and all ones are the empty and the full set of positions. |
| Words.UnpackInjective | src/mask.c:126-164 | Words with equal positions are equal, so comparing a word with 0 asks whether any position is set. |
| Masks.BitMask.Test | src/mask.h:35-41 | Decides membership. |
| Masks.BitMask.SetBit | src/mask.h:43-59 | Adds or removes one position. |
| Masks.BitMask.TestAndSet | src/mask.c:188-195 | Adds one position and tells whether it was there. |
| Masks.BitMask.FillRange | src/mask.c:62-124 | Adds or removes exactly a range of positions and leaves those at or above the size clear. |
| Masks.BitMask.TestRange | src/mask.c:126-164 | Decides whether a range meets the set. |
| Masks.BitMask.Popcount | src/mask.c:166-176 | Returns the number of members. |
| Masks.BitMask.ScanBackwards | src/mask.c:197-218 | Returns the highest member not above a position, or -1. |
| Masks.BitMask.CountClear | src/mask.c:220-256 | Returns the distance to the next member or the end. |
| Masks.BitMask.Iter | src/mask.c:322-356 | Returns the next member, if any. |
| Masks.BitMask.Elements | src/mask.c:322-356 | Iterating from -1 yields every member once in ascending order. |
| Drivers.WholeSignal | src/driver.c:319-333 | The first pass finds tentative drivers and decides whether a single process drives the whole signal. |
| Drivers.OffsetIsPosition | src/driver.c:380-407 | The indices of a type of either direction have the positions from 0 up to its length, in ascending order. |
| Drivers.Disjoint | src/driver.c:355-429 | The second pass succeeds if and only if every sub-element is named by exactly one driver, for both directions and records. |
| Drivers.HasUniqueDriver | src/driver.c:310-429 | True if and only if all drivers are certain and one process drives the whole signal alone or every sub-element has exactly one recorded driver. |
| DriverSets.DriverSet.Drive | src/driver.c:67-126 | Adds exactly the signals and external names that occur in the target, inside aggregates at any depth, and keeps the chains of process and signal what the lemmas say. |
| DriverSets.DrivenIff | src/driver.c:70-77 | Exactly the signals and external names that occur in a target are driven. |
| DriverSets.DrivenInOrder | src/driver.c:70-77 | The parts of an aggregate are driven from left to right. |
| DriverSets.RecordedIff | src/driver.c:83-101 | A name is recorded unless the process has, since its last external name, driven the whole signal or the same part by a name that compares equal. |
| DriverSets.ProcChainIff | src/driver.c:83-101 | The chain of a process subsumes a name if and only if a call since its last external name does. |
| DriverSets.DeclChainIsNewNames | src/driver.c:112-126 | The chain of a signal is the driven names that were new at that time, in order. |
| DriverSets.NothingMissing | src/driver.c:83-101 | Every driven name is recorded or subsumed by an earlier recorded one. |
| DriverSets.NoRepeatsIff | src/driver.c:83-126 | No part is recorded twice if and only if no process drives it, then an external name, then the part again as a new name. |
| DriverSets.PartitionIff | src/driver.c:355-429 | The second pass over a chain succeeds if and only if every sub-element is driven by one process through one name and no part is recorded twice. |
| DriverSets.UniqueDriver | src/driver.c:67-429 | In terms of everything that was driven: true if and only if nothing is tentative and either one process drives the signal, at least once as a whole, or every sub-element is driven by one process through one name and no part is recorded twice. |
| DriverSets.DrivenAgainAfterExternal | src/driver.c:83-113 | A process that drives the only element of a signal, an external name and the element again alone drives the signal, but the condition fails. |
| Coverage.PlaceCovers | src/bounds.c:448-502 | The values covered after a choice are those covered before and those of the choice. |
| Coverage.ReportsIff | src/bounds.c:448-502 | On any list that choices can leave, a choice is reported if and only if the first interval it meets or directly follows is one it meets. |
| Coverage.ReportsIffSorted | src/bounds.c:448-502 | On a list without overlaps, if and only if it repeats a value and does not start right after a covered interval. |
| Coverage.PlaceOrdered | src/bounds.c:448-502 | Any choice keeps the lower bounds ascending. |
| Coverage.PlaceSortedIff | src/bounds.c:448-502 | The list stays without overlaps if and only if the choice joins at most one of its intervals. |
| Coverage.CountIff | src/bounds.c:519-538 | The count over a list is at most the number of values of the type not covered, and equal to it if and only if the intervals are disjoint. |
| Coverage.Cover.Choice | src/bounds.c:448-502 | The in-place edit does to the list what these lemmas are about. |
| Coverage.Cover.Missing | src/bounds.c:524-538 | The walk computes the count these lemmas are about. |
| Coverage.ChoicesCovered | src/bounds.c:448-502 | After any choices the list covers exactly their values. |
| Coverage.ChoicesCountIff | src/bounds.c:448-538 | For any choices inside the type the count is right if and only if each joins at most one interval when its turn comes. |
| Coverage.BothRightIff | src/bounds.c:448-538 | A repeated value is reported exactly if there is one and the count is right, if and only if each choice joins at most one interval when its turn comes. |
| Coverage.DisjointChoicesIff | src/bounds.c:448-538 | Choices are pairwise disjoint if and only if nothing is reported and the count is the number of values not chosen. |
| Coverage.CheckChoices | src/bounds.c:448-538 | Covering each choice and counting gives the report and the count these lemmas are about. |
| Coverage.TouchingChoiceHidesGap | src/bounds.c:484-487 | Three choices over 1 to 7 that repeat 5 and omit 7 draw neither report. |
| FrameCache.MostRecentlyUsed | src/debug.c:119-165 | Touching one address after another keeps the 256 most recently used ones in order of recency. |
| FrameCache.RecencyIsHistory | src/debug.c:119-165 | The recency order lists exactly the addresses accessed, each once. |
| FrameCache.RecencyOrder | src/debug.c:119-165 | Of two addresses the one listed first was used last. |
| FrameCache.Cache.Get | src/debug.c:119-165 | Relinking the doubly linked list makes the address the head, drops the last node only when full, and reports a hit exactly when the address was there. |
| FrameCache.Replay | src/debug.c:119-165 | After any accesses the linked list holds the 256 most recently used distinct addresses. |
| UnitList.Lister.WalkHier | src/cgen.c:69-103 | Adds exactly the names of the hierarchy, each once, in the order of their first appearance. |
| UnitList.HierarchyListed | src/cgen.c:69-103 | The names of a hierarchy are the units of its blocks, nested at any depth, and prefix, dot and name of their processes. |
| UnitList.EntriesInOrder | src/cgen.c:80-101 | Statements are visited from first to last. |
| UnitList.FirstAppearance | src/cgen.c:69-103 | A name listed before another appears before every appearance of the other. |
| UnitList.Lister.FindDependencies | src/cgen.c:42-67 | Adds exactly the linked names not starting with `$`, each once. |
| UnitList.Lister.Close | src/cgen.c:128-129 | The loop over the growing list ends with exactly the reachable units, and fails if and only if one of them cannot be found. |
| UnitList.UnitsOf | src/cgen.c:119-135 | The unit list of a design has no repetition and is exactly what is reached by links from the units and processes of its hierarchy; it fails if and only if something reached cannot be found. |

## Left out

- Liveness of the concurrent tables beyond a thread that runs alone: more than 20 equal 32-bit hashes make interning grow without end, and spinning threads may starve.
- `chash_cas` and iteration over `chash`; the table size is counted in whole puts, as the source does.
- ConcurrentHashTheorems.Linearizable: for runs in which no put writes over a value the copier has just read and no assertion fails; LostUpdate is a run in which it is false. Memory is sequentially consistent.
- The string-keyed table `shash`: the same probe loop as `hash`.
- Rounding a requested table size up to a power of two and the bit mixing of hash values: sizes and hash functions are parameters. The presence bits of `ihash` are part of the key slot.
- SensitivityProof.SensitivityIsSound: aliases, procedure calls, access dereference, conditional expressions, aggregate targets, loop labels, assertion severity and user-defined attributes are not in the reduced syntax tree; running time is a fuel bound that the theorem ranges over.
- SensitivityNeeded.ExactForAssignments: for assignments whose reported names are fixed, since agreement on a name that moves also tells something about what moves it; for whole bodies only that the condition suffices, since a body may assign a variable without using it.
- Sensitivity.FindRef: dereferenced names are not in the reduced syntax tree.
- FileBuffer.Reader.GetUInt: joins digits by addition where the source uses a bitwise or of disjoint bits; shifts beyond 64 bits, undefined in the source, lose the bits.
- FileBuffer.Writer.Close: the header with its 32-bit total and packed checksum, compression, FastLZ padding and file errors are not modelled; a compressor is assumed to be lossless.
- IdentCodec.RoundTrip: identifiers are their bytes, which the interning theorem justifies; marks and contexts are values rather than shared objects; identifiers longer than a block fail an assertion of the source and are excluded; what is read after a record is misread is not modelled.
- Locations.LocReader.Read: corrupt input, which the source reports as a fatal error, is excluded, and so are more than 65534 file names.
- Masks.BitMask.FillRange: works on words of 64 booleans; the `Words` lemmas tie the machine operations to them. Union, intersection, copy and comparison are left out as easy.
- Drivers.HasUniqueDriver: starts from folded bounds and types.
- DriverSets.DriverSet.Drive: chains are sequences, not linked nodes on pages; finding the statements that drive signals, and the views recorded beside a name, are not modelled.
- Coverage.Cover.Choice: texts of the messages; 64-bit overflow of bounds and 32-bit overflow of the count (types of 2^31 values or more).
- FrameCache.Cache.Get: what a frame holds besides its address.
- UnitList.Lister.WalkHier: distinct block names are required, where the source has an assertion.
- IdentHash.CaseCompare: the byte loop, not the one on 16 bytes at a time.
- Globbing and other string helpers of src/ident.c; the rest of src/common.c, src/diag.c, src/bounds.c, src/debug.c and src/cgen.c.
