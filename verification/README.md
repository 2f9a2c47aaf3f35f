# The DOH object runtime and the compiler cache, modelled and proved in Dafny

Two parts of the SWIG repository are modelled here.  `Source/DOH` is the object runtime of the SWIG compiler: strings,
hash tables and lists with reference counts, in pools of slots.  `CCache` is the compiler cache: it hashes unified
preprocessor output with MD4, keeps objects in a directory shared by concurrent processes, counts in a statistics file
and evicts the oldest files.

The C code is imperative, and so is the model: classes with the fields of the C structures, arrays for buffers, loops for
loops.  Every method is proved against a function on plain values, and the laws are proved about those functions.

| file | what it models |
|---|---|
| `StringObject`, `TextLines`, `StringHash`, `Lex` | the string object: buffer, cursor, line counter, cached hash |
| `Substitution`, `Quotes`, `QuotedSites`, `GrowingSites` | what replacing means; quotes and `DOH_REPLACE_NOQUOTE`; the places of the two searches of a growing text |
| `IdentifierRuns` | the places each flag selects, told by the identifiers of the text |
| `FindPlaces`, `InPlace`, `Growing`, `Replace` | the searching loops, the shrinking and the expanding path of `replace_simple`, `String_replace` |
| `HashTable`, `HashRuns`, `TableSize` | chained buckets, resizing, delete-safe walks; whole runs of operations; the prime search |
| `Intern`, `Dispatch` | the tree that interns C strings; comparison of keys of any kind |
| `Ledger`, `Reachability`, `LedgerOps`, `LedgerTables`, `LedgerSetattr`, `LedgerRuns` | reference counts as a ledger over the whole heap; what the cascade of `DohDelete` frees; operations on lists, meta data and tables; runs of them |
| `Pool` (module `PoolMemory`) | pools of slots and the free list threaded through them |
| `CacheProtocol`, `CacheRuns` | lookup and publication by any number of processes, one system call at a time, with cleaners; what an undisturbed process comes to, and what no run leaves behind |
| `Md4`, `Md4Suite` | RFC 1320, and the streaming code that computes it; digests of its test suite |
| `Unify`, `LexemeForms`, `Unifier` | the lexeme stream and its laws; every form of lexeme by its characters; the code that pushes it through a 64-byte buffer into MD4 |
| `Snprintf`, `Format`, `Conversions`, `Printer` | fields; how formats are read; what each conversion prints; the `dopr` state machine and its bounded output |
| `Stats`, `Cleanup` | the statistics file; eviction |
| `Scan`, `Ascii`, `Wrappers` | character classes and runs, and the classes listed; small shared notions |

## Where the code departs from what one would expect

Each of these is a lemma, with the exact condition where there is one.

- `replace_simple` with token and replacement of equal length shows the replacement to a matcher that looks left.
  `Substitution.FaithfulExactly` says for which token, replacement and matcher that can matter to any text at all, and
  `UnfaithfulWitness` gives the text.
- `replace_simple` searches a growing text twice, and under DOH_REPLACE_NOQUOTE the first search can leave the flag off for
  the second, which then replaces in quotes and stops short of the end: `GrowingSites.GrowingExactly` and
  `GrowingOutsideQuotes` say when, `Growing.QuotedIsReplaced` gives a text.
- `end_quote` misses a closing quote at the start of a continued line and behind an escaped backslash
  (`Quotes.EndQuoteMeans`, `MissedEnds`).
- A shrinking replacement compares the cursor with the new end and can make it negative: `Replace.CursorStaysInside` and the
  contracts of `ReplaceSimple` and `StringReplace` say when, `CursorCanLeave` gives a case.
- `String_ungetc` of another character, a forward `String_seek` and `String_write` let the line counter drift; by how much is
  in the contracts of `Ungetc`, `Seek` and `Write`.
- `String_hash` reads fifty characters but depends on the last seven of them (`StringHash.HashSeesLastSeven`).
- `Hash_setattr` deletes the object it replaces before it counts the new one.  `LedgerTables.HashReplace` gives the exact
  condition, on the heap before the call, under which the new object survives, and what is left when it does not;
  `BorrowedIsLost` is a run that loses it.
- `DohCheck` accepts freed and never used slots, and addresses inside a slot (`PoolMemory.CheckedAddresses`, `CheckedSlots`).
- A C string and a string object with bytes above 127 can be ordered differently from two string objects
  (`Dispatch.OrderDependsOnKind`, `OrderCanDiffer`); equality does not suffer.
- `mdfour_tail` writes a 32-bit length: MD4 up to 2^29 bytes, and beyond that exactly where the high word is zero
  (`Md4.PaddingIsRfc`).
- A matcher skips a candidate it turns down whole, so DOH_REPLACE_ID_END can miss an occurrence of a token that overlaps
  itself (`IdentifierRuns.EndingMissed`).
- The digraph `:>` is never recognised (`Unify.ColonFirst`).
- `fmtint` prints nineteen digits at most (`Snprintf.ShownExactly`); the zero flag with a precision makes short fields
  (`FieldIntLength`); `%s` raises a precision below the width to the width (`StrIsIso`); a dot without digits is no
  precision (`Format.PrecisionMeaning`).
- With a 32-bit `long`, counters above 2^31 - 1 are not read back (`Stats.RoundTrip`, `NothingLost`).
- An object that looks compressed is published and then fails the second lookup, which takes its diagnostics away again
  (`CacheRuns.MissIsPublished`).
- After a failing unlink `sort_and_clean` reports too few files (`Cleanup.CountExact`, `StuckMiscounts`) and can delete
  younger files than it leaves (`OldestFirst`, `StuckIsOlder`).

## Model

| member | source | states |
|---|---|---|
| `TableSize.PrimesAreUnbounded` | Source/DOH/hash.c:163-173 | above every number there is a prime: without this the search for a table size need not end |
| `TableSize.TrialDivisionSuffices` | Source/DOH/hash.c:166-171 | an odd number of at least 3 that no odd p from 3 up to (but excluding) half of it divides is prime, so the bound of the inner loop loses no divisor |
| `TableSize.NextSize` | Source/DOH/hash.c:163-173 | from every size of at least 1 the two loops end, at the least prime not below 2 * size + 1 |
| `Lex.CompareMeans` | Source/DOH/string.c:109-133 | negative exactly when the first string has the smaller character at the first difference, or ends there; positive exactly the other way round |
| `Lex.CompareZero` | Source/DOH/string.c:109-133 | two strings compare as zero exactly when they are the same text |
| `Lex.CompareAntisymmetric` | Source/DOH/string.c:109-133 | exchanging the operands changes the sign |
| `Lex.CompareTransitive` | Source/DOH/string.c:109-133 | the comparison is transitive, strictly so if one step is strict |
| `StringHash.MixTracksPoly` | Source/DOH/string.c:184-193 | one shift-and-add step on a 32-bit word keeps the word equal, modulo 2^32, to the polynomial in 32 over the characters read |
| `StringHash.HashSeesLastSeven` | Source/DOH/string.c:178-201 | the hash value depends on no more than the last seven of the first fifty characters: texts that agree there collide |
| `Dispatch.EqualIsCmpZero` | Source/DOH/base.c:190-254 | for keys of every kind (null, C string, string object) DohEqual holds exactly when DohCmp is zero, which is when the contents agree, and equal keys fall into the same bucket of every table |
| `Dispatch.OrderDependsOnKind` | Source/DOH/base.c:198-212 | whether a C string and a string object are ordered as two string objects would be: exactly unless the deciding characters stand on different sides of 128 |
| `Dispatch.OrderCanDiffer` | Source/DOH/base.c:198-212 | byte 200 comes before "a" when both are string objects, and behind it when it is a C string |
| `TextLines.ChopIsMaximal` | Source/DOH/string.c:911-928 | chopping leaves the prefix that remains when the longest run of trailing blanks is taken off |
| `TextLines.InsertedNewlines` | Source/DOH/string.c:306-314 | what inserted text does to the number of newlines before a cursor, on either side of it |
| `TextLines.DeletedNewlines` | Source/DOH/string.c:361-377 | what a deleted range does to the number of newlines before a cursor, in front of, inside and behind it |
| `StringObject.DohString.constructor` | Source/DOH/string.c:1016-1052 | a new string has the given text, room for it and its terminator, the cursor at its end, line 1 and no cached hash |
| `StringObject.DohString.Empty` | Source/DOH/string.c:1059-1071 | the empty string, with the initial capacity and the right hash (0) already cached |
| `StringObject.DohString.FromString` | Source/DOH/string.c:1016-1052 | NewString of a string object copies the text and its cached hash, which is right for the copy |
| `StringObject.DohString.CopyOf` | Source/DOH/string.c:66-83 | CopyString copies text, cached hash, cursor and line; the cached hash is right for the copy |
| `StringObject.DohString.Cmp` | Source/DOH/string.c:109-133 | the loop computes the lexicographic comparison of the two texts by signed characters |
| `StringObject.DohString.Equal` | Source/DOH/string.c:141-172 | true exactly when the texts are the same |
| `StringObject.DohString.Hash` | Source/DOH/string.c:178-201 | the value returned, cached or computed, is the hash of the present text: the polynomial over its first fifty characters modulo 2^31 |
| `StringObject.DohString.Clear` | Source/DOH/string.c:255-262 | empty text, cursor 0, line 1, cached hash dropped |
| `StringObject.DohString.Append` | Source/DOH/string.c:207-248 | the text is extended, whatever capacity the string records; a cursor at the end or behind it moves to the new end and counts the newlines it passes, any other one stays; for a cursor in the text, line stays in step |
| `StringObject.DohString.Insert` | Source/DOH/string.c:268-318 | text goes in at the clamped position and the capacity suffices; a cursor at or behind it, wherever that is, moves along with line; for a cursor in the text, line stays in step |
| `StringObject.DohString.DelItem` | Source/DOH/string.c:324-344 | one character goes, first and last by DOH_BEGIN and DOH_END; any cursor behind it moves back, with line if it was a newline; for a cursor in the text, line stays in step |
| `StringObject.DohString.DelSlice` | Source/DOH/string.c:350-382 | the range goes; any cursor inside it moves to its start, one behind it moves along, and line loses the newlines passed; for a cursor in the text, line stays in step |
| `StringObject.DohString.Chop` | Source/DOH/string.c:911-928 | the text is chopped; a cursor beyond the new end is drawn back with it, and line with the newlines passed; the closing assertion of the source holds exactly of a cursor not in front of the text |
| `StringObject.DohString.Putc` | Source/DOH/string.c:511-536 | the character is written at the cursor or appended; cursor and line step on together |
| `StringObject.DohString.Getc` | Source/DOH/string.c:542-552 | the character at the cursor, or EOF for a cursor at the end or behind it; cursor and line step on together |
| `StringObject.DohString.Ungetc` | Source/DOH/string.c:558-568 | one step back, from any cursor behind the start; in the text, line stays in step exactly when the character given back and the one stepped over are both newlines or both not |
| `StringObject.DohString.Seek` | Source/DOH/string.c:445-496 | the cursor is clamped to a text that is not empty; line stays in step on every backward move; a forward move counts the characters after the old cursor up to and with the new one, so it is off by the difference between those two places |
| `StringObject.DohString.Write` | Source/DOH/string.c:420-439 | bytes are written over the text from the cursor on, extending it if need be; line is not touched, so it falls behind by the newlines written |
| `Quotes.EndQuoteMeans` | Source/DOH/string.c:576-604 | the end of a quote is the first quote of its kind on the line that no backslash precedes; without one there is none, or the quote stands alone when its line ends -- unless a backslash carries the line on and quotes follow, when the search goes on one character too far |
| `Quotes.MissedEnds` | Source/DOH/string.c:585-602 | a closing quote at the start of a continued line is not seen, nor one behind an escaped backslash |
| `Substitution.StrStr` | Source/DOH/string.c:606-610 | strstr: the least occurrence from a place on, and none before it |
| `Substitution.MatchMeaning` | Source/DOH/string.c:612-658 | what any of the four matchers finds has neighbours it accepts |
| `Substitution.SitesMeaning` | Source/DOH/string.c:612-882 | every place substituted is an occurrence the matcher accepts, behind the end of the one before |
| `Substitution.SitesAreSpaced` | Source/DOH/string.c:723-770 | the places substituted do not overlap, in any text and for any matcher |
| `Substitution.WeaveLength` | Source/DOH/string.c:774-824 | the length of the result is the old length plus the number of substitutions times the difference in length |
| `Substitution.SimpleMissesNothing` | Source/DOH/string.c:606-610 | with the plain matcher every occurrence of the token overlaps a place that is substituted |
| `Substitution.AcceptedAreSites` | Source/DOH/string.c:606-658 | without regard for quotes, the places substituted are the accepted ones among all candidates the matcher looks at, in order |
| `Substitution.NothingMissed` | Source/DOH/string.c:606-658 | with any of the four matchers every occurrence of the token overlaps a candidate that begins at or before it: a place substituted, or one turned down and skipped whole |
| `Substitution.FaithfulSites` | Source/DOH/string.c:617-636 | when the condition `Faithful` holds, seeing the replacement already written to the left changes no place |
| `Substitution.FaithfulExactly` | Source/DOH/string.c:617-779 | replace_simple performs the plain left-to-right substitution on every text exactly when `Faithful` holds: a condition on matcher, last characters of token and replacement, and first character of the token |
| `Substitution.UnfaithfulWitness` | Source/DOH/string.c:724-734 | whenever it fails, the token written twice is a text on which the two differ |
| `Substitution.UnequalLengthsAreFaithful` | Source/DOH/string.c:660-883 | token and replacement of different length meet the condition, whatever the matcher |
| `QuotedSites.QuotesAreKept` | Source/DOH/string.c:689-712 | DOH_REPLACE_NOQUOTE leaves everything in quotes untouched, in every text, exactly when the token holds no quote itself |
| `QuotedSites.OutsideMissesNothing` | Source/DOH/string.c:689-759 | every occurrence outside quotes overlaps a place substituted or an occurrence the matcher turned down |
| `GrowingSites.CopyEnough` | Source/DOH/string.c:837-870 | the copying loop never runs out of places: its search finds at least as many as were counted, even when the counting has turned DOH_REPLACE_NOQUOTE off |
| `GrowingSites.GrowingExactly` | Source/DOH/string.c:786-870 | a growing text gets its replacements in the right places exactly when quotes are still looked for at the end of the counting, or no place behind the first one stands in quotes |
| `GrowingSites.GrowingOutsideQuotes` | Source/DOH/string.c:786-870 | for a token without quotes, that is when a quote stands behind the last place, or no match behind the first place stands in quotes |
| `Growing.QuotedIsReplaced` | Source/DOH/string.c:786-870 | a before, within and behind quotes, replaced by bb outside quotes: the one within is replaced and the one behind is not |
| `FindPlaces.FindMatch` | Source/DOH/string.c:606-658 | the matcher loops, with their way of skipping a rejected candidate whole, find what `Substitution.Match` defines |
| `FindPlaces.FindEndQuote` | Source/DOH/string.c:576-604 | the loop of end_quote finds what `EndQuote` defines |
| `FindPlaces.SkipQuotes` | Source/DOH/string.c:694-709 | the loop that passes over quotes finds what `PastQuotes` defines, and turns DOH_REPLACE_NOQUOTE off with the last quote |
| `InPlace.ReplaceInPlace` | Source/DOH/string.c:718-779 | the shrinking pass, with or without regard for quotes, leaves the substituted text at the front of the same buffer and returns the number of substitutions |
| `Growing.CountSites` | Source/DOH/string.c:786-820 | the counting loop counts every place that will be replaced, and leaves DOH_REPLACE_NOQUOTE as `CopySearch` says; its way out where quotes are looked for and none is left is never taken |
| `Growing.ReplaceGrowing` | Source/DOH/string.c:780-882 | the expanding path fills a new, large enough buffer with the text in which the places of `GrownSites` are replaced |
| `Replace.ReplaceSimple` | Source/DOH/string.c:660-883 | both paths, with every matcher and flag, leave the text in which `Places` are replaced and return their number; line is untouched, and a cursor in the text stays in it exactly when it was `CursorSafe` |
| `Replace.RightReplacement` | Source/DOH/string.c:660-883 | this is the plain substitution when `Faithful` holds and the text does not grow, or only one place is replaced, or quotes do not matter or are still looked for after the counting |
| `Replace.StringReplace` | Source/DOH/string.c:889-905 | by the flag bits, DOH_REPLACE_NOQUOTE among them: the text and the number of its places, the plain substitution under the conditions of `RightReplacement`, at most one place under DOH_REPLACE_FIRST (0x08); length, line and cursor; which places the other bits select is in `IdentifierRuns` |
| `Replace.CursorStaysInside` | Source/DOH/string.c:774-777 | for n places that lose d characters each, the cursor stays inside the text exactly when n is zero, or it stood before the old length less n*d, or at n*d or beyond: a test on text, token, replacement and cursor before the call |
| `Replace.CursorCanLeave` | Source/DOH/string.c:774-777 | removing "ab" from "ab" with the cursor at 0 leaves the cursor at -2 |
| `HashTable.Hash.constructor` | Source/DOH/hash.c:538-551 | a new table stands for the empty map |
| `HashTable.Hash.Find` | Source/DOH/hash.c:217-235 | the search loop of Setattr and Delattr finds the node of the key and its predecessor, or the end of the chain |
| `HashTable.Hash.Getattr` | Source/DOH/hash.c:255-278 | the object of the key in the map, if any; the loop that keeps the last match agrees, as no chain holds a key twice |
| `HashTable.Hash.Setattr` | Source/DOH/hash.c:203-245 | the map with the key bound anew (or removed, for a null object), 1 or 0 as the key was there or not; fewer than two items per bucket afterwards |
| `HashTable.Hash.Delattr` | Source/DOH/hash.c:286-313 | the map without the key, and exactly which node was unlinked from which chain |
| `HashTable.Hash.Resize` | Source/DOH/hash.c:152-194 | above the load limit the table grows to the least prime not below 2 * size + 1; the map does not change, the limit holds again |
| `HashTable.Hash.Redistribute` | Source/DOH/hash.c:175-193 | moving every node to the front of its new chain loses, doubles and misfiles none |
| `HashTable.Hash.Clear` | Source/DOH/hash.c:134-149 | the map is empty, the table keeps its size |
| `HashTable.Hash.Copy` | Source/DOH/hash.c:434-462 | the copy stands for the same map and shares no node |
| `HashTable.ShapeAdded` | Source/DOH/hash.c:236-242 | appending a node at the end of its chain keeps every chain duplicate-free, in its bucket and complete |
| `HashTable.ShapeRemoved` | Source/DOH/hash.c:296-311 | unlinking a node keeps them so |
| `HashTable.RehashStep` | Source/DOH/hash.c:182-191 | one step of the redistribution keeps old and new chains apart and every node accounted for |
| `HashTable.RehashDone` | Source/DOH/hash.c:181-194 | when all chains have been moved the new table has the shape of a table |
| `HashTable.Hash.FirstIter` | Source/DOH/hash.c:315-337 | the first entry of the walk, or the end |
| `HashTable.Hash.NextIter` | Source/DOH/hash.c:339-360 | the next entry of the walk, from the saved successor and bucket |
| `HashTable.FromPlaces` | Source/DOH/hash.c:315-360 | the walk order has every node of every chain, and no node twice |
| `HashTable.Hash.AllKeys` | Source/DOH/hash.c:315-360 | the walk yields each key of the map exactly once |
| `HashTable.RemovalKeepsPending` | Source/DOH/hash.c:286-360 | deleting the entry just returned leaves what the iterator still has to yield as it was |
| `HashTable.Walk` | Source/DOH/hash.c:315-360 | a whole walk in which any set of entries is deleted as they are returned: every key exactly once, and the map loses exactly those |
| `HashRuns.Apply` | Source/DOH/hash.c:203-313 | each of the five operations answers and changes the table as its effect on a finite map says |
| `HashRuns.RunOps` | Source/DOH/hash.c:134-462 | every sequence of Setattr, Getattr, Delattr, Clear and Copy, across any resizes, answers as a finite map does at every step |
| `Intern.SearchStep` | Source/DOH/hash.c:54-63 | one comparison leads to the half of the tree that can hold the string |
| `Intern.HungIsInsert` | Source/DOH/hash.c:64-80 | hanging one node below the last one visited is insertion into the search tree |
| `Intern.KeyTable.FindKey` | Source/DOH/hash.c:45-81 | a content seen before gives the object it had, a new one gets its own; no other content changes its object |
| `Intern.FindKeys` | Source/DOH/hash.c:45-81 | over any sequence of requests two give the same object exactly when their contents are the same |
| `Ledger.DecrementKeeps` | Source/DOH/base.c:37-50 | one reference less keeps every count equal to owners plus occurrences; at zero the object's own references become outside ones |
| `Ledger.Heap.Delete` | Source/DOH/base.c:25-51 | DohDelete, with its cascade, keeps the ledger, removes one outside reference, touches nothing ranked at or above its object except counts, and ends on an acyclic heap |
| `Ledger.Heap.DelList` | Source/DOH/list.c:64-71 | destroying a list releases one reference per item |
| `Ledger.Heap.DelHash` | Source/DOH/hash.c:97-126 | destroying a table releases one reference per key and per object |
| `Ledger.Heap.ObjFree` | Source/DOH/memory.c:136-149 | the slot goes back first, then the meta object is released |
| `Reachability.LiveIsReachable` | Source/DOH/base.c:25-51 | on an acyclic balanced heap every live object is reachable from an outside owner or an interned object |
| `Reachability.ReachableSurvives` | Source/DOH/base.c:25-51 | what is reachable afterwards was not freed |
| `Reachability.FreesExactly` | Source/DOH/base.c:25-51 | an operation that keeps the ledger leaves exactly the objects that are reachable |
| `Reachability.DohDelete` | Source/DOH/base.c:25-51 | Delete frees exactly the objects that are no longer reachable once the reference is gone |
| `LedgerOps.ListInsert` | Source/DOH/list.c:95-120 | List_insert at the clamped place: nothing is refused, an object gains one reference, a C string becomes an object that only the list refers to; the ledger balances, no other object changes but for its count |
| `LedgerOps.ListRemove` | Source/DOH/list.c:128-142 | List_remove: the item goes, and what only it kept alive is freed, nothing else; no other object changes but for its count |
| `LedgerOps.ListClear` | Source/DOH/list.c:79-86 | List_clear: all items go, exactly what they alone kept alive is freed; no other object changes but for its count |
| `LedgerOps.CopyList` | Source/DOH/list.c:39-56 | CopyList: the copy holds one more reference to every item, duplicates counted; nothing else changes |
| `LedgerOps.NewMeta` | Source/DOH/base.c:885-892 | the first DohSetmeta of an object: the new table has one reference, the object's |
| `LedgerTables.HashAppend` | Source/DOH/hash.c:86-94 | NewNode: key and object gain one reference each; no other object changes but for its count |
| `LedgerTables.HashRemove` | Source/DOH/hash.c:286-313 | Hash_delattr: exactly what the entry alone kept alive is freed; no other object changes but for its count |
| `LedgerTables.HashClear` | Source/DOH/hash.c:134-149 | Hash_clear: exactly what the entries alone kept alive is freed |
| `LedgerTables.CopyHash` | Source/DOH/hash.c:434-462 | CopyHash: the new table holds one more reference to every key and object; nothing else changes |
| `LedgerTables.HashReplace` | Source/DOH/hash.c:221-230 | Setattr on a key that is there deletes the old object before it counts the new one: safe exactly when, before the call, the new object is the old one or is reachable without the entry; then the ledger balances, otherwise the new object is freed and the entry is left naming it |
| `LedgerTables.BorrowedIsLost` | Source/DOH/hash.c:221-230 | a run from the empty heap that loses its object: a table files a list, the list holds the only reference to an object, and that object is set under the same key |
| `LedgerTables.OwnedIsReachable` | Source/DOH/hash.c:221-230 | a caller that owns the new object meets the condition |
| `LedgerSetattr.SetString` | Source/DOH/hash.c:213-230 | Setattr of a C string on a key that is there is always safe, and frees exactly what the old object alone kept alive |
| `LedgerSetattr.Setattr` | Source/DOH/hash.c:203-245 | Hash_setattr in full: nothing removes the entry, a C string becomes an object of its own, an object is shared; the entries, the value returned, and exactly when an object is lost |
| `LedgerRuns.Step` | Source/DOH/base.c:25-51 | every operation a program can perform keeps the ledger balanced and acyclic, except a Setattr over an existing entry of a live object that the program does not own, which leaves the table naming what is gone |
| `LedgerRuns.Run` | Source/DOH/base.c:25-51 | from the empty heap any sequence of operations ends with right counts, every reference to a live object and every live object reached from the program, unless such a Setattr has lost its object |
| `LedgerOps.NewObject` | Source/DOH/memory.c:107-130 | a new object starts with one owner |
| `PoolMemory.Partition` | Source/DOH/memory.c:43-149 | each slot of each pool is exactly one of live, free and never used; never used ones are in the newest pool only |
| `PoolMemory.CheckedAddresses` | Source/DOH/memory.c:78-90 | what DohCheck accepts is exactly the addresses at or inside a slot of some pool |
| `PoolMemory.CheckedSlots` | Source/DOH/memory.c:78-90 | so it accepts every slot, live, freed or never used: it names a slot of a pool, not a live object |
| `PoolMemory.Allocator.constructor` | Source/DOH/memory.c:63-71 | the first pool, nothing live, nothing free |
| `PoolMemory.Allocator.CreatePool` | Source/DOH/memory.c:43-57 | a zeroed pool becomes the newest; live objects are untouched |
| `PoolMemory.Allocator.DohObjMalloc` | Source/DOH/memory.c:107-130 | never returns a live slot; takes the head of the free list, or the next slot, making a pool only when none is left; other live objects are untouched |
| `PoolMemory.Allocator.DohObjFree` | Source/DOH/memory.c:136-149 | an interned object stays; another slot becomes the head of the free list and its meta object is handed back to be released |
| `PoolMemory.Allocator.DohCheck` | Source/DOH/memory.c:78-90 | true exactly for addresses inside a pool |
| `PoolMemory.SlotFreed` | Source/DOH/memory.c:136-149 | threading a live slot onto the free list keeps it acyclic, duplicate-free and apart from the live slots |
| `PoolMemory.FreeTaken` | Source/DOH/memory.c:112-114 | so does taking its head |
| `PoolMemory.PoolAdded` | Source/DOH/memory.c:43-57 | so does a new pool |
| `CacheProtocol.RunKeeps` | CCache/ccache.c:380-394 | every interleaving of any number of processes and cleaners keeps the invariant: what is visible is whole, copies in progress are private |
| `CacheProtocol.NextKeeps` | CCache/util.c:100-162 | so does each single system call, failing ones included |
| `CacheProtocol.WriteKeeps` | CCache/util.c:123-131 | a write to a file in progress touches no file that anyone takes for whole |
| `CacheProtocol.CompilingKeeps` | CCache/ccache.c:274-328 | so does each piece of diagnostics the compiler writes, whoever has removed their name meanwhile |
| `CacheProtocol.RenamingKeeps` | CCache/util.c:151-157 | unlink-then-rename puts only whole copies under the object's name |
| `CacheProtocol.OnlyWholeEntries` | CCache/ccache.c:616-753 | at every moment of every run a visible object is the whole object and a visible .stderr the whole diagnostics; a first-pass hit delivered both whole, a second-pass hit the diagnostics |
| `CacheRuns.PublishedIsFound` | CCache/ccache.c:616-753 | from any reachable state in which both files are visible, an undisturbed first lookup, however it reads, delivers both within a bounded number of steps and leaves the cache as it was -- unless the process was told to recache or the object begins with the bytes 31, 139 |
| `CacheRuns.TurnedAwayPublishes` | CCache/ccache.c:616-654 | from any reachable state, an undisturbed first lookup that finds either file missing, or of a process told to recache, ends within a bounded number of steps with a copy made after it came, with its own diagnostics in place of those that were there, and served by its second lookup |
| `CacheRuns.RecacheNeverHits` | CCache/ccache.c:636-654 | in no run is a process that was told to recache served by its first lookup |
| `CacheRuns.MissIsPublished` | CCache/ccache.c:274-394 | every process that missed and is left alone, however it reads and writes, ends within a bounded number of steps with a new copy visible, its own diagnostics or those another process had published, and no temporary file of its own; it is served, unless the object begins with the bytes 31, 139: then its second lookup takes the diagnostics away and fails |
| `CacheRuns.FailedFetchIsRetried` | CCache/util.c:377-410 | a copy out of the cache that fails is tried again from the start and then serves |
| `CacheRuns.FetchGivesUp` | CCache/ccache.c:712-720 | when the second attempt fails or the object is gone, the .stderr name is unlinked, nothing else, and the process compiles |
| `CacheRuns.NoTemporariesLeft` | CCache/util.c:100-162 | in every run: once all processes are done no temporary copy is left, and temporary diagnostics are left only by processes still publishing or failed |
| `CacheRuns.FailureEnds` | CCache/util.c:123-149 | what a failing call leaves: the process has given up, the file it was writing is unlinked, and nothing else has changed |
| `CacheRuns.OldObjectGoes` | CCache/util.c:151-151 | the two unlinks before the rename take the object's name away and nothing else |
| `Md4.StoreWord` | CCache/mdfour.c:95-101 | copy4: four bytes, low-order first, from which the word can be read back |
| `Md4.StoreOfLoad` | CCache/mdfour.c:86-101 | copy64 and copy4 undo each other on every four bytes |
| `Md4.GapIsLeast` | CCache/mdfour.c:114-139 | section 3.1 of RFC 1320: the padding is the least that leaves eight bytes of the last block |
| `Md4.BlocksConcat` | CCache/mdfour.c:164-170 | hashing whole blocks in two parts is hashing them in one |
| `Md4.LShiftRotates` | CCache/mdfour.c:34-34 | the macro's two shifts are the rotation of section 3.4, for the amounts in use |
| `Md4.Round1IsOp` | CCache/mdfour.c:36-36 | a ROUND1 call is a step of round 1 of section 3.4 |
| `Md4.Round2IsOp` | CCache/mdfour.c:37-37 | a ROUND2 call is a step of round 2 |
| `Md4.Round3IsOp` | CCache/mdfour.c:38-38 | a ROUND3 call is a step of round 3 |
| `Md4.FourSteps1` | CCache/mdfour.c:49-56 | four macro calls of round 1 bring the letters back into place |
| `Md4.FourSteps2` | CCache/mdfour.c:59-66 | the same for round 2, with its word order |
| `Md4.FourSteps3` | CCache/mdfour.c:68-75 | the same for round 3, with its word order |
| `Md4.FeedConcat` | CCache/mdfour.c:141-179 | feeding two pieces is feeding their concatenation, from any state |
| `Md4.StreamingIsOneShot` | CCache/mdfour.c:141-179 | however a message is cut into updates, the state is that of one update |
| `Md4.PaddingIsRfc` | CCache/mdfour.c:114-139 | the stream hashed is the padded message of sections 3.1 and 3.2 exactly when the high word of the bit length is zero; always below 2^29 bytes |
| `Md4.FinishIsRfc` | CCache/mdfour.c:114-139 | the finished registers are those of RFC 1320 for every message below 2^29 bytes, and in general those of the stream with a 32-bit length |
| `Md4.Copy64` | CCache/mdfour.c:86-93 | sixteen words, low-order byte first, from any place in the input |
| `Md4.Copy4` | CCache/mdfour.c:95-101 | four bytes written at a place, the rest unchanged |
| `Md4.PadBuffer` | CCache/mdfour.c:123-136 | the buffer of mdfour_tail holds the one or two final blocks, split at a tail of 55 bytes |
| `Md4.Mdfour.constructor` | CCache/mdfour.c:103-111 | mdfour_begin: the buffer of section 3.3, nothing counted, nothing waiting |
| `Md4.Mdfour.Mdfour64` | CCache/mdfour.c:41-83 | the 48 unrolled macro calls and the four final additions are the block function of section 3.4 |
| `Md4.Mdfour.Update` | CCache/mdfour.c:141-179 | one update is `Feed`, whatever waits in the tail and however long the input is |
| `Md4.Mdfour.Tail` | CCache/mdfour.c:114-139 | the null update is `Finish`: one or two blocks with the 32-bit length; the tail stays |
| `Md4.Mdfour.Result` | CCache/mdfour.c:182-190 | the sixteen digest bytes, low-order first |
| `Md4.Digest` | CCache/mdfour.c:193-200 | the digest of a buffer is MD4 of RFC 1320 (the function that `Md4Suite` evaluates), for every buffer below 2^29 bytes |
| `Unify.NextPrefix` | CCache/unify.c:119-233 | an item is read again in the same way when what follows it is replaced by nothing, a blank or a # |
| `Unify.LayoutIrrelevant` | CCache/unify.c:127-190 | blanks and "# <digit>" line markers put in wherever one item ends and the next begins leave the stream unchanged |
| `Unify.Idempotent` | CCache/unify.c:119-233 | the stream is its own stream, and its constants are closed |
| `Unify.LexemeAgain` | CCache/unify.c:119-233 | an emitted lexeme on its line is read back as that lexeme |
| `Unify.LexemesOfStream` | CCache/unify.c:119-233 | the lexemes of the stream are those of the text it was made from |
| `Unify.StreamIsLexemes` | CCache/unify.c:119-233 | two closed texts have the same stream exactly when they have the same lexemes: the hash input forgets layout and nothing else |
| `Unify.ColonFirst` | CCache/unify.c:35-42 | the digraph :> stands behind : in the token table and is never found: it is always read as two lexemes |
| `Unify.RowGood` | CCache/unify.c:88-94 | every row of the table holds tokens of its first character, none with a blank or a # |
| `Unify.RowsFit` | CCache/unify.c:54-58 | no row is longer than the seven places the source gives it |
| `Unifier.Unifier.constructor` | CCache/unify.c:97-101 | an empty buffer in front of a fresh hash |
| `Unifier.Unifier.BuildTable` | CCache/unify.c:60-94 | the table files every token under its first character, in the order of the list |
| `Unifier.Unifier.Pushchar` | CCache/unify.c:97-116 | a character pushed reaches the hash in its turn, whether it is still in the 64-byte buffer or not |
| `Unifier.Unifier.Finished` | CCache/unify.c:102-109 | pushchar(0) passes on what the buffer holds and finishes the hash |
| `Unifier.Unifier.Directive` | CCache/unify.c:128-145 | a # line is emitted or, as a marker, skipped |
| `Unifier.Unifier.Identifier` | CCache/unify.c:147-155 | an identifier, as `LexemeForms.WordIsLexeme` has it, is emitted whole |
| `Unifier.Unifier.Number` | CCache/unify.c:157-183 | a number is emitted with its hexadecimal part, exponent and suffix |
| `Unifier.Unifier.Quoted` | CCache/unify.c:192-207 | a closed constant is emitted with its escapes, up to the closing quote |
| `Unifier.Unifier.Token` | CCache/unify.c:209-231 | the first matching token of the row is emitted, or the single character |
| `Unifier.Unifier.FindToken` | CCache/unify.c:212-216 | the row is searched in table order |
| `Unifier.Unifier.Unify` | CCache/unify.c:119-233 | exactly the stream, the lexemes of `LexemeForms` one to a line, reaches the hash, in order; the hash state depends on nothing else of the input |
| `Snprintf.NumeralDecodes` | CCache/snprintf.c:467-472 | repeated division by the base yields a numeral that stands for the number |
| `Snprintf.NumeralLength` | CCache/snprintf.c:467-474 | a number has at most k digits exactly when it is below base^k |
| `Snprintf.ShownExactly` | CCache/snprintf.c:467-474 | the digits fmtint prints stand for the value exactly when it has at most nineteen of them in the base |
| `Snprintf.FieldIntLength` | CCache/snprintf.c:476-485 | the field is max(width, sign + max(precision, digits)) long exactly unless the zero flag meets a precision that pads and a width that asks for more |
| `Snprintf.FieldIntLayout` | CCache/snprintf.c:487-518 | blanks, sign, zeros, digits, blanks, with blanks on the side the flags ask for |
| `Snprintf.StrIsIso` | CCache/snprintf.c:330-338 | %s is that of section 7.19.6.5 of ISO C99 exactly when the precision is absent, cuts nothing off, or is no smaller than the width, or when the field is filled with blanks of the value where ISO C pads |
| `Snprintf.StrIsIsoAlways` | CCache/snprintf.c:330-338 | a directive agrees with ISO C99 on every value exactly when its precision is absent or no smaller than its width |
| `Format.DirectiveMeaning` | CCache/snprintf.c:141-397 | for every directive of the grammar (flags, width, precision and modifier, in digits or by *) the state machine prints the one field it describes, then the rest of the format |
| `Format.LiteralMeaning` | CCache/snprintf.c:164-170 | any other character is printed as it stands |
| `Format.FlagsMean` | CCache/snprintf.c:171-197 | a flag is set exactly when its character is written, in any order and number |
| `Format.AppendDecodes` | CCache/snprintf.c:198-230 | reading digits one by one gives the number they stand for |
| `Format.WidthMeaning` | CCache/snprintf.c:198-209 | the width: absent, digits, or the next argument |
| `Format.PrecisionMeaning` | CCache/snprintf.c:210-231 | the precision: absent (a dot alone counts as absent), digits, or the next argument |
| `Format.LengthMeaning` | CCache/snprintf.c:232-254 | the modifiers h, l, ll and L |
| `Printer.Sink.Outch` | CCache/snprintf.c:744-750 | a character is stored if there is room and counted in any case |
| `Printer.Sink.Digits` | CCache/snprintf.c:467-474 | the digit buffer, filled from the low end and cut off at twenty, holds the digits `Shown` defines |
| `Printer.Sink.FmtInt` | CCache/snprintf.c:437-519 | the integer field is appended to the output |
| `Printer.Sink.FmtStr` | CCache/snprintf.c:399-433 | the string field is appended to the output |
| `Printer.Sink.Conversion` | CCache/snprintf.c:255-381 | each conversion writes the field that `Conversions` describes and takes its argument |
| `Printer.Sink.Dopr` | CCache/snprintf.c:141-397 | the state machine ends, and what it writes is what the format describes, whatever the room |
| `Printer.Sink.Terminate` | CCache/snprintf.c:389-394 | the terminator goes behind what fits; nothing beyond the room is touched |
| `Printer.Vsnprintf` | CCache/snprintf.c:752-757 | the value returned and the text, which `Conversions` and `Format` describe, do not depend on the room; the buffer holds the first min(total, room - 1) characters and a zero, and is unchanged elsewhere |
| `Printer.Vasprintf` | CCache/snprintf.c:784-796 | the measuring pass sizes the second one exactly; an empty text leaves no string |
| `Stats.StrtolReads` | CCache/stats.c:74-74 | a counter that was written is read back, up to the limit of a long, whatever follows |
| `Stats.ParseText` | CCache/stats.c:67-78 | parsing the written text gives every counter, whatever older text stands behind it |
| `Stats.TextFits` | CCache/stats.c:81-97 | any counters fit into the buffer: the fatal error cannot happen |
| `Stats.PercentU` | CCache/stats.c:88-88 | "%u " prints the decimal numeral and a blank |
| `Stats.RoundTrip` | CCache/stats.c:67-117 | counters written over any older content, longer or shorter, are read back unchanged exactly when none exceeds the limit of a long |
| `Stats.StatsFile.ParseStats` | CCache/stats.c:67-78 | the loop adds number after number to the counters and stops where there is none |
| `Stats.StatsFile.WriteStats` | CCache/stats.c:81-97 | the file holds the text of the counters, with the older content behind it |
| `Stats.StatsFile.ReadStats` | CCache/stats.c:106-117 | defaults for an empty file, else what parses from the first 1023 bytes |
| `Stats.StatsFile.UpdateSize` | CCache/stats.c:120-174 | the counters of the file with the statistic bumped (and size and count on a miss) are written back; cleanup is asked for exactly when a limit is set and exceeded |
| `Stats.StatsFile.SetSizes` | CCache/stats.c:339-361 | file count and size are replaced, the other counters kept |
| `Stats.RunUpdates` | CCache/stats.c:120-174 | after any number of updates, one after the other and with any size of long, the file says the old counters with every update applied in turn |
| `Stats.NothingLost` | CCache/stats.c:120-174 | each counter is then the old one plus everything added to it modulo 2^32 when a long has 64 bits; with any long a total below 2^32 is exact exactly when it is within the limit of the long |
| `Cleanup.CompareIsTotal` | CCache/cleanup.c:37-46 | files_compare is zero only for the same name and time, and turns around |
| `Cleanup.CompareIsTransitive` | CCache/cleanup.c:37-46 | it is transitive |
| `Cleanup.SortedUnique` | CCache/cleanup.c:82-86 | on distinct names the sorted order is the only one: what qsort leaves does not depend on how it works |
| `Cleanup.OldestFirst` | CCache/cleanup.c:88-101 | nothing left goes before anything deleted -- it is not older, and of the same time its name is not later -- except files whose unlink failed |
| `Cleanup.StuckIsOlder` | CCache/cleanup.c:88-101 | two files, the older one stuck, a limit of one: the younger one is deleted and the older one left |
| `Cleanup.ShortestPrefix` | CCache/cleanup.c:88-101 | without failing unlinks the files deleted are the shortest prefix of the order after which both limits hold, or all |
| `Cleanup.CountExact` | CCache/cleanup.c:93-103 | total_files is the number of files left exactly when no unlink failed |
| `Cleanup.StuckMiscounts` | CCache/cleanup.c:93-103 | two files, the older one stuck, a limit of two: one is reported, two are there |
| `Cleanup.SumPermutation` | CCache/cleanup.c:72-86 | sorting does not change the total size |
| `Cleanup.LeftStep` | CCache/cleanup.c:93-100 | an unlink that fails leaves the total size alone, one that works takes the file out of it |
| `Cleanup.Cleaner.SortAndClean` | CCache/cleanup.c:88-103 | it stops at the first place below the limits; the directory loses the files before it that are not stuck; total_size is the sum of what is left |
| `Cleanup.Cleaner.CleanupDir` | CCache/cleanup.c:106-120 | traversal, cleaning and statistics together, from the limits times 0.8 |
| `Cleanup.StatsAreExact` | CCache/cleanup.c:106-120 | after a cleanup without failures the statistics file says the count (11) and the size (12) of what is left, modulo 2^32 and as far as a long can say it; the other counters stay |
| `IdentifierRuns.ReplacesIdentifiers` | Source/DOH/string.c:612-629 | DOH_REPLACE_ID (0x04), for a token of letters, digits and underscores and any replacement: the places are exactly the identifiers of the text -- its maximal runs of those characters -- that equal the token |
| `IdentifierRuns.ReplacesBeginnings` | Source/DOH/string.c:631-643 | DOH_REPLACE_ID_BEGIN (0x10): exactly the places where the token stands and an identifier of the text starts, unless the replacement is as long as the token and ends in another character |
| `IdentifierRuns.ReplacesEndings` | Source/DOH/string.c:645-658 | DOH_REPLACE_ID_END (0x20): those places of the plain search at whose end an identifier ends; for a token that cannot overlap itself, every place where the token stands and an identifier ends |
| `IdentifierRuns.ReplacesLeftmost` | Source/DOH/string.c:606-610 | no matcher flag: the occurrences of the token that no earlier place overlaps |
| `IdentifierRuns.EndingMissed` | Source/DOH/string.c:645-658 | "aba" in "ababa" ends an identifier and is not found: the candidate turned down before it is skipped whole |
| `IdentifierRuns.FirstOnly` | Source/DOH/string.c:893-894 | DOH_REPLACE_FIRST takes the first of the places there are without it |
| `IdentifierRuns.FlagBits` | Source/DOH/string.c:889-905 | 0x20 before 0x10 before 0x04 select the matcher, 0x02 spares quotes |
| `IdentifierRuns.QuotedStretch` | Source/DOH/string.c:576-604 | a stretch between two quotes of one kind, double or single, without newline and with only escaped quotes of its kind inside, is what end_quote takes for a quote |
| `Dispatch.CmpIsOrder` | Source/DOH/base.c:190-212 | DohCmp is negative exactly when null meets a text, or at the first difference the first text has the smaller byte -- counted from -128 for two string objects, from 0 otherwise -- or ends; positive exactly the other way round |
| `StringHash.HashValues` | Source/DOH/string.c:178-201 | the hash values of two texts, one with a byte above 127 |
| `LexemeForms.WordIsLexeme` | CCache/unify.c:145-153 | a letter or underscore and all letters, digits and underscores that follow are one lexeme |
| `LexemeForms.NumberIsLexeme` | CCache/unify.c:155-182 | a digit and the digits and dots that follow, after an x or X hexadecimal digits, after an e or E digits and signs, then the letters lLfFuU, are one lexeme |
| `LexemeForms.ConstantIsLexeme` | CCache/unify.c:191-206 | a string or character constant is one lexeme, up to the first quote of its kind that an even number of backslashes precedes; if there is none, nothing more is emitted |
| `LexemeForms.HashLine` | CCache/unify.c:128-143 | a line that begins with #, a blank and a digit is left out; from any other # on, the line is one lexeme |
| `LexemeForms.BlankIsNothing` | CCache/unify.c:184-189 | space, tab, newline, vertical tab, form feed and carriage return are left out |
| `LexemeForms.OperatorIsLongest` | CCache/unify.c:208-230 | before any other character stands the longest of the operators of two and three characters (which are listed) that begins the text, or that character alone |
| `Conversions.SignedConversion` | CCache/snprintf.c:257-268 | %d and %i of every int, and with l or ll of every long, with any flags, width and precision: a minus sign exactly for a negative value, the decimal digits of the magnitude, and the padding |
| `Conversions.UnsignedConversion` | CCache/snprintf.c:269-313 | %o, %u, %x and %X with any flags, width and precision: the digits in base 8, 10 and 16, lower or upper case, of the value modulo 2^32, or 2^64 with l or ll, and the padding |
| `Conversions.StringConversion` | CCache/snprintf.c:334-342 | %s of a string, or of a null pointer as "(NULL)": laid out as ISO C has it wherever the code agrees with it |
| `Conversions.OtherConversion` | CCache/snprintf.c:331-376 | %c prints its character, %% a percent sign; an unknown conversion prints nothing and takes no argument |
| `Conversions.PercentD` | CCache/snprintf.c:257-268 | "%d", "%i" and "%ld" print a minus sign exactly for negative values and digits that decode in base ten to the magnitude |
| `Conversions.PercentX` | CCache/snprintf.c:269-313 | "%o", "%u", "%x", "%X", also with l, print the last nineteen digits of the value, which decode to it below 2^57 in octal, below 10^19 in decimal, and always in hexadecimal |
| `Conversions.PercentP` | CCache/snprintf.c:343-346 | "%p" prints the address as a signed long, in lower-case hexadecimal without a prefix |
| `Conversions.PercentC` | CCache/snprintf.c:331-342 | "%c", "%s" and "%%" alone print the character, the string or "(NULL)", and a percent sign |
| `Conversions.PrintedInFull` | CCache/snprintf.c:468-475 | below the nineteenth power of the base the printed digits are all the digits of the number, and decode to it |
| `Md4Suite.RootConstants` | CCache/mdfour.c:37-38 | the constants of rounds 2 and 3 are the integer parts of 2^30 times the square roots of 2 and 3 |
| `Md4Suite.EmptyDigest` | CCache/mdfour.c:40-84 | section A.5 of RFC 1320: the digest of the empty message is 31d6cfe0d16ae931b73c59d7e0c089c0 |
| `Md4Suite.AbcDigest` | CCache/mdfour.c:40-84 | the digest of "abc" is a448017aaf21d8525fc10ae87aa6729d |
| `Md4Suite.AlnumDigest` | CCache/mdfour.c:40-84 | the digest of the 62 letters and digits, two blocks, is 043f8582f241db351ce627e153e7f0e4 |
| `Stats.StrtolMeans` | CCache/stats.c:67-78 | strtol on any text: past the blanks, one sign, then all the digits that follow, kept within the limits of a long; without a digit nothing is read |
| `Stats.EmptyFile` | CCache/stats.c:100-110 | an empty file stands for 62500 in counter 14 and zeros in the other twenty-two |
| `Cleanup.AscendingMeans` | CCache/cleanup.c:37-46 | the order of eviction: the older file first, and of two files of one time the one with the later name |

## Left out

- Language back ends, parser, type system, scanner and directors: text output over symbol tables that is not modelled here.
- Zero bytes inside strings; a token or replacement that aliases the string being edited; a string appended to itself.
- `DohNewStringWithSize`, which need not terminate its text, and `String_read`.
- StringObject.DohString.Insert: not at a position of a string with a recorded capacity of zero, which a copy of the empty
  string has: the source doubles it for ever.
- StringObject.DohString.Putc: not at the end of a copy of at most one character, for which the source makes too little room.
- StringObject.DohString.Append: a cursor so far behind the end that appending does not reach it, for which the source counts
  without end; only a forward seek in the empty string makes one.
- StringObject.DohString.Chop: with assertions compiled in, the source stops at a cursor in front of the text.
- StringObject.DohString.Seek: it starts from a cursor in the text, as the source reads the buffer from there; a forward seek in the empty string is not clamped by the source; it is stated as long as it
  stays inside the buffer.
- StringObject.DohString.DelItem and StringObject.DohString.DelSlice: positions outside the text are not modelled; the
  source reads and moves outside the buffer there.
- The `file` attributes of strings, lists and tables, and `List_set`.
- Changing a string while it is a key of a table.
- HashTable.Hash.Setattr: keys are given by their contents, objects by numbers; which C string becomes which string object
  is `Intern`, what happens to reference counts is in `LedgerTables`.
- LedgerOps.ListInsert and LedgerOps.ListRemove: a list is a sequence here; shifting and doubling its array add nothing to
  the ledger.
- LedgerTables.HashReplace: the entry is given by its place.  What the program does with an entry that names a freed object
  is not modelled.
- LedgerSetattr.Setattr: the key is an object already, as `find_key` (`Intern`) makes it of a C string.  The caller's
  reference to a new string is given up after the table counts it, not before; nothing can tell in between.
- LedgerRuns.Run: a sequence goes on only with operations whose arguments are what the source demands and that make no
  cycle.
- Overflow of `int` lengths, sizes and counts (28-bit reference counts, 32-bit string lengths) outside the hash value, MD4,
  the statistics and the printed integers, where word sizes are explicit.
- Ledger.Heap.Delete: stated for acyclic heaps, given by a ranking; with a cycle the cascade does not reach what the cycle
  holds.
- PoolMemory.Allocator.constructor: the interned `DohNone` object that `InitPools` allocates next is one call of
  `DohObjMalloc`.
- CacheProtocol.OnlyWholeEntries: a compilation of the key yields the same object and diagnostics in every process, or
  fails; temporary names are fresh, reads do not fail, and the object's output file is not changed by others while it is
  copied.  Of the calls that fail, the compiler, mkstemp, write, close and those of the retrieval are modelled, and every
  call on a name that someone else has removed.
- `from_cache` frees the name of the .stderr file before it unlinks it on one path; the model unlinks that file.
- Compressed entries, hard-link mode, SWIG multi-output mode, Windows branches, the preprocessor's own diagnostics.
- Md4.Mdfour.Update: input longer than an `int` can say.
- Unifier.Unifier.Unify: unclosed string or character constants, for which the source reads one byte past the input, and
  zero bytes, which finish the hash.
- Unifier.Unifier.Quoted: the same unclosed constants.
- `hash_result` finishes the hash once more after the unifier has; that is `Finish` applied twice.
- Printer.Sink.Dopr: %n, which stores through a pointer, %w, which can read past the end of the format, and the
  floating-point conversions; the `long double` helpers; varargs themselves (a missing or mistyped argument reads as zero or
  null; `vasprintf` uses its list twice); `long` has 64 bits.
- Printer.Sink.Conversion, Printer.Vsnprintf and Printer.Vasprintf: the same conversions.
- Stats.StatsFile.WriteStats: a failing write, which ends the process, and file locking; updates are taken one at a time.
- Cleanup.Cleaner.SortAndClean: qsort itself (its result is given, and `SortedUnique` shows it is determined), and files that
  appear or vanish during the traversal.
- Cleanup.Cleaner.CleanupDir: the thresholds are 8/10 of the limits, rounded down; the source multiplies by the floating-point
  constant 0.8.
- Process execution, environment, argument scanning, logging, `Source/DOH/file.c` and `Source/DOH/fio.c`.
