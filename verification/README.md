# http-nu: proofs about the client runtime and the server pieces it talks to

http-nu is a web server scripted in Nushell; its 2048 example ships a client runtime, `dmax.js`, which
patches the page and a signal store from server-sent events. This project models the parts of both whose
correctness is not visible from one function, and proves what they promise.

| file | models |
|---|---|
| `Options.dfy` | a value that may be absent |
| `Dom.dfy` | DOM nodes with attributes and child lists, and snapshots of trees of them |
| `MorphSpec.dfy`, `KeyedPass.dfy`, `Morph.dfy` | the in-place DOM morph: positional prefix, keyed pass, clean-up |
| `JsValues.dfy`, `Compare.dfy` | JavaScript values, change detection, shape difference |
| `Signals.dfy`, `SyncDepth.dfy`, `Chains.dfy` | writes to the signal store, the subscribers they wake, the recursion guard, and handlers that write |
| `MergePatch.dfy` | JSON merge patch and the patching of signals |
| `Sse.dfy` | the server-sent-event printer and both parsers |
| `Names.dfy`, `AttrKey.dfy` | the name caches and the attribute-key parser |
| `Streams.dfy`, `Compression.dfy`, `HotSwap.dfy` | cancellable bodies, streaming compression, engine hot-swap |
| `Glob.dfy`, `Bus.dfy` | topic patterns and the broadcast bus |
| `TokenBucket.dfy`, `HumanLog.dfy`, `HumanLines.dfy` | the log's rate limiter, the human-readable log, and what each event puts on it |
| `GameBoard.dfy`, `Phases.dfy` | the `<game-board>` component, and what its applies wait for |

Code that works by changing things in place is modelled by classes and methods, proved against
specification functions or predicates; what is promised about whole runs is stated as invariants (`Valid`)
and as lemmas about the specification functions.

## What the proofs found

- `valChangedDeep` (dmax.js:283-298) asks `k in b`, which an inherited name such as `toString` answers. An
  object that gains only such a key passes for unchanged, and so does an object replaced by an array with
  the same members (`Compare.HiddenKeyUnnoticed`, `Compare.ArrayForObjectUnnoticed`). A patch that only adds
  such a key is lost (`MergePatch.PatchIsLost`). `Compare.UnchangedIsEqual` and
  `MergePatch.SignalIsMergedIff` say exactly when that happens.
- The comparison counter advances once per compared child, so an array of 32 or more elements is always
  reported as changed (`Compare.LongArraysAlwaysChange`).
- `setSiAndNotifySubsNDeep` (dmax.js:866) raises the depth counter before its early return and never lowers
  it again for a refused write. The counter is balanced exactly for runs that stay under the limit
  (`SyncDepth.BalancedIff`), so thirty-three nested writes are fine and thirty-four leave it raised; after
  thirty-three such runs every later write is refused (`SyncDepth.ThirtyFourLeak`). A handler that answers each
  change of its signal by another one always does that (`Chains.CountingLeaks`).
- A write at a path looks a deeper subscriber's whole path up in the written value (dmax.js:841), so such a
  subscriber can miss a change and can be woken for none (`Signals.DeeperSubscriberMissesChange`,
  `Signals.DeeperSubscriberWokenForNothing`). Where the written value holds nothing at the full path, it is
  woken exactly if it had something before, and `Signals.DeeperWakesIffHadValue` says exactly when that is right.
- A path write leaves all reads of diverging paths as they were exactly when, on its way, it meets no null
  and no string, makes no array longer and cuts none short of an element (`Signals.DivergingReadsIff`): a null
  and a string are replaced by an object and their readers find `undefined` (`Signals.NullBreaks`,
  `Signals.StringBreaks`), a longer array has another `length` (`Signals.GrowthBreaks`), and writing the `length`
  of an array takes its last elements away (`Signals.LossBreaks`). No subscriber of a diverging path is woken for it
  (`Signals.PathWriteWakesLikeWholeWrite`).
- `parseRef` takes its sign from the absolute cursor (dmax.js:92-93), which is right exactly when a
  reference begins at an even position (`AttrKey.NegationIff`). So the unmarked argument of a modifier reads
  as negated exactly when the modifier with its own marks has even length (`AttrKey.ArgumentIsRecovered`), as in
  `^eq.foo.bar` (`AttrKey.EqFooBar`).
- An attribute key's item whose name is no reference is dropped, but the modifiers written behind it then count
  as global ones (dmax.js:161-169): for the items that follow, and also for those in front of it that have no
  modifiers of their own and share a list of global ones already (`AttrKey.NotationIsRecovered`).
- `camelToKebab` spoils the caches exactly when it is given a name with a dash (`Names.Names.CamelToKebab`): from
  then on the camel form of that name's dashed form is answered wrongly (`Names.DashSpoils`), as `a-b` for `a-b`
  (`Names.DashedName`).
- `BrotliStream::encode` passes the encoder both the slice `input[in_offset..]` and `&mut in_offset`
  (compression.rs:75-76). With an encoder that reads its input from the start of the slice no byte is lost.
  With one that reads at the offset within the slice, a call that the encoder does not refuse completes exactly
  when every step takes nothing or everything (`Compression.Encode`): of an input taken in parts some step runs
  past the slice (`Compression.PartsOverstep`), and the call ends in a panic. So it completes no input larger than
  what the encoder takes in one call, and one that takes a byte a call not even two bytes
  (`Compression.TwoBytes`). Either way a poll that answers data has lost nothing.
- An encoder failure while chunks are drained returns an error without marking the stream finished
  (compression.rs:130-151); the claims about later polls are for streams without such a failure.
- The cursor movement of the log's zone is cast to sixteen bits (logging.rs:451): rows of an old zone stay
  behind exactly when the zone has 65536 rows or more (`HumanLog.Erased`, over whole runs `HumanLog.TidyIff`).
  The limiter does not prevent it: 65535 requests, one a second and none completed, are all shown and leave rows
  behind (`HumanLog.RowsAreLeft`).
- The 2048 board shows a snapshot at its cells and values exactly when no tile mounted at that moment is flagged
  as spawned at another cell or value (`GameBoard.Board.Interleave`); such a tile stays where it was
  (`GameBoard.ReflaggedSpawn`).

## Model

| member | source | states |
|---|---|---|
| Dom.Node.MoveBefore | examples/2048dm/static/dmax.js:1499-1499 | `insertBefore` of a child of the same parent: the child list with that child taken out and put before the reference |
| Dom.Node.InsertNew | examples/2048dm/static/dmax.js:1501-1501 | `insertBefore` of a new node: the child list with the node added before the reference |
| Dom.Node.ReplaceChild | examples/2048dm/static/dmax.js:1527-1527 | the new node stands where the old one stood; the old one is detached |
| Morph.SameAttrs | examples/2048dm/static/dmax.js:1418-1426 | true only of equal attribute maps, and exactly of equal attribute lists |
| Morph.UpdateAttrs | examples/2048dm/static/dmax.js:1429-1458 | afterwards the attribute map is that of the new node, whatever both were, and the new node is untouched |
| Morph.CloneNode | examples/2048dm/static/dmax.js:1472-1472 | a deep clone is fresh and a node-by-node copy |
| Morph.Morph | examples/2048dm/static/dmax.js:1517-1552 | in place, any tree towards any tree: the result is in step with the new tree (opted-out elements excepted), replacement happens only in the parent's slot, every node that can stay is the same object at every depth, and old nodes that are not in the result have no parent in it |
| Morph.MorphElement | examples/2048dm/static/dmax.js:1530-1540 | one element with an equal tag: attributes, only-text shortcut and children brought in step, the node and whatever can stay below it kept, unwanted keyed children dropped and detached |
| Morph.PrefixPass | examples/2048dm/static/dmax.js:1462-1469 | the positional prefix pass leaves a finished prefix of pairs of the same slot, each on its old node unless their tags differ, ends at the first pair that fits no slot, and leaves everything behind untouched |
| Morph.CollectIds | examples/2048dm/static/dmax.js:1485-1487 | the table maps exactly the ids of the remaining element children to them |
| Morph.PlaceKeyed | examples/2048dm/static/dmax.js:1490-1500 | a new child whose id is in the table takes that very node, moves it to the cursor and brings it in step; the pass invariant is kept |
| Morph.PlaceUnkeyed | examples/2048dm/static/dmax.js:1493-1501 | a new child without a match by id steps over the keyed nodes still waiting and takes the next old child without an id if it is of the same kind, and for elements of the same tag; only otherwise is it a clone; the pass invariant is kept |
| Morph.KeyedChildren | examples/2048dm/static/dmax.js:1489-1510 | the whole keyed pass and clean-up: children in step and in order; pairs of the prefix and matched ids keep their node; behind the prefix the new children without a match take the old ones without ids in order, wherever the kinds agree, and are new nodes otherwise; absent ids are dropped |
| Morph.MorphChildren | examples/2048dm/static/dmax.js:1461-1511 | for every pair of child lists with unique old ids: same structure in the same order; every child with a matching id, and every one in the same slot from the start, is the same object wherever it moved; behind the prefix, children without a match are exactly the next unused old ones without ids where the kinds agree, and otherwise new; whatever old child is still there is kept at every depth below; old keyed children without a counterpart are detached |
| Morph.MorphTree | examples/2048dm/static/dmax.js:1461-1552 | element trees without opt-out marks and with unique ids among old siblings: afterwards the tree looks exactly like the new one at every depth; the root, every pair of the same slot and every pair matched by id are the same objects at every depth, below wrappers without ids too, and so are the old children without ids that are reused in order; at every depth a child whose id is not wanted is out of the tree and detached; the new tree is unchanged |
| MorphSpec.SyncedIsSameView | examples/2048dm/static/dmax.js:1517-1552 | being in step is the same as having equal tags, attribute maps, text and child order at every depth |
| MorphSpec.KeptUnderWrapper | examples/2048dm/static/dmax.js:1462-1469 | a wrapper without an id in the same slot is the same node, and so are its children matched by id |
| MorphSpec.AbsentIsGone | examples/2048dm/static/dmax.js:1503-1510 | at every depth, an old child whose id no new sibling carries occurs nowhere in the new tree |
| KeyedPass.SkipKeyed | examples/2048dm/static/dmax.js:1494-1494 | skipping a keyed node that still waits in the table keeps the pass invariant |
| KeyedPass.ChooseKeyed | examples/2048dm/static/dmax.js:1492-1500 | taking a node from the table and moving it to the cursor keeps the pass invariant |
| KeyedPass.ChooseUnkeyed | examples/2048dm/static/dmax.js:1495-1500 | using the node at the cursor keeps the pass invariant |
| KeyedPass.End | examples/2048dm/static/dmax.js:1503-1510 | when the new children are used up and the leftovers are gone, the children are in step, kept where ids match, and absent ids dropped |
| KeyedPass.OneInFrontKeepsAll | examples/2048dm/static/dmax.js:1489-1501 | a new child put in front that fits no old child: every other old child that can stay is the same object, one place further |
| JsValues.GetLoop | examples/2048dm/static/dmax.js:274-280 | the loop reads the value at a path; a nil on the way ends it |
| JsValues.ArrayIndexRoundTrip | examples/2048dm/static/dmax.js:278-278 | a property name that denotes an array index is the decimal form of that index |
| Compare.ValChangedDeep | examples/2048dm/static/dmax.js:283-298 | the loops with their running counter compute `Changed` |
| Compare.UnchangedIff | examples/2048dm/static/dmax.js:283-298 | at any counter, "unchanged" means: every node is reached below the limit, and the members of the old value match in the new one |
| Compare.UnchangedIsEqual | examples/2048dm/static/dmax.js:283-298 | of JSON values, "unchanged" with nothing hidden holds exactly for equal values whose nodes all stay below the limit |
| Compare.HiddenKeyUnnoticed | examples/2048dm/static/dmax.js:290-295 | a new key named like an inherited member is not noticed |
| Compare.ArrayForObjectUnnoticed | examples/2048dm/static/dmax.js:289-295 | an object replaced by an array of the same members is not noticed |
| Compare.LongArraysAlwaysChange | examples/2048dm/static/dmax.js:282-288 | an array of 32 or more elements counts as changed against anything |
| Compare.NoDiffIff | examples/2048dm/static/dmax.js:337-363 | no shape difference means two arrays of one length, or two objects that answer for each other's keys |
| Compare.DiffLists | examples/2048dm/static/dmax.js:337-363 | a shape difference of two keyed values lists as added exactly the keys that the new value has and the old does not answer for, in the new order, and as removed the converse; of two arrays, exactly the indices that only one of them has |
| Signals.Store.SetAndNotify | examples/2048dm/static/dmax.js:793-862 | the method with its caches stores and calls exactly what `Write` says; handlers run after the store is written |
| Signals.Collect | examples/2048dm/static/dmax.js:815-851 | the loop with its shared differences and remembered values selects the same subscribers with the same details as deciding each on its own |
| Signals.WholeWriteIsExact | examples/2048dm/static/dmax.js:793-862 | whether anyone listens or not: a changing write of a whole signal stores the value and calls, once each and in subscription order, exactly the subscribers without a path or with a changed value at their path, shape-only ones only on a shape difference; each is told the right difference and finds the new value |
| Signals.PathWriteIsExact | examples/2048dm/static/dmax.js:793-862 | whoever else listens: a changing write at a path puts the value there and, of the subscribers not below the path, calls in subscription order exactly those without a path or above it, and those at the path as their shape mode wants; each is told the right difference and finds the new value at its own path |
| Signals.UnchangedIsSilent | examples/2048dm/static/dmax.js:805-805 | a write that changes nothing calls nobody, and stores at most the objects that prepare its path |
| Signals.UnchangedKeepsReads | examples/2048dm/static/dmax.js:798-805 | after such a write every read of every signal is as before, but for paths that the write has newly made |
| Signals.ReadBack | examples/2048dm/static/dmax.js:798-804 | reading back the written path gives the written value |
| Signals.PutAfterVivify | examples/2048dm/static/dmax.js:800-803 | writing into the value made ready for the path is writing into the value itself |
| Signals.DivergingReadsIff | examples/2048dm/static/dmax.js:800-804 | for every plain path, reads of all diverging plain paths, `length` among them, stay as they were exactly when the write meets no null and no string on its way, makes no array longer and cuts none short of an element |
| Signals.NullBreaks | examples/2048dm/static/dmax.js:799-801 | a null on the path: some diverging read goes from null to undefined |
| Signals.StringBreaks | examples/2048dm/static/dmax.js:799-801 | a string on the path: its length or first character goes to undefined |
| Signals.GrowthBreaks | examples/2048dm/static/dmax.js:853-854 | an array that gets longer: its length goes to the new one |
| Signals.LossBreaks | examples/2048dm/static/dmax.js:853-854 | an array cut by its length: an element it loses goes to undefined |
| Signals.PathWriteWakesLikeWholeWrite | examples/2048dm/static/dmax.js:815-840 | a subscriber not below the written path: beside it, it is never woken, while a whole write of the result wakes it by its own rule; anywhere else both writes wake it, a shape-only one by the shapes of each write |
| Signals.BesideIsUnchanged | examples/2048dm/static/dmax.js:815-840 | beside the path, unless an array is made longer or cut there, the value is the same, so not waking is right |
| Signals.ReadBelow | examples/2048dm/static/dmax.js:853-854 | below the written path a subscriber reads the rest of its path in the written value |
| Signals.DeeperIsDecidedAsWhole | examples/2048dm/static/dmax.js:841-850 | such a subscriber is decided, and told, as if the written value replaced the whole signal |
| Signals.DeeperWakesIffHadValue | examples/2048dm/static/dmax.js:841-841 | a deeper subscriber, in whatever mode, whose full path finds nothing in the written value is woken exactly when it had something before; that is right exactly when having had something and having a change it wants to hear of come to the same |
| Signals.DeeperSubscriberMissesChange | examples/2048dm/static/dmax.js:841-841 | a deeper subscriber can miss a value that appeared |
| Signals.DeeperSubscriberWokenForNothing | examples/2048dm/static/dmax.js:841-841 | a deeper subscriber can be woken although its value stayed |
| SyncDepth.Guard.SetNDeep | examples/2048dm/static/dmax.js:864-868 | the counter and the refusals of any tree of nested writes |
| SyncDepth.RefusalsStay | examples/2048dm/static/dmax.js:866-866 | every refusal leaves the counter one higher |
| SyncDepth.BalancedIff | examples/2048dm/static/dmax.js:864-868 | the counter returns to where it was exactly when the run stays under the limit |
| SyncDepth.RefusedForEver | examples/2048dm/static/dmax.js:866-866 | above the limit every later write is refused |
| SyncDepth.LeaksAddUp | examples/2048dm/static/dmax.js:864-868 | each run nested too deep raises the counter for good |
| SyncDepth.DeepChain | examples/2048dm/static/dmax.js:864-868 | a chain of nested writes is refused at most its last one, exactly if it is longer than the limit allows, and then leaves the counter one higher |
| SyncDepth.ThirtyFourLeak | examples/2048dm/static/dmax.js:864-868 | thirty-three nested writes are fine, of thirty-four the last is refused and the counter stays at one; after thirty-three such runs everything is refused |
| Chains.Live.SetNDeep | examples/2048dm/static/dmax.js:864-868 | with handlers that write in turn, the recursive method does what the guarded write function says: store, calls and counter |
| Chains.QuietIsWrite | examples/2048dm/static/dmax.js:793-868 | with handlers that write nothing, a guarded write below the limit is the plain write and leaves the counter alone |
| Chains.FireCallsAll | examples/2048dm/static/dmax.js:812-860 | whatever the handlers write: exactly the subscribers collected from the store that the write met are called, in order, with the details of this write, each finding the store as it is at its call |
| Chains.HandlersInOrder | examples/2048dm/static/dmax.js:812-860 | a handler is called once those before it are done with all that they write, and then all that it writes is written |
| Chains.WritesInOrder | examples/2048dm/static/dmax.js:864-868 | what a handler writes is written in order, each write on what the ones before it left |
| Chains.ChainBalancedIff | examples/2048dm/static/dmax.js:864-868 | the counter comes back exactly when the writes that the handlers really make nest no deeper than the limit |
| Chains.CountingLeaks | examples/2048dm/static/dmax.js:864-868 | a handler that answers each change by another is stopped by the guard, and the counter ends one higher |
| MergePatch.ApplyJsonMergePatch | examples/2048dm/static/dmax.js:1635-1645 | the recursive loop computes `Merge` |
| MergePatch.MergeIsMergePatch | examples/2048dm/static/dmax.js:1635-1645 | for every target and patch the result is what section 2 of RFC 7396 defines, member by member |
| MergePatch.UnnamedStays | examples/2048dm/static/dmax.js:1638-1643 | members the patch does not name are as they were |
| MergePatch.MergeIsDetermined | examples/2048dm/static/dmax.js:1635-1645 | target and patch determine the result up to member order |
| MergePatch.PatchTwice | examples/2048dm/static/dmax.js:1635-1645 | applying a patch twice is applying it once |
| MergePatch.PatchStoreTwice | examples/2048dm/static/dmax.js:1647-1664 | below the depth guard, patching the store with the same patch again leaves every signal equal to what it was, and removed ones absent |
| MergePatch.ApplyPatchSigs | examples/2048dm/static/dmax.js:1647-1664 | the store, the handler calls and the depth counter after an event with any text: nothing for no text, no JSON or no object, else member by member, behind the depth guard |
| MergePatch.PatchBySignal | examples/2048dm/static/dmax.js:1653-1664 | each signal ends up as its own member says; unnamed signals, and existing ones under `onlyIfMissing`, are never altered; null removes; once the depth guard refuses, only removals happen |
| MergePatch.MemberCalls | examples/2048dm/static/dmax.js:1654-1663 | a member of a patch, a removal as well, calls exactly the subscribers that the change of its signal affects, in order, each with the right difference and value; refused, unnoticed and skipped members call nobody |
| MergePatch.PatchCalls | examples/2048dm/static/dmax.js:1653-1664 | below the guard a patch calls, member by member, whom each of them alone would call, and leaves the counter alone |
| MergePatch.EventBySignal | examples/2048dm/static/dmax.js:1647-1664 | an event whose text is that of a JSON object patches every signal as its own member says; any other event changes nothing and calls nobody |
| MergePatch.OnlyMissingIff | examples/2048dm/static/dmax.js:1653-1653 | `onlyIfMissing` is set by the word `true` in any case and by nothing else |
| MergePatch.SignalIsMergedIff | examples/2048dm/static/dmax.js:1655-1656 | a patched JSON signal equals its merge exactly when the comparison reports the change or hides nothing; under a refusing guard it stays |
| MergePatch.PatchIsLost | examples/2048dm/static/dmax.js:1655-1656 | a patch that only adds a member named like an inherited one is lost |
| Sse.ApplySse | examples/2048dm/static/dmax.js:1697-1708 | the batch loop applies what parsing the whole text gives |
| Sse.ConsumeSseStream | examples/2048dm/static/dmax.js:1716-1743 | however the text is cut, the incremental parser applies what the batch parser does; after a failure, what the complete lines gave |
| Sse.AppliedIsPrefix | examples/2048dm/static/dmax.js:1730-1739 | what was applied before a failure is a prefix of what any continuation applies |
| Sse.EmitDataLines | src/commands.rs:297-303 | one data line for each line of the text |
| Sse.EventToString | src/commands.rs:328-380 | the printed text of a record: header lines, data lines, a blank line |
| Sse.PrintThenParse | src/commands.rs:328-380 | parsing the concatenated prints gives, record by record, what each means: its `key value` lines as members with the values of a key joined by newlines, the joined lines as the one member of `dm-element`, and nothing under any other name or without such lines |
| Sse.RoundTrip | examples/2048dm/static/dmax.js:1666-1708 | for any list of patches of `key value` lines, single elements as markup and other records: printing then parsing gives one event for each patch, in order, with its members, one for each element with its markup, and none for the others |
| Sse.OnlyPatches | examples/2048dm/static/dmax.js:1666-1673 | whatever the text is, only events named `dm-element`, `dm-elements` or `dm-signals` are applied |
| Sse.FieldsInAnyOrder | examples/2048dm/static/dmax.js:1674-1695 | an event applies under the last name it is given, wherever that stands among its fields, with all its `key value` lines; for any fields that do not name `dm-element` |
| Sse.BlankLineSeparates | examples/2048dm/static/dmax.js:1697-1708 | a blank line ends an event, and what follows is parsed on its own |
| Sse.CommentsSkipped | examples/2048dm/static/dmax.js:1677-1677 | a comment line put in anywhere changes nothing |
| Sse.SpaceIsOptional | examples/2048dm/static/dmax.js:1679-1680 | the space behind a field's colon may be left out |
| Sse.ColonIsOptional | examples/2048dm/static/dmax.js:1678-1679 | a line without colon is a field without value |
| Sse.CrlfIsSame | examples/2048dm/static/dmax.js:1675-1675 | lines may end in a carriage return and a newline |
| Sse.FieldsAreRead | src/commands.rs:328-380 | reading the fields of a printed record gives its event, id and retry time and its data lines |
| Names.KebabLeadsBackIff | examples/2048dm/static/dmax.js:21-29 | the dashed form leads back to the name exactly when the name has no dash |
| Names.KebabHasNoUpper | examples/2048dm/static/dmax.js:21-29 | a dashed form has no upper-case letters |
| Names.DashesRaise | examples/2048dm/static/dmax.js:10-19 | wherever a run of dashes stands in a name, it goes, and the letter behind it is raised; what is in front and behind is transformed on its own |
| Names.Names.KebabToCamel | examples/2048dm/static/dmax.js:10-19 | the cache never shows: the answer is always the camel form, and the caches stay right |
| Names.Names.CamelToKebab | examples/2048dm/static/dmax.js:21-29 | the caches stay right exactly when the name has no dash, and then the answer leads back to the name |
| Names.DashSpoils | examples/2048dm/static/dmax.js:10-29 | after asking for the dashed form of a name with a dash, the camel form of that form is answered wrongly |
| Names.DashedName | examples/2048dm/static/dmax.js:10-29 | `a-b` is such a name |
| AttrKey.IndexFirst | examples/2048dm/static/dmax.js:2-6 | the first position of any of the characters, or -1 |
| AttrKey.ReadRef | examples/2048dm/static/dmax.js:89-131 | the cursor loops read the reference that `ParseRef` describes |
| AttrKey.NegationIff | examples/2048dm/static/dmax.js:92-93 | a reference reads as negated by its marks exactly when it begins at an even position |
| AttrKey.PathRead | examples/2048dm/static/dmax.js:109-129 | a path written from names and indices is read back part by part |
| AttrKey.PathOnlyWritten | examples/2048dm/static/dmax.js:109-129 | nothing but such a path is read as one |
| AttrKey.ReferenceIsRecovered | examples/2048dm/static/dmax.js:89-131 | a reference of any kind (signal, `#` element, `_` special source, the element itself) with any number of `!` marks is read back from wherever it begins, root and path, and a bare mark is none; only the sign depends on the position |
| AttrKey.TrailingDotIsRead | examples/2048dm/static/dmax.js:108-108 | a single dot behind the root is passed over |
| AttrKey.ReferenceOnlyWritten | examples/2048dm/static/dmax.js:89-131 | nothing else is read as a reference: what is read is a written one, with or without a single dot at its end |
| AttrKey.ModifierIsRead | examples/2048dm/static/dmax.js:132-151 | a modifier is read by its name: attributes and selectors take their text as it is, any other a single word in camel case or a reference, which is left out if it is none |
| AttrKey.AttributesAreRead | examples/2048dm/static/dmax.js:142-147 | behind an id mark, attributes have a signal for their names, which must not be empty, and one for their values |
| AttrKey.ArgumentIsRecovered | examples/2048dm/static/dmax.js:132-151 | the reference argument of a modifier, both with any number of marks, is read back, and reads as negated exactly when the modifier and all the marks together have even length |
| AttrKey.EqFooBar | examples/2048dm/static/dmax.js:132-151 | the key `^eq.foo.bar` parses to a modifier whose unmarked argument is negated |
| AttrKey.Parse | examples/2048dm/static/dmax.js:152-188 | on every key the cursor reaches the end, and the items are those of the specification |
| AttrKey.LocalModsRead | examples/2048dm/static/dmax.js:170-179 | written local modifiers are read back in order |
| AttrKey.NotationIsRecovered | examples/2048dm/static/dmax.js:152-188 | any key, as a prefix, global modifiers and items, is parsed into those items whose name is a reference, in order for each mark, each with its own modifiers and the global ones, and flagged by the last word on immediacy, its own first; modifiers behind a dropped item become global |
| AttrKey.EveryKeyIsWritten | examples/2048dm/static/dmax.js:152-188 | every key can be taken apart in that way |
| AttrKey.LastImmediateIsLastWord | examples/2048dm/static/dmax.js:87-87 | the flag is what the last of the modifiers `immediate` and `notImmediate` says, and absent without any |
| Streams.Source.Next | src/handler.rs:505-520 | one poll of the stream: the token comes before the queue, chunks come in the order sent, nothing follows an error or the end, the end comes only when everything sent was taken |
| Streams.PlainBody.Poll | src/handler.rs:525-526 | the plain body hands out every chunk taken; cancelled, it errs once and then ends |
| Compression.DecodeAppend | src/compression.rs:81-84 | decoding a concatenation is concatenating the decodings |
| Compression.Encoder.CompressStream | src/compression.rs:72-83 | the encoder's contract: bytes taken are held, queued or handed out in order, whatever it chooses to do in one call |
| Compression.Encode | src/compression.rs:63-107 | a completed call has handed the encoder the whole input once and in order, and a flush or finish leaves nothing behind; a call that is not refused completes always when the encoder reads from the start, and when it reads at the offset exactly if each step takes nothing or all of the input, hence never for an input larger than one step takes |
| Compression.PartsOverstep | src/compression.rs:72-83 | read at the offset, an input that the steps take up in parts is overstepped by one of them |
| Compression.TwoBytes | src/compression.rs:63-107 | an encoder that takes one byte a call, read at the offset, ends in a crash on two bytes unless it refuses |
| Compression.BrotliStream.Poll | src/compression.rs:116-187 | after every poll that does not fail, what was sent decodes to all that was taken; at most 32 chunks a poll; pending only when nothing is left; after an error a prefix without the end mark; a body with the end mark is everything ever sent; a poll fails only if the encoder did or the token is cancelled, so a closed source with fewer than 32 chunks left is answered by the frame with the end mark, and one with more by a frame of exactly 32 |
| Compression.BrotliStream.Serve | src/compression.rs:116-187 | over any number of polls, with other threads acting in between: the frames are what was sent, each poll takes at most 32 chunks, and after an error or the end there is only the end; while no poll fails, what was sent decodes to all that was taken; a last pending answer has left nothing behind; the end means everything ever sent has arrived; a stream cut off before fails at once; without a failure of the encoder and without cancellation a closed source is answered by frames of 32 chunks, then the one with the end mark, then only by the end |
| HotSwap.RunKeepsInv | src/main.rs:330-339 | in every reachable state each engine made is current, waiting, or cancelled, and no request holds a waiting one |
| HotSwap.CancelledBeforeReplaced | src/main.rs:332-337 | in every interleaving, a replaced engine was cancelled first |
| HotSwap.LiveIsCurrent | src/handler.rs:46-48 | in every interleaving, a request whose token is not cancelled holds the current engine |
| HotSwap.CancelledStreamErrs | src/handler.rs:505-526 | from the moment a stream is cut off, its polls answer one error and then the end, plain or compressed |
| HotSwap.ErrorMeansCancelled | src/handler.rs:509-513 | no stream fails without its token being cancelled |
| HotSwap.ErrorMeansReplaced | src/main.rs:332-337 | without a shutdown, a failed stream belongs to an engine that is replaced or being replaced |
| Glob.Compile | src/bus.rs:78-98 | the parts are in normal form and spell the pattern with each run of stars cut to one |
| Glob.MatchIsAcceptance | src/bus.rs:105-124 | the backtracking matcher decides what the parts mean, for every text |
| Glob.CollapseKeepsMeaning | src/bus.rs:88-90 | cutting runs of stars keeps the meaning |
| Glob.CompiledMatches | src/bus.rs:72-124 | a compiled pattern matches exactly the texts in which each star stands for some run |
| Glob.NormalIsUnique | src/bus.rs:78-98 | a normal form is determined by what it spells |
| Glob.AcceptsIffFills | src/bus.rs:105-124 | acceptance is having runs of characters to put for the stars |
| Bus.Channel.Publish | src/bus.rs:20-25 | sending never waits; the ring keeps the newest events |
| Bus.Forwarder.constructor | src/bus.rs:27-32 | a subscription starts behind everything already sent |
| Bus.Forwarder.Receive | src/bus.rs:42-55 | one receive answers the next unread event, a lag, a close, or nothing |
| Bus.Forwarder.Turn | src/bus.rs:40-62 | one turn of `recv` and the forwarding loop: drop, deliver or stop |
| Bus.Forwarder.Interleave | src/commands.rs:1774-1788 | any interleaving of senders, the consumer leaving and turns ends in the state of the specification |
| Bus.DeliveryIsGapFree | src/commands.rs:1774-1788 | in every interleaving the consumer gets the matching events of a contiguous run of publications from its subscription on |
| Bus.EndedStaysEnded | src/bus.rs:49-54 | after the loop has ended nothing more is delivered |
| Bus.OverrunIff | src/bus.rs:49-52 | the loop ends by a lag exactly when some turn finds more unread events than the ring holds |
| Bus.BacklogIsDelivered | src/bus.rs:40-55 | a backlog that fits the ring is delivered in as many turns, and then a closed channel ends the loop cleanly |
| TokenBucket.TokenBucket.TryConsume | src/logging.rs:53-64 | the incremental state admits exactly when every window from an earlier call to now has room for one more |
| TokenBucket.RunBound | src/logging.rs:53-64 | from one call to another no more is admitted than the burst and the refill between |
| TokenBucket.WindowBound | src/logging.rs:43-65 | in any window of time no more is admitted than capacity + rate × length |
| TokenBucket.SpacedAreAdmitted | src/logging.rs:53-64 | calls between which the bucket earns a token are never refused |
| HumanLog.Erased | src/logging.rs:447-456 | clearing keeps every permanent line, and leaves zone rows behind exactly when the zone has more rows than sixteen bits count |
| HumanLog.ActiveZone.Clear | src/logging.rs:447-456 | permanent lines stay, and the screen stays tidy exactly when the count fits |
| HumanLog.ActiveZone.Redraw | src/logging.rs:466-481 | the zone shows the header and one row for each request in flight |
| HumanLog.RetainedDropsOne | src/logging.rs:690-690 | removing a completed id drops exactly one entry and keeps the rest without repeats |
| HumanLog.Handler.Arrive | src/logging.rs:640-667 | the whole log after a request: over the rate it is only counted as skipped; shown, it first reports the skipped ones, enters the table and the list, and the zone is redrawn |
| HumanLog.Handler.Lag | src/logging.rs:530-538 | the whole log after a lag: the table and the list are empty, the count is added, and a line says how many events were dropped |
| HumanLog.Handler.Finish | src/logging.rs:683-696 | the whole log after a completion: a request in the table leaves it with its line and a redrawn zone; any other changes nothing |
| HumanLog.Handler.Handle | src/logging.rs:545-698 | the whole log after each kind of event, and that only a shutdown stops |
| HumanLog.RunHumanHandler | src/logging.rs:515-709 | a whole run handles the events before the first shutdown; the terminal has the permanent lines of the fold over them with its closing summaries, the ids in flight are those of the fold, and no other row is left exactly when the fold stayed tidy |
| HumanLog.InFlightIff | src/logging.rs:640-696 | in every run a request is in flight exactly when the limiter let it through and neither its completion nor a lag has come since; the table and the list agree |
| HumanLog.Balances | src/logging.rs:515-698 | in every run with unique ids: requests let through = completed + in flight + cleared by lags, refused ones = reported + pending, and the lag notices add up |
| HumanLog.ClosesBalanced | src/logging.rs:700-708 | after the closing summaries: requests received = reported as skipped + completed + in flight + cleared by lags, and the last line is the total of lags if there were any |
| HumanLog.ShownAreLimited | src/logging.rs:522-523 | in any window of time of any run at most 40 requests are shown, and 20 more for each second |
| HumanLog.ZoneIsCurrent | src/logging.rs:466-481 | a drawn zone always shows the requests in flight as they are |
| HumanLines.EntryIsLatest | src/logging.rs:640-681 | in every run, a request in flight is held as it arrived, with the status and the latency of its last answer |
| HumanLines.LastEventShows | src/logging.rs:545-698 | in every run, what each event does to the log: its own permanent lines and no others, with the request and last answer of what it completes and the number of requests refused since one was shown, and the zone redrawn, gone or left as it was |
| HumanLog.TidyIff | src/logging.rs:447-456 | a run leaves no zone row behind exactly when the zone never had 65536 rows or more |
| HumanLog.StuckIsTidyIff | src/logging.rs:447-456 | a run of that many requests, one a second and none completed, leaves rows behind exactly from 65535 on |
| HumanLog.RowsAreLeft | src/logging.rs:447-456 | there is a run with unique ids and rising times that leaves rows behind |
| HumanLog.ZoneSize | src/logging.rs:466-481 | a drawn zone has the header and one row for each request in flight |
| GameBoard.FirstPhase | examples/2048/static/game-board.js:271-341 | whatever was shown, after the first phase kept tiles are in place and only tiles and ghosts are shown; faithful exactly when no mounted tile is flagged as spawned elsewhere |
| GameBoard.LastPhase | examples/2048/static/game-board.js:370-382 | once the ghosts have left, the spawns complete the snapshot |
| GameBoard.Board.Apply | examples/2048/static/game-board.js:262-345 | the whole state after taking on a snapshot, which supersedes what is under way and is kept together with what it found mounted; what it waits for is stated by `Phases.ApplyAwaits`; tiles that stay keep their elements; the invariant holds |
| Phases.ApplyAwaits | examples/2048/static/game-board.js:271-345 | after a snapshot is taken on, if a ghost was mounted or a kept tile was mounted at another cell: the newest apply is suspended on exactly one running animation for each of them, from its former cell, and no tile to be spawned is mounted; else it waits for the merged tiles to pop, and without any for the spawned tiles |
| Phases.ResumeAwaits | examples/2048/static/game-board.js:343-390 | an apply that goes on waits for one animation of each mounted merged tile, or else mounts every missing spawned tile where it belongs and waits for one animation of each; a superseded one does nothing |
| Phases.NothingMountsYet | examples/2048/static/game-board.js:343-390 | as long as an animation still runs that the newest apply waits for and no snapshot is taken on, nothing is mounted, moved or restyled, whatever else happens |
| Phases.BoardIsNumbered | examples/2048/static/game-board.js:343-390 | the invariant of the component is what these statements rely on |
| GameBoard.Board.Finish | examples/2048/static/game-board.js:304-309 | the whole state after an animation has run out: it removes exactly its ghost's tile, and only if that entry is still mounted; the invariant holds |
| GameBoard.Board.Resume | examples/2048/static/game-board.js:343-390 | the whole state after a suspended apply goes on, which it does only if it was not superseded; a superseded one changes nothing; the newest reaches a later phase |
| GameBoard.Board.Settle | examples/2048/static/game-board.js:262-395 | when its animations run out, the newest apply runs all its phases |
| GameBoard.Board.AttributeChanged | examples/2048/static/game-board.js:167-185 | a value already applied, or one that does not parse, changes nothing; any other is applied, whatever its ids; the whole state is that of the specification |
| Phases.StrippedAndRestored | examples/2048/static/game-board.js:167-185 | an attribute taken away and put back leaves everything that is under way as it was, and so do one set to what was applied last and one that does not parse |
| Phases.NewTextIsApplied | examples/2048/static/game-board.js:167-185 | any other text that parses is taken on |
| GameBoard.Board.Do | examples/2048/static/game-board.js:167-390 | each step that can be taken leads to the state of the specification and keeps the invariant, and the snapshot is always that of the last applied attribute |
| GameBoard.Board.Interleave | examples/2048/static/game-board.js:167-395 | after any interleaving of attribute changes, finished animations and resumed applies, and once the newest apply has run out, the board shows the snapshot of the last attribute that counts: its tiles one to one, at its cells and values exactly when no tile mounted at that moment was flagged as spawned elsewhere; from an empty board that is so whenever its spawned tiles have ids that no earlier applied snapshot uses |
| GameBoard.FoundAtLastApply | examples/2048/static/game-board.js:262-345 | what the newest apply found is what the fold over the steps has mounted when the last attribute was applied |
| GameBoard.FreshSpawnsAreNew | examples/2048/static/game-board.js:370-382 | from an empty board, spawned tiles with ids that no earlier applied snapshot uses are never mounted before, for every run |
| GameBoard.ReflaggedSpawn | examples/2048/static/game-board.js:370-382 | two snapshots, the second flagging the first one's tile as spawned at the next cell: it counts as mounted elsewhere |
| GameBoard.SettledShowsSnapshot | examples/2048/static/game-board.js:262-395 | once the newest apply has settled, for a snapshot whose ids are distinct: exactly the snapshot's tile ids, one element each and no other, and the snapshot's cells and values exactly when no tile that the apply found was flagged as spawned elsewhere |

## Left out

- Comments: their text is never synced by the morph, so views only count their presence.
- Duplicate ids among old siblings: the keyed pass skips a node whose id was met twice and leaves it behind; unique ids are required of the old tree.
- Elements that opt out of morphing: `Morph.Morph` covers them, `Morph.MorphTree` excludes them.
- Focus, selection, caret and scroll restoration, and custom elements.
- Signals.Store.SetAndNotify: values are immutable here, so two signals that share an object are not modelled; handlers are recorded as calls, and those that write are in `Chains`.
- Chains.Live.SetNDeep: how many writes a handler makes is settled at its call, each of them made up from the store as it then stands; handlers neither subscribe nor unsubscribe.
- JavaScript objects keep properties in insertion order here; integer-like keys first, `__proto__`, non-index keys on arrays, and inherited members of numbers, strings and functions are not modelled.
- Signals.ReadBack: arrays on the path are met with an index, or cut by their `length`; making one longer by its `length`, which leaves holes, and other names on arrays are not modelled. So in the other lemmas about path writes.
- Signals.PutAfterVivify: the same arrays.
- Signals.PathWriteIsExact: the same arrays.
- Signals.DivergingReadsIff: the same arrays, and paths without names that objects inherit, such as `toString`.
- Signals.PathWriteWakesLikeWholeWrite: of the same arrays and of paths without names that objects inherit, whose changes the comparison can miss (`Compare.HiddenKeyUnnoticed`).
- Signals.DeeperWakesIffHadValue: of written values without anything at the full path; `Signals.DeeperIsDecidedAsWhole` covers the others.
- MergePatch.ApplyPatchSigs: JSON parsing is a parameter; handlers do not write the store, so the depth counter only rises by refusals.
- UTF-8 decoding and the fetch around the event stream; `patch-elements` itself (selection of targets); retry and id fields are ignored by the parser as in the source.
- Sse.EventToString: a data value that is no string comes as its JSON text; the conversion of Nushell values is not modelled.
- Sse.FieldsInAnyOrder: of events that are at no point named `dm-element`, under which data lines are gathered as one text.
- Compression.Encoder.CompressStream: the encoder stands for any that meets the contract; the format of brotli is not modelled, and how the real encoder reads the offset is left open in both readings. After a failure of the encoder nothing is claimed.
- HotSwap: a poll already under way when the token is cancelled may still answer as if it were not; one updater task; each engine has a token of its own.
- Bus.Forwarder.Receive: the ring is the contract of the broadcast channel, not its lock-free implementation; the hand-over from the forwarding thread to the consumer is a queue that loses nothing.
- TokenBucket.TokenBucket.TryConsume: real arithmetic, not floating point; the clock never goes back.
- HumanLog.RunHumanHandler: a terminal with one row for each line and no top edge; the wording, timestamps and truncation of lines are left out; the clock never goes back.
- HumanLog.Balances: of runs in which no request id comes twice, as the server makes them.
- GameBoard.SettledShowsSnapshot: a snapshot's tile ids are unique, its ghost ids are unique, and no id is both; of other snapshots only the mirror of elements and the order of applies are claimed.
- Phases.ApplyAwaits: of snapshots whose tile and ghost ids are distinct, as for `GameBoard.SettledShowsSnapshot`; so in the other lemmas about phases.
- GameBoard.Board.Apply: an animation's finish event and its promise are one step; badges, the win counter and the highest-value mark are left out.
- AttrKey.Parse: the error messages and the `sp` definitions attached to items are left out; names go through the pure camel form, which `Names` shows the cache to equal.
- Handler wiring, expression compilation, throttling and animation-frame modifiers, fetch actions, mutation observers.
- The Datastar bundle, Nushell evaluation, listeners, TLS, static files, the reverse proxy, templates and highlighting.
- Truncation of long paths, content-type inference, trusted-proxy resolution and the JSON log: they would only add easy members.
