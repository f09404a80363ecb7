# OpenMW dialogue record view and actor skeleton helpers, in Dafny

This project models two small pieces of OpenMW's engine code and proves properties of them.

1. **The filtered dialogue store** exposed to Lua scripts (`apps/openmw/mwlua/dialoguebindings.cpp`).
   The game's dialogue store is an ordered sequence of ESM3 dialogue records. Each record has an id,
   a type (topic, voice, greeting, persuasion, journal) and a list of infos (responses).
   `FilteredDialogueStore<filter>` presents only the records of one type. It has:
   - a forward iterator that skips records of other types and never passes the end;
   - a count of the matching records;
   - positional access;
   - a lookup by id that rejects records of the wrong type.

   On top of that, scripts index the store and a dialogue's info list from 1. They read a
   dialogue's quest name and an info's properties. Each property is absent under a fixed guard
   rule: absent for journal infos, absent when the field is empty, absent when it is -1.
2. **Actor skeleton helpers** (`apps/openmw/mwrender/actorutil.cpp`):
   - the choice of skeleton model from an actor's view (first or third person) and traits
     (female, beast, werewolf);
   - the test for a default skeleton;
   - inserting a suffix before a file name's extension.

Modules:
- `Optional` holds `Option`, which stands for both a null record pointer and an empty `sol::optional`.
- `Esm` holds the records.
- `DialogueStore` holds the view, the iterator and the store.
- `DialogueBindings` holds what scripts see.
- `ActorUtil` holds the skeleton helpers.

The store is a `seq<Dialogue>`. An iterator position is an index into it, and the end iterator is
the index `|store|`.

The view is specified by the value `Filtered(store, filter)`: the matching records in store order.
The imperative parts keep the source's form:
- `++`, `+=` and `begin()` are methods of two classes. They keep the source's loops and are proved
  against the functions `Next`, `Advance` and `BeginPosition`.
- `at()` is a method proved to return element `index` of `Filtered`.

`FilteredDialogueIterator.Equals` is `operator==`. It compares positions only, as the source does.
`FilteredDialogueIterator.Current` is `operator*`. It requires a position before the end, because
dereferencing the end iterator is undefined in the source.

`questName` is a loop with an early return. It becomes a method whose contract states "the first
info whose status is QS_Name".

`addSuffixBeforeExtension` searches for the last `'.'` anywhere in the string, including directory
parts, as the code does. `InsertionPoint` names that position, or the end when there is no `'.'`.

## Model

| member | source | states |
|---|---|---|
| `DialogueStore.Filtered` | apps/openmw/mwlua/dialoguebindings.cpp:114-118 | the view (the matching records in store order) is no longer than the store |
| `DialogueStore.FilteredMembership` | apps/openmw/mwlua/dialoguebindings.cpp:114-118 | a record is in the view iff it is in the store and its type is the filter |
| `DialogueStore.FilteredAppend` | apps/openmw/mwlua/dialoguebindings.cpp:114-118 | filtering a concatenation is concatenating the filtered parts: the view keeps store order |
| `DialogueStore.FilteredAt` | apps/openmw/mwlua/dialoguebindings.cpp:101-112 | a matching record at store position p is the view's element number (matches before p) |
| `DialogueStore.CountIf` | apps/openmw/mwlua/dialoguebindings.cpp:116-117 | `count_if` of the type predicate, front to back: at most the store's size, and zero exactly when no record has the filtered type |
| `DialogueStore.CountIfIsFilteredLength` | apps/openmw/mwlua/dialoguebindings.cpp:116-117 | `count_if` of the type predicate, front to back, equals the length of the view |
| `DialogueStore.FirstMatchFrom` | apps/openmw/mwlua/dialoguebindings.cpp:61-64 | the result is the first position in [i, e) with a record of the filter, or e, and no earlier position in [i, r) matches |
| `DialogueStore.FirstMatchUnique` | apps/openmw/mwlua/dialoguebindings.cpp:61-64 | any position with those properties is that first match |
| `DialogueStore.Next` | apps/openmw/mwlua/dialoguebindings.cpp:54-66 | `++` stays at the end when at the end; otherwise it moves strictly forward to the next matching record or to the end, skipping only non-matching records |
| `DialogueStore.Advance` | apps/openmw/mwlua/dialoguebindings.cpp:75-83 | `+= n` never passes the end, stays at the end once there, and leaves the iterator unchanged for n <= 0 |
| `DialogueStore.AdvanceAdditive` | apps/openmw/mwlua/dialoguebindings.cpp:75-83 | advancing by m and then by n is advancing by m + n |
| `DialogueStore.BeginPosition` | apps/openmw/mwlua/dialoguebindings.cpp:120-128 | begin() is at the first record of the filter (no earlier record matches), or at the end exactly when the view is empty |
| `DialogueStore.AlignedRank` | apps/openmw/mwlua/dialoguebindings.cpp:106-111 | a position at a matching record or the end is the end iff all matching records lie before it |
| `DialogueStore.AdvanceRank` | apps/openmw/mwlua/dialoguebindings.cpp:75-83 | from a matching position of rank c, k steps reach the matching record of rank c + k, or the end exactly when there is no such record |
| `DialogueStore.AdvanceFromBegin` | apps/openmw/mwlua/dialoguebindings.cpp:101-112 | begin() advanced by k is before the end iff k < size, and there it holds element k of the view |
| `DialogueStore.StoreSearch` | apps/openmw/mwlua/dialoguebindings.cpp:98 | the underlying store lookup finds a record of the store with the id iff one exists |
| `DialogueStore.FilteredDialogueIterator.constructor` | apps/openmw/mwlua/dialoguebindings.cpp:48-52 | the iterator holds the given position and end |
| `DialogueStore.FilteredDialogueIterator.Equals` | apps/openmw/mwlua/dialoguebindings.cpp:85 | true iff the two positions are equal; the end positions are not compared |
| `DialogueStore.FilteredDialogueIterator.Current` | apps/openmw/mwlua/dialoguebindings.cpp:89-91 | the record of the store at the position, defined only before the end |
| `DialogueStore.FilteredDialogueIterator.Increment` | apps/openmw/mwlua/dialoguebindings.cpp:54-66 | the do-while loop leaves the iterator at `Next` of its old position; the end is unchanged |
| `DialogueStore.FilteredDialogueIterator.PostIncrement` | apps/openmw/mwlua/dialoguebindings.cpp:68-73 | returns a fresh copy at the old position and advances this iterator to `Next` |
| `DialogueStore.FilteredDialogueIterator.AdvanceBy` | apps/openmw/mwlua/dialoguebindings.cpp:75-83 | the counting loop leaves the iterator at `Advance` of its old position |
| `DialogueStore.FilteredDialogueStore.constructor` | apps/openmw/mwlua/dialoguebindings.cpp:30-33 | the view is over the given store, whose ids are unique |
| `DialogueStore.FilteredDialogueStore.FoundDialogueFilteredOut` | apps/openmw/mwlua/dialoguebindings.cpp:20-27 | a found record passes iff it exists and its type is the filter, and then unchanged |
| `DialogueStore.FilteredDialogueStore.Search` | apps/openmw/mwlua/dialoguebindings.cpp:96-99 | a record is found iff the store has a record with that id and the filtered type, and it is that record |
| `DialogueStore.FilteredDialogueStore.GetSize` | apps/openmw/mwlua/dialoguebindings.cpp:114-118 | the size is the number of elements of the view, at most the store's size |
| `DialogueStore.FilteredDialogueStore.End` | apps/openmw/mwlua/dialoguebindings.cpp:130 | a fresh iterator at the end of the store |
| `DialogueStore.FilteredDialogueStore.Begin` | apps/openmw/mwlua/dialoguebindings.cpp:120-128 | the skipping loop returns an iterator at the first matching record, or at the end |
| `DialogueStore.FilteredDialogueStore.At` | apps/openmw/mwlua/dialoguebindings.cpp:101-112 | returns element `index` of the view when index < size, and nothing otherwise |
| `DialogueBindings.IndexStore` | apps/openmw/mwlua/dialoguebindings.cpp:146-152 | script index 0 gives nothing, index k in 1..size gives view element k - 1, a larger index gives nothing |
| `DialogueBindings.IndexInfos` | apps/openmw/mwlua/dialoguebindings.cpp:206-215 | an info is returned iff 1 <= index <= #infos, and it is the info at position index - 1 |
| `DialogueBindings.IndexInfosEnumerates` | apps/openmw/mwlua/dialoguebindings.cpp:206-215 | indices 1..#infos give the infos in order; 0 and #infos + 1 give nothing |
| `DialogueBindings.QuestName` | apps/openmw/mwlua/dialoguebindings.cpp:177-190 | no quest name unless the dialogue is a journal; for a journal, the response of the first info with status QS_Name, none if there is none |
| `DialogueBindings.QuestStage` | apps/openmw/mwlua/dialoguebindings.cpp:230-237 | the journal index, present iff the info is a journal info |
| `DialogueBindings.QuestFlag` | apps/openmw/mwlua/dialoguebindings.cpp:238-261 | a flag present iff the info is a journal info, true iff the info has the given quest status |
| `DialogueBindings.IsQuestFinished` | apps/openmw/mwlua/dialoguebindings.cpp:238-245 | present iff journal info, true iff the status is QS_Finished |
| `DialogueBindings.IsQuestRestart` | apps/openmw/mwlua/dialoguebindings.cpp:246-253 | present iff journal info, true iff the status is QS_Restart |
| `DialogueBindings.IsQuestName` | apps/openmw/mwlua/dialoguebindings.cpp:254-261 | present iff journal info, true iff the status is QS_Name |
| `DialogueBindings.QuestFlagsExclusive` | apps/openmw/mwlua/dialoguebindings.cpp:238-261 | for a journal info at most one of the three quest flags is true |
| `DialogueBindings.FilterId` | apps/openmw/mwlua/dialoguebindings.cpp:262-269 | an id filter is absent iff the info is a journal info or the id is empty, else the serialized id |
| `DialogueBindings.FilterNumber` | apps/openmw/mwlua/dialoguebindings.cpp:298-305 | a number filter is absent iff the info is a journal info or the number is -1, else the number |
| `DialogueBindings.FilterActorId` | apps/openmw/mwlua/dialoguebindings.cpp:262-269 | absent iff journal info or empty actor, else the serialized actor id |
| `DialogueBindings.FilterActorRace` | apps/openmw/mwlua/dialoguebindings.cpp:270-277 | absent iff journal info or empty race, else the serialized race |
| `DialogueBindings.FilterActorClass` | apps/openmw/mwlua/dialoguebindings.cpp:278-285 | absent iff journal info or empty class, else the serialized class |
| `DialogueBindings.FilterActorFaction` | apps/openmw/mwlua/dialoguebindings.cpp:286-297 | absent iff journal info or empty faction; the empty string for a factionless info; else the serialized faction |
| `DialogueBindings.FilterActorFactionRank` | apps/openmw/mwlua/dialoguebindings.cpp:298-305 | absent iff journal info or rank -1, else the rank |
| `DialogueBindings.FilterActorCell` | apps/openmw/mwlua/dialoguebindings.cpp:306-313 | absent iff journal info or empty cell, else the serialized cell |
| `DialogueBindings.FilterActorDisposition` | apps/openmw/mwlua/dialoguebindings.cpp:314-321 | absent iff journal info, else the disposition, whatever its value |
| `DialogueBindings.FilterActorGender` | apps/openmw/mwlua/dialoguebindings.cpp:322-329 | absent iff journal info or gender -1, else the gender |
| `DialogueBindings.FilterPlayerFaction` | apps/openmw/mwlua/dialoguebindings.cpp:330-337 | absent iff journal info or empty player faction, else the serialized faction |
| `DialogueBindings.FilterPlayerFactionRank` | apps/openmw/mwlua/dialoguebindings.cpp:338-345 | absent iff journal info or player rank -1, else the rank |
| `DialogueBindings.Sound` | apps/openmw/mwlua/dialoguebindings.cpp:346-353 | absent iff journal info or empty sound, else the corrected sound path |
| `DialogueBindings.ResultScript` | apps/openmw/mwlua/dialoguebindings.cpp:354-361 | absent iff the script is empty, for journal infos too, else the script |
| `DialogueBindings.JournalInfoHasOnlyQuestProperties` | apps/openmw/mwlua/dialoguebindings.cpp:230-353 | a journal info has no filter and no sound, and has all four quest properties |
| `DialogueBindings.NonJournalInfoHasNoQuestProperties` | apps/openmw/mwlua/dialoguebindings.cpp:230-321 | a non-journal info has no quest properties and always has a disposition |
| `DialogueBindings.FactionlessReportsEmptyFaction` | apps/openmw/mwlua/dialoguebindings.cpp:286-297 | a non-journal factionless info with a faction reports "" whatever the faction |
| `ActorUtil.GetActorSkeleton` | apps/openmw/mwrender/actorutil.cpp:8-32 | the first-person view gives one of the four `…1st` settings; the third-person view gives one of the four third-person settings |
| `ActorUtil.Dominant` | apps/openmw/mwrender/actorutil.cpp:12-19 | reference definition of precedence: the skeleton of the first held trait in the order, or the default exactly when no trait is held |
| `ActorUtil.SkeletonByPrecedence` | apps/openmw/mwrender/actorutil.cpp:8-32 | getActorSkeleton is the setting, for the view, of the held trait of highest precedence (werewolf, beast, female), or the default |
| `ActorUtil.WerewolfBeatsAll` | apps/openmw/mwrender/actorutil.cpp:12-13 | a werewolf gets the wolf skin of its view whatever its other traits |
| `ActorUtil.FemaleIgnoredForBeastOrWerewolf` | apps/openmw/mwrender/actorutil.cpp:8-32 | being female changes nothing for a beast or a werewolf |
| `ActorUtil.BeastIgnoredForWerewolf` | apps/openmw/mwrender/actorutil.cpp:8-32 | being a beast changes nothing for a werewolf |
| `ActorUtil.ViewSelectsItsSettings` | apps/openmw/mwrender/actorutil.cpp:10-31 | the result for a view depends only on that view's four settings |
| `ActorUtil.IsDefaultActorSkeleton` | apps/openmw/mwrender/actorutil.cpp:34-39 | true iff the model is path-equal to one of the beast, female or base third-person skeletons |
| `ActorUtil.DefaultSkeletonReadsThreeSettings` | apps/openmw/mwrender/actorutil.cpp:34-39 | settings that agree on those three skeletons give the same answer |
| `ActorUtil.ThirdPersonNonWerewolfIsDefault` | apps/openmw/mwrender/actorutil.cpp:10-39 | with a reflexive path comparison, the third-person skeleton of any non-werewolf is a default skeleton |
| `ActorUtil.RFind` | apps/openmw/mwrender/actorutil.cpp:43 | `rfind('.')` finds nothing iff there is no '.', else a '.' with no '.' after it |
| `ActorUtil.InsertionPoint` | apps/openmw/mwrender/actorutil.cpp:43-47 | the position of the last '.', or the length when there is none |
| `ActorUtil.AddSuffixBeforeExtension` | apps/openmw/mwrender/actorutil.cpp:41-51 | without a '.', the file name followed by the suffix; the result's length is the sum of the two lengths |
| `ActorUtil.SuffixBeforeLastDot` | apps/openmw/mwrender/actorutil.cpp:49-50 | with a last '.' at p, anywhere in the path, the result is filename[..p] + suffix + filename[p..] |
| `ActorUtil.RemovingSuffixRestoresFilename` | apps/openmw/mwrender/actorutil.cpp:41-51 | the suffix sits at the insertion point, the text before it is unchanged, and removing it gives back the file name |
| `ActorUtil.EmptySuffixIsIdentity` | apps/openmw/mwrender/actorutil.cpp:41-51 | an empty suffix returns the file name unchanged |
| `ActorUtil.ExtensionEndsResult` | apps/openmw/mwrender/actorutil.cpp:49-50 | the text from the last '.' onward ends the result |
| `ActorUtil.SuffixKeepsExtension` | apps/openmw/mwrender/actorutil.cpp:41-51 | for a suffix without '.', the result's last '.' is the original one shifted by the suffix, so the extension is unchanged |

## Left out

- Lua registration is left out, because it is scripting glue. This covers the user types, the `tostring`, `#`, `pairs` and `ipairs` meta functions, `makeReadOnly`/`makeStrictReadOnly` and `initCoreDialogueBindings`. `#store` is `GetSize` and `#infos` is `|infos|`.
- The global store singleton (`MWBase::Environment::get().getESMStore()`) is left out. The dialogue store is passed to the `FilteredDialogueStore` constructor as a sequence instead.
- `MWWorld::Store<ESM::Dialogue>` is not part of this model. Its iteration is store order over the sequence. Its `search` is `StoreSearch`, which finds the record with the id. Its ids are taken to be unique, because it keys records by id.
- `components/esm3/loaddial.hpp` and `loaddinf.hpp` are not part of this model. The enums use the names the bindings use. `mDisposition` and `mJournalIndex` are two independent fields.
- `ESM::RefId` is an abstract id that may be empty. `serializeText` is a function parameter of the id properties.
- The string-keyed store index is left out, because its only extra step is `deserializeText`. After that step it is `Search`.
- The `name` and `text` properties read a field directly (`stringId`, `response`). `id` is `serializeText` of the `id` field. `infos` wraps the record so that its info list `infos` can be indexed (`IndexInfos`). None of these four has a member of its own.
- `MWLua` conversion of a script number to `size_t` is left out. Indices are modelled as `nat`.
- Integer widths are not modelled. Indices and sizes are unbounded, not `size_t`. The rank and gender fields are `int`, not `signed char`. The comparisons with -1 are unaffected.
- DialogueStore.FilteredDialogueStore.At: the conversion of the `size_t` index to the signed `difference_type` of `+=` is not modelled. In the source an index above PTRDIFF_MAX turns negative, `+=` does nothing, and `at` returns begin()'s record (or null for an empty view) instead of null; the model returns nothing for every index at or above the size.
- The sound path correction (`correctSoundPath`, `VFS::Path::Normalized`) is a function parameter of `Sound`.
- `Settings::models()` is an abstract record of the eight model paths passed as a parameter. `VFS::Path::pathEqual` is an abstract predicate passed as a parameter.
- The debug strings (`toDebugString`) and the `"{N … records}"` formatting are left out, because they are presentation only.
- `FilteredDialogueIterator`'s standard iterator typedefs are left out, because they carry no behaviour.
