/**
 * What the scripting layer sees of the dialogue records: 1-based indexing of a filtered
 * store and of a dialogue's info list, a dialogue's quest name, and the read-only
 * properties of an info, each of which is absent under fixed guard rules.
 *
 * RefId::serializeText and the sound path correction are outside this model; they are
 * passed in as functions.
 */
module DialogueBindings {

  import opened Optional
  import opened Esm
  import opened DialogueStore

  // ---------------------------------------------------------------------------------------
  // Indexing

  /** store[index] from a script: 1-based, so 0 gives nothing and index k is at(k - 1). */
  method IndexStore(store: FilteredDialogueStore, index: nat) returns (r: Option<Dialogue>)
    ensures index == 0 ==> r == None
    ensures 1 <= index <= store.GetSize() ==> r == Some(Filtered(store.records, store.filter)[index - 1])
    ensures index > store.GetSize() ==> r == None
  {
    if index == 0 {
      return None;
    }
    r := store.At(index - 1);
  }

  /** dialogue.infos[index] from a script: 1-based, nothing for 0 or past the last info. */
  function IndexInfos(rec: Dialogue, index: nat): (r: Option<DialInfo>)
    ensures r.Some? <==> 1 <= index <= |rec.infos|
    ensures r.Some? ==> r.value == rec.infos[index - 1]
  {
    if index == 0 || index > |rec.infos| then None else Some(rec.infos[index - 1])
  }

  /** Indexing 1 .. #infos enumerates the info list in order, and nothing else is found. */
  lemma IndexInfosEnumerates(rec: Dialogue)
    ensures forall k :: 0 <= k < |rec.infos| ==> IndexInfos(rec, k + 1) == Some(rec.infos[k])
    ensures IndexInfos(rec, 0) == None && IndexInfos(rec, |rec.infos| + 1) == None
  {
  }

  // ---------------------------------------------------------------------------------------
  // Dialogue properties

  /**
   * questName: absent unless the dialogue is a journal; for a journal, the text of its first
   * info whose status is QS_Name, or absent when it has none.
   */
  method QuestName(rec: Dialogue) returns (r: Option<string>)
    ensures rec.dialType != Journal ==> r == None
    ensures rec.dialType == Journal ==>
              (r.Some? <==> exists i :: 0 <= i < |rec.infos| && rec.infos[i].questStatus == QS_Name)
    ensures r.Some? ==>
              exists i :: 0 <= i < |rec.infos| && rec.infos[i].questStatus == QS_Name
                          && r.value == rec.infos[i].response
                          && forall j :: 0 <= j < i ==> rec.infos[j].questStatus != QS_Name
  {
    if rec.dialType != Journal {
      return None;
    }
    for i := 0 to |rec.infos|
      invariant forall j :: 0 <= j < i ==> rec.infos[j].questStatus != QS_Name
    {
      if rec.infos[i].questStatus == QS_Name {
        return Some(rec.infos[i].response);
      }
    }
    return None;
  }

  // ---------------------------------------------------------------------------------------
  // Info properties

  /** questStage: the journal index, for journal infos only. */
  function QuestStage(info: DialInfo): (r: Option<int>)
    ensures r.Some? <==> info.data.dialType == Journal
    ensures r.Some? ==> r.value == info.data.journalIndex
  {
    if info.data.dialType != Journal then None else Some(info.data.journalIndex)
  }

  /** A journal-only flag saying whether the info has the given quest status. */
  function QuestFlag(info: DialInfo, status: QuestStatus): (r: Option<bool>)
    ensures r.Some? <==> info.data.dialType == Journal
    ensures r.Some? ==> (r.value <==> info.questStatus == status)
  {
    if info.data.dialType != Journal then None else Some(info.questStatus == status)
  }

  /** isQuestFinished */
  function IsQuestFinished(info: DialInfo): (r: Option<bool>)
    ensures r.Some? <==> info.data.dialType == Journal
    ensures r.Some? ==> (r.value <==> info.questStatus == QS_Finished)
  {
    QuestFlag(info, QS_Finished)
  }

  /** isQuestRestart */
  function IsQuestRestart(info: DialInfo): (r: Option<bool>)
    ensures r.Some? <==> info.data.dialType == Journal
    ensures r.Some? ==> (r.value <==> info.questStatus == QS_Restart)
  {
    QuestFlag(info, QS_Restart)
  }

  /** isQuestName */
  function IsQuestName(info: DialInfo): (r: Option<bool>)
    ensures r.Some? <==> info.data.dialType == Journal
    ensures r.Some? ==> (r.value <==> info.questStatus == QS_Name)
  {
    QuestFlag(info, QS_Name)
  }

  /** For a journal info at most one of the three quest flags is set. */
  lemma QuestFlagsExclusive(info: DialInfo)
    requires info.data.dialType == Journal
    ensures !(IsQuestFinished(info).value && IsQuestRestart(info).value)
    ensures !(IsQuestFinished(info).value && IsQuestName(info).value)
    ensures !(IsQuestRestart(info).value && IsQuestName(info).value)
  {
  }

  /** A filter id of a non-journal info, serialized, absent when the id is empty. */
  function FilterId(info: DialInfo, id: RefId, serialize: RefId -> string): (r: Option<string>)
    ensures r.None? <==> info.data.dialType == Journal || id.Empty()
    ensures r.Some? ==> r.value == serialize(id)
  {
    if info.data.dialType == Journal || id.Empty() then None else Some(serialize(id))
  }

  /** A filter number of a non-journal info, absent when it is -1 ("no condition"). */
  function FilterNumber(info: DialInfo, n: int): (r: Option<int>)
    ensures r.None? <==> info.data.dialType == Journal || n == -1
    ensures r.Some? ==> r.value == n
  {
    if info.data.dialType == Journal || n == -1 then None else Some(n)
  }

  /** filterActorId */
  function FilterActorId(info: DialInfo, serialize: RefId -> string): (r: Option<string>)
    ensures r.None? <==> info.data.dialType == Journal || info.actor.Empty()
    ensures r.Some? ==> r.value == serialize(info.actor)
  {
    FilterId(info, info.actor, serialize)
  }

  /** filterActorRace */
  function FilterActorRace(info: DialInfo, serialize: RefId -> string): (r: Option<string>)
    ensures r.None? <==> info.data.dialType == Journal || info.race.Empty()
    ensures r.Some? ==> r.value == serialize(info.race)
  {
    FilterId(info, info.race, serialize)
  }

  /** filterActorClass */
  function FilterActorClass(info: DialInfo, serialize: RefId -> string): (r: Option<string>)
    ensures r.None? <==> info.data.dialType == Journal || info.actorClass.Empty()
    ensures r.Some? ==> r.value == serialize(info.actorClass)
  {
    FilterId(info, info.actorClass, serialize)
  }

  /**
   * filterActorFaction: absent for journal infos and an empty faction; the empty string when
   * the info is for factionless actors; the serialized faction otherwise.
   */
  function FilterActorFaction(info: DialInfo, serialize: RefId -> string): (r: Option<string>)
    ensures r.None? <==> info.data.dialType == Journal || info.faction.Empty()
    ensures r.Some? && info.factionLess ==> r.value == ""
    ensures r.Some? && !info.factionLess ==> r.value == serialize(info.faction)
  {
    if info.data.dialType == Journal || info.faction.Empty() then None
    else if info.factionLess then Some("")
    else Some(serialize(info.faction))
  }

  /** filterActorFactionRank */
  function FilterActorFactionRank(info: DialInfo): (r: Option<int>)
    ensures r.None? <==> info.data.dialType == Journal || info.data.rank == -1
    ensures r.Some? ==> r.value == info.data.rank
  {
    FilterNumber(info, info.data.rank)
  }

  /** filterActorCell */
  function FilterActorCell(info: DialInfo, serialize: RefId -> string): (r: Option<string>)
    ensures r.None? <==> info.data.dialType == Journal || info.cell.Empty()
    ensures r.Some? ==> r.value == serialize(info.cell)
  {
    FilterId(info, info.cell, serialize)
  }

  /** filterActorDisposition: present for every non-journal info, whatever its value. */
  function FilterActorDisposition(info: DialInfo): (r: Option<int>)
    ensures r.None? <==> info.data.dialType == Journal
    ensures r.Some? ==> r.value == info.data.disposition
  {
    if info.data.dialType == Journal then None else Some(info.data.disposition)
  }

  /** filterActorGender */
  function FilterActorGender(info: DialInfo): (r: Option<int>)
    ensures r.None? <==> info.data.dialType == Journal || info.data.gender == -1
    ensures r.Some? ==> r.value == info.data.gender
  {
    FilterNumber(info, info.data.gender)
  }

  /** filterPlayerFaction */
  function FilterPlayerFaction(info: DialInfo, serialize: RefId -> string): (r: Option<string>)
    ensures r.None? <==> info.data.dialType == Journal || info.pcFaction.Empty()
    ensures r.Some? ==> r.value == serialize(info.pcFaction)
  {
    FilterId(info, info.pcFaction, serialize)
  }

  /** filterPlayerFactionRank */
  function FilterPlayerFactionRank(info: DialInfo): (r: Option<int>)
    ensures r.None? <==> info.data.dialType == Journal || info.data.pcRank == -1
    ensures r.Some? ==> r.value == info.data.pcRank
  {
    FilterNumber(info, info.data.pcRank)
  }

  /** sound: the corrected sound path of a non-journal info with a sound. */
  function Sound(info: DialInfo, correctSoundPath: string -> string): (r: Option<string>)
    ensures r.None? <==> info.data.dialType == Journal || info.sound == []
    ensures r.Some? ==> r.value == correctSoundPath(info.sound)
  {
    if info.data.dialType == Journal || info.sound == [] then None else Some(correctSoundPath(info.sound))
  }

  /** resultScript: the script text when there is one, for journal infos as well. */
  function ResultScript(info: DialInfo): (r: Option<string>)
    ensures r.None? <==> info.resultScript == []
    ensures r.Some? ==> r.value == info.resultScript
  {
    if info.resultScript == [] then None else Some(info.resultScript)
  }

  /**
   * A journal info has no filter properties and no sound, but has its quest properties:
   * journal entries are not selected by conditions.
   */
  lemma JournalInfoHasOnlyQuestProperties(info: DialInfo, serialize: RefId -> string, correctSoundPath: string -> string)
    requires info.data.dialType == Journal
    ensures FilterActorId(info, serialize) == None && FilterActorRace(info, serialize) == None
    ensures FilterActorClass(info, serialize) == None && FilterActorFaction(info, serialize) == None
    ensures FilterActorFactionRank(info) == None && FilterActorCell(info, serialize) == None
    ensures FilterActorDisposition(info) == None && FilterActorGender(info) == None
    ensures FilterPlayerFaction(info, serialize) == None && FilterPlayerFactionRank(info) == None
    ensures Sound(info, correctSoundPath) == None
    ensures QuestStage(info).Some? && IsQuestFinished(info).Some?
    ensures IsQuestRestart(info).Some? && IsQuestName(info).Some?
  {
  }

  /**
   * A non-journal info has no quest properties, and always has a disposition filter.
   */
  lemma NonJournalInfoHasNoQuestProperties(info: DialInfo)
    requires info.data.dialType != Journal
    ensures QuestStage(info) == None && IsQuestFinished(info) == None
    ensures IsQuestRestart(info) == None && IsQuestName(info) == None
    ensures FilterActorDisposition(info) == Some(info.data.disposition)
  {
  }

  /**
   * A factionless info with a faction set reports the empty string as its faction filter,
   * whatever the faction and however ids are serialized.
   */
  lemma FactionlessReportsEmptyFaction(info: DialInfo, serialize: RefId -> string)
    requires info.data.dialType != Journal && !info.faction.Empty() && info.factionLess
    ensures FilterActorFaction(info, serialize) == Some("")
  {
  }
}
