/**
 * The game data records the dialogue bindings expose: an ESM3 dialogue (a topic, a journal
 * entry, a greeting, ...) and the info entries (responses) it holds.
 */
module Esm {

  /** ESM::Dialogue::Type, the kind of a dialogue record. */
  datatype DialogueType = Topic | Voice | Greeting | Persuasion | Journal | Unknown

  /** ESM::DialInfo::QuestStatus, the role of a journal info in its quest. */
  datatype QuestStatus = QS_None | QS_Name | QS_Finished | QS_Restart

  /** ESM::RefId, kept abstract: an identifier that may be empty. */
  datatype RefId = RefId(key: string) {
    predicate Empty() { key == [] }
  }

  /** The DATA sub-record of an info (ESM::DialInfo::mData). */
  datatype InfoData = InfoData(
    dialType: DialogueType,
    journalIndex: int,
    disposition: int,
    rank: int,
    gender: int,
    pcRank: int)

  /** ESM::DialInfo: one response of a dialogue with its filter conditions. */
  datatype DialInfo = DialInfo(
    id: RefId,
    data: InfoData,
    questStatus: QuestStatus,
    response: string,
    actor: RefId,
    race: RefId,
    actorClass: RefId,
    faction: RefId,
    factionLess: bool,
    cell: RefId,
    pcFaction: RefId,
    sound: string,
    resultScript: string)

  /** ESM::Dialogue: a dialogue record with its infos in store order. */
  datatype Dialogue = Dialogue(
    id: RefId,
    stringId: string,
    dialType: DialogueType,
    infos: seq<DialInfo>)
}
