/**
 * The pipeline's shared records: characters, TTS speakers and voices, and
 * the pipeline data object the components read and update.
 */
module PipelineTypes {
  import opened Wrappers
  import opened TextParts

  /**
   * Character roles. `Narrator` is used by the speaker matcher and the Azure
   * component although the character type enumeration does not list it; the
   * model adds it so those components can be stated.
   */
  datatype CharacterType = Main | Support | Minor | Unknown | Narrator

  datatype CharacterGender = Male | Female | OtherGender | UnknownGender

  /**
   * A character. `assignedVoiceId` is likewise used by the voice matcher and
   * the Azure component without being declared on the character record.
   */
  datatype Character = Character(
    name: string,
    identifier: string,
    kind: CharacterType,
    gender: CharacterGender,
    personality: string,
    assignedSpeakerId: Option<string>,
    assignedVoiceId: Option<string>)

  datatype TtsSpeaker = TtsSpeaker(id: string, description: string)

  datatype TtsVoice = TtsVoice(id: string, gender: string, description: string, locale: Option<string>)

  /** `[voice.id for voice in voices]`: the ids of the voices, in order. */
  function VoiceIds(voices: seq<TtsVoice>): (r: seq<string>)
    ensures |r| == |voices| && forall i :: 0 <= i < |r| ==> r[i] == voices[i].id
  {
    seq(|voices|, i requires 0 <= i < |voices| => voices[i].id)
  }

  /** A character with the record's defaults for everything but its name and identifier. */
  function NewCharacter(name: string, identifier: string, kind: CharacterType): (c: Character)
    ensures c.name == name && c.identifier == identifier && c.kind == kind
    ensures c.gender == UnknownGender && c.personality == ""
    ensures c.assignedSpeakerId.None? && c.assignedVoiceId.None?
  {
    Character(name, identifier, kind, UnknownGender, "", None, None)
  }

  /**
   * The data passed from component to component. `availableVoices` is read
   * by the voice matcher and the Azure component although the record does
   * not declare it. The free-form additional attributes are not part of
   * this class.
   */
  class PipelineData {
    var originalText: string
    var characters: seq<Character>
    var textAsParts: seq<TextPart>
    var availableSpeakers: seq<TtsSpeaker>
    var availableVoices: seq<TtsVoice>

    constructor ()
      ensures originalText == "" && characters == [] && textAsParts == []
      ensures availableSpeakers == [] && availableVoices == []
    {
      originalText := "";
      characters := [];
      textAsParts := [];
      availableSpeakers := [];
      availableVoices := [];
    }
  }
}
