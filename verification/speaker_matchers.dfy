/**
 * The character-to-speaker matchers: the dummy one, which gives every
 * character without a speaker the first available speaker, and the LLM one,
 * which adds a narrator when there is none and takes each character's voice
 * from the model's answer when that voice is available.
 */
module SpeakerMatchers {
  import opened Wrappers
  import opened PipelineTypes

  const DefaultSpeakerId := "default_speaker_id"

  /** The speaker the dummy matcher hands out. */
  function FallbackSpeaker(speakers: seq<TtsSpeaker>): (r: string)
    ensures |speakers| > 0 ==> r == speakers[0].id
    ensures |speakers| == 0 ==> r == DefaultSpeakerId
  {
    if |speakers| > 0 then speakers[0].id else DefaultSpeakerId
  }

  /** A character after the dummy matcher: a missing speaker becomes `fallback`. */
  function WithSpeaker(c: Character, fallback: string): Character {
    if c.assignedSpeakerId.None? then c.(assignedSpeakerId := Some(fallback)) else c
  }

  function WithSpeakers(characters: seq<Character>, fallback: string): (r: seq<Character>)
    ensures |r| == |characters|
    ensures forall i :: 0 <= i < |r| ==> r[i] == WithSpeaker(characters[i], fallback)
  {
    seq(|characters|, i requires 0 <= i < |characters| => WithSpeaker(characters[i], fallback))
  }

  /** The dummy matcher, character by character. */
  method DummyMatch(data: PipelineData)
    modifies data
    ensures data.characters == WithSpeakers(old(data.characters), FallbackSpeaker(old(data.availableSpeakers)))
    ensures data.originalText == old(data.originalText) && data.textAsParts == old(data.textAsParts)
    ensures data.availableSpeakers == old(data.availableSpeakers) && data.availableVoices == old(data.availableVoices)
  {
    ghost var before := data.characters;
    for i := 0 to |data.characters|
      invariant data.originalText == old(data.originalText) && data.textAsParts == old(data.textAsParts)
      invariant data.availableSpeakers == old(data.availableSpeakers) && data.availableVoices == old(data.availableVoices)
      invariant |data.characters| == |before|
      invariant forall j :: 0 <= j < i ==> data.characters[j] == WithSpeaker(before[j], FallbackSpeaker(data.availableSpeakers))
      invariant forall j :: i <= j < |before| ==> data.characters[j] == before[j]
    {
      if data.characters[i].assignedSpeakerId.None? {
        var speaker := if |data.availableSpeakers| > 0 then data.availableSpeakers[0].id else DefaultSpeakerId;
        data.characters := data.characters[i := data.characters[i].(assignedSpeakerId := Some(speaker))];
      }
    }
  }

  /** Afterwards every character has a speaker, and one it already had is kept. */
  lemma DummyMatchAssigns(characters: seq<Character>, fallback: string)
    ensures forall i :: 0 <= i < |characters| ==> WithSpeakers(characters, fallback)[i].assignedSpeakerId.Some?
    ensures forall i :: 0 <= i < |characters| && characters[i].assignedSpeakerId.Some? ==>
      WithSpeakers(characters, fallback)[i] == characters[i]
    ensures forall i :: 0 <= i < |characters| && characters[i].assignedSpeakerId.None? ==>
      WithSpeakers(characters, fallback)[i] == characters[i].(assignedSpeakerId := Some(fallback))
  {
  }

  /** Running the dummy matcher twice is running it once. */
  lemma DummyMatchIdempotent(characters: seq<Character>, fallback: string, other: string)
    ensures WithSpeakers(WithSpeakers(characters, fallback), other) == WithSpeakers(characters, fallback)
  {
  }

  /** One entry of the model's answer. */
  datatype CharacterMatch = CharacterMatch(characterId: string, voice: string)

  /** The narrator added when the characters have none. */
  function DefaultNarrator(): (c: Character)
    ensures c.kind == Narrator && c.identifier == "NARRATOR"
  {
    NewCharacter("narrator", "NARRATOR", Narrator)
  }

  predicate HasNarrator(characters: seq<Character>) {
    exists i :: 0 <= i < |characters| && characters[i].kind == Narrator
  }

  /** The characters with the default narrator appended when none of them is a narrator. */
  function WithNarrator(characters: seq<Character>): seq<Character> {
    if HasNarrator(characters) then characters else characters + [DefaultNarrator()]
  }

  /** Entry `k` is the first one naming `id`. */
  predicate IsFirstFor(matches: seq<CharacterMatch>, id: string, k: int) {
    0 <= k < |matches| && matches[k].characterId == id && forall j :: 0 <= j < k ==> matches[j].characterId != id
  }

  lemma FirstIsUnique(matches: seq<CharacterMatch>, id: string, a: int, b: int)
    requires IsFirstFor(matches, id, a) && IsFirstFor(matches, id, b)
    ensures a == b
  {
  }

  /** The first entry of the answer for `id`. */
  function FirstMatch(matches: seq<CharacterMatch>, id: string): (r: Option<CharacterMatch>)
    ensures r.None? <==> forall k :: 0 <= k < |matches| ==> matches[k].characterId != id
    ensures r.Some? ==> r.value.characterId == id && exists k :: IsFirstFor(matches, id, k) && matches[k] == r.value
    decreases |matches|
  {
    if matches == [] then None
    else if matches[0].characterId == id then Some(matches[0])
    else
      var r := FirstMatch(matches[1..], id);
      assert r.Some? ==> exists k :: IsFirstFor(matches, id, k) && matches[k] == r.value by {
        if r.Some? {
          var k :| IsFirstFor(matches[1..], id, k) && matches[1..][k] == r.value;
          assert matches[k + 1] == r.value;
          forall j | 0 <= j < k + 1 ensures matches[j].characterId != id {
            if j > 0 {
              assert matches[j] == matches[1..][j - 1];
            }
          }
          assert IsFirstFor(matches, id, k + 1);
        }
      }
      r
  }

  /** The voice a character gets: its first entry's voice, if that voice is available. */
  function MatchedVoice(matches: seq<CharacterMatch>, voiceIds: seq<string>, id: string): Option<string> {
    match FirstMatch(matches, id)
    case None => None
    case Some(m) => if m.voice in voiceIds then Some(m.voice) else None
  }

  function WithVoices(characters: seq<Character>, matches: seq<CharacterMatch>, voiceIds: seq<string>): (r: seq<Character>)
    ensures |r| == |characters|
    ensures forall i :: 0 <= i < |r| ==>
      r[i] == characters[i].(assignedVoiceId := MatchedVoice(matches, voiceIds, characters[i].identifier))
  {
    seq(|characters|, i requires 0 <= i < |characters| =>
      characters[i].(assignedVoiceId := MatchedVoice(matches, voiceIds, characters[i].identifier)))
  }

  /**
   * The LLM matcher given the model's answer (`None` when the model gave
   * none). No available voices is an error that changes nothing; a missing
   * answer is an error raised after the narrator has been added.
   */
  method LlmMatch(data: PipelineData, answer: Option<seq<CharacterMatch>>) returns (r: Result<(), string>)
    modifies data
    ensures r.Err? <==> |old(data.availableVoices)| == 0 || answer.None?
    ensures |old(data.availableVoices)| == 0 ==> data.characters == old(data.characters)
    ensures |old(data.availableVoices)| > 0 && answer.None? ==> data.characters == WithNarrator(old(data.characters))
    ensures r.Ok? ==> data.characters == WithVoices(WithNarrator(old(data.characters)), answer.value, VoiceIds(old(data.availableVoices)))
    ensures data.originalText == old(data.originalText) && data.textAsParts == old(data.textAsParts)
    ensures data.availableSpeakers == old(data.availableSpeakers) && data.availableVoices == old(data.availableVoices)
  {
    if |data.availableVoices| == 0 {
      return Err("AssertionError: No available voices.");
    }
    AddNarrator(data);
    if answer.None? {
      return Err("ValueError: Matched characters to voices list is None.");
    }
    AssignVoices(data, answer.value);
    r := Ok(());
  }

  /** Appends the default narrator unless some character is a narrator. */
  method AddNarrator(data: PipelineData)
    modifies data
    ensures data.characters == WithNarrator(old(data.characters))
    ensures data.originalText == old(data.originalText) && data.textAsParts == old(data.textAsParts)
    ensures data.availableSpeakers == old(data.availableSpeakers) && data.availableVoices == old(data.availableVoices)
  {
    var hasNarrator := false;
    for i := 0 to |data.characters|
      invariant hasNarrator <==> exists j :: 0 <= j < i && data.characters[j].kind == Narrator
    {
      if data.characters[i].kind == Narrator {
        hasNarrator := true;
      }
    }
    if !hasNarrator {
      data.characters := data.characters + [DefaultNarrator()];
    }
  }

  /** Sets each character's voice from the answer, one character at a time. */
  method AssignVoices(data: PipelineData, matches: seq<CharacterMatch>)
    modifies data
    ensures data.characters == WithVoices(old(data.characters), matches, VoiceIds(old(data.availableVoices)))
    ensures data.originalText == old(data.originalText) && data.textAsParts == old(data.textAsParts)
    ensures data.availableSpeakers == old(data.availableSpeakers) && data.availableVoices == old(data.availableVoices)
  {
    var voiceIds := VoiceIds(data.availableVoices);
    ghost var before := data.characters;
    for i := 0 to |data.characters|
      invariant data.originalText == old(data.originalText) && data.textAsParts == old(data.textAsParts)
      invariant data.availableSpeakers == old(data.availableSpeakers) && data.availableVoices == old(data.availableVoices)
      invariant |data.characters| == |before|
      invariant forall j :: 0 <= j < i ==>
        data.characters[j] == before[j].(assignedVoiceId := MatchedVoice(matches, voiceIds, before[j].identifier))
      invariant forall j :: i <= j < |before| ==> data.characters[j] == before[j]
    {
      var character := data.characters[i];
      var found := FirstMatch(matches, character.identifier);
      var voice: Option<string> := None;
      if found.Some? && found.value.voice in voiceIds {
        voice := Some(found.value.voice);
      }
      data.characters := data.characters[i := character.(assignedVoiceId := voice)];
    }
  }

  /** The characters keep their order and gain a narrator at the end only when they had none. */
  lemma WithNarratorSpec(characters: seq<Character>)
    ensures HasNarrator(WithNarrator(characters))
    ensures WithNarrator(characters)[..|characters|] == characters
    ensures |WithNarrator(characters)| == |characters| + (if HasNarrator(characters) then 0 else 1)
  {
    if !HasNarrator(characters) {
      var w := WithNarrator(characters);
      assert w[|characters|].kind == Narrator;
    }
  }

  /** Every voice the LLM matcher assigns is one of the available voices. */
  lemma VoicesAvailable(characters: seq<Character>, matches: seq<CharacterMatch>, voiceIds: seq<string>)
    ensures forall i :: 0 <= i < |characters| && WithVoices(characters, matches, voiceIds)[i].assignedVoiceId.Some? ==>
      WithVoices(characters, matches, voiceIds)[i].assignedVoiceId.value in voiceIds
  {
  }

  /**
   * A character gets the voice of the first entry naming it when that voice
   * is available, and no voice otherwise, whatever later entries say.
   */
  lemma MatchedVoiceFirst(matches: seq<CharacterMatch>, voiceIds: seq<string>, id: string, k: nat)
    requires k < |matches| && matches[k].characterId == id
    requires forall j :: 0 <= j < k ==> matches[j].characterId != id
    ensures MatchedVoice(matches, voiceIds, id) == if matches[k].voice in voiceIds then Some(matches[k].voice) else None
  {
    var m :| IsFirstFor(matches, id, m) && matches[m] == FirstMatch(matches, id).value;
    FirstIsUnique(matches, id, m, k);
  }

  /** A character no entry names gets no voice. */
  lemma UnmatchedHasNoVoice(matches: seq<CharacterMatch>, voiceIds: seq<string>, id: string)
    requires forall k :: 0 <= k < |matches| ==> matches[k].characterId != id
    ensures MatchedVoice(matches, voiceIds, id).None?
  {
  }
}
