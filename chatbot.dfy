// The dashboard's quick-assist chatbot: a question is answered by the first
// preset one of whose keywords it mentions, or by a fixed fallback.
module Chatbot {
  import opened Wrappers
  import opened Text

  /** How a preset answers: wear advice depends on the outdoor temperature,
      the others are fixed texts. */
  datatype Reply = WearAdvice | Fixed(text: string)

  datatype Preset = Preset(keywords: seq<string>, reply: Reply)

  const ChillyAdvice: string := "It's pretty chilly outside. Consider a heavy coat, scarf, gloves, and warm boots."
  const CoolAdvice: string := "A light jacket or sweater should do the trick. Layers will keep you comfortable."
  const MildAdvice: string := "Mild weather today. Comfortable jeans or shorts with a breathable top would work well."
  const HotAdvice: string := "It's hot out there! Light fabrics, shorts, and breathable shirts will help you stay cool."
  const HvacReply: string :=
    "All monitored systems report normal operation. If you notice anything unusual, try running diagnostics or contact support."
  const EnergyReply: string :=
    "Try setting schedules for when you're away, keep vents clear, and avoid drastic temperature swings to reduce energy use."
  const MaintenanceReply: string :=
    "If it's been more than a year since your last tune-up or you hear unusual noises, it's a good time to schedule maintenance."
  const HumidityReply: string :=
    "Indoor humidity should stay between 30-50% for comfort. Use a dehumidifier or humidifier if you notice discomfort."
  const Fallback: string := "I don't have a quick tip for that yet. Try one of the prompt buttons below."
  const Greeting: string := "Hi! I'm your quick-assist bot. Choose a question below or type your own."

  /** The outdoor temperature assumed when none is known. */
  const DefaultOutdoorTemp: real := 60.0

  /** The presets, in the order they are tried. */
  const Presets: seq<Preset> := [
    Preset(["wear", "clothes", "outfit", "weather"], WearAdvice),
    Preset(["hvac", "system", "status", "performance"], Fixed(HvacReply)),
    Preset(["energy", "saving", "tips"], Fixed(EnergyReply)),
    Preset(["maintenance", "service", "checkup"], Fixed(MaintenanceReply)),
    Preset(["humidity", "humid"], Fixed(HumidityReply))
  ]

  /** Clothing advice by outdoor temperature, in four bands. */
  function Wear(outdoorTemp: Option<real>): (advice: string)
    ensures var t := if outdoorTemp.Some? then outdoorTemp.value else DefaultOutdoorTemp;
      (t <= 40.0 <==> advice == ChillyAdvice)
      && (40.0 < t <= 60.0 <==> advice == CoolAdvice)
      && (60.0 < t <= 80.0 <==> advice == MildAdvice)
      && (80.0 < t <==> advice == HotAdvice)
  {
    var t := if outdoorTemp.Some? then outdoorTemp.value else DefaultOutdoorTemp;
    if t <= 40.0 then ChillyAdvice
    else if t <= 60.0 then CoolAdvice
    else if t <= 80.0 then MildAdvice
    else HotAdvice
  }

  /** `preset.keywords.some((kw) => normalized.includes(kw))`. */
  predicate Mentions(normalized: string, p: Preset)
  {
    exists k :: 0 <= k < |p.keywords| && Contains(normalized, p.keywords[k])
  }

  /** `PROMPTS.find(...)` from position `from` on: the index of the first
      preset mentioned, None when there is none. */
  function FirstMention(presets: seq<Preset>, normalized: string, from: nat): (r: Option<nat>)
    requires from <= |presets|
    ensures r.Some? ==> from <= r.value < |presets| && Mentions(normalized, presets[r.value])
                        && forall j :: from <= j < r.value ==> !Mentions(normalized, presets[j])
    ensures r.None? <==> forall j :: from <= j < |presets| ==> !Mentions(normalized, presets[j])
    decreases |presets| - from
  {
    if from == |presets| then None
    else if Mentions(normalized, presets[from]) then Some(from)
    else FirstMention(presets, normalized, from + 1)
  }

  /** The text a preset answers with. */
  function Respond(reply: Reply, outdoorTemp: Option<real>): string
  {
    match reply
    case WearAdvice => Wear(outdoorTemp)
    case Fixed(text) => text
  }

  /** The prompt as the matcher sees it: trimmed and lower-cased. */
  function Normalize(prompt: string): string
  {
    ToLower(TrimSpace(prompt))
  }

  /** The answer of the first preset mentioned, or the fallback. */
  function Answer(presets: seq<Preset>, normalized: string, outdoorTemp: Option<real>): string
  {
    match FirstMention(presets, normalized, 0)
    case Some(i) => Respond(presets[i].reply, outdoorTemp)
    case None => Fallback
  }

  /** findResponse. */
  function FindResponse(prompt: string, outdoorTemp: Option<real>): string
  {
    Answer(Presets, Normalize(prompt), outdoorTemp)
  }

  /** No preset answers with the fallback text. */
  lemma PresetsNeverFallBack(outdoorTemp: Option<real>)
    ensures forall i :: 0 <= i < |Presets| ==> Respond(Presets[i].reply, outdoorTemp) != Fallback
  {
    var w := Wear(outdoorTemp);
    assert |w| != |Fallback|;
  }

  /** When no preset answers with the fallback, the fallback is given
      exactly when no preset is mentioned, and otherwise the answer is that
      of the first preset mentioned. */
  lemma AnswerIsFirstMention(presets: seq<Preset>, normalized: string, outdoorTemp: Option<real>)
    requires forall i :: 0 <= i < |presets| ==> Respond(presets[i].reply, outdoorTemp) != Fallback
    ensures Answer(presets, normalized, outdoorTemp) == Fallback <==>
      forall j :: 0 <= j < |presets| ==> !Mentions(normalized, presets[j])
    ensures forall i ::
      (0 <= i < |presets| && Mentions(normalized, presets[i])
       && forall j :: 0 <= j < i ==> !Mentions(normalized, presets[j]))
      ==> Answer(presets, normalized, outdoorTemp) == Respond(presets[i].reply, outdoorTemp)
  {
    var r := FirstMention(presets, normalized, 0);
    if r.Some? {
      assert Respond(presets[r.value].reply, outdoorTemp) != Fallback;
    }
  }

  /** The chatbot's answer: the fallback exactly when the normalised prompt
      mentions no preset, otherwise the first mentioned preset's. */
  lemma FallbackIffNoKeyword(prompt: string, outdoorTemp: Option<real>)
    ensures FindResponse(prompt, outdoorTemp) == Fallback <==>
      forall j :: 0 <= j < |Presets| ==> !Mentions(Normalize(prompt), Presets[j])
    ensures forall i ::
      (0 <= i < |Presets| && Mentions(Normalize(prompt), Presets[i])
       && forall j :: 0 <= j < i ==> !Mentions(Normalize(prompt), Presets[j]))
      ==> FindResponse(prompt, outdoorTemp) == Respond(Presets[i].reply, outdoorTemp)
  {
    PresetsNeverFallBack(outdoorTemp);
    AnswerIsFirstMention(Presets, Normalize(prompt), outdoorTemp);
  }

  /** A question about clothes is always answered with wear advice: the
      wear preset is tried first. */
  lemma {:induction false} WearQuestionGetsAdvice(prompt: string, outdoorTemp: Option<real>)
    requires Contains(Normalize(prompt), "wear")
    ensures FindResponse(prompt, outdoorTemp) == Wear(outdoorTemp)
  {
    assert Presets[0].keywords[0] == "wear";
    assert Mentions(Normalize(prompt), Presets[0]);
  }

  datatype Speaker = Assistant | User

  datatype Message = Message(role: Speaker, content: string)

  /** The conversation starts with the greeting and then alternates a user
      question and the assistant's answer. */
  ghost predicate Alternating(messages: seq<Message>)
  {
    |messages| % 2 == 1
    && messages[0] == Message(Assistant, Greeting)
    && forall k :: 1 <= k < |messages| ==> (messages[k].role == User <==> k % 2 == 1)
  }

  class ChatLog {
    var messages: seq<Message>

    constructor ()
      ensures messages == [Message(Assistant, Greeting)]
      ensures Alternating(messages)
    {
      messages := [Message(Assistant, Greeting)];
    }

    /** handleAsk: a blank question is ignored; any other adds the trimmed
        question and its answer. */
    method Ask(question: string, outdoorTemp: Option<real>)
      modifies this
      ensures TrimSpace(question) == "" ==> messages == old(messages)
      ensures TrimSpace(question) != "" ==>
        messages == old(messages) + [Message(User, TrimSpace(question)),
                                     Message(Assistant, FindResponse(TrimSpace(question), outdoorTemp))]
    {
      var trimmed := TrimSpace(question);
      if trimmed == "" {
        return;
      }
      messages := messages + [Message(User, trimmed), Message(Assistant, FindResponse(trimmed, outdoorTemp))];
    }
  }

  /** Asking keeps the conversation alternating. */
  lemma AskKeepsAlternating(messages: seq<Message>, question: string, answer: string)
    requires Alternating(messages)
    ensures Alternating(messages + [Message(User, question), Message(Assistant, answer)])
  {
    var after := messages + [Message(User, question), Message(Assistant, answer)];
    assert after[|messages|].role == User && after[|messages| + 1].role == Assistant;
  }
}
