/**
 * The answer router: classify the question, answer the three demonstration
 * scenarios locally, and hand every other question to the conversational
 * gateway together with the whole running conversation, which grows by one
 * user and one assistant message per hand-off.
 */
module AnswerRouter {
  import opened Wrappers
  import opened Text
  import opened KnowledgeBase
  import opened IntentClassifier

  datatype Role = System | User | Assistant

  datatype Message = Message(role: Role, content: string)

  /** The conversation a session starts with: a system prompt and one
      illustrative question with its answer. */
  function Seed(): seq<Message>
  {
    [ Message(System, SystemPrompt), Message(User, PrimerQuestion), Message(Assistant, PrimerAnswer) ]
  }

  const SystemPrompt: string := "You are a concise Paris travel guide. Answer accurately and briefly."
  const PrimerQuestion: string := "What is the most famous landmark in Paris?"
  const PrimerAnswer: string := "The most famous landmark in Paris is the Eiffel Tower."


  const ArcAnswer: string :=
    "The Arc de Triomphe is at Place Charles de Gaulle, western end of the Champs-Élysées."

  const LouvreAnswer: string :=
    "Must-see works at the Louvre include: Mona Lisa, Winged Victory of Samothrace, " +
    "Venus de Milo, The Coronation of Napoleon, and Liberty Leading the People."

  /** The answer given without the gateway, if there is one; None means the
      question falls through to the gateway. A distance report counts only
      when present and non-empty, as a Python truth test would have it.
      Only distance, where and must-see questions can be answered locally,
      and never with an empty text. */
  function LocalAnswer(measure: (Location, Location) -> Figures, question: string): (r: Option<string>)
    ensures r.Some? ==> Classify(question) in {Distance, Where, MustSee} && r.value != ""
    ensures Classify(question) in {Greet, General} ==> r == None
  {
    var intent := Classify(question);
    var q := Lower(question);
    var report := DistanceReport(ParisLocations(), measure, LouvreMuseum, EiffelTower);
    if intent == Distance && report.Some? && report.value != "" then report
    else if intent == Where && Contains(q, "arc de triomphe") then Some(ArcAnswer)
    else if intent == MustSee && Contains(q, "louvre") then Some(LouvreAnswer)
    else None
  }

  /** The distance path always answers, and always about the Louvre and the
      Eiffel Tower, whichever places the question names. */
  lemma DistanceAnswer(measure: (Location, Location) -> Figures, question: string)
    requires Classify(question) == Distance
    ensures var louvre, eiffel := ParisLocations()[1], ParisLocations()[0];
      LocalAnswer(measure, question) == Some(Sentence(louvre, eiffel, measure(louvre, eiffel)))
    ensures LocalAnswer(measure, question).Some?
    ensures LouvreMuseum + " → " + EiffelTower + ": " <= LocalAnswer(measure, question).value
  {
    LouvreEiffelReport(measure);
  }

  /** The must-see guard never fails: every must-see pattern ends in
      "louvre", so every must-see question gets the fixed list of works. */
  lemma MustSeeAnsweredLocally(measure: (Location, Location) -> Figures, question: string)
    ensures Classify(question) == MustSee ==> LocalAnswer(measure, question) == Some(LouvreAnswer)
  {
    MustSeeNeedsLouvre(question);
  }

  /** Which questions are answered locally, and with what: every distance
      question, a where-question only when it names the Arc de Triomphe, a
      must-see question only when it names the Louvre, and nothing else. */
  lemma LocalAnswerCases(measure: (Location, Location) -> Figures, question: string)
    ensures var intent, q := Classify(question), Lower(question);
      LocalAnswer(measure, question).Some? <==>
        intent == Distance ||
        (intent == Where && Contains(q, "arc de triomphe")) ||
        (intent == MustSee && Contains(q, "louvre"))
    ensures Classify(question) == Where ==>
      LocalAnswer(measure, question) == (if Contains(Lower(question), "arc de triomphe") then Some(ArcAnswer) else None)
    ensures Classify(question) == MustSee ==>
      LocalAnswer(measure, question) == (if Contains(Lower(question), "louvre") then Some(LouvreAnswer) else None)
    ensures Classify(question) in {Greet, General} ==> LocalAnswer(measure, question) == None
  {
    if Classify(question) == Distance {
      DistanceAnswer(measure, question);
    }
  }

  /** The where guard in action: a where-question about the Eiffel Tower (one
      with no distance phrase and no mention of the Arc de Triomphe) is
      classified as where and still falls through to the gateway. */
  lemma WhereEiffelFallsThrough(measure: (Location, Location) -> Figures, question: string)
    requires var t := Lower(question);
      && !Contains(t, "how far") && !Contains(t, "distance") && !Contains(t, "miles") && !Contains(t, "kilometers")
      && ChainFrom(["where", "eiffel"], t, 0)
      && !Contains(t, "arc de triomphe")
    ensures Classify(question) == Where
    ensures LocalAnswer(measure, question) == None
  {
    var t := Lower(question);
    DistanceWins(question);
    assert Search(WherePatterns()[1], t);
    ClassifyCases(question);
  }

  /** One hand-off to the gateway: the question and the reply it got. */
  datatype Turn = Turn(question: string, reply: string)

  /** The messages a series of hand-offs adds to the conversation: for each,
      the user's question followed by the assistant's reply. */
  function Transcript(turns: seq<Turn>): (log: seq<Message>)
    ensures |log| == 2 * |turns|
  {
    if turns == [] then []
    else
      var last := turns[|turns| - 1];
      Transcript(turns[..|turns| - 1]) + [Message(User, last.question), Message(Assistant, last.reply)]
  }

  /** Hand-off `k` occupies positions 2k and 2k+1: its question, then its reply. */
  lemma {:induction false} TranscriptAt(turns: seq<Turn>, k: nat)
    requires k < |turns|
    ensures Transcript(turns)[2 * k] == Message(User, turns[k].question)
    ensures Transcript(turns)[2 * k + 1] == Message(Assistant, turns[k].reply)
  {
    var init := turns[..|turns| - 1];
    if k < |turns| - 1 {
      TranscriptAt(init, k);
      assert init[k] == turns[k];
    }
  }

  /** The log after any number of hand-offs: 3 + 2N messages, the three seed
      messages first and untouched. */
  lemma SeededLog(turns: seq<Turn>)
    ensures |Seed() + Transcript(turns)| == 3 + 2 * |turns|
    ensures (Seed() + Transcript(turns))[..3] == Seed()
  {
  }

  /** After the seed, each hand-off's question and reply in order. */
  lemma SeededLogAt(turns: seq<Turn>, k: nat)
    requires k < |turns|
    ensures (Seed() + Transcript(turns))[3 + 2 * k] == Message(User, turns[k].question)
    ensures (Seed() + Transcript(turns))[4 + 2 * k] == Message(Assistant, turns[k].reply)
  {
    SeededLog(turns);
    TranscriptAt(turns, k);
  }

  /** Appending one hand-off appends its two messages. */
  lemma TranscriptAppend(turns: seq<Turn>, turn: Turn)
    ensures Transcript(turns + [turn]) ==
      Transcript(turns) + [Message(User, turn.question), Message(Assistant, turn.reply)]
  {
    assert (turns + [turn])[..|turns|] == turns;
  }

  /** The seeded log grows by the two messages of the new hand-off. */
  lemma LogAppend(turns: seq<Turn>, turn: Turn)
    ensures Seed() + Transcript(turns + [turn]) ==
      Seed() + Transcript(turns) + [Message(User, turn.question)] + [Message(Assistant, turn.reply)]
  {
    TranscriptAppend(turns, turn);
  }

  /** Every recorded hand-off was a question without a local answer. */
  ghost predicate AllHandedOff(measure: (Location, Location) -> Figures, turns: seq<Turn>)
  {
    forall k :: 0 <= k < |turns| ==> LocalAnswer(measure, turns[k].question).None?
  }

  lemma HandOffAppend(measure: (Location, Location) -> Figures, turns: seq<Turn>, turn: Turn)
    requires AllHandedOff(measure, turns) && LocalAnswer(measure, turn.question).None?
    ensures AllHandedOff(measure, turns + [turn])
  {
    forall k | 0 <= k < |turns| + 1
      ensures LocalAnswer(measure, (turns + [turn])[k].question).None?
    {
      if k < |turns| {
        assert (turns + [turn])[k] == turns[k];
      }
    }
  }

  /** ParisAssistant: the knowledge base, the classifier and the gateway, with
      the running conversation. `measure` stands for the distance figures and
      `chat` for the gateway, which replies to a whole conversation. */
  class ParisAssistant {
    const measure: (Location, Location) -> Figures
    const chat: seq<Message> -> string
    var conversation: seq<Message>
    ghost var turns: seq<Turn>

    /** The conversation is the seed followed by the hand-offs so far, and
        only questions without a local answer were handed off. */
    ghost predicate Valid()
      reads this
    {
      conversation == Seed() + Transcript(turns) && AllHandedOff(measure, turns)
    }

    constructor (measure: (Location, Location) -> Figures, chat: seq<Message> -> string)
      ensures Valid()
      ensures this.measure == measure && this.chat == chat
      ensures conversation == Seed() && |conversation| == 3 && turns == []
    {
      this.measure := measure;
      this.chat := chat;
      conversation := Seed();
      turns := [];
    }

    /** ParisAssistant.answer. A local answer leaves the conversation alone;
        otherwise the question is appended, the gateway answers the whole
        conversation, its reply is appended and returned. */
    method Answer(question: string) returns (reply: string)
      requires Valid()
      modifies this
      ensures Valid()
      ensures LocalAnswer(measure, question).Some? ==>
        && reply == LocalAnswer(measure, question).value
        && conversation == old(conversation)
        && turns == old(turns)
      ensures LocalAnswer(measure, question).None? ==>
        && reply == chat(old(conversation) + [Message(User, question)])
        && conversation == old(conversation) + [Message(User, question)] + [Message(Assistant, reply)]
        && turns == old(turns) + [Turn(question, reply)]
      ensures |conversation| == 3 + 2 * |turns|
    {
      var intent := Classify(question);
      var q := Lower(question);
      ghost var local := LocalAnswer(measure, question);
      if intent == Distance {
        var r := DistanceReport(ParisLocations(), measure, LouvreMuseum, EiffelTower);
        if r.Some? && r.value != "" {
          assert local == r;
          return r.value;
        }
      }
      if intent == Where && Contains(q, "arc de triomphe") {
        assert local == Some(ArcAnswer);
        return ArcAnswer;
      }
      if intent == MustSee && Contains(q, "louvre") {
        assert local == Some(LouvreAnswer);
        return LouvreAnswer;
      }
      assert local.None?;
      conversation := conversation + [Message(User, question)];
      reply := chat(conversation);
      conversation := conversation + [Message(Assistant, reply)];
      ghost var turn := Turn(question, reply);
      TranscriptAppend(turns, turn);
      HandOffAppend(measure, turns, turn);
      LogAppend(turns, turn);
      turns := turns + [turn];
    }
  }
}
