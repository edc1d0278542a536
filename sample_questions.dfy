/**
 * The assistant's sample questions, each routed as a literal string: its
 * intent, and whether it is answered locally or handed to the gateway.
 *
 * For each question the lower-cased text is computed first, a few characters
 * at a time. Each phrase the text lacks is then ruled out by looking only at
 * the positions that hold the phrase's first character.
 */
module SampleQuestions {
  import opened Wrappers
  import opened Text
  import opened KnowledgeBase
  import opened IntentClassifier
  import opened AnswerRouter

  /** The lower-cased question. */
  lemma HelloLower(question: string)
    requires question == "Hello there!"
    ensures Lower(question) == "hello there!"
  {
  }

  /** The text has none of the letters 'd', 'm', 'k', 'w'. */
  lemma HelloLacksLetters(t: string)
    requires t == "hello there!"
    ensures !Contains(t, "distance") && !Contains(t, "miles") && !Contains(t, "kilometers") && !Contains(t, "where")
  {
    forall i | 0 <= i < |t|
      ensures t[i] !in "dmkw"
    {
    }
    NotContains(t, "distance");
    NotContains(t, "miles");
    NotContains(t, "kilometers");
    NotContains(t, "where");
  }

  /** Phrases starting with 'h', ruled out at each 'h' of the text. */
  lemma HelloLacksFromH(t: string)
    requires t == "hello there!"
    ensures !Contains(t, "how far")
  {
    forall i | 0 <= i < |t| && t[i] == 'h'
      ensures !OccursAt("how far", t, i)
    {
      assert i == 0 || i == 7;
      if i == 0 {
        NotAt(t, "how far", 0, 1);
      }
    }
    NotContains(t, "how far");
  }

  /** Phrases starting with 'l', ruled out at each 'l' of the text. */
  lemma HelloLacksFromL(t: string)
    requires t == "hello there!"
    ensures !Contains(t, "louvre")
  {
    forall i | 0 <= i < |t| && t[i] == 'l'
      ensures !OccursAt("louvre", t, i)
    {
      assert i == 2 || i == 3;
      if i == 2 {
        NotAt(t, "louvre", 2, 1);
      } else if i == 3 {
        NotAt(t, "louvre", 3, 2);
      }
    }
    NotContains(t, "louvre");
  }

  lemma HelloGreets(t: string)
    requires t == "hello there!"
    ensures AnyMatch(GreetPatterns(), t)
  {
    assert WordAt("hello", t, 0);
    var p := GreetPatterns()[0];
    assert Search(p.right, t);
    assert Search(p, t);
  }

  /** "Hello there!" is a greeting, and greetings go to the gateway. */
  lemma HelloThere(measure: (Location, Location) -> Figures, question: string)
    requires question == "Hello there!"
    ensures Classify(question) == Greet
    ensures LocalAnswer(measure, question) == None
  {
    HelloLower(question);
    var t := Lower(question);
    HelloLacksLetters(t);
    HelloLacksFromH(t);
    HelloLacksFromL(t);
    HelloGreets(t);
    DistanceWins(question);
    WhereNeedsWhere(question);
    MustSeeNeedsLouvre(question);
    ClassifyCases(question);
    LocalAnswerCases(measure, question);
  }

  /** The question as short pieces. This step is kept apart from the
      lower-casing lemma so that each of the two proofs stays small. */
  lemma WhereEiffelPieces(question: string)
    requires question == "Where is the Eiffel Tower?"
    ensures question == "Where is " + "the Eiffel " + "Tower?"
  {
  }

  /** The lower-cased question. */
  lemma WhereEiffelLower(question: string)
    requires question == "Where is " + "the Eiffel " + "Tower?"
    ensures Lower(question) == "where is " + "the eiffel " + "tower?"
  {
    var a, b, c := "Where is ", "the Eiffel ", "Tower?";
    assert Lower(a) == "where is ";
    assert Lower(b) == "the eiffel ";
    assert Lower(c) == "tower?";
    LowerAppend(a + b, c);
    LowerAppend(a, b);
  }

  /** The text has none of the letters 'd', 'm', 'k', 'a'. */
  lemma WhereEiffelLacksLetters(t: string)
    requires t == "where is " + "the eiffel " + "tower?"
    ensures !Contains(t, "distance") && !Contains(t, "miles") && !Contains(t, "kilometers") && !Contains(t, "arc de triomphe")
  {
    forall i | 0 <= i < |t|
      ensures t[i] !in "dmka"
    {
    }
    NotContains(t, "distance");
    NotContains(t, "miles");
    NotContains(t, "kilometers");
    NotContains(t, "arc de triomphe");
  }

  /** Phrases starting with 'h', ruled out at each 'h' of the text. */
  lemma WhereEiffelLacksFromH(t: string)
    requires t == "where is " + "the eiffel " + "tower?"
    ensures !Contains(t, "how far")
  {
    forall i | 0 <= i < |t| && t[i] == 'h'
      ensures !OccursAt("how far", t, i)
    {
      assert i == 1 || i == 10;
      if i == 1 {
        NotAt(t, "how far", 1, 1);
      } else if i == 10 {
        NotAt(t, "how far", 10, 1);
      }
    }
    NotContains(t, "how far");
  }

  lemma WhereEiffelChain(t: string)
    requires t == "where is " + "the eiffel " + "tower?"
    ensures ChainFrom(["where", "eiffel"], t, 0)
  {
    assert OccursAt("where", t, 0);
    assert OccursAt("eiffel", t, 13);
    ChainOfTwo("where", "eiffel", t, 0, 13);
  }

  /** "Where is the Eiffel Tower?" is a where-question, yet it does not name
      the Arc de Triomphe, so the gateway answers it. */
  lemma WhereIsTheEiffelTower(measure: (Location, Location) -> Figures, question: string)
    requires question == "Where is the Eiffel Tower?"
    ensures Classify(question) == Where
    ensures LocalAnswer(measure, question) == None
  {
    WhereEiffelPieces(question);
    WhereEiffelLower(question);
    var t := Lower(question);
    WhereEiffelLacksLetters(t);
    WhereEiffelLacksFromH(t);
    WhereEiffelChain(t);
    WhereEiffelFallsThrough(measure, question);
  }

  /** The question as short pieces. This step is kept apart from the
      lower-casing lemma so that each of the two proofs stays small. */
  lemma WhereArcPieces(question: string)
    requires question == "Where is the Arc de Triomphe?"
    ensures question == "Where is the " + "Arc de " + "Triomphe?"
  {
  }

  /** The lower-cased question. */
  lemma WhereArcLower(question: string)
    requires question == "Where is the " + "Arc de " + "Triomphe?"
    ensures Lower(question) == "where is the " + "arc de " + "triomphe?"
  {
    var a, b, c := "Where is the ", "Arc de ", "Triomphe?";
    assert Lower(a) == "where is the ";
    assert Lower(b) == "arc de ";
    assert Lower(c) == "triomphe?";
    LowerAppend(a + b, c);
    LowerAppend(a, b);
  }

  /** The text has no letter 'k'. */
  lemma WhereArcLacksLetters(t: string)
    requires t == "where is the " + "arc de " + "triomphe?"
    ensures !Contains(t, "kilometers")
  {
    forall i | 0 <= i < |t|
      ensures t[i] !in "k"
    {
    }
    NotContains(t, "kilometers");
  }

  /** Phrases starting with 'h', ruled out at each 'h' of the text. */
  lemma WhereArcLacksFromH(t: string)
    requires t == "where is the " + "arc de " + "triomphe?"
    ensures !Contains(t, "how far")
  {
    forall i | 0 <= i < |t| && t[i] == 'h'
      ensures !OccursAt("how far", t, i)
    {
      assert i == 1 || i == 10 || i == 26;
      if i == 1 {
        NotAt(t, "how far", 1, 1);
      } else if i == 10 {
        NotAt(t, "how far", 10, 1);
      }
    }
    NotContains(t, "how far");
  }

  /** Phrases starting with 'd', ruled out at each 'd' of the text. */
  lemma WhereArcLacksFromD(t: string)
    requires t == "where is the " + "arc de " + "triomphe?"
    ensures !Contains(t, "distance")
  {
    forall i | 0 <= i < |t| && t[i] == 'd'
      ensures !OccursAt("distance", t, i)
    {
      assert i == 17;
      if i == 17 {
        NotAt(t, "distance", 17, 1);
      }
    }
    NotContains(t, "distance");
  }

  /** Phrases starting with 'm', ruled out at each 'm' of the text. */
  lemma WhereArcLacksFromM(t: string)
    requires t == "where is the " + "arc de " + "triomphe?"
    ensures !Contains(t, "miles")
  {
    forall i | 0 <= i < |t| && t[i] == 'm'
      ensures !OccursAt("miles", t, i)
    {
      assert i == 24;
      if i == 24 {
        NotAt(t, "miles", 24, 1);
      }
    }
    NotContains(t, "miles");
  }

  lemma WhereArcMatches(t: string)
    requires t == "where is the " + "arc de " + "triomphe?"
    ensures AnyMatch(WherePatterns(), t)
    ensures Contains(t, "arc de triomphe")
  {
    assert OccursAt("where", t, 0);
    assert OccursAt("arc de triomphe", t, 13);
    ChainOfTwo("where", "arc de triomphe", t, 0, 13);
    assert Search(WherePatterns()[0], t);
  }

  /** "Where is the Arc de Triomphe?" is answered locally with the fixed
      sentence about Place Charles de Gaulle. */
  lemma WhereIsTheArcDeTriomphe(measure: (Location, Location) -> Figures, question: string)
    requires question == "Where is the Arc de Triomphe?"
    ensures Classify(question) == Where
    ensures LocalAnswer(measure, question) == Some(ArcAnswer)
  {
    WhereArcPieces(question);
    WhereArcLower(question);
    var t := Lower(question);
    WhereArcLacksLetters(t);
    WhereArcLacksFromH(t);
    WhereArcLacksFromD(t);
    WhereArcLacksFromM(t);
    WhereArcMatches(t);
    DistanceWins(question);
    ClassifyCases(question);
    LocalAnswerCases(measure, question);
  }

  /** The question as short pieces. This step is kept apart from the
      lower-casing lemma so that each of the two proofs stays small. */
  lemma MustSeePieces(question: string)
    requires question == "What are the must-see works at the Louvre?"
    ensures question == "What are " + "the must-" + "see works" + " at the " + "Louvre?"
  {
  }

  /** The lower-cased question. */
  lemma MustSeeLower(question: string)
    requires question == "What are " + "the must-" + "see works" + " at the " + "Louvre?"
    ensures Lower(question) == "what are " + "the must-" + "see works" + " at the " + "louvre?"
  {
    var a, b, c, d, e := "What are ", "the must-", "see works", " at the ", "Louvre?";
    assert Lower(a) == "what are ";
    assert Lower(b) == "the must-";
    assert Lower(c) == "see works";
    assert Lower(d) == " at the ";
    assert Lower(e) == "louvre?";
    LowerAppend(a + b + c + d, e);
    LowerAppend(a + b + c, d);
    LowerAppend(a + b, c);
    LowerAppend(a, b);
  }

  /** The text has no letter 'd'. */
  lemma MustSeeLacksLetters(t: string)
    requires t == "what are " + "the must-" + "see works" + " at the " + "louvre?"
    ensures !Contains(t, "distance")
  {
    forall i | 0 <= i < |t|
      ensures t[i] !in "d"
    {
    }
    NotContains(t, "distance");
  }

  /** Phrases starting with 'h', ruled out at each 'h' of the text. */
  lemma MustSeeLacksFromH(t: string)
    requires t == "what are " + "the must-" + "see works" + " at the " + "louvre?"
    ensures !Contains(t, "how far")
  {
    forall i | 0 <= i < |t| && t[i] == 'h'
      ensures !OccursAt("how far", t, i)
    {
      assert i == 1 || i == 10 || i == 32;
      if i == 1 {
        NotAt(t, "how far", 1, 1);
      } else if i == 10 {
        NotAt(t, "how far", 10, 1);
      } else if i == 32 {
        NotAt(t, "how far", 32, 1);
      }
    }
    NotContains(t, "how far");
  }

  /** Phrases starting with 'm', ruled out at each 'm' of the text. */
  lemma MustSeeLacksFromM(t: string)
    requires t == "what are " + "the must-" + "see works" + " at the " + "louvre?"
    ensures !Contains(t, "miles")
  {
    forall i | 0 <= i < |t| && t[i] == 'm'
      ensures !OccursAt("miles", t, i)
    {
      assert i == 13;
      if i == 13 {
        NotAt(t, "miles", 13, 1);
      }
    }
    NotContains(t, "miles");
  }

  /** Phrases starting with 'k', ruled out at each 'k' of the text. */
  lemma MustSeeLacksFromK(t: string)
    requires t == "what are " + "the must-" + "see works" + " at the " + "louvre?"
    ensures !Contains(t, "kilometers")
  {
    forall i | 0 <= i < |t| && t[i] == 'k'
      ensures !OccursAt("kilometers", t, i)
    {
      assert i == 25;
      if i == 25 {
        NotAt(t, "kilometers", 25, 1);
      }
    }
    NotContains(t, "kilometers");
  }

  /** Phrases starting with 'w', ruled out at each 'w' of the text. */
  lemma MustSeeLacksFromW(t: string)
    requires t == "what are " + "the must-" + "see works" + " at the " + "louvre?"
    ensures !Contains(t, "where")
  {
    forall i | 0 <= i < |t| && t[i] == 'w'
      ensures !OccursAt("where", t, i)
    {
      assert i == 0 || i == 22;
      if i == 0 {
        NotAt(t, "where", 0, 2);
      } else if i == 22 {
        NotAt(t, "where", 22, 1);
      }
    }
    NotContains(t, "where");
  }

  lemma MustSeeMatches(t: string)
    requires t == "what are " + "the must-" + "see works" + " at the " + "louvre?"
    ensures AnyMatch(MustSeePatterns(), t)
  {
    assert OccursAt("must-see", t, 13);
    assert OccursAt("louvre", t, 35);
    ChainOfTwo("must-see", "louvre", t, 13, 35);
    var p := MustSeePatterns()[0];
    assert Search(p.right.left, t);
    assert Search(p.right, t);
    assert Search(p, t);
  }

  /** "What are the must-see works at the Louvre?" is answered locally with
      the fixed list of five works. */
  lemma WhatAreTheMustSeeWorks(measure: (Location, Location) -> Figures, question: string)
    requires question == "What are the must-see works at the Louvre?"
    ensures Classify(question) == MustSee
    ensures LocalAnswer(measure, question) == Some(LouvreAnswer)
  {
    MustSeePieces(question);
    MustSeeLower(question);
    var t := Lower(question);
    MustSeeLacksLetters(t);
    MustSeeLacksFromH(t);
    MustSeeLacksFromM(t);
    MustSeeLacksFromK(t);
    MustSeeLacksFromW(t);
    MustSeeMatches(t);
    DistanceWins(question);
    WhereNeedsWhere(question);
    ClassifyCases(question);
    MustSeeNeedsLouvre(question);
    LocalAnswerCases(measure, question);
  }

  /** The question as short pieces. This step is kept apart from the
      lower-casing lemma so that each of the two proofs stays small. */
  lemma WeatherPieces(question: string)
    requires question == "What's the weather like?"
    ensures question == "What's the " + "weather like?"
  {
  }

  /** The lower-cased question. */
  lemma WeatherLower(question: string)
    requires question == "What's the " + "weather like?"
    ensures Lower(question) == "what's the " + "weather like?"
  {
    var a, b := "What's the ", "weather like?";
    assert Lower(a) == "what's the ";
    assert Lower(b) == "weather like?";
    LowerAppend(a, b);
  }

  /** The text has none of the letters 'd', 'm', 'b'. */
  lemma WeatherLacksLetters(t: string)
    requires t == "what's the " + "weather like?"
    ensures !Contains(t, "distance") && !Contains(t, "miles") && !Contains(t, "bonjour")
  {
    forall i | 0 <= i < |t|
      ensures t[i] !in "dmb"
    {
    }
    NotContains(t, "distance");
    NotContains(t, "miles");
    NotContains(t, "bonjour");
  }

  /** Phrases starting with 'h', ruled out at each 'h' of the text. */
  lemma WeatherLacksFromH(t: string)
    requires t == "what's the " + "weather like?"
    ensures !Contains(t, "how far") && !Contains(t, "hi") && !Contains(t, "hello")
  {
    forall i | 0 <= i < |t| && t[i] == 'h'
      ensures !OccursAt("how far", t, i)
      ensures !OccursAt("hi", t, i)
      ensures !OccursAt("hello", t, i)
    {
      assert i == 1 || i == 8 || i == 15;
      if i == 1 {
        NotAt(t, "how far", 1, 1);
        NotAt(t, "hi", 1, 1);
        NotAt(t, "hello", 1, 1);
      } else if i == 8 {
        NotAt(t, "how far", 8, 1);
        NotAt(t, "hi", 8, 1);
        NotAt(t, "hello", 8, 2);
      } else if i == 15 {
        NotAt(t, "how far", 15, 1);
        NotAt(t, "hi", 15, 1);
        NotAt(t, "hello", 15, 2);
      }
    }
    NotContains(t, "how far");
    NotContains(t, "hi");
    NotContains(t, "hello");
  }

  /** Phrases starting with 'k', ruled out at each 'k' of the text. */
  lemma WeatherLacksFromK(t: string)
    requires t == "what's the " + "weather like?"
    ensures !Contains(t, "kilometers")
  {
    forall i | 0 <= i < |t| && t[i] == 'k'
      ensures !OccursAt("kilometers", t, i)
    {
      assert i == 21;
    }
    NotContains(t, "kilometers");
  }

  /** Phrases starting with 'w', ruled out at each 'w' of the text. */
  lemma WeatherLacksFromW(t: string)
    requires t == "what's the " + "weather like?"
    ensures !Contains(t, "where")
  {
    forall i | 0 <= i < |t| && t[i] == 'w'
      ensures !OccursAt("where", t, i)
    {
      assert i == 0 || i == 11;
      if i == 0 {
        NotAt(t, "where", 0, 2);
      } else if i == 11 {
        NotAt(t, "where", 11, 1);
      }
    }
    NotContains(t, "where");
  }

  /** Phrases starting with 'l', ruled out at each 'l' of the text. */
  lemma WeatherLacksFromL(t: string)
    requires t == "what's the " + "weather like?"
    ensures !Contains(t, "louvre")
  {
    forall i | 0 <= i < |t| && t[i] == 'l'
      ensures !OccursAt("louvre", t, i)
    {
      assert i == 19;
    }
    NotContains(t, "louvre");
  }

  /** "What's the weather like?" matches no pattern of the table, so it is
      general and the gateway answers it. */
  lemma WhatsTheWeatherLike(measure: (Location, Location) -> Figures, question: string)
    requires question == "What's the weather like?"
    ensures Classify(question) == General
    ensures LocalAnswer(measure, question) == None
  {
    WeatherPieces(question);
    WeatherLower(question);
    var t := Lower(question);
    WeatherLacksLetters(t);
    WeatherLacksFromH(t);
    WeatherLacksFromK(t);
    WeatherLacksFromW(t);
    WeatherLacksFromL(t);
    DistanceWins(question);
    WhereNeedsWhere(question);
    MustSeeNeedsLouvre(question);
    GreetNeedsGreeting(question);
    ClassifyCases(question);
    LocalAnswerCases(measure, question);
  }
}
