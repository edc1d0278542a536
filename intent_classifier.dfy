/**
 * The intent classifier: an ordered table of (intent, patterns) entries tried
 * top to bottom on the lower-cased question; the first entry with a matching
 * pattern decides, and "general" is the answer when none matches.
 */
module IntentClassifier {
  import opened Wrappers
  import opened Text

  datatype Intent = Distance | Where | MustSee | Greet | General

  /**
   * The regular expressions of the table, by shape:
   * Chain([p1, ..., pn]) is `p1.*p2.* ... .*pn` over literal pieces,
   * Word(w) is `\bw\b` for a word `w`, Either(l, r) is `l|r`.
   */
  datatype Pattern =
    | Chain(pieces: seq<string>)
    | Word(w: string)
    | Either(left: Pattern, right: Pattern)

  /** The pieces occur in order at or after index `k`, anything in between. */
  predicate ChainFrom(pieces: seq<string>, t: string, k: nat)
    decreases |pieces|
  {
    |pieces| == 0 ||
    exists i | k <= i <= |t| :: OccursAt(pieces[0], t, i) && ChainFrom(pieces[1..], t, i + |pieces[0]|)
  }

  /** Two pieces found in order make a two-piece chain match. */
  lemma ChainOfTwo(a: string, b: string, t: string, i: nat, j: nat)
    requires OccursAt(a, t, i) && OccursAt(b, t, j) && i + |a| <= j
    ensures ChainFrom([a, b], t, 0)
  {
    var pieces, rest := [a, b], [b];
    assert pieces[1..] == rest && rest[1..] == [];
    assert OccursAt(rest[0], t, j) && ChainFrom(rest[1..], t, j + |b|);
    assert ChainFrom(rest, t, i + |a|);
    assert OccursAt(pieces[0], t, i) && ChainFrom(pieces[1..], t, i + |a|);
  }

  /** `w` occurs at `i` with a word boundary on both sides. */
  predicate WordAt(w: string, t: string, i: int)
  {
    OccursAt(w, t, i) &&
    (i == 0 || !IsWordChar(t[i - 1])) &&
    (i + |w| == |t| || !IsWordChar(t[i + |w|]))
  }

  /** Every piece of a chain that matches from `k` on occurs in `t`. */
  lemma {:induction false} ChainContains(pieces: seq<string>, t: string, k: nat)
    ensures ChainFrom(pieces, t, k) ==> forall j :: 0 <= j < |pieces| ==> Contains(t, pieces[j])
    decreases |pieces|
  {
    if ChainFrom(pieces, t, k) && |pieces| > 0 {
      var i :| k <= i <= |t| && OccursAt(pieces[0], t, i) && ChainFrom(pieces[1..], t, i + |pieces[0]|);
      ChainContains(pieces[1..], t, i + |pieces[0]|);
      forall j | 0 <= j < |pieces|
        ensures Contains(t, pieces[j])
      {
        if j > 0 {
          assert pieces[j] == pieces[1..][j - 1];
        }
      }
    }
  }

  /** re.search(p, t) finds a match somewhere in `t`: the empty chain matches
      any text, a matching chain has each of its pieces in the text, and a
      matching word pattern has its word in the text. */
  function Search(p: Pattern, t: string): (b: bool)
    ensures p.Chain? && p.pieces == [] ==> b
    ensures p.Chain? && b ==> forall j :: 0 <= j < |p.pieces| ==> Contains(t, p.pieces[j])
    ensures p.Word? && b ==> Contains(t, p.w)
  {
    match p
    case Chain(pieces) => ChainContains(pieces, t, 0); ChainFrom(pieces, t, 0)
    case Word(w) => exists i | 0 <= i <= |t| :: WordAt(w, t, i)
    case Either(l, r) => Search(l, t) || Search(r, t)
  }

  /** A one-piece chain is a plain substring search. */
  lemma SearchLiteral(s: string, t: string)
    ensures Search(Chain([s]), t) <==> Contains(t, s)
  {
    assert [s][1..] == [];
    if Contains(t, s) {
      var i :| 0 <= i <= |t| && OccursAt(s, t, i);
      var pieces := [s];
      assert OccursAt(pieces[0], t, i) && ChainFrom(pieces[1..], t, i + |pieces[0]|);
    }
  }

  datatype Entry = Entry(intent: Intent, patterns: seq<Pattern>)

  function DistancePatterns(): seq<Pattern>
  {
    [Chain(["how far"]), Chain(["distance"]), Chain(["miles"]), Chain(["kilometers"])]
  }

  function WherePatterns(): seq<Pattern>
  {
    [Chain(["where", "arc de triomphe"]), Chain(["where", "eiffel"]), Chain(["where", "louvre"])]
  }

  /** `must[- ]?see.*louvre` is spelled out as its three alternatives. */
  function MustSeePatterns(): seq<Pattern>
  {
    [ Either(Chain(["mustsee", "louvre"]), Either(Chain(["must-see", "louvre"]), Chain(["must see", "louvre"]))),
      Chain(["what", "see", "louvre"]),
      Chain(["top", "louvre"]) ]
  }

  /** One pattern, `\bhi\b|\bhello\b|\bbonjour\b`. */
  function GreetPatterns(): seq<Pattern>
  {
    [Either(Word("hi"), Either(Word("hello"), Word("bonjour")))]
  }

  /** IntentClassifier.PATTERNS, in the dictionary's insertion order. */
  function Patterns(): (table: seq<Entry>)
    ensures |table| == 4
    ensures forall i :: 0 <= i < |table| ==> table[i].intent != General
    ensures table[0].intent == Distance && table[1].intent == Where
    ensures table[2].intent == MustSee && table[3].intent == Greet
  {
    [ Entry(Distance, DistancePatterns()),
      Entry(Where, WherePatterns()),
      Entry(MustSee, MustSeePatterns()),
      Entry(Greet, GreetPatterns()) ]
  }

  /** The inner loop: some pattern of the list finds a match in `t`. */
  function AnyMatch(patterns: seq<Pattern>, t: string): (b: bool)
    ensures b <==> exists j :: 0 <= j < |patterns| && Search(patterns[j], t)
  {
    if patterns == [] then false
    else if Search(patterns[0], t) then true
    else
      var b := AnyMatch(patterns[1..], t);
      assert forall j :: 1 <= j < |patterns| ==> patterns[j] == patterns[1..][j - 1];
      b
  }

  /** Entry `i` is the first entry of the table with a matching pattern. */
  predicate FirstHit(table: seq<Entry>, t: string, i: int)
  {
    0 <= i < |table| && AnyMatch(table[i].patterns, t) &&
    forall j :: 0 <= j < i ==> !AnyMatch(table[j].patterns, t)
  }

  /** The outer loop: the index of the first entry with a matching pattern. */
  function FirstEntry(table: seq<Entry>, t: string): (r: Option<nat>)
    ensures r.None? <==> forall i :: 0 <= i < |table| ==> !AnyMatch(table[i].patterns, t)
    ensures r.Some? ==> FirstHit(table, t, r.value)
  {
    if table == [] then None
    else if AnyMatch(table[0].patterns, t) then Some(0)
    else
      match FirstEntry(table[1..], t)
      case None => None
      case Some(i) =>
        assert forall j :: 1 <= j < |table| ==> table[j] == table[1..][j - 1];
        Some(i + 1)
  }

  /** IntentClassifier.classify: the intent of the first entry that matches
      the lower-cased text, and General when none does. */
  function Classify(text: string): (r: Intent)
    ensures r == General <==> forall i :: 0 <= i < |Patterns()| ==> !AnyMatch(Patterns()[i].patterns, Lower(text))
    ensures r != General ==> exists i :: FirstHit(Patterns(), Lower(text), i) && Patterns()[i].intent == r
  {
    match FirstEntry(Patterns(), Lower(text))
    case None => General
    case Some(i) => Patterns()[i].intent
  }

  /** The table order spelled out: each intent wins exactly when its own
      patterns match and no earlier entry's do. */
  lemma ClassifyCases(text: string)
    ensures var t := Lower(text);
      && (Classify(text) == Distance <==> AnyMatch(DistancePatterns(), t))
      && (Classify(text) == Where <==> !AnyMatch(DistancePatterns(), t) && AnyMatch(WherePatterns(), t))
      && (Classify(text) == MustSee <==>
            !AnyMatch(DistancePatterns(), t) && !AnyMatch(WherePatterns(), t) && AnyMatch(MustSeePatterns(), t))
      && (Classify(text) == Greet <==>
            !AnyMatch(DistancePatterns(), t) && !AnyMatch(WherePatterns(), t) &&
            !AnyMatch(MustSeePatterns(), t) && AnyMatch(GreetPatterns(), t))
      && (Classify(text) == General <==>
            !AnyMatch(DistancePatterns(), t) && !AnyMatch(WherePatterns(), t) &&
            !AnyMatch(MustSeePatterns(), t) && !AnyMatch(GreetPatterns(), t))
  {
    var t := Lower(text);
    var table := Patterns();
    assert table[0].patterns == DistancePatterns();
    assert table[1].patterns == WherePatterns();
    assert table[2].patterns == MustSeePatterns();
    assert table[3].patterns == GreetPatterns();
    if Classify(text) != General {
      var i :| FirstHit(table, t, i) && table[i].intent == Classify(text);
    }
  }

  /** Distance comes first: the text is classified as distance exactly when
      its lower-case form contains a distance phrase, whatever else it matches. */
  lemma DistanceWins(text: string)
    ensures Classify(text) == Distance <==>
      var t := Lower(text);
      Contains(t, "how far") || Contains(t, "distance") || Contains(t, "miles") || Contains(t, "kilometers")
  {
    var t := Lower(text);
    var patterns := DistancePatterns();
    SearchLiteral("how far", t);
    SearchLiteral("distance", t);
    SearchLiteral("miles", t);
    SearchLiteral("kilometers", t);
    assert AnyMatch(patterns, t) <==>
      Search(patterns[0], t) || Search(patterns[1], t) || Search(patterns[2], t) || Search(patterns[3], t);
    ClassifyCases(text);
  }

  /** The entry that decides a classification has a matching pattern. */
  lemma DecidingEntryMatches(text: string)
    ensures Classify(text) == Where ==> AnyMatch(WherePatterns(), Lower(text))
    ensures Classify(text) == MustSee ==> AnyMatch(MustSeePatterns(), Lower(text))
    ensures Classify(text) == Greet ==> AnyMatch(GreetPatterns(), Lower(text))
  {
    var t := Lower(text);
    if Classify(text) != General {
      var i :| FirstHit(Patterns(), t, i) && Patterns()[i].intent == Classify(text);
    }
  }

  /** "where" heads every where pattern. */
  lemma WhereListNeedsWhere(t: string)
    requires AnyMatch(WherePatterns(), t)
    ensures Contains(t, "where")
  {
    var j :| 0 <= j < |WherePatterns()| && Search(WherePatterns()[j], t);
    assert WherePatterns()[j].pieces[0] == "where";
  }

  /** "louvre" ends every must-see pattern. */
  lemma MustSeeListNeedsLouvre(t: string)
    requires AnyMatch(MustSeePatterns(), t)
    ensures Contains(t, "louvre")
  {
    var j :| 0 <= j < |MustSeePatterns()| && Search(MustSeePatterns()[j], t);
    var p := MustSeePatterns()[j];
    if j == 0 {
      var a, b, c := p.left, p.right.left, p.right.right;
      assert Search(a, t) || Search(p.right, t);
      assert Search(p.right, t) ==> Search(b, t) || Search(c, t);
      assert a.pieces[1] == "louvre" && b.pieces[1] == "louvre" && c.pieces[1] == "louvre";
    } else {
      assert p.pieces[|p.pieces| - 1] == "louvre";
    }
  }

  /** The greet pattern is three word alternatives. */
  lemma GreetListNeedsGreeting(t: string)
    requires AnyMatch(GreetPatterns(), t)
    ensures Contains(t, "hi") || Contains(t, "hello") || Contains(t, "bonjour")
  {
    var p := GreetPatterns()[0];
    assert Search(p, t);
    assert Search(p.left, t) || Search(p.right, t);
    assert Search(p.right, t) ==> Search(p.right.left, t) || Search(p.right.right, t);
  }

  /** A where-question always names "where". */
  lemma WhereNeedsWhere(text: string)
    ensures Classify(text) == Where ==> Contains(Lower(text), "where")
  {
    DecidingEntryMatches(text);
    if Classify(text) == Where {
      WhereListNeedsWhere(Lower(text));
    }
  }

  /** A must-see question always names the Louvre. */
  lemma MustSeeNeedsLouvre(text: string)
    ensures Classify(text) == MustSee ==> Contains(Lower(text), "louvre")
  {
    DecidingEntryMatches(text);
    if Classify(text) == MustSee {
      MustSeeListNeedsLouvre(Lower(text));
    }
  }

  /** A greeting always holds one of the three greeting words. */
  lemma GreetNeedsGreeting(text: string)
    ensures Classify(text) == Greet ==>
      var t := Lower(text);
      Contains(t, "hi") || Contains(t, "hello") || Contains(t, "bonjour")
  {
    DecidingEntryMatches(text);
    if Classify(text) == Greet {
      GreetListNeedsGreeting(Lower(text));
    }
  }

  /** Only the lower-cased text matters. */
  lemma ClassifyIgnoresCase(text: string)
    ensures Classify(Lower(text)) == Classify(text)
  {
    LowerIdempotent(text);
  }

  /** A distance question is recognised by its first distance phrase. */
  lemma ClassifyHowFar(text: string)
    requires text == "How far is it in kilometers?"
    ensures Classify(text) == Distance
  {
    assert OccursAt("how far", Lower(text), 0);
    DistanceWins(text);
  }
}
