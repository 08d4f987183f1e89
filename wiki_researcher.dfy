/** The string logic of wiki_researcher.py: condensing the encyclopedia
    research before it goes into the script prompt, rejecting model output
    that carries known garbage markers, and the title and script prompts. */
module WikiResearcher {
  import opened Strings
  import opened SplitJoin
  import opened Prompt

  /** The boundary the research text is cut at. */
  const SentenceBreak := ". "

  /** How many pieces of the research are kept. */
  const KeptPieces := 4

  /** `". "` cannot overlap itself. */
  lemma SentenceBreakBorderFree()
    ensures |SentenceBreak| > 0 && BorderFree(SentenceBreak)
  {
    forall m: nat
      ensures !SelfOverlapAt(SentenceBreak, m)
    {
      if m == 1 {
        assert SentenceBreak[1..] == " " && SentenceBreak[..1] == ".";
      }
    }
  }

  /** `preprocess_wikipedia_research`: split on `". "`, keep the first four
      pieces, join them with `". "` again and append a period. */
  function Condense(research: string): (r: string)
    ensures |r| >= 1 && r[|r| - 1] == '.'
    ensures research == "" ==> r == "."
  {
    Join(Take(Split(research, SentenceBreak), KeptPieces), SentenceBreak) + "."
  }

  /** Research with at most three sentence breaks is kept whole, with a
      period appended; research with more is cut. */
  lemma {:induction false} CondenseShort(research: string)
    ensures Occurrences(research, SentenceBreak) <= 3 <==> Condense(research) == research + "."
  {
    var parts := Split(research, SentenceBreak);
    SentenceBreakBorderFree();
    PiecesCount(research, SentenceBreak);
    JoinOfSplit(research, SentenceBreak);
    if |parts| > KeptPieces {
      JoinSplitCut(research, SentenceBreak, KeptPieces);
    }
  }

  /** The condensed research without its final period is a prefix of the
      research. When there are four or more sentence breaks it stops exactly
      at the fourth: a break follows it in the research, and it holds three. */
  lemma {:induction false} CondensePrefix(research: string)
    ensures var r := Condense(research); r[..|r| - 1] <= research
    ensures var r := Condense(research);
      Occurrences(research, SentenceBreak) >= 4 ==>
        r[..|r| - 1] + SentenceBreak <= research && Occurrences(r[..|r| - 1], SentenceBreak) == 3
  {
    var parts := Split(research, SentenceBreak);
    var body := Join(Take(parts, KeptPieces), SentenceBreak);
    var r := Condense(research);
    assert r[..|r| - 1] == body;
    SentenceBreakBorderFree();
    PiecesCount(research, SentenceBreak);
    if |parts| <= KeptPieces {
      JoinOfSplit(research, SentenceBreak);
    } else {
      var rest := Join(parts[KeptPieces..], SentenceBreak);
      JoinSplitCut(research, SentenceBreak, KeptPieces);
      assert research == (body + SentenceBreak) + rest;
      SplitOfJoin(Take(parts, KeptPieces), SentenceBreak);
      PiecesCount(body, SentenceBreak);
    }
  }

  /** Research made of sentences without breaks inside them condenses to its
      first four sentences and a period. */
  lemma CondenseSentences(sentences: seq<string>)
    requires |sentences| >= 1
    requires forall p | p in sentences :: !Contains(p, SentenceBreak)
    ensures Condense(Join(sentences, SentenceBreak)) == Join(Take(sentences, KeptPieces), SentenceBreak) + "."
  {
    SentenceBreakBorderFree();
    SplitOfJoin(sentences, SentenceBreak);
  }

  /** Research that already ends in a period and has at most three sentence
      breaks comes out ending in two periods. */
  lemma DoubledPeriod(research: string)
    requires Occurrences(research, SentenceBreak) <= 3
    requires |research| >= 1 && research[|research| - 1] == '.'
    ensures var r := Condense(research); |r| >= 2 && r[|r| - 2..] == ".."
  {
    CondenseShort(research);
  }

  /** A single sentence that already ends in a period gets a second one. */
  lemma PeriodDoubled()
    ensures Condense("Done.") == "Done.."
  {
    MissingChar("Done.", SentenceBreak, ' ');
    CondenseSentences(["Done."]);
  }

  /** Marker phrases of output the model should not have produced. */
  const DoubleComparison := "double comparison"
  const UnclearComparison := "unclear comparison"

  /** The sentence shown in place of rejected output. The fragments spell
      exactly the one literal of the source; they are written apart only so
      that the verifier can see the sentence has no letter `u`. */
  const IrrelevantContentError :=
    "Error: The model " + "generated irrelevant " + "content. Please " + "try again with " + "a refined prompt."

  /** The output holds one of the marker phrases. The error sentence holds
      neither (it has no letter `u`), so it is never flagged. */
  predicate Flagged(output: string)
    ensures Flagged(output) ==> output != IrrelevantContentError
  {
    ErrorHasNoU();
    MissingChar(IrrelevantContentError, DoubleComparison, 'u');
    MissingChar(IrrelevantContentError, UnclearComparison, 'u');
    Contains(output, DoubleComparison) || Contains(output, UnclearComparison)
  }

  /** The error sentence has no letter `u`, which both markers have. */
  lemma ErrorHasNoU()
    ensures 'u' !in IrrelevantContentError && 'u' in DoubleComparison && 'u' in UnclearComparison
  {
    assert 'u' !in "Error: The model " && 'u' !in "generated irrelevant ";
    assert 'u' !in "content. Please " && 'u' !in "try again with ";
    assert 'u' !in "a refined prompt.";
    assert DoubleComparison[1] == 'o' && DoubleComparison[2] == 'u';
    assert UnclearComparison[0] == 'u';
  }

  /** The error sentence holds neither marker. */
  lemma ErrorNotFlagged()
    ensures !Flagged(IrrelevantContentError)
  {
  }

  /** `validate_output`: the error sentence for flagged output, the output
      itself otherwise. What it returns is never flagged. */
  function Validate(output: string): (r: string)
    ensures !Flagged(r)
    ensures r == output || r == IrrelevantContentError
  {
    ErrorNotFlagged();
    if Flagged(output) then IrrelevantContentError else output
  }

  /** The result is the error sentence exactly when a marker occurs (or the
      output already was that sentence), and the output itself exactly when
      no marker occurs (or the output was that sentence). */
  lemma ValidateCases(output: string)
    ensures Validate(output) == IrrelevantContentError <==> Flagged(output) || output == IrrelevantContentError
    ensures Validate(output) == output <==> !Flagged(output) || output == IrrelevantContentError
  {
    ErrorNotFlagged();
  }

  /** Validating twice is validating once. */
  lemma ValidateIdempotent(output: string)
    ensures Validate(Validate(output)) == Validate(output)
  {
    ErrorNotFlagged();
  }

  /** `title_template`. */
  const TitleTemplate := Template(["topic"], OneSlot("Write me a YouTube video title about ", "topic", "."))

  /** `script_template`. */
  const ScriptTemplate := Template(
    ["title", "wikipedia_research"],
    TwoSlots(
      "Write me a YouTube video script based on this title: TITLE: ", "title",
      " while leveraging this Wikipedia research: ", "wikipedia_research",
      ". Make it engaging, clear, and informative."))

  /** The title template as a format string; it declares `topic`, its only
      slot. With a topic the prompt holds the topic verbatim; without one,
      rendering fails. */
  lemma TitlePrompt(env: map<string, string>)
    ensures Text(TitleTemplate.segments) == "Write me a YouTube video title about " + ("{" + "topic" + "}") + "."
    ensures WellFormed(TitleTemplate) && TitleTemplate.inputVariables == ["topic"]
    ensures "topic" in env ==>
      Render(TitleTemplate, env) == Rendered("Write me a YouTube video title about " + env["topic"] + ".")
    ensures "topic" !in env ==> Render(TitleTemplate, env) == MissingVariable("topic")
  {
    OneSlotShape("Write me a YouTube video title about ", "topic", ".");
    RenderOneSlot("Write me a YouTube video title about ", "topic", ".", env);
  }

  /** The script template as a format string; it declares `title` and
      `wikipedia_research`, its two slots. The prompt holds both values
      verbatim; rendering fails on the first of them that is missing. */
  lemma ScriptPrompt(env: map<string, string>)
    ensures Text(ScriptTemplate.segments) ==
      "Write me a YouTube video script based on this title: TITLE: " + ("{" + "title" + "}")
      + " while leveraging this Wikipedia research: " + ("{" + "wikipedia_research" + "}")
      + ". Make it engaging, clear, and informative."
    ensures WellFormed(ScriptTemplate) && ScriptTemplate.inputVariables == ["title", "wikipedia_research"]
    ensures "title" in env && "wikipedia_research" in env ==>
      Render(ScriptTemplate, env) == Rendered(
        "Write me a YouTube video script based on this title: TITLE: " + env["title"]
        + " while leveraging this Wikipedia research: " + env["wikipedia_research"]
        + ". Make it engaging, clear, and informative.")
    ensures "title" !in env ==> Render(ScriptTemplate, env) == MissingVariable("title")
    ensures "title" in env && "wikipedia_research" !in env ==>
      Render(ScriptTemplate, env) == MissingVariable("wikipedia_research")
  {
    TwoSlotsShape(
      "Write me a YouTube video script based on this title: TITLE: ", "title",
      " while leveraging this Wikipedia research: ", "wikipedia_research",
      ". Make it engaging, clear, and informative.");
    RenderTwoSlots(
      "Write me a YouTube video script based on this title: TITLE: ", "title",
      " while leveraging this Wikipedia research: ", "wikipedia_research",
      ". Make it engaging, clear, and informative.", env);
  }
}
