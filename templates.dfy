/** The shared prompt templates of utils/templates.py: a title prompt on a
    topic and a script prompt on a title and condensed research. */
module Templates {
  import opened Prompt

  /** `title_template`. */
  const TitleTemplate := Template(
    ["topic"],
    OneSlot("Generate a concise and engaging YouTube video title about: ", "topic", "."))

  /** The closing sentence of the script prompt. */
  const ScriptClosing := ". Make it informative, engaging, and easy to follow."

  /** `script_template`. */
  const ScriptTemplate := Template(
    ["title", "wikipedia_research"],
    TwoSlots(
      "Write a clear, structured YouTube video script based on this title: ", "title",
      ". Use the following Wikipedia research: ", "wikipedia_research",
      ScriptClosing))

  /** The title template as a format string; it declares `topic`, its only
      slot. With a topic the prompt holds the topic verbatim; without one,
      rendering fails. */
  lemma TitlePrompt(env: map<string, string>)
    ensures Text(TitleTemplate.segments) ==
      "Generate a concise and engaging YouTube video title about: " + ("{" + "topic" + "}") + "."
    ensures WellFormed(TitleTemplate) && TitleTemplate.inputVariables == ["topic"]
    ensures "topic" in env ==>
      Render(TitleTemplate, env) == Rendered("Generate a concise and engaging YouTube video title about: " + env["topic"] + ".")
    ensures "topic" !in env ==> Render(TitleTemplate, env) == MissingVariable("topic")
  {
    OneSlotShape("Generate a concise and engaging YouTube video title about: ", "topic", ".");
    RenderOneSlot("Generate a concise and engaging YouTube video title about: ", "topic", ".", env);
  }

  /** The script template as a format string; it declares `title` and
      `wikipedia_research`, its two slots. The prompt holds both values
      verbatim, each followed by a sentence end; rendering fails on the
      first of them that is missing. */
  lemma ScriptPrompt(env: map<string, string>)
    ensures Text(ScriptTemplate.segments) ==
      "Write a clear, structured YouTube video script based on this title: " + ("{" + "title" + "}")
      + ". Use the following Wikipedia research: " + ("{" + "wikipedia_research" + "}")
      + ". Make it informative, engaging, and easy to follow."
    ensures WellFormed(ScriptTemplate) && ScriptTemplate.inputVariables == ["title", "wikipedia_research"]
    ensures "title" in env && "wikipedia_research" in env ==>
      Render(ScriptTemplate, env) == Rendered(
        "Write a clear, structured YouTube video script based on this title: " + env["title"]
        + ". Use the following Wikipedia research: " + env["wikipedia_research"]
        + ". Make it informative, engaging, and easy to follow.")
    ensures "title" !in env ==> Render(ScriptTemplate, env) == MissingVariable("title")
    ensures "title" in env && "wikipedia_research" !in env ==>
      Render(ScriptTemplate, env) == MissingVariable("wikipedia_research")
  {
    TwoSlotsShape(
      "Write a clear, structured YouTube video script based on this title: ", "title",
      ". Use the following Wikipedia research: ", "wikipedia_research",
      ". Make it informative, engaging, and easy to follow.");
    RenderTwoSlots(
      "Write a clear, structured YouTube video script based on this title: ", "title",
      ". Use the following Wikipedia research: ", "wikipedia_research",
      ". Make it informative, engaging, and easy to follow.", env);
  }

  /** Every script prompt the template renders ends with its closing
      sentence, whatever the title and research. */
  lemma ScriptPromptEnding(env: map<string, string>)
    ensures var r := Render(ScriptTemplate, env);
      r.Rendered? ==>
        |r.text| >= |ScriptClosing| && r.text[|r.text| - |ScriptClosing|..] == ScriptClosing
  {
    ScriptPrompt(env);
    if Render(ScriptTemplate, env).Rendered? {
      var front := "Write a clear, structured YouTube video script based on this title: " + env["title"]
        + ". Use the following Wikipedia research: " + env["wikipedia_research"];
      assert Render(ScriptTemplate, env).text == front + ScriptClosing;
      assert (front + ScriptClosing)[|front|..] == ScriptClosing;
    }
  }
}
