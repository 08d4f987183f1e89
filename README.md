# YouTube script researcher: string core

The tool turns a topic into a YouTube title and script. It asks a hosted
language model for a title, fetches an encyclopedia summary of the topic,
condenses that summary, then asks the model for a script. The only logic of
its own lies in three string operations, and this project models and proves
them:

- **Condensing the research** (`preprocess_wikipedia_research`). The text is
  split on `". "`, the first four pieces are kept, they are joined again with
  `". "` and a period is appended. `SplitJoin` models Python's `str.split`
  with an explicit separator: a leftmost-first scan that does not overlap.
  It also models `str.join` and list slicing `[:n]`. `Strings` holds the
  substring search they rest on. The proofs use the fact that `". "` cannot
  overlap itself.
- **Validating model output** (`validate_output`). Output that contains
  `"double comparison"` or `"unclear comparison"` is replaced by a fixed
  error sentence. Any other output passes through unchanged.
- **Rendering the prompt templates**. A template is a list of declared input
  variables and a list of segments. Each segment is literal text or a named
  `{slot}`. Rendering (`template.format(...)`) scans the placeholders in the
  order of the text and fails on the first one that has no value. Otherwise
  it substitutes every value verbatim. A template is well formed when its
  declared variables are exactly its placeholders. All four templates of the
  tool are proved well formed, so on them a missing declared variable is
  the same as a missing placeholder.
  `Prompt` holds this machinery. `WikiResearcher` instantiates it with the
  two templates of `wiki_researcher.py`, and `Templates` with the two shared
  templates of `utils/templates.py`.

Files:
- `strings.dfy` holds module `Strings`.
- `split_join.dfy` holds `SplitJoin`.
- `prompt.dfy` holds `Prompt`.
- `wiki_researcher.dfy` holds `WikiResearcher`.
- `templates.dfy` holds `Templates`.

## Model

| member | source | states |
|---|---|---|
| Strings.Contains | wiki_researcher.py:47 | Python's `d in s`. The empty string is in every string, and no string is in a shorter one. |
| Strings.ContainsIffFound | wiki_researcher.py:47 | `d in s` holds exactly when the leftmost search finds an occurrence. |
| Strings.Find | wiki_researcher.py:41 | Finds the least index at or after `i` where the separator occurs, with no occurrence before it. `None` means there is no occurrence at all from `i` on. |
| SplitJoin.Split | wiki_researcher.py:41 | `research.split(". ")`: there is always at least one piece, and no piece contains the separator. |
| SplitJoin.Join | wiki_researcher.py:42 | `". ".join(...)` starts with the first piece. `JoinOfSplit` and `SplitOfJoin` below make it the inverse of `Split`. |
| SplitJoin.Take | wiki_researcher.py:42 | `sentences[:4]`: returns a prefix of at most `n` pieces. That is the whole list when it is short enough, and exactly `n` pieces otherwise. |
| SplitJoin.JoinOfSplit | wiki_researcher.py:41-42 | Re-joining the pieces of a split with the separator gives back the original string exactly. |
| SplitJoin.SplitOfJoin | wiki_researcher.py:41-42 | Splitting a join gives back the pieces. This needs pieces free of the separator and a separator that cannot overlap itself. |
| SplitJoin.PiecesCount | wiki_researcher.py:41 | For a separator that cannot overlap itself, the number of pieces is one more than the number of occurrences. |
| SplitJoin.CountAtFirst | wiki_researcher.py:41 | The first occurrence accounts for exactly one occurrence. The rest lie after it. |
| SplitJoin.JoinAppend | wiki_researcher.py:42 | Joining two non-empty lists is joining each, with one separator between them. |
| SplitJoin.JoinSplitCut | wiki_researcher.py:41-42 | Cutting the split after `n` pieces: the string is the join of the kept pieces, a separator, then the join of the rest. |
| WikiResearcher.SentenceBreakBorderFree | wiki_researcher.py:41 | `". "` cannot overlap itself. |
| WikiResearcher.Condense | wiki_researcher.py:39-42 | The condensed research always ends with `"."`. Empty research condenses to exactly `"."`. |
| WikiResearcher.CondenseShort | wiki_researcher.py:41-42 | Holds in both directions: the result is the research plus `"."` exactly when the research holds at most three `". "`. |
| WikiResearcher.CondensePrefix | wiki_researcher.py:41-42 | The result without its final period is a prefix of the research. When there are four or more breaks, a break follows that prefix in the research. The prefix holds exactly three breaks, so it stops just before the fourth. |
| WikiResearcher.CondenseSentences | wiki_researcher.py:41-42 | Research built from break-free sentences condenses to its first four sentences, joined, plus `"."`. |
| WikiResearcher.DoubledPeriod | wiki_researcher.py:42 | Short research that already ends in `"."` comes out ending in `".."`. |
| WikiResearcher.PeriodDoubled | wiki_researcher.py:42 | `"Done."` condenses to `"Done.."`. |
| WikiResearcher.Flagged | wiki_researcher.py:47 | The marker test: one of the two phrases occurs. It never holds of the error sentence. `ValidateCases` ties it to the result of `Validate`. |
| WikiResearcher.ErrorHasNoU | wiki_researcher.py:47-48 | The error sentence has no letter `u`, and both markers have one. |
| WikiResearcher.ErrorNotFlagged | wiki_researcher.py:47-48 | The error sentence contains neither marker phrase. |
| WikiResearcher.Validate | wiki_researcher.py:45-49 | Returns either the output itself or the error sentence, and never returns flagged text. |
| WikiResearcher.ValidateCases | wiki_researcher.py:47-49 | The result is the error sentence exactly when a marker occurs (or the output already was that sentence). It is the output unchanged exactly when no marker occurs (or the output was the sentence). |
| WikiResearcher.ValidateIdempotent | wiki_researcher.py:47-49 | Validating twice is validating once. |
| WikiResearcher.TitlePrompt | wiki_researcher.py:56-59 | The title template declares exactly `topic`, its only slot. With a topic, the prompt is `"Write me a YouTube video title about " + topic + "."`. Without one, rendering fails on `topic`. |
| WikiResearcher.ScriptPrompt | wiki_researcher.py:61-68 | The script template declares exactly `title` and `wikipedia_research`, its two slots. The prompt holds both values verbatim between the fixed phrases. Rendering fails on the first missing one. |
| Prompt.FirstMissing | wiki_researcher.py:76 | There is no missing name exactly when every name has a value. Otherwise it reports the first name without a value: every name before it has one. |
| Prompt.Render | wiki_researcher.py:76 | `template.format(...)`: rendering succeeds exactly when every placeholder has a value. Otherwise it fails on the first placeholder, in text order, that has no value. |
| Prompt.RenderDeclared | wiki_researcher.py:56-57 | For a well-formed template, rendering succeeds exactly when every declared input variable has a value. |
| Prompt.SegmentVerbatim | wiki_researcher.py:84 | In a successful rendering, each segment sits in place between the renderings of the segments around it. A slot appears as exactly its value. |
| Prompt.RenderContainsValues | wiki_researcher.py:84 | A successful rendering contains the value of every placeholder. |
| Prompt.ExtraVariablesIgnored | wiki_researcher.py:84 | Two environments that agree on the template's placeholders render alike, so extra keyword arguments change nothing. |
| Prompt.RenderOneSlot | wiki_researcher.py:56-59 | A template with one declared slot between two literals is well formed. It renders to the value between the literals, or fails on that slot. |
| Prompt.RenderTwoSlots | wiki_researcher.py:61-68 | A template with two declared slots separated by literals is well formed. It renders to both values in place, or fails on the first missing name. |
| Templates.TitlePrompt | utils/templates.py:3-6 | The shared title template declares exactly `topic`. With a topic, the prompt is `"Generate a concise and engaging YouTube video title about: " + topic + "."`. Without one, rendering fails. |
| Templates.ScriptPrompt | utils/templates.py:8-15 | The shared script template declares exactly `title` and `wikipedia_research`. The title follows `"based on this title: "` and the research follows `"Use the following Wikipedia research: "`. Each is followed by `". "`. Rendering fails on the first missing variable. |
| Templates.ScriptPromptEnding | utils/templates.py:13 | Every rendered script prompt ends with `". Make it informative, engaging, and easy to follow."`. |

## Left out

- `query_huggingface` (wiki_researcher.py:18-36) is left out because it is network I/O: an HTTP POST with a bearer token, followed by JSON decoding.
- The sampling parameters (temperature, top-k, top-p, repetition penalty, maximum length) are left out. They are passed to the remote service and carry no local logic.
- The encyclopedia lookup (`WikipediaAPIWrapper`, wiki_researcher.py:93 and 102) is left out because it is an external library call. The model takes the research text as a parameter.
- `LLMChain` and `ConversationBufferMemory` (wiki_researcher.py:70-90) are left out because their internals are library code. This includes the chain lambdas that wrap `format`, the model call and `validate_output`. utils/memory.py and utils/chains.py are not part of this model.
- The Streamlit page, its inputs and the run sequence (wiki_researcher.py:52-53 and 96-122) are left out because they are user interface.
- Prompt.Render: the check at construction that the declared variables match the placeholders is the `WellFormed` predicate. It is proved of the four templates rather than performed at run time.
- Prompt.Render: templates are modelled as segment lists, not parsed from format strings. Brace escapes (`{{`) and format specifications are therefore not modelled; none of the four templates uses them. `Text` writes a template back out as its format string.
- SplitJoin.Split requires a non-empty separator. Python raises `ValueError` for an empty one. The only separator used is `". "`.
