# roadmap-content, modelled in Dafny

`scripts/roadmap-content.cjs` fills in the content files of one roadmap.
It works in four steps:

1. It walks the roadmap's content folder. Each regular file goes into a
   dictionary under a *topic URL*, which is the file's path made canonical
   by four text replacements.
2. It keeps the topic groups of the roadmap document.
3. For each group it turns the group's `controlName` into a topic URL in a
   second, independent way, and looks that URL up in the dictionary.
4. If the file it finds is empty apart from a heading, it overwrites it.
   With no API key it writes `# <title>`. With a key it writes the text a
   generator returns for a prompt built from the URL.

The two normalisations must agree, or a topic silently counts as missing.
The walk mutates one shared dictionary in place. The loop over groups
decides per group, and without a key a later group sees what an earlier one
wrote.

The model has seven modules:

- `Strings`: the JavaScript string built-ins the script uses, with their
  ECMAScript meaning. These are `replace` with a string pattern (first
  occurrence only), a global one-character replacement, `split` on one
  character, and `trim` with the full ECMAScript whitespace set.
- `TopicUrl`: both normalisations, plus the theorem that they agree.
  - Path side: the root prefix goes, then a left-to-right non-overlapping
    scan for `/<digits>-`, then a trailing `/index.md`, then a trailing `.md`.
  - controlName side: a leading `<digits>-` goes, and every `:` becomes `/`.
- `ContentIndex`: the directory tree as a datatype (`Dir`, `File`, `Other`),
  the visiting order, and the dictionary it builds.
  - `getFilesInFolder` is the class `TopicIndex`. Its field `fileList` is
    updated in place by a recursive method with a loop over the listing.
  - That method is proved against a fold over the visited file paths.
- `Roadmap`: the controls of the roadmap document, the group filter, and the
  `find` of the first `Label`.
- `Content`: the emptiness test `replace(/^#.+/, '').trim() === ''`.
- `Prompt`: the topic split, the roadmap title and the fixed prompt text of
  `writeTopicContent`.
- `Orchestrator`: `writeFileForGroup` as a pure decision that returns an
  `Outcome` (`Skip | Missing | NotEmpty | WritePlaceholder | Generate`).
  - The loop of `run` is a method proved against a specification function.
  - The whole run is done with its generator answers and its exit status.

## Model

| member | source | states |
|---|---|---|
| Strings.RemoveFirst | scripts/roadmap-content.cjs:39 | `s.replace(pattern, '')` with a string pattern: the first occurrence of the pattern is cut out, and a string without it is returned unchanged |
| Strings.Trim | scripts/roadmap-content.cjs:125 | `trim()`: whitespace removed from both ends |
| Strings.FindFrom | scripts/roadmap-content.cjs:39 | finds the first occurrence of the pattern at or after the start position, or reports that there is none |
| Strings.RemoveFirstOfPrefix | scripts/roadmap-content.cjs:39 | removing the content root from a path that starts with it leaves exactly the rest of the path |
| Strings.ReplaceChar | scripts/roadmap-content.cjs:59 | a global one-character replacement keeps the length and changes exactly the matching characters |
| Strings.ReplaceCharJoin | scripts/roadmap-content.cjs:112 | joining on one separator and then replacing it by another is the same as joining on the other |
| Strings.Split | scripts/roadmap-content.cjs:61 | `split` always gives at least one part, and no part contains the separator |
| Strings.JoinSplit | scripts/roadmap-content.cjs:61 | `split` followed by `join` gives back the original string |
| Strings.SplitJoin | scripts/roadmap-content.cjs:61 | splitting a join of separator-free parts gives back the parts |
| Strings.TrimStart | scripts/roadmap-content.cjs:125 | the result is a suffix, everything cut off was whitespace, and the result does not start with whitespace |
| Strings.TrimEnd | scripts/roadmap-content.cjs:125 | the result is a prefix, everything cut off was whitespace, and the result does not end with whitespace |
| Strings.TrimIsEmpty | scripts/roadmap-content.cjs:125 | `trim()` yields `''` if and only if every character is whitespace |
| TopicUrl.DropOrdering | scripts/roadmap-content.cjs:40 | a path segment without its leading `<digits>-`, or the segment itself when it has none |
| TopicUrl.StripIndexFile | scripts/roadmap-content.cjs:41 | cuts a trailing `/index.md`, and leaves any other path unchanged |
| TopicUrl.StripMarkdownExtension | scripts/roadmap-content.cjs:42 | cuts a trailing `.md`, and leaves any other path unchanged |
| TopicUrl.StripSuffixes | scripts/roadmap-content.cjs:41-42 | the two suffix replacements in source order: `/index.md` first, then `.md` |
| TopicUrl.ContentUrl | scripts/roadmap-content.cjs:38-42 | the topic URL of a content file: the content root removed, then the ordering scan, then the two suffix replacements |
| TopicUrl.StripLeadingOrdering | scripts/roadmap-content.cjs:112 | `replace(/^\d+-/g, '/')`: a `<digits>-` at the very start becomes `/`; nothing else changes |
| TopicUrl.ControlNameToUrl | scripts/roadmap-content.cjs:112 | the topic URL of a controlName: the leading ordering prefix becomes `/`, then every `:` becomes `/` |
| TopicUrl.DigitRun | scripts/roadmap-content.cjs:40 | gives the length of the maximal run of digits at the start (the greedy `\d+`) |
| TopicUrl.OrderingDigits | scripts/roadmap-content.cjs:40 | a positive result means the segment starts with `<digits>-` with exactly that many digits |
| TopicUrl.StripOrdering | scripts/roadmap-content.cjs:40 | the scan never makes a path longer |
| TopicUrl.StripOrderingSlashed | scripts/roadmap-content.cjs:40 | on `/s0/…/sk`, each `/`-separated segment loses its own ordering prefix and nothing else |
| TopicUrl.StripOrderingBySegments | scripts/roadmap-content.cjs:40 | for any string, the text before the first `/` is kept and each later segment loses at most one leading `<digits>-` |
| TopicUrl.StripOrderingAppend | scripts/roadmap-content.cjs:40 | the scan never matches across a `/`, so a path that continues with `/` is rewritten piece by piece |
| TopicUrl.StripOrderingUnchanged | scripts/roadmap-content.cjs:40 | a path where no `/` is followed by a digit is left unchanged |
| TopicUrl.TwoOrderedSegments | scripts/roadmap-content.cjs:40 | `/p-a/q-b` with digit strings p and q becomes `/a/b` |
| TopicUrl.StripOrderingExample | scripts/roadmap-content.cjs:40 | `/101-a/5-b.md` becomes `/a/b.md` |
| TopicUrl.OnePrefixPerSegment | scripts/roadmap-content.cjs:40 | `/p-q-a` becomes `/q-a`; a second pass gives `/a`, so the rewrite is not idempotent |
| TopicUrl.NotIdempotentExample | scripts/roadmap-content.cjs:40 | `/1-2-a` becomes `/2-a`, and a second pass gives `/a` |
| TopicUrl.InnerPrefix | scripts/roadmap-content.cjs:40 | a segment `q-a` after a `/` loses its prefix |
| TopicUrl.IndexFileIsFolder | scripts/roadmap-content.cjs:41 | for a folder path not ending in `.md`, `…/index.md` is removed entirely, so the file stands for its folder (a folder `a.md` would also lose `.md` at line 42) |
| TopicUrl.MarkdownExtensionDropped | scripts/roadmap-content.cjs:41-42 | if the path does not end in `/index.md`, only the trailing `.md` goes |
| TopicUrl.OtherExtensionsKept | scripts/roadmap-content.cjs:41-42 | a path not ending in `.md` keeps its suffix unchanged |
| TopicUrl.ContentUrlOf | scripts/roadmap-content.cjs:38-42 | a path under the content root is normalised as its root-relative rest |
| TopicUrl.ContentUrlTwoOrdered | scripts/roadmap-content.cjs:38-42 | `<root>/p-a/q-b.md` is registered under `/a/b` |
| TopicUrl.ContentUrlOrderedExample | scripts/roadmap-content.cjs:38-42 | `<root>/101-a/5-b.md` is registered under `/a/b` |
| TopicUrl.ContentUrlOfIndexFile | scripts/roadmap-content.cjs:38-42 | a folder's `index.md` gets its folder's stripped path |
| TopicUrl.ContentUrlOfOtherFile | scripts/roadmap-content.cjs:38-42 | a non-Markdown file with no ordering prefixes keeps its root-relative path as its URL |
| TopicUrl.ControlNameToUrlShape | scripts/roadmap-content.cjs:112 | the URL is no longer than the id and has no `:`, and it is empty exactly when the id is; with a `<digits>-` prefix it is `/` plus the rest with every `:` as `/`, and without one it is the id with every `:` as `/` |
| TopicUrl.ControlNameToUrlIdempotent | scripts/roadmap-content.cjs:58-59 | the second pass of the same two replacements in `writeTopicContent` changes nothing |
| TopicUrl.ControlNamePrefixed | scripts/roadmap-content.cjs:112 | `<digits>-rest` becomes `/` followed by rest, with every `:` turned into `/` |
| TopicUrl.ControlNameTwoNames | scripts/roadmap-content.cjs:112 | `p-a:b` becomes `/a/b` |
| TopicUrl.ControlNamePrefixedExample | scripts/roadmap-content.cjs:112 | `5-foo:bar` becomes `/foo/bar` |
| TopicUrl.ControlNamePlainExample | scripts/roadmap-content.cjs:112 | `foo:bar` becomes `foo/bar`, with no leading slash |
| TopicUrl.ControlNameInnerPrefixExample | scripts/roadmap-content.cjs:112 | only the leading prefix goes: `5-a:6-b` becomes `/a/6-b` |
| TopicUrl.ContentSide | scripts/roadmap-content.cjs:38-40 | a content file named by prefixed segments loses its root and every ordering prefix |
| TopicUrl.ControlSide | scripts/roadmap-content.cjs:112 | the controlName `p0-n0:n1:…:nk` becomes `/n0/…/nk` |
| TopicUrl.JoinAgreement | scripts/roadmap-content.cjs:38-42 | the content file of a topic and that topic's controlName (line 112) normalise to the same URL `/n0/…/nk`, for a leaf file and for an index file |
| TopicUrl.JoinExample | scripts/roadmap-content.cjs:38-42 | `<root>/5-foo/2-bar.md` and `5-foo:bar` both give `/foo/bar` |
| ContentIndex.ChildPath | scripts/roadmap-content.cjs:32 | `path.join(folder, name)` for a normalised folder and a plain name: `folder/name` |
| ContentIndex.FilePaths | scripts/roadmap-content.cjs:31-37 | the paths of the regular files under a listing, in the order the recursive walk visits them; folders are entered where they are listed |
| ContentIndex.EntryPaths | scripts/roadmap-content.cjs:35-37 | a folder contributes the files under it, a regular file its own path, and any other entry nothing |
| ContentIndex.Register | scripts/roadmap-content.cjs:44 | `fileList[fileUrl] = filePath` for each path in turn, so a later path overwrites an earlier one with the same URL |
| ContentIndex.IndexOf | scripts/roadmap-content.cjs:28-49 | the dictionary of one walk over the tree, starting from the default empty `fileList` |
| ContentIndex.RegisterKeys | scripts/roadmap-content.cjs:44 | after registering a list of paths, the keys are the old keys plus the URLs of those paths, and nothing else |
| ContentIndex.RegisterElsewhere | scripts/roadmap-content.cjs:44 | a URL that none of the paths normalises to keeps its old entry, or stays absent |
| ContentIndex.RegisterLastWins | scripts/roadmap-content.cjs:44 | a URL is mapped to the last path registered under it |
| ContentIndex.RegisterValues | scripts/roadmap-content.cjs:44 | every value is a registered path whose URL is its key, or was already in the old dictionary |
| ContentIndex.IndexContents | scripts/roadmap-content.cjs:28-49 | the keys of the index are exactly the topic URLs of the tree's regular files, and each key leads to such a file with that URL |
| ContentIndex.LeafFileUrl | scripts/roadmap-content.cjs:38-42 | `<root>/n.md` is registered under `/n`, for a non-empty slash-free n that does not start with a digit and is not `index` |
| ContentIndex.FolderIndexUrl | scripts/roadmap-content.cjs:38-42 | `<root>/n/index.md` is registered under `/n`, for a non-empty slash-free n that does not start with a digit and does not end in `.md` |
| ContentIndex.CollisionKeepsLater | scripts/roadmap-content.cjs:28-49 | for a file `n.md` followed by a folder `n` with `index.md`, the index holds one entry, `/n`, leading to the later-visited `n/index.md` |
| ContentIndex.FilesAreNotDirs | scripts/roadmap-content.cjs:35-37 | in a well-formed tree no regular file has the path of a folder |
| ContentIndex.IndexValuesAreFiles | scripts/roadmap-content.cjs:35-44 | every value of the index is a regular file of the tree, never a folder |
| ContentIndex.TopicIndex.constructor | scripts/roadmap-content.cjs:28 | the walk starts from an empty `fileList` |
| ContentIndex.TopicIndex.GetFilesInFolder | scripts/roadmap-content.cjs:28-49 | the in-place dictionary ends as the old one with every file under the folder registered, in visiting order |
| ContentIndex.TopicIndex.VisitEntry | scripts/roadmap-content.cjs:31-45 | a folder registers all its files, a regular file registers itself under its URL, and any other entry changes nothing |
| ContentIndex.BuildIndex | scripts/roadmap-content.cjs:153 | the dictionary of the walk from the content root is the index of the tree |
| Roadmap.IsTopicGroup | scripts/roadmap-content.cjs:160-162 | `typeID === '__group__'` and no controlName starting with `ext_link`; an absent controlName passes |
| Roadmap.TopicTitle | scripts/roadmap-content.cjs:109-111 | the `text` of the first `Label` child, absent when there is no such child or it has no text |
| Roadmap.TopicGroups | scripts/roadmap-content.cjs:159-163 | every kept control is one of the input controls and is a topic group |
| Roadmap.TopicGroupsMembers | scripts/roadmap-content.cjs:159-163 | a control is kept if and only if it is a `__group__` whose controlName does not start with `ext_link` |
| Roadmap.TopicGroupsCount | scripts/roadmap-content.cjs:159-163 | each topic group is kept as many times as it occurs, and nothing else is kept |
| Roadmap.TopicGroupsAppend | scripts/roadmap-content.cjs:159-163 | the filter keeps document order |
| Roadmap.ExternalLinksExcluded | scripts/roadmap-content.cjs:162 | an `ext_link` control is never among the groups |
| Roadmap.FindLabel | scripts/roadmap-content.cjs:109-111 | absent exactly when no child is a `Label`; otherwise it is a `Label` child with no `Label` before it |
| Roadmap.TitleOfFirstLabel | scripts/roadmap-content.cjs:109-111 | the title is the text of the first `Label`, whatever later labels say |
| Content.IsEmptyContent | scripts/roadmap-content.cjs:125 | `isFileEmpty`: after the heading is removed, `trim()` leaves nothing |
| Content.StripHeading | scripts/roadmap-content.cjs:125 | only a leading `#` plus at least one non-newline character, up to the line end, is removed; anything else is left unchanged |
| Content.EmptyIffBlankBody | scripts/roadmap-content.cjs:125 | the content is empty if and only if what follows the heading is all whitespace |
| Content.HeadingThenBody | scripts/roadmap-content.cjs:125 | `#title` followed by a body has that body after stripping, and is empty if and only if the body is whitespace |
| Content.EmptyWithoutHeading | scripts/roadmap-content.cjs:125 | text not starting with `#` is empty if and only if it is all whitespace |
| Content.PlaceholderIsEmpty | scripts/roadmap-content.cjs:132 | the placeholder `# <one-line title>` itself counts as empty |
| Content.HeadingWithBlankLinesIsEmpty | scripts/roadmap-content.cjs:125 | `# Title\n\n   \n` is empty |
| Content.NothingIsEmpty | scripts/roadmap-content.cjs:125 | `""` is empty |
| Content.HeadingWithTextIsNotEmpty | scripts/roadmap-content.cjs:125 | `# Title\nSome text` is not empty |
| Content.BareHashIsNotEmpty | scripts/roadmap-content.cjs:125 | `#\n` is not empty, because `.+` needs a character after `#` |
| Prompt.DropLeadingSlash | scripts/roadmap-content.cjs:60 | `replace(/^\//, '')`: one leading `/` goes |
| Prompt.LastTwoTopics | scripts/roadmap-content.cjs:61-63 | `split('/').slice(-2)`, each part with hyphens as spaces; the child is absent when there is only one part |
| Prompt.SplitTopics | scripts/roadmap-content.cjs:57-63 | the whole chain of `writeTopicContent` that gives `[parentTopic, childTopic]` |
| Prompt.RoadmapTitle | scripts/roadmap-content.cjs:65 | the roadmap id with every hyphen as a space |
| Prompt.Template | scripts/roadmap-content.cjs:67-75 | the fixed prompt text, with the roadmap title in its two places |
| Prompt.TopicLine | scripts/roadmap-content.cjs:77-81 | `First topic is: <parent>` when the child is absent or empty, otherwise `First topic is: <child> under <parent>` |
| Prompt.BuildPrompt | scripts/roadmap-content.cjs:65-81 | the prompt sent for a topic URL: the template for the roadmap title, followed by the topic line |
| Prompt.Spaced | scripts/roadmap-content.cjs:63 | the hyphen-to-space replacement keeps the length and leaves no hyphen |
| Prompt.SecondPassChangesNothing | scripts/roadmap-content.cjs:57-60 | re-applying the controlName replacements to an already-computed URL only leaves the leading-slash removal and the split |
| Prompt.LastTwoOfJoin | scripts/roadmap-content.cjs:61-63 | the topics of `n0/…/nk` are the last two names, shown with spaces, or just the one name |
| Prompt.TopicsOfUrl | scripts/roadmap-content.cjs:57-63 | for the URL `/n0/…/nk`, the parent is the second-to-last name and the child is the last; a one-name URL has no child |
| Prompt.NestedTopicLine | scripts/roadmap-content.cjs:77-81 | a nested topic gives `First topic is: <child> under <parent>` |
| Prompt.TopLevelTopicLine | scripts/roadmap-content.cjs:77-78 | a one-name URL gives `First topic is: <parent>` |
| Prompt.EmptyChildTopicLine | scripts/roadmap-content.cjs:77-78 | an empty child (trailing `/`) falls back to `First topic is: <parent>` |
| Prompt.PromptOfTopic | scripts/roadmap-content.cjs:65-81 | the prompt is the fixed text with the hyphen-free roadmap title in it, followed by the topic line |
| Orchestrator.Placeholder | scripts/roadmap-content.cjs:132 | `# ${topicTitle}`, with an absent title rendered as `undefined` |
| Orchestrator.DecideGroup | scripts/roadmap-content.cjs:107-144 | `writeFileForGroup` up to its write, with its early returns in source order: no URL, no mapped file, a file with content, then a placeholder with no key or a request with one |
| Orchestrator.Overlay | scripts/roadmap-content.cjs:134-139 | the files as a later group reads them: the placeholders already written, else the files as they were |
| Orchestrator.AfterOutcome | scripts/roadmap-content.cjs:137 | the written files after one outcome: a placeholder adds or overwrites its file, any other outcome adds nothing |
| Orchestrator.AnyFailed | scripts/roadmap-content.cjs:177 | `Promise.all` rejects: some group made a request whose answer is a failure |
| Orchestrator.Settle | scripts/roadmap-content.cjs:141-144 | each answer that lands is written verbatim to its request's file, in group order |
| Orchestrator.RunWith | scripts/roadmap-content.cjs:152-187 | the run on a given index: no control list gives status 1 and no writes; otherwise the filter, the loop and the settling of answers, with status 1 exactly when some request failed |
| Orchestrator.RunSpec | scripts/roadmap-content.cjs:152-177 | the run on the index of the content tree |
| Orchestrator.SkipIff | scripts/roadmap-content.cjs:108-115 | a group is skipped if and only if its controlName is absent or empty |
| Orchestrator.MissingIff | scripts/roadmap-content.cjs:117-122 | a named group is reported missing, under its own URL, if and only if the index has no non-empty path for that URL |
| Orchestrator.WritesOnlyEmptyMappedFile | scripts/roadmap-content.cjs:117-144 | a write or a request targets only the indexed file of the group's own URL, and only when that file reads as empty |
| Orchestrator.NonEmptyFileIgnored | scripts/roadmap-content.cjs:124-130 | a mapped file with content gives `NotEmpty(id)`, whatever the key and the title |
| Orchestrator.EmptyFileFilled | scripts/roadmap-content.cjs:132-144 | an empty mapped file gets `# <label text>` with no key, or a request with the prompt for the URL with a key |
| Orchestrator.NoLabelPlaceholder | scripts/roadmap-content.cjs:132 | a group without a `Label` child gets the literal `# undefined` |
| Orchestrator.NoKeyNoRequest | scripts/roadmap-content.cjs:134-139 | without a key the generator is never asked |
| Orchestrator.ReadsOnlyOwnFile | scripts/roadmap-content.cjs:124 | the decision depends on no file other than the group's own |
| Orchestrator.Decisions | scripts/roadmap-content.cjs:171-174 | there is one outcome per group |
| Orchestrator.DecideAll | scripts/roadmap-content.cjs:171-174 | the loop's outcomes and placeholders are those of the group-by-group specification |
| Orchestrator.Run | scripts/roadmap-content.cjs:152-177 | the script's result is the specified run on the index of the tree |
| Orchestrator.DecisionsSafe | scripts/roadmap-content.cjs:171-174 | even when groups read earlier placeholders, every placeholder and request targets an indexed file that was empty before the run |
| Orchestrator.SettleSafe | scripts/roadmap-content.cjs:177 | writing the generator's answers keeps every written file an indexed file that was empty before the run |
| Orchestrator.RunWritesOnlyEmptyMappedFiles | scripts/roadmap-content.cjs:152-177 | a run writes only files of the index that counted as empty before it |
| Orchestrator.RunWritesOnlyRegularFiles | scripts/roadmap-content.cjs:152-177 | in a well-formed tree, every file a run writes is a regular file of the tree and never a folder |
| Orchestrator.NonEmptyFileUnchanged | scripts/roadmap-content.cjs:127-130 | a file with content before the run has the same content after it |
| Orchestrator.DecisionsWithoutKey | scripts/roadmap-content.cjs:134-139 | without a key no outcome of the loop is a request |
| Orchestrator.RunWithoutKey | scripts/roadmap-content.cjs:165-177 | without a key a run exits with status 0, asks nothing, and writes exactly the loop's placeholders |
| Orchestrator.DecisionsWithKey | scripts/roadmap-content.cjs:141 | with a key nothing is written during the loop, and each group decides on the files as they were before the run |
| Orchestrator.FailingGeneratorFailsRun | scripts/roadmap-content.cjs:184-187 | with a key, if some group gets as far as a request and the generator always fails, the run exits with status 1 and writes nothing |
| Orchestrator.AnswerWrittenVerbatim | scripts/roadmap-content.cjs:141-144 | if an answer lands and no later request targets the same file, that file ends holding exactly the generator's text |
| Orchestrator.RunOfTwo | scripts/roadmap-content.cjs:171-177 | a keyless run over two groups gives their two outcomes in order, with the second deciding on what the first wrote |
| Orchestrator.TwoGroupsWithoutKey | scripts/roadmap-content.cjs:132-139 | with no key, an empty first file ends holding `# <title>`, a second file with content is unchanged, and the run exits with status 0 |

## Left out

- Startup (lines 7-19) is left out: the argument check, the list of allowed
  roadmap ids, and their exits. The roadmap id is a parameter of the model.
- All file-system access is replaced by inputs and outputs:
  - `readdirSync` and `statSync` become the `Entry` tree, taken in the order
    the listing gives it;
  - symbolic links are not represented. `statSync` follows them, so a link
    cycle would make lines 35-36 recurse without end or fail, and a
    dangling link would make `statSync` throw and end the run with
    status 1. The walk over the finite `Entry` tree always terminates;
  - `readFileSync` becomes the function `disk` from path to text, with no
    UTF-8 decoding;
  - `writeFileSync` becomes the outcomes and the `written` map;
  - the `require` of the roadmap document becomes `controls`. A document
    without a control list (`None`) ends with status 1, because the
    `for … of` over `undefined` throws.
- `path.join` is `ChildPath`, a plain `folder + "/" + name` with no
  normalisation.
  - The content root is replaced by its first textual occurrence, as
    `String.prototype.replace` with a string pattern does.
- The OpenAI client (lines 22-26 and 85-104) is left out. Its answer to
  request i is the input `reply(i)`, either `Generated(text, beforeExit)` or
  `Failed`.
  - A response with no `choices` is a `Failed`.
  - A null `content` is not modelled apart from text.
  - The client is taken to be constructed without error when there is no
    key (line 24). The SDK version is not part of this model. If its
    constructor throws without an API key, a keyless run ends with an
    error before the walk, not with placeholders and status 0 as
    Orchestrator.RunWithoutKey states.
- `Promise.all` (line 177), concurrency and answer order are left out:
  - answers land in group order;
  - two requests for one file are settled in that order;
  - the immediate `process.exit(1)` on a failure is represented by
    `beforeExit`, which says whether a landing answer was written before the
    exit.
- All console output is left out, including the messages at lines 83, 120,
  128, 135, 143, 166-168, 176, 182 and 185.
- Some JavaScript object quirks are left out:
  - keys such as `__proto__` or `constructor` that `fileList` or the URL
    lookup would inherit;
  - a `controlName` that is not a string;
  - optional chaining over fields that are not objects.
  A control's fields are modelled as present or absent strings, and an
  absent children list as an empty one.
- TopicUrl.JoinAgreement: only stated for names with no `/` and no `:`. Its
  conditions also say that a leaf file is not called `index` and that an
  index file's folder name does not end in `.md`. A `:` in a folder name
  stays a `:` on the path side but becomes `/` on the controlName side.
- Two behaviours of the code are easy to miss, and the model keeps both:
  - A group without a label gets the literal `# undefined` (line 132).
  - A failed generation calls `process.exit(1)` at once (line 186). So
    requests still in flight never write unless `beforeExit` says they
    landed first.
