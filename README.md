# A verified model of the Anthropic documentation scraper

`scrape.py` downloads the documentation of three sources into one directory tree. Each
source has a directory name, an index document (`llms.txt`) and a URL prefix to strip. For
each source the scraper:

- reads the Markdown links that end in `.md` from the index document (`extract_urls`);
- for the Claude Code source, files every document under the section it is listed in, read
  from a documentation map (`parse_docs_map`, with `normalize` for section titles);
- derives each document's path (`derive_path`);
- does not download API reference documents for the Go, Java, Kotlin and Ruby SDKs
  (`SDK_SKIP`);
- saves the rest, counting `ok`, `fail` and `skip`.

Before the run it removes the three source directories; when one of their names is taken
by an existing entry that is not a directory, `shutil.rmtree` raises and the program exits with 1
before any request. At the end it exits with 1 when an empty `.md` file is left or anything
failed.

The model is written in Dafny and split by concern:

| file | module | what it holds |
|---|---|---|
| `wrappers.dfy` | `Wrappers` | `Option` |
| `strings.dfy` | `Strings` | `startswith`, `removeprefix`, `strip`, `rfind` and `splitlines` |
| `links.dfy` | `Links` | `extract_urls` |
| `sections.dfy` | `Sections` | `normalize` |
| `docsmap.dfy` | `DocsMap` | `parse_docs_map` |
| `paths.dfy` | `Paths` | `derive_path` and the SDK filter |
| `scrape.dfy` | `Scrape` | `main` |

### The modules

- **`extract_urls`** becomes a left-to-right scanner, `FindAll`, that follows the link
  pattern `\[.*?\]\((https://[^)]+\.md)\)` literally, followed by `Dedup`.
  - The label takes the shortest match and never crosses a newline.
  - The URL runs from `(` to the next `)`.
  - After a match the search resumes right after its `)`.
  - The lemmas relate the scanner to a declarative `IsLink` predicate, in both directions:
    - everything found is a link;
    - with no link present, nothing is found;
    - the first result is the leftmost link, with its shortest label.
- **`parse_docs_map`** is a `for` loop over the lines in `ParseDocsMap`. Its branches are
  those of the source.
  - `Classify` reads a line the way the loop body does: a header with its normalised
    section, an entry with its name, or anything else.
  - The loop is proved equal to a fold `Scan` over the classified lines.
  - That fold is then described declaratively: which header is in force at each line
    (`LastHeader`, `SectionBefore`) and which lines record an entry (`Records`).
- **`main`** is a method `ScrapeAll`: the purge loop, then the loop over the sources
  (`ScrapeSource`), whose inner loop over the documents is `FetchDocuments`.
  - The methods are proved equal to folds (`PurgeDirs`, `RunFrom`, `Docs`). A purge that
    raises (`PurgeRaises`) ends the method with status 1; `MainStatus` is the status either
    way.
  - The properties of the run are lemmas about these folds: the counters, the totals, the
    exit status, which files the run leaves, and which URLs are requested.

### The outside world

The network and the file system are a `World` value given as input:

- `pages`: the body of every URL whose fetch succeeds (a URL that is absent fails);
- `unwritable`: the output paths whose write fails;
- `before`: the files under the output directory before the run, keyed by path relative to
  it.

The run state records the files and the list of URLs requested, so it can be stated that
skipped documents are never requested.

### Index failures

An index that cannot be fetched adds 1 to `totals["fail"]` (scrape.py:152-153). It
therefore makes the run exit with 1 (scrape.py:213). The model follows this code.

## Model

| member | source | states |
|---|---|---|
| Strings.IsSpace | scrape.py:70 | `str.isspace()` on one character; no contract of its own, it is the set `Strip`, `LeadingSpaces` and `StripEnd` are stated over |
| Strings.RemovePrefix | scrape.py:81 | `url.removeprefix(strip)`: when `s` starts with the prefix, the prefix followed by the result is `s`; otherwise the result is `s` |
| Strings.Strip | scrape.py:70 | `str.strip()`: the result neither starts nor ends with white space, and it is a slice of `s` with only white space before and after it |
| Strings.LeadingSpaces | scrape.py:70 | the number of leading white-space characters: all of those are white space and the next one is not |
| Strings.StripEnd | scrape.py:70 | `rstrip`: a prefix of `s` not ending in white space, with only white space after it |
| Strings.SplitLines | scrape.py:67 | `text.splitlines()`: no line holds a `\n` |
| Strings.JoinSplitLines | scrape.py:67 | joining the lines with `\n` after each gives the text back, with a final `\n` added when it had none |
| Strings.SplitJoinLines | scrape.py:67 | lines free of `\n`, joined and split again, are the same lines |
| Links.LinkTail | scrape.py:54 | where it answers, the text after the label reads `](`, a URL matching `https://[^)]+\.md`, then `)` |
| Links.LinkTailComplete | scrape.py:54 | the URL ends at the first `)` after `](`, so wherever the rest of the pattern matches, `LinkTail` finds it |
| Links.LabelEnd | scrape.py:54 | the lazy label `.*?`: the close it finds is at or after where it starts, no newline precedes it, and the rest of the pattern matches there |
| Links.LabelEndComplete | scrape.py:54 | the label scan stops no later than the close of any link opened before it |
| Links.MatchAt | scrape.py:54 | a match found at `p` is a link of the pattern opening at `p` |
| Links.MatchAtComplete | scrape.py:54 | every link opening at `p` is matched there, with a label no longer than its own |
| Links.MatchAtShortest | scrape.py:54 | among the links opening at `p`, the match is the one with the shortest label |
| Links.FindAll | scrape.py:54 | every URL `re.findall` returns starts with `https://`, ends with `.md` and holds no `)` |
| Links.FindAllMatch | scrape.py:54 | proof step, an unfolding of `FindAll`: where a match opens, its URL is found first and the search resumes after its `)` |
| Links.FindAllNoMatch | scrape.py:54 | proof step, an unfolding of `FindAll`: where no match opens, the search moves one character on |
| Links.FindAllSound | scrape.py:54 | every URL found is the URL of a link opening at or after the search start |
| Links.FindAllNone | scrape.py:54 | with no link after the search start, nothing is found |
| Links.FindAllNonEmpty | scrape.py:54 | with some link after the search start, something is found |
| Links.FindAllLeftmost | scrape.py:54 | the first URL found is that of the leftmost link, with its shortest label, and the search resumes after that link: matches do not overlap |
| Links.Dedup | scrape.py:55 | `list(dict.fromkeys(urls))`: no value twice, and exactly the values of the input |
| Links.DedupFirstOccurrenceOrder | scrape.py:55 | the kept values are in the order of their first occurrences in the input |
| Links.DedupDistinct | scrape.py:55 | a sequence without repeats is left unchanged |
| Links.DedupIdempotent | scrape.py:55 | deduplicating twice is deduplicating once |
| Links.ExtractUrls | scrape.py:52-55 | no URL twice; exactly the URLs the pattern matches; each one matches the URL group |
| Links.ExtractedUrlsAreLinks | scrape.py:52-55 | every extracted URL starts with `https://`, ends with `.md`, holds no `)`, and stands in the text as the URL of a `[label](url)` link |
| Links.ExtractedUrlsInFirstOccurrenceOrder | scrape.py:55 | the extracted URLs keep the order of their first matches |
| Links.ExtractUrlsDedupStable | scrape.py:55 | deduplicating the result again changes nothing |
| Links.ExtractUrlsEmpty | scrape.py:52-55 | nothing is extracted exactly when the text holds no link of the pattern |
| Sections.Normalize | scrape.py:58-60 | `normalize`; no contract of its own, specified by `NormalizeIsByChar`, `NormalizeAlphabet`, `NormalizeFixpoint`, `NormalizeIdempotent` and `NormalizeConcat` |
| Sections.Lower | scrape.py:60 | `name.lower()` on ASCII letters; no contract of its own, specified through `NormalizeIsByChar`, which compares it character by character with `NormalizeByChar` |
| Sections.Hyphenate | scrape.py:60 | `.replace(' ', '-')`; no contract of its own, specified through `NormalizeIsByChar` |
| Sections.KeepSectionChars | scrape.py:60 | `re.sub(r'[^a-z0-9-]', '', s)`: the result is no longer than `s` and made only of `[a-z0-9-]` |
| Sections.KeepSectionCharsConcat | scrape.py:60 | the character filter distributes over concatenation |
| Sections.NormalizeConcat | scrape.py:58-60 | `normalize` distributes over concatenation |
| Sections.NormalizeIsByChar | scrape.py:58-60 | lowercasing, hyphenating and filtering agree with the character-by-character reference `NormalizeByChar` |
| Sections.NormalizeByCharConcat | scrape.py:58-60 | the reference definition distributes over concatenation |
| Sections.NormalizeAlphabet | scrape.py:58-60 | every character of a normalised name is in `[a-z0-9-]` |
| Sections.KeepSectionCharsFixpoint | scrape.py:60 | the filter leaves a string of `[a-z0-9-]` unchanged |
| Sections.NormalizeFixpoint | scrape.py:58-60 | a name of `[a-z0-9-]` is its own normal form |
| Sections.NormalizeIdempotent | scrape.py:58-60 | normalising twice is normalising once |
| Sections.NormalizeGettingStarted | scrape.py:59 | `'Getting Started' -> 'getting-started'` |
| Sections.NormalizeSdksAndTools | scrape.py:58-60 | `SDKs & Tools!` normalises to `sdks--tools` |
| DocsMap.Step | scrape.py:69-74 | one pass of the loop body; no contract of its own, specified by `StepMapping`, `StepInactive` and `SubsectionKeepsSection` |
| DocsMap.Scan | scrape.py:65-74 | the loop as a fold from no section and an empty mapping; no contract of its own, specified by `ScanSection`, `ScanMappingKeys`, `ScanMappingLast` and `ScanWellFormed` |
| DocsMap.Parse | scrape.py:63-75 | `parse_docs_map` on the text; no contract of its own, specified by `ParseDocsMap`, `ParseJoined`, `ParseWellFormed` and `ParseDocsMapExample` |
| DocsMap.HeaderSection | scrape.py:70 | the section a header opens is made only of `[a-z0-9-]` |
| DocsMap.EntryName | scrape.py:72-73 | a matched entry line starts with `### [`, and its name is non-empty and free of `]` |
| DocsMap.EntryNameMatches | scrape.py:73 | a line holds entry `name` exactly when it starts with `### [name]` for a non-empty `name` without `]` |
| DocsMap.EntryIsNoHeader | scrape.py:69-72 | an entry line is never a header, so the `elif` sees every entry line |
| DocsMap.IsHeader | scrape.py:69 | the header test `startswith("## ") and not startswith("### ")`; no contract of its own, specified through `Classify`, `EntryIsNoHeader` and `SubsectionKeepsSection` |
| DocsMap.Classify | scrape.py:69-74 | a line is a header exactly when it starts with `## ` but not `### `, with a section of `[a-z0-9-]`; it is an entry exactly when it is no header and matches `### [name]`, and then it carries that name |
| DocsMap.ParseDocsMap | scrape.py:63-75 | the loop returns `Parse(text)`, the fold of the lines' steps from no section and an empty mapping |
| DocsMap.ScanNext | scrape.py:67 | proof step: the fold over one more line is one more `Step` |
| DocsMap.StepHeader | scrape.py:69-70 | proof step: a header line sets `section` to its stripped, normalised title and keeps the mapping |
| DocsMap.StepEntry | scrape.py:72-74 | proof step: under a truthy section, a `### [` line records its matched name with that section, and changes nothing when it does not match |
| DocsMap.StepSkipped | scrape.py:69-74 | proof step: a line taking neither branch leaves `section` and `mapping` as they are |
| DocsMap.LastHeader | scrape.py:66-70 | when line `i` is reached, the last header above it is at the returned index, and no header lies between the two |
| DocsMap.LastHeaderPrefix | scrape.py:66-70 | the last header above a line does not depend on the lines below it |
| DocsMap.SectionBeforePrefix | scrape.py:66-70 | the section current at a line depends only on the lines above it |
| DocsMap.ScanSection | scrape.py:66-70 | after the lines, `section` holds the section of the last header among them, or `None` |
| DocsMap.StepMapping | scrape.py:72-74 | one line sets the entry for `name` to the current section when it names that entry under a truthy section; otherwise the entry is unchanged |
| DocsMap.RecordsPrefix | scrape.py:72-74 | whether a line records an entry depends only on the lines down to it |
| DocsMap.RecordsPrefixAll | scrape.py:72-74 | removing lines from the end changes no earlier line's record |
| DocsMap.LastLineRecords | scrape.py:72-74 | the last line records `name` exactly when it names that entry while the loop's section is truthy, and that section is then the one in force |
| DocsMap.LastLineSets | scrape.py:74 | when the last line records `name`, the mapping holds it with the section in force there |
| DocsMap.LastLineKeeps | scrape.py:72-74 | when the last line does not record `name`, the entry is as the lines above left it |
| DocsMap.ScanMappingKeys | scrape.py:63-75 | the mapping holds `name` exactly when some line records it |
| DocsMap.ScanMappingLast | scrape.py:72-74 | the entry for `name` is the section in force at the last line that records it: the later duplicate wins |
| DocsMap.ScanWellFormed | scrape.py:63-75 | over lines as `Classify` yields them, every name recorded is non-empty and free of `]`, and every section is a non-empty run of `[a-z0-9-]` |
| DocsMap.ParseWellFormed | scrape.py:63-75 | every name `parse_docs_map` returns is non-empty and free of `]`, and every section it maps to is a non-empty run of `[a-z0-9-]` |
| DocsMap.SubsectionKeepsSection | scrape.py:69 | a line starting with `### ` never changes the current section |
| DocsMap.NothingBeforeFirstHeader | scrape.py:65-72 | lines before the first header record nothing and leave the section `None` |
| DocsMap.StepInactive | scrape.py:72 | proof step, an unfolding of `Step`: without a truthy section, a line that is no header changes nothing |
| DocsMap.ScanInactive | scrape.py:72 | from an empty section up to the next header, the loop's variables stay as they were |
| DocsMap.EmptySectionSuspends | scrape.py:69-72 | a header whose title normalises to `""` suspends recording until the next header |
| DocsMap.ParseJoined | scrape.py:67 | parsing lines joined with `\n` is the fold over exactly those lines |
| DocsMap.ScanFiveLines | scrape.py:63-75 | header, entry, other, header, entry: each entry gets the section above it |
| DocsMap.ClassifyHeader | scrape.py:69-70 | proof step, an unfolding of `Classify`: a header line reads as a header opening its section |
| DocsMap.HeaderFromPieces | scrape.py:70 | a header whose title is already stripped opens the section made of its pieces' normal forms, in order |
| DocsMap.ClassifyEntry | scrape.py:72-73 | a line starting with `### [name]`, for a non-empty `name` without `]`, reads as the entry `name` |
| DocsMap.ClassifyOther | scrape.py:69-73 | a `### ` line whose next character is not `[` is neither a header nor an entry |
| DocsMap.ParseDocsMapExample | scrape.py:63-75 | the five-line map with a non-link subsection, joined into one text, parses to `{quickstart: guides, api-ref: reference}` |
| Paths.DerivePath | scrape.py:78-89 | `derive_path`; no contract of its own, specified by `DerivePathNoMap`, `DerivePathWithMap`, `DerivePathNoMapIsMd` and `DerivePathWithMapIsMd` |
| Paths.SectionOf | scrape.py:86 | `docs_map.get(stem, "misc")`; no contract of its own, specified through `DerivePathWithMap` and `DerivePathWithMapExamples` |
| Paths.JoinPath | scrape.py:87 | `Path(section) / f"{stem}.md"` on strings; no contract of its own, specified through `DerivePathWithMap` and `DerivePathWithMapIsMd` |
| Paths.BaseName | scrape.py:85 | `PurePath(rel).name`: free of `/`, and either all of `rel` or the text after its last `/` |
| Paths.SuffixStart | scrape.py:85 | a cut inside the name is at its last `.`, which is neither its first nor its last character; with no such dot the cut is the end of the name and there is no suffix. `SuffixStartAtLastDot` gives the other direction |
| Paths.Stem | scrape.py:85 | `Path(rel).stem`: the name cut at `SuffixStart`; no contract of its own, specified by `SuffixStart`, `StemSuffix` and `StemNoSlash` |
| Paths.SuffixStartAtLastDot | scrape.py:85 | the converse of `SuffixStart`: the last `.` of a name, when it is neither its first nor its last character, is where the suffix starts, so the stem is everything before it and the suffix everything from it |
| Paths.StemSuffix | scrape.py:85 | a name is its stem followed by its suffix, and the suffix is empty or a `.` followed by at least one character and no other `.` |
| Paths.StemNoSlash | scrape.py:85 | the stem of a `/`-free name is `/`-free |
| Paths.DerivePathNoMap | scrape.py:78-89 | without a map, the path is the URL past the prefix when the URL starts with it, and the URL itself otherwise |
| Paths.DerivePathWithMap | scrape.py:84-87 | with a map of single-component sections, the path has exactly two components: the stem's section (`misc` when unlisted) and the stem with `.md` |
| Paths.DerivePathNoMapIsMd | scrape.py:81-89 | without a map, a `.md` URL gives a `.md` path when the prefix ends in `/` |
| Paths.DerivePathWithMapIsMd | scrape.py:84-87 | with a map, the path always ends in `.md` |
| Paths.DerivePathNoMapExample | scrape.py:78-89 | `https://host/docs/en/foo/bar.md` under `https://host/docs/en/` gives `foo/bar.md` |
| Paths.DerivePathWithMapExamples | scrape.py:84-87 | `bar.md` goes to `guides/bar.md` when listed under `guides`, and to `misc/bar.md` when not listed |
| Paths.SdkSkip | scrape.py:32 | `SDK_SKIP.match`; no contract of its own, specified by `SdkSkipPrefixes` |
| Paths.SdkSkipPrefixes | scrape.py:32 | the filter holds exactly for paths starting with `api/go/`, `api/java/`, `api/kotlin/` or `api/ruby/` |
| Paths.SdkSkipGo | scrape.py:32 | `api/go/client.md` is filtered out |
| Paths.SdkKeepExamples | scrape.py:32 | `api/python/client.md` and `api/golang/x.md` are kept |
| Scrape.SourceDirsAreNames | scrape.py:21-29 | the directories purged are the names in the sources table, in order |
| Scrape.SourcesShape | scrape.py:21-29 | every prefix to strip ends in `/` |
| Scrape.RemoveDir | scrape.py:136-139 | `shutil.rmtree(output_dir / dir_name)` on the file map: every key below `dir/` removed; no contract of its own, specified by `PurgeDirsKeeps` |
| Scrape.PurgeDirs | scrape.py:134-139 | the purge loop as a fold over the directories; no contract of its own, specified by `PurgeDirsKeeps` and `PurgeRaisesIff`, and `ScrapeAll` is proved equal to it |
| Scrape.PurgeDirsKeeps | scrape.py:134-139 | after a purge that completes, a file is there exactly when it was there before and lies in none of the directories, and then it keeps its content; whether the purge completes is `PurgeRaises` |
| Scrape.PurgeRaises | scrape.py:136-139 | `target.exists()` holds at some directory for an entry that is not a directory (a key equal to its name), so `rmtree` raises there, with the directories before it purged; no contract of its own, characterised by `PurgeRaisesIff` |
| Scrape.NotBelow | scrape.py:135-136 | a name without `/` lies below no directory, so purging one source directory never removes another's name |
| Scrape.PurgeRaisesIff | scrape.py:134-139 | for names without `/`, the purge raises exactly when one of the names is taken by a file before the purge |
| Scrape.SourceDirsUnslashed | scrape.py:21-29 | no source directory name holds a `/` |
| Scrape.PurgeScoped | scrape.py:134-139 | a file outside the source directories is there after the run exactly when it was before, with the same content |
| Scrape.OutPath | scrape.py:171 | `output_dir / name / rel_path`, relative to the output directory; no contract of its own, specified by `OutPathIsMd` |
| Scrape.DocOutcome | scrape.py:170-187 | which of the three branches one document takes; no contract of its own, specified by `DocOutcomeCases` and `OnlySdkSkips` |
| Scrape.DocOutcomeCases | scrape.py:173-187 | an unfolding of `DocOutcome` in terms of the filter and the world: a document is skipped exactly when the API source's filter holds for its path; it is saved exactly when it is not skipped and both its fetch and its write succeed |
| Scrape.DocStep | scrape.py:169-187 | one pass of the document loop's body; no contract of its own, specified by `DocStepCases`, `DocStepTally`, `DocStepWrite` and `DocStepKeepsOthers` |
| Scrape.Docs | scrape.py:168-187 | the document loop as a fold; no contract of its own, specified by `DocsTally`, `DocsFetched`, `DocsWrite` and `DocsKeepOthers`, and `FetchDocuments` is proved equal to it |
| Scrape.DocStepSaved | scrape.py:179-184 | proof step, an unfolding of `DocStep`: a saved document adds one `ok`, writes its body to its path and is requested |
| Scrape.DocStepSkipped | scrape.py:173-177 | proof step, an unfolding of `DocStep`: a skipped document adds one `skip` and changes nothing else |
| Scrape.DocStepFailed | scrape.py:185-187 | proof step, an unfolding of `DocStep`: a failed document adds one `fail`, is requested and writes nothing |
| Scrape.DocStepCases | scrape.py:167-187 | one document's step, for each of the three outcomes |
| Scrape.DocsNextSkipped | scrape.py:174-177 | proof step of `FetchDocuments`: after a skipped document the fold has one more `skip` and the same files and requests |
| Scrape.DocsNextSaved | scrape.py:180-184 | proof step of `FetchDocuments`: after a saved document the fold has one more `ok`, the body at its output path, and the document requested |
| Scrape.DocsNextFailed | scrape.py:180-187 | proof step of `FetchDocuments`: after a failed fetch or write the fold has one more `fail`, the same files, and the document requested |
| Scrape.FetchDocuments | scrape.py:167-187 | the document loop ends with the counters, files and requests of the fold `Docs` over the URLs |
| Scrape.CountsSnoc | scrape.py:167-187 | proof step, an unfolding of `Counts`: counting one more document adds its outcome's counter |
| Scrape.DocStepTally | scrape.py:167-187 | one step adds its outcome's counter, and requests the document unless it is skipped |
| Scrape.DocsTally | scrape.py:167-189 | the loop's counters are the numbers of saved, failed and skipped documents |
| Scrape.DocsFetched | scrape.py:173-181 | the loop requests exactly the documents not skipped, in order |
| Scrape.CountsCover | scrape.py:167-187 | `ok + fail + skip` equals the number of documents |
| Scrape.FetchesUnskipped | scrape.py:173-181 | a document is requested exactly when it is not skipped; the requests number `ok + fail` |
| Scrape.OnlySdkSkips | scrape.py:173-177 | a source other than the API source skips nothing and requests every document |
| Scrape.DocsKeepOthers | scrape.py:170-182 | the document loop leaves every file outside the source's directory as it was |
| Scrape.DocStepKeepsOthers | scrape.py:170-182 | one document leaves every file outside the source's directory as it was |
| Scrape.OutPathIsMd | scrape.py:170-171 | a document is written below its source's directory, to a file ending in `.md` |
| Scrape.DocStepWrite | scrape.py:179-182 | one step either leaves a file as it was or fills the output path of the document just requested with that document's body |
| Scrape.WrittenBy | scrape.py:170-182 | what the loop writes: a `.md` file below the source's directory that is the output path of a requested URL and holds that URL's body; no contract of its own, used by `DocsWrite`, `SourceStepWrites` and `RunWrites` |
| Scrape.DocsWrite | scrape.py:167-187 | every file the document loop changes lies below the source's directory in a `.md` file, and it is the output path of a URL the loop requested, holding that URL's body |
| Scrape.DocsMapFor | scrape.py:158-165 | the map `derive_path` gets: parsed from the map document for the Claude Code source, `{}` when that fetch fails, none for the other sources; specified by `DocsMapForShape` |
| Scrape.DocsMapForShape | scrape.py:158-165 | only the Claude Code source has a map; it is empty when the map document cannot be fetched; every section in it is a non-empty run of `[a-z0-9-]` |
| Scrape.SourceTally | scrape.py:148-190 | the counters a source's summary line reports; no contract of its own, specified by `SourceTallyCoversUrls`, `SourceStepTally` and `SummaryLines` |
| Scrape.SourceTallyCoversUrls | scrape.py:148-190 | with its index fetched, a source's counters add up to the number of URLs extracted; with a failed index it records `(0, 1, 0)` |
| Scrape.SourceStep | scrape.py:144-193 | one pass of the loop over the sources; no contract of its own, specified by `SourceStepTally`, `SourceStepWrites` and `ScrapeSource` |
| Scrape.RunFrom | scrape.py:141-193 | the loop over the sources as a fold; no contract of its own, specified by `RunResults`, `RunTotals`, `RunKeepsOthers` and `RunWrites` |
| Scrape.Run | scrape.py:134-193 | the purge followed by the loop over the sources; no contract of its own, specified by `PurgeScoped`, `StaleFilesRemoved` and `ExitStatusRule`, and `ScrapeAll` is proved equal to it when the purge completes |
| Scrape.SourceStepTally | scrape.py:144-193 | one source appends its summary line and adds its counters to the totals |
| Scrape.SummaryLines | scrape.py:190 | the summary has one line per source, in order, with that source's name and counters |
| Scrape.RunResults | scrape.py:141-193 | the run's `results` are the summary lines of the sources |
| Scrape.RunTotals | scrape.py:141-193 | the totals are the component-wise sums of the summary's counters |
| Scrape.SumTalliesFail | scrape.py:191-193 | the total of failures is zero exactly when every summary line counts none |
| Scrape.TotalsMonotone | scrape.py:141-193 | the totals after any prefix of the sources are at most the final totals, counter by counter |
| Scrape.EmptyMdFiles | scrape.py:203 | the `*.md` files of size zero; no contract of its own, used by `ExitStatusRule`, `MainStatusRule` and `EmptyDocumentFails` |
| Scrape.ExitStatus | scrape.py:202-213 | the value `main` returns once the purge has completed; no contract of its own, specified by `ExitStatusRule`, `IndexFailureFails` and `EmptyDocumentFails` |
| Scrape.ExitStatusRule | scrape.py:202-213 | once the purge has completed, the result is 0 or 1, and it is 1 exactly when an empty `.md` file is left or some source counts a failure |
| Scrape.MainStatus | scrape.py:134-213 | the status the program exits with: 1 when the purge raises (the exception reaches the top level uncaught, scrape.py:216-221), otherwise `ExitStatus` of the run; specified by `MainStatusRule` |
| Scrape.MainStatusRule | scrape.py:134-213 | the program exits with 0 or 1, and with 1 exactly when a source directory's name is taken by a file before the run, an empty `.md` file is left, or some source counts a failure |
| Scrape.PurgeRaisesExample | scrape.py:136-139 | a file named `MCP` in the output directory makes the purge raise, and the program exits with 1 |
| Scrape.FirstRaiseExample | scrape.py:135-139 | with files at the API and Claude Code directory names and a document under `MCP/`, the first directory that raises is the API source's, and nothing has been removed when it does |
| Scrape.IndexFailureFails | scrape.py:148-154 | a source whose index cannot be fetched makes the run exit with 1, whether or not the purge raises |
| Scrape.RunKeepsOthers | scrape.py:144-193 | the loop over the sources leaves every file outside their directories as it was |
| Scrape.SourceStepWrites | scrape.py:144-193 | one source either leaves a file as it was or writes into its directory, at the output path of a document it requested, that document's body; it forgets no earlier request |
| Scrape.RunWrites | scrape.py:141-193 | every file the run changes lies below some source's directory, at the output path of a URL that source requested, and holds that URL's body |
| Scrape.StaleFilesRemoved | scrape.py:134-193 | every file in a source directory after the run is a `.md` file at the output path of a URL this run requested, holding that URL's body |
| Scrape.EmptyDocumentFails | scrape.py:202-210 | a document saved with an empty body makes the run exit with 1, whether or not the purge raises |
| Scrape.CountThree | scrape.py:167-187 | a saved, a failed and a skipped document count one of each |
| Scrape.RelPathBelowPrefix | scrape.py:81 | a URL made of the prefix and a rest is derived to that rest |
| Scrape.EndToEndExample | scrape.py:141-213 | an API index linking to a page that is saved, one that fails and one under `api/go/` gives `(1, 1, 1)` and exit status 1 |
| Scrape.ScrapeSource | scrape.py:144-193 | one iteration of the source loop ends in the state `SourceStep` gives |
| Scrape.ScrapeAll | scrape.py:134-213 | `main` from the purge to the result: when the purge raises it stops at the first directory whose name is taken, with the directories before it purged, no request made and status 1; otherwise it ends in the state `Run` gives; either way it returns `MainStatus` |

## Left out

- `fetch` (scrape.py:39-43) is not modelled: no HTTP, User-Agent header, timeout or UTF-8 decoding. A fetch is a lookup in `World.pages`: a URL that is absent fails, and one that is present always returns the same body.
- `save` (scrape.py:46-49) is not modelled as file-system calls. It is an update of the file map. A write fails as a whole for a path in `World.unwritable` and leaves no partial file.
- CLI argument handling, `show_help`, stream buffering and all printed progress and summary text (scrape.py:96-132, 138, 145, 151, 156, 164, 175, 183, 186, 189, 196-200, 205-209, 212) are left out. They are plumbing and output.
- The `KeyboardInterrupt` handler and exit code 130 (scrape.py:216-221) are left out, because signals are outside the model.
- The exception classes are not distinguished. At scrape.py:150 and scrape.py:163 only `URLError`/`HTTPError` are caught, and scrape.py:185 catches every `Exception`. In the model every failed fetch or write is a failure of that step. An error the source would not catch, such as a decode error of an index, is not modelled.
- Strings.SplitLines: splits on `\n` only. `str.splitlines` also splits on `\r`, `\v`, `\f`, `\x1c`-`\x1e`, `\x85`, `\u2028` and `\u2029`.
- Sections.Normalize: lowercases ASCII letters only. `str.lower` also maps non-ASCII letters.
- Paths.DerivePath: `pathlib` normalisation is not modelled. That covers collapsing `//` and `.` components, dropping a trailing `/`, and an absolute relative path replacing the output directory when joined. Paths are plain `/`-separated strings.
- Paths.DerivePath: a `..` component is kept as text. Without a map, a link such as `https://modelcontextprotocol.io/../notes/x.md` derives to `../notes/x.md`. `PurePath` keeps the `..`, and the operating system resolves it when `save` writes `output_dir / name / rel_path` (scrape.py:170-171, 46-49), so that file lands at `notes/x.md`, outside every source directory. The model keys it `MCP/../notes/x.md`, inside `MCP/`. With a map no `..` component can arise: the stem is one component and the section is `[a-z0-9-]` or `misc`.
- Scrape.PurgeScoped: holds for file keys as strings. A document whose derived path has a `..` component can reach a file outside the source directories, which the program then overwrites.
- Scrape.RunKeepsOthers: holds for file keys as strings, not for where a `..` component puts the file.
- Scrape.DocsKeepOthers: holds for file keys as strings, not for where a `..` component puts the file.
- Scrape.StaleFilesRemoved: holds for file keys as strings. A `..` component can write a requested body outside the source directories, and a path such as `MCP/a/../b.md` names the same file as `MCP/b.md`.
- Scrape.OutPathIsMd: "below the source directory" holds for the string key, not for the file a `..` component resolves to.
- Scrape.DocsWrite: "below the source directory" holds for the string key, not for the file a `..` component resolves to.
- Scrape.RunWrites: "below the source directory" holds for the string key, not for the file a `..` component resolves to.
- Scrape.SourceStepWrites: "into its directory" holds for the string key, not for the file a `..` component resolves to.
- Scrape.DocStepKeepsOthers: holds for file keys as strings, not for where a `..` component puts the file.
- Scrape.WrittenBy: "below the source's directory" holds for the string key, not for the file a `..` component resolves to.
- Scrape.DocOutcome: the SDK filter sees the derived path as text, not `str(Path(rel))`. A link such as `https://platform.claude.com/docs/en/api//go/x.md` derives to `api//go/x.md`, which the program normalises to `api/go/x.md` and skips (scrape.py:89, 174). The model fetches and counts it.
- Scrape.EmptyMdFiles: two keys can name one file. A key with an empty, `.` or `..` component (such as `MCP/a//b.md` or `MCP/a/../b.md`) and its normal form (`MCP/a/b.md`) are one file on disk, which holds the body written last; the model keeps both keys, so an empty body that the program overwrote still counts here.
- Scrape.ExitStatus: through `EmptyMdFiles`, it can be 1 where `main` returns 0, when a later document overwrites an empty body through another spelling of the same path.
- Scrape.ExitStatusRule: "an empty `.md` file is left" is about keys; with two spellings of one path it can hold where no empty file is left on disk.
- Scrape.MainStatus: has the same gap as `ExitStatus` for two spellings of one path.
- Scrape.MainStatusRule: has the same gap as `ExitStatusRule` for two spellings of one path.
- Scrape.EmptyDocumentFails: with two spellings of one path, an empty body can be overwritten on disk by a later document, and the program then exits with 0.
- Paths.SuffixStart: follows the suffix rule of Python up to 3.13. Python 3.14 also counts a name ending in `.` as having the suffix `.`.
- The empty-file scan `rglob("*.md")` (scrape.py:203) is modelled as the file paths ending in `.md` whose content is empty. Directories and file sizes other than "empty" are not modelled.
- The purge: a key equal to a source directory's name stands for any entry there that is not a directory, such as a regular file or a symbolic link whose target exists; for it `target.exists()` holds and `rmtree` raises (`PurgeRaises`). Symbolic links as such, permissions and other failures of `rmtree` are not modelled. A directory is the set of keys below it, and removing it succeeds.
- The traceback printed for the uncaught purge exception is output and is left out; only its exit status 1 is modelled (`MainStatus`).
