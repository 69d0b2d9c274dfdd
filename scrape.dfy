/** `main`: the purge of the source directories, the loop over the sources and their documents
    with its `ok`/`fail`/`skip` counters and totals, and the exit status. The network and the
    file system are a `World` given as input. */
module Scrape {
  import opened Wrappers
  import opened Strings
  import Links
  import DocsMap
  import Sections
  import Paths

  /** One row of the sources table: directory name, index URL and prefix to strip. */
  datatype Source = Source(name: string, indexUrl: string, strip: string)

  const SdkName: string := "Claude-API-and-Agent-SDK"
  const CodeName: string := "Claude-Code"
  const DocsMapUrl: string := "https://code.claude.com/docs/en/claude_code_docs_map.md"

  const Sources: seq<Source> := [
    Source(SdkName, "https://platform.claude.com/llms.txt", "https://platform.claude.com/docs/en/"),
    Source("MCP", "https://modelcontextprotocol.io/llms.txt", "https://modelcontextprotocol.io/"),
    Source(CodeName, "https://code.claude.com/docs/llms.txt", "https://code.claude.com/docs/en/")
  ]

  /** The directories the run creates, and purges before it starts. */
  const SourceDirs: seq<string> := [SdkName, "MCP", CodeName]

  /** The directories are the names in the sources table. */
  lemma SourceDirsAreNames()
    ensures |SourceDirs| == |Sources|
    ensures forall i :: 0 <= i < |Sources| ==> SourceDirs[i] == Sources[i].name
  {
  }

  /** What the outside world answers: the body of every URL whose fetch succeeds (a URL that
      is absent fails), the output paths that cannot be written, and the files under the
      output directory before the run, by path relative to that directory. */
  datatype World = World(pages: map<string, string>, unwritable: set<string>,
                         before: map<string, string>)

  /** The `ok`, `fail` and `skip` counters. */
  datatype Tally = Tally(ok: nat, fail: nat, skip: nat)

  function Add(a: Tally, b: Tally): Tally {
    Tally(a.ok + b.ok, a.fail + b.fail, a.skip + b.skip)
  }

  /** Every counter of `a` is at most that of `b`. */
  predicate Le(a: Tally, b: Tally) {
    a.ok <= b.ok && a.fail <= b.fail && a.skip <= b.skip
  }

  // Purging the source directories.

  /** `shutil.rmtree(output_dir / dir)`: every file below `dir` removed. */
  function RemoveDir(files: map<string, string>, dir: string): map<string, string> {
    map p | p in files && !StartsWith(p, dir + "/") :: files[p]
  }

  /** The purge loop over the directories, as a fold. */
  function PurgeDirs(files: map<string, string>, dirs: seq<string>): map<string, string> {
    if dirs == [] then files
    else RemoveDir(PurgeDirs(files, dirs[..|dirs| - 1]), dirs[|dirs| - 1])
  }

  /** A file survives the purge exactly when it lies below none of the directories, and then
      keeps its content. */
  lemma {:induction false} PurgeDirsKeeps(files: map<string, string>, dirs: seq<string>, p: string)
    ensures p in PurgeDirs(files, dirs) <==>
              p in files && forall i :: 0 <= i < |dirs| ==> !StartsWith(p, dirs[i] + "/")
    ensures p in PurgeDirs(files, dirs) ==> PurgeDirs(files, dirs)[p] == files[p]
  {
    if dirs != [] {
      PurgeDirsKeeps(files, dirs[..|dirs| - 1], p);
    }
  }

  /** The purge raises: at some directory, `target.exists()` holds for an entry that is not a
      directory (a key equal to the directory's name), and `rmtree` raises, with the
      directories before it already purged. Nothing catches the exception. */
  predicate PurgeRaises(files: map<string, string>, dirs: seq<string>) {
    exists i :: 0 <= i < |dirs| && dirs[i] in PurgeDirs(files, dirs[..i])
  }

  /** A name without `/` is never below a directory. */
  lemma NotBelow(name: string, dir: string)
    requires '/' !in name
    ensures !StartsWith(name, dir + "/")
  {
    if |dir| + 1 <= |name| {
      assert name[..|dir| + 1][|dir|] == name[|dir|] != '/';
      assert (dir + "/")[|dir|] == '/';
    }
  }

  /** For directory names without `/`, the purge raises exactly when one of the names is
      taken by a file before the purge: purging one directory never removes another's name. */
  lemma PurgeRaisesIff(files: map<string, string>, dirs: seq<string>)
    requires forall i :: 0 <= i < |dirs| ==> '/' !in dirs[i]
    ensures PurgeRaises(files, dirs) <==> exists i :: 0 <= i < |dirs| && dirs[i] in files
  {
    forall i | 0 <= i < |dirs|
      ensures dirs[i] in PurgeDirs(files, dirs[..i]) <==> dirs[i] in files
    {
      PurgeDirsKeeps(files, dirs[..i], dirs[i]);
      forall j | 0 <= j < i
        ensures !StartsWith(dirs[i], dirs[..i][j] + "/")
      {
        NotBelow(dirs[i], dirs[..i][j]);
      }
    }
  }

  /** The source directories' names hold no `/`. */
  lemma SourceDirsUnslashed()
    ensures forall i :: 0 <= i < |SourceDirs| ==> '/' !in SourceDirs[i]
  {
    assert forall c :: c in SdkName ==> c != '/';
    assert forall c :: c in CodeName ==> c != '/';
  }

  /** The path lies in one of the source directories. */
  predicate InSourceDir(p: string) {
    exists i :: 0 <= i < |Sources| && StartsWith(p, Sources[i].name + "/")
  }

  // One document.

  /** The source whose documents pass the SDK language filter. */
  predicate IsSdkSource(src: Source) {
    src.name == SdkName
  }

  /** The source whose documents are filed by the documentation map. */
  predicate IsCodeSource(src: Source) {
    src.name == CodeName
  }

  /** What becomes of one document. */
  datatype Outcome = Saved | Failed | Skipped

  /** `output_dir / name / rel_path`, relative to the output directory. */
  function OutPath(src: Source, rel: string): string {
    src.name + "/" + rel
  }

  /** The fate of `url`: skipped by the SDK language filter (the API source only), saved when
      both its fetch and the write of its file succeed, failed otherwise. */
  function DocOutcome(world: World, src: Source, docsMap: Option<map<string, string>>,
                      url: string): Outcome
  {
    var rel := Paths.DerivePath(url, src.strip, docsMap);
    if IsSdkSource(src) && Paths.SdkSkip(rel) then Skipped
    else if url in world.pages && OutPath(src, rel) !in world.unwritable then Saved
    else Failed
  }

  /** The counters, the files and the URLs fetched so far, during one source's document loop. */
  datatype DocRun = DocRun(tally: Tally, files: map<string, string>, fetched: seq<string>)

  /** One iteration of the document loop. */
  function DocStep(world: World, src: Source, docsMap: Option<map<string, string>>,
                   st: DocRun, url: string): DocRun
  {
    var out := OutPath(src, Paths.DerivePath(url, src.strip, docsMap));
    match DocOutcome(world, src, docsMap, url)
    case Skipped => DocRun(st.tally.(skip := st.tally.skip + 1), st.files, st.fetched)
    case Saved =>
      DocRun(st.tally.(ok := st.tally.ok + 1), st.files[out := world.pages[url]], st.fetched + [url])
    case Failed => DocRun(st.tally.(fail := st.tally.fail + 1), st.files, st.fetched + [url])
  }

  /** The document loop over `urls`, as a fold. */
  function Docs(world: World, src: Source, docsMap: Option<map<string, string>>,
                st: DocRun, urls: seq<string>): DocRun
  {
    if urls == [] then st
    else DocStep(world, src, docsMap, Docs(world, src, docsMap, st, urls[..|urls| - 1]), urls[|urls| - 1])
  }

  /** The number of `urls` whose outcome is `o`. */
  function Count(world: World, src: Source, docsMap: Option<map<string, string>>,
                 urls: seq<string>, o: Outcome): nat
  {
    if urls == [] then 0
    else Count(world, src, docsMap, urls[..|urls| - 1], o)
         + (if DocOutcome(world, src, docsMap, urls[|urls| - 1]) == o then 1 else 0)
  }

  /** The `urls` that are not skipped, in order: those the loop requests. */
  function Fetches(world: World, src: Source, docsMap: Option<map<string, string>>,
                   urls: seq<string>): seq<string>
  {
    if urls == [] then []
    else Fetches(world, src, docsMap, urls[..|urls| - 1])
         + (if DocOutcome(world, src, docsMap, urls[|urls| - 1]) != Skipped then [urls[|urls| - 1]] else [])
  }

  /** The fold over one more document is one more step. */
  lemma DocsSnoc(world: World, src: Source, docsMap: Option<map<string, string>>,
                 st: DocRun, urls: seq<string>, j: nat)
    requires j < |urls|
    ensures Docs(world, src, docsMap, st, urls[..j + 1])
            == DocStep(world, src, docsMap, Docs(world, src, docsMap, st, urls[..j]), urls[j])
  {
    assert urls[..j + 1][..j] == urls[..j];
  }

  /** The step for a document that is saved: its body written, one more `ok`, one more request. */
  lemma DocStepSaved(world: World, src: Source, docsMap: Option<map<string, string>>,
                     st: DocRun, url: string)
    requires DocOutcome(world, src, docsMap, url) == Saved
    ensures url in world.pages
    ensures DocStep(world, src, docsMap, st, url)
            == DocRun(st.tally.(ok := st.tally.ok + 1),
                      st.files[OutPath(src, Paths.DerivePath(url, src.strip, docsMap)) := world.pages[url]],
                      st.fetched + [url])
  {
  }

  /** The step for a document that is skipped: one more `skip`, nothing else. */
  lemma DocStepSkipped(world: World, src: Source, docsMap: Option<map<string, string>>,
                       st: DocRun, url: string)
    requires DocOutcome(world, src, docsMap, url) == Skipped
    ensures DocStep(world, src, docsMap, st, url) == DocRun(st.tally.(skip := st.tally.skip + 1), st.files, st.fetched)
  {
  }

  /** The step for a document that fails: one more `fail`, one more request, no file. */
  lemma DocStepFailed(world: World, src: Source, docsMap: Option<map<string, string>>,
                      st: DocRun, url: string)
    requires DocOutcome(world, src, docsMap, url) == Failed
    ensures DocStep(world, src, docsMap, st, url) == DocRun(st.tally.(fail := st.tally.fail + 1), st.files, st.fetched + [url])
  {
  }

  /** The step for each of the three outcomes. */
  lemma DocStepCases(world: World, src: Source, docsMap: Option<map<string, string>>,
                     st: DocRun, url: string)
    ensures var out := OutPath(src, Paths.DerivePath(url, src.strip, docsMap));
            var d := DocStep(world, src, docsMap, st, url);
            match DocOutcome(world, src, docsMap, url)
            case Skipped => d == DocRun(st.tally.(skip := st.tally.skip + 1), st.files, st.fetched)
            case Saved =>
              url in world.pages
              && d == DocRun(st.tally.(ok := st.tally.ok + 1), st.files[out := world.pages[url]], st.fetched + [url])
            case Failed => d == DocRun(st.tally.(fail := st.tally.fail + 1), st.files, st.fetched + [url])
  {
    match DocOutcome(world, src, docsMap, url)
    case Skipped => DocStepSkipped(world, src, docsMap, st, url);
    case Saved => DocStepSaved(world, src, docsMap, st, url);
    case Failed => DocStepFailed(world, src, docsMap, st, url);
  }

  /** The outcome follows the branches of the loop body: the filter first, then the fetch
      and the write. */
  lemma DocOutcomeCases(world: World, src: Source, docsMap: Option<map<string, string>>, url: string)
    ensures var rel := Paths.DerivePath(url, src.strip, docsMap);
            (DocOutcome(world, src, docsMap, url) == Skipped <==> IsSdkSource(src) && Paths.SdkSkip(rel))
            && (DocOutcome(world, src, docsMap, url) == Saved <==>
                  !(IsSdkSource(src) && Paths.SdkSkip(rel))
                  && url in world.pages && OutPath(src, rel) !in world.unwritable)
  {
  }

  /** The loop's state after a document the filter skips. */
  lemma DocsNextSkipped(world: World, src: Source, docsMap: Option<map<string, string>>, init: DocRun,
                        urls: seq<string>, j: nat, t: Tally, files: map<string, string>, fetched: seq<string>)
    requires j < |urls| && DocRun(t, files, fetched) == Docs(world, src, docsMap, init, urls[..j])
    requires IsSdkSource(src) && Paths.SdkSkip(Paths.DerivePath(urls[j], src.strip, docsMap))
    ensures DocRun(t.(skip := t.skip + 1), files, fetched) == Docs(world, src, docsMap, init, urls[..j + 1])
  {
    DocsSnoc(world, src, docsMap, init, urls, j);
    DocStepSkipped(world, src, docsMap, DocRun(t, files, fetched), urls[j]);
  }

  /** The loop's state after a document that is fetched and written. */
  lemma DocsNextSaved(world: World, src: Source, docsMap: Option<map<string, string>>, init: DocRun,
                      urls: seq<string>, j: nat, t: Tally, files: map<string, string>, fetched: seq<string>)
    requires j < |urls| && DocRun(t, files, fetched) == Docs(world, src, docsMap, init, urls[..j])
    requires !(IsSdkSource(src) && Paths.SdkSkip(Paths.DerivePath(urls[j], src.strip, docsMap)))
    requires urls[j] in world.pages
    requires OutPath(src, Paths.DerivePath(urls[j], src.strip, docsMap)) !in world.unwritable
    ensures DocRun(t.(ok := t.ok + 1),
                   files[OutPath(src, Paths.DerivePath(urls[j], src.strip, docsMap)) := world.pages[urls[j]]],
                   fetched + [urls[j]])
            == Docs(world, src, docsMap, init, urls[..j + 1])
  {
    DocsSnoc(world, src, docsMap, init, urls, j);
    DocStepSaved(world, src, docsMap, DocRun(t, files, fetched), urls[j]);
  }

  /** The loop's state after a document whose fetch or write fails. */
  lemma DocsNextFailed(world: World, src: Source, docsMap: Option<map<string, string>>, init: DocRun,
                       urls: seq<string>, j: nat, t: Tally, files: map<string, string>, fetched: seq<string>)
    requires j < |urls| && DocRun(t, files, fetched) == Docs(world, src, docsMap, init, urls[..j])
    requires !(IsSdkSource(src) && Paths.SdkSkip(Paths.DerivePath(urls[j], src.strip, docsMap)))
    requires !(urls[j] in world.pages
               && OutPath(src, Paths.DerivePath(urls[j], src.strip, docsMap)) !in world.unwritable)
    ensures DocRun(t.(fail := t.fail + 1), files, fetched + [urls[j]]) == Docs(world, src, docsMap, init, urls[..j + 1])
  {
    DocsSnoc(world, src, docsMap, init, urls, j);
    DocStepFailed(world, src, docsMap, DocRun(t, files, fetched), urls[j]);
  }

  /** The inner loop of `main` over one source's documents, from the given files and
      requests. */
  method FetchDocuments(world: World, src: Source, docsMap: Option<map<string, string>>,
                        urls: seq<string>, files0: map<string, string>, fetched0: seq<string>)
    returns (tally: Tally, files: map<string, string>, fetched: seq<string>)
    ensures DocRun(tally, files, fetched) == Docs(world, src, docsMap, DocRun(Tally(0, 0, 0), files0, fetched0), urls)
  {
    ghost var init := DocRun(Tally(0, 0, 0), files0, fetched0);
    var ok, fail, skip := 0, 0, 0;
    files, fetched := files0, fetched0;
    for j := 0 to |urls|
      invariant DocRun(Tally(ok, fail, skip), files, fetched) == Docs(world, src, docsMap, init, urls[..j])
    {
      var url := urls[j];
      var relPath := Paths.DerivePath(url, src.strip, docsMap);
      var outPath := OutPath(src, relPath);
      if IsSdkSource(src) && Paths.SdkSkip(relPath) {
        DocsNextSkipped(world, src, docsMap, init, urls, j, Tally(ok, fail, skip), files, fetched);
        skip := skip + 1;
        continue;
      }
      if url in world.pages && outPath !in world.unwritable {
        DocsNextSaved(world, src, docsMap, init, urls, j, Tally(ok, fail, skip), files, fetched);
        files := files[outPath := world.pages[url]];
        ok := ok + 1;
      } else {
        DocsNextFailed(world, src, docsMap, init, urls, j, Tally(ok, fail, skip), files, fetched);
        fail := fail + 1;
      }
      fetched := fetched + [url];
    }
    tally := Tally(ok, fail, skip);
    assert urls[..|urls|] == urls;
  }

  /** The counter one outcome adds to. */
  function OutcomeTally(o: Outcome): Tally {
    match o
    case Saved => Tally(1, 0, 0)
    case Failed => Tally(0, 1, 0)
    case Skipped => Tally(0, 0, 1)
  }

  /** The outcomes of `urls`, counted. */
  function Counts(world: World, src: Source, docsMap: Option<map<string, string>>,
                  urls: seq<string>): Tally
  {
    Tally(Count(world, src, docsMap, urls, Saved), Count(world, src, docsMap, urls, Failed),
          Count(world, src, docsMap, urls, Skipped))
  }

  lemma CountsSnoc(world: World, src: Source, docsMap: Option<map<string, string>>, urls: seq<string>)
    requires urls != []
    ensures Counts(world, src, docsMap, urls)
            == Add(Counts(world, src, docsMap, urls[..|urls| - 1]),
                   OutcomeTally(DocOutcome(world, src, docsMap, urls[|urls| - 1])))
  {
  }

  /** One step adds its outcome to the counters, and requests the document unless it is
      skipped. */
  lemma DocStepTally(world: World, src: Source, docsMap: Option<map<string, string>>,
                     st: DocRun, url: string)
    ensures DocStep(world, src, docsMap, st, url).tally
            == Add(st.tally, OutcomeTally(DocOutcome(world, src, docsMap, url)))
    ensures DocStep(world, src, docsMap, st, url).fetched
            == st.fetched + (if DocOutcome(world, src, docsMap, url) != Skipped then [url] else [])
  {
    DocStepCases(world, src, docsMap, st, url);
  }

  /** The counters count the outcomes. */
  lemma {:induction false} DocsTally(world: World, src: Source, docsMap: Option<map<string, string>>,
                                     st: DocRun, urls: seq<string>)
    ensures Docs(world, src, docsMap, st, urls).tally == Add(st.tally, Counts(world, src, docsMap, urls))
  {
    if urls != [] {
      var n := |urls| - 1;
      var prev := Docs(world, src, docsMap, st, urls[..n]);
      var step := OutcomeTally(DocOutcome(world, src, docsMap, urls[n]));
      var before := Counts(world, src, docsMap, urls[..n]);
      DocsTally(world, src, docsMap, st, urls[..n]);
      assert Docs(world, src, docsMap, st, urls) == DocStep(world, src, docsMap, prev, urls[n]);
      DocStepTally(world, src, docsMap, prev, urls[n]);
      CountsSnoc(world, src, docsMap, urls);
      AddAssoc(st.tally, before, step);
    }
  }

  lemma AddAssoc(a: Tally, b: Tally, c: Tally)
    ensures Add(a, Add(b, c)) == Add(Add(a, b), c)
  {
  }

  /** The requests made are the documents not skipped, in order. */
  lemma {:induction false} DocsFetched(world: World, src: Source, docsMap: Option<map<string, string>>,
                                       st: DocRun, urls: seq<string>)
    ensures Docs(world, src, docsMap, st, urls).fetched == st.fetched + Fetches(world, src, docsMap, urls)
  {
    if urls != [] {
      var n := |urls| - 1;
      var prev := Docs(world, src, docsMap, st, urls[..n]);
      assert Docs(world, src, docsMap, st, urls) == DocStep(world, src, docsMap, prev, urls[n]);
      DocsFetched(world, src, docsMap, st, urls[..n]);
      DocStepTally(world, src, docsMap, prev, urls[n]);
    }
  }

  /** Each document is counted once: as saved, failed or skipped. */
  lemma {:induction false} CountsCover(world: World, src: Source, docsMap: Option<map<string, string>>,
                                       urls: seq<string>)
    ensures Count(world, src, docsMap, urls, Saved) + Count(world, src, docsMap, urls, Failed)
            + Count(world, src, docsMap, urls, Skipped) == |urls|
  {
    if urls != [] {
      CountsCover(world, src, docsMap, urls[..|urls| - 1]);
    }
  }

  /** A document is requested exactly when it is not skipped, and the requests are as many as
      the saved and failed documents together. */
  lemma {:induction false} FetchesUnskipped(world: World, src: Source, docsMap: Option<map<string, string>>,
                                            urls: seq<string>)
    ensures forall u :: u in Fetches(world, src, docsMap, urls) <==>
                          u in urls && DocOutcome(world, src, docsMap, u) != Skipped
    ensures |Fetches(world, src, docsMap, urls)|
            == Count(world, src, docsMap, urls, Saved) + Count(world, src, docsMap, urls, Failed)
  {
    if urls != [] {
      var n := |urls| - 1;
      var init, last := urls[..n], urls[n];
      FetchesUnskipped(world, src, docsMap, init);
      var o := DocOutcome(world, src, docsMap, last);
      var f := Fetches(world, src, docsMap, urls);
      assert f == Fetches(world, src, docsMap, init) + (if o != Skipped then [last] else []);
      assert urls == init + [last];
      forall u ensures u in f <==> u in urls && DocOutcome(world, src, docsMap, u) != Skipped {
        assert u in urls <==> u in init || u == last;
      }
      assert Count(world, src, docsMap, urls, Saved)
             == Count(world, src, docsMap, init, Saved) + (if o == Saved then 1 else 0);
      assert Count(world, src, docsMap, urls, Failed)
             == Count(world, src, docsMap, init, Failed) + (if o == Failed then 1 else 0);
    }
  }

  /** Only the API source skips: any other source requests every document. */
  lemma {:induction false} OnlySdkSkips(world: World, src: Source, docsMap: Option<map<string, string>>,
                                        urls: seq<string>)
    requires src.name != SdkName
    ensures Count(world, src, docsMap, urls, Skipped) == 0
    ensures Fetches(world, src, docsMap, urls) == urls
  {
    if urls != [] {
      var init := urls[..|urls| - 1];
      OnlySdkSkips(world, src, docsMap, init);
      assert urls == init + [urls[|urls| - 1]];
    }
  }

  /** The document loop leaves every file outside the source's directory as it was. */
  lemma {:induction false} DocsKeepOthers(world: World, src: Source, docsMap: Option<map<string, string>>,
                                          st: DocRun, urls: seq<string>, p: string)
    requires !StartsWith(p, src.name + "/")
    ensures p in Docs(world, src, docsMap, st, urls).files <==> p in st.files
    ensures p in st.files ==> Docs(world, src, docsMap, st, urls).files[p] == st.files[p]
  {
    if urls != [] {
      DocsKeepOthers(world, src, docsMap, st, urls[..|urls| - 1], p);
      DocStepKeepsOthers(world, src, docsMap, Docs(world, src, docsMap, st, urls[..|urls| - 1]), urls[|urls| - 1], p);
    }
  }

  /** One step of the document loop leaves every file outside the source's directory as it was. */
  lemma DocStepKeepsOthers(world: World, src: Source, docsMap: Option<map<string, string>>,
                           st: DocRun, url: string, p: string)
    requires !StartsWith(p, src.name + "/")
    ensures p in DocStep(world, src, docsMap, st, url).files <==> p in st.files
    ensures p in st.files ==> DocStep(world, src, docsMap, st, url).files[p] == st.files[p]
  {
    var rel := Paths.DerivePath(url, src.strip, docsMap);
    assert OutPath(src, rel)[..|src.name| + 1] == src.name + "/";
    DocStepCases(world, src, docsMap, st, url);
  }

  /** A file the document loop wrote lies in the source's directory, ends in `.md`, and is
      the output path of a document it requested, holding that document's body. */
  predicate WrittenBy(world: World, src: Source, docsMap: Option<map<string, string>>,
                      fetched: seq<string>, p: string, body: string) {
    StartsWith(p, src.name + "/") && EndsWith(p, ".md")
    && exists u :: u in fetched && u in world.pages && world.pages[u] == body
                   && p == OutPath(src, Paths.DerivePath(u, src.strip, docsMap))
  }

  /** Where a saved document goes: below the source's directory, in a file ending in `.md`. */
  lemma OutPathIsMd(src: Source, docsMap: Option<map<string, string>>, url: string)
    requires EndsWith(url, ".md")
    requires docsMap.None? ==> EndsWith(src.strip, "/")
    ensures var p := OutPath(src, Paths.DerivePath(url, src.strip, docsMap));
            StartsWith(p, src.name + "/") && EndsWith(p, ".md")
  {
    var rel := Paths.DerivePath(url, src.strip, docsMap);
    match docsMap
    case None => Paths.DerivePathNoMapIsMd(url, src.strip);
    case Some(m) => Paths.DerivePathWithMapIsMd(url, src.strip, m);
    ConcatAffixes(src.name + "/", rel, ".md");
  }

  /** One step either leaves a file as it was or writes the body of the document it has just
      requested into a `.md` file below the source's directory. */
  lemma DocStepWrite(world: World, src: Source, docsMap: Option<map<string, string>>,
                     st: DocRun, url: string, p: string)
    requires EndsWith(url, ".md")
    requires docsMap.None? ==> EndsWith(src.strip, "/")
    ensures var d := DocStep(world, src, docsMap, st, url);
            (forall u :: u in st.fetched ==> u in d.fetched)
            && (p in d.files ==>
                  (p in st.files && d.files[p] == st.files[p])
                  || (StartsWith(p, src.name + "/") && EndsWith(p, ".md") && url in d.fetched
                      && url in world.pages && world.pages[url] == d.files[p]
                      && p == OutPath(src, Paths.DerivePath(url, src.strip, docsMap))))
  {
    DocStepCases(world, src, docsMap, st, url);
    OutPathIsMd(src, docsMap, url);
  }

  lemma {:induction false} DocsWrite(world: World, src: Source, docsMap: Option<map<string, string>>,
                                     st: DocRun, urls: seq<string>, p: string)
    requires forall i :: 0 <= i < |urls| ==> EndsWith(urls[i], ".md")
    requires docsMap.None? ==> EndsWith(src.strip, "/")
    ensures var d := Docs(world, src, docsMap, st, urls);
            p in d.files ==> (p in st.files && d.files[p] == st.files[p])
                             || WrittenBy(world, src, docsMap, d.fetched, p, d.files[p])
  {
    if urls != [] {
      var n := |urls| - 1;
      var prev := Docs(world, src, docsMap, st, urls[..n]);
      var url := urls[n];
      var d := DocStep(world, src, docsMap, prev, url);
      assert Docs(world, src, docsMap, st, urls) == d;
      DocsWrite(world, src, docsMap, st, urls[..n], p);
      DocStepWrite(world, src, docsMap, prev, url, p);
      if p in d.files && !(p in st.files && d.files[p] == st.files[p]) {
        if p in prev.files && d.files[p] == prev.files[p] {
          var u :| u in prev.fetched && u in world.pages && world.pages[u] == prev.files[p]
                   && p == OutPath(src, Paths.DerivePath(u, src.strip, docsMap));
          assert u in d.fetched;
        } else {
          assert url in d.fetched;
        }
      }
    }
  }

  // One source.

  /** The documentation map of the Claude Code source: parsed when its fetch succeeds, empty
      (every document filed under `misc`) when it fails; no map for the other sources. */
  function DocsMapFor(world: World, src: Source): Option<map<string, string>> {
    if IsCodeSource(src) then
      Some(if DocsMapUrl in world.pages then DocsMap.Parse(world.pages[DocsMapUrl]) else map[])
    else None
  }

  /** Only the Claude Code source has a map; it is empty when the map cannot be fetched, and
      every section it files a document under is a non-empty name of `[a-z0-9-]`. */
  lemma DocsMapForShape(world: World, src: Source)
    ensures DocsMapFor(world, src).Some? <==> IsCodeSource(src)
    ensures IsCodeSource(src) && DocsMapUrl !in world.pages ==> DocsMapFor(world, src) == Some(map[])
    ensures DocsMapFor(world, src).Some? ==>
              forall name :: name in DocsMapFor(world, src).value ==>
                DocsMapFor(world, src).value[name] != []
                && forall c :: c in DocsMapFor(world, src).value[name] ==> Sections.IsSectionChar(c)
  {
    if IsCodeSource(src) && DocsMapUrl in world.pages {
      DocsMap.ParseWellFormed(world.pages[DocsMapUrl]);
    }
  }

  /** What the summary reports for one source: `(0, 1, 0)` when its index cannot be fetched,
      otherwise the outcomes of the documents its index links to. */
  function SourceTally(world: World, src: Source): Tally {
    if src.indexUrl !in world.pages then Tally(0, 1, 0)
    else
      var urls := Links.ExtractUrls(world.pages[src.indexUrl]);
      var dm := DocsMapFor(world, src);
      Counts(world, src, dm, urls)
  }

  /** With its index fetched, a source's counters add up to the number of URLs the index
      links to; without, it counts one failure. */
  lemma SourceTallyCoversUrls(world: World, src: Source)
    ensures src.indexUrl in world.pages ==>
              var t := SourceTally(world, src);
              t.ok + t.fail + t.skip == |Links.ExtractUrls(world.pages[src.indexUrl])|
    ensures src.indexUrl !in world.pages ==> SourceTally(world, src) == Tally(0, 1, 0)
  {
    if src.indexUrl in world.pages {
      CountsCover(world, src, DocsMapFor(world, src), Links.ExtractUrls(world.pages[src.indexUrl]));
    }
  }

  // The run.

  /** One source's line of the summary. */
  datatype SourceResult = SourceResult(name: string, tally: Tally)

  /** `results`, `totals`, the files under the output directory and the URLs requested. */
  datatype RunState = RunState(results: seq<SourceResult>, totals: Tally,
                               files: map<string, string>, fetched: seq<string>)

  /** One iteration of the loop over the sources. */
  function SourceStep(world: World, st: RunState, src: Source): RunState {
    var fetched := st.fetched + [src.indexUrl];
    if src.indexUrl !in world.pages then
      RunState(st.results + [SourceResult(src.name, Tally(0, 1, 0))], Add(st.totals, Tally(0, 1, 0)),
               st.files, fetched)
    else
      var urls := Links.ExtractUrls(world.pages[src.indexUrl]);
      var fetched' := if IsCodeSource(src) then fetched + [DocsMapUrl] else fetched;
      var d := Docs(world, src, DocsMapFor(world, src), DocRun(Tally(0, 0, 0), st.files, fetched'), urls);
      RunState(st.results + [SourceResult(src.name, d.tally)], Add(st.totals, d.tally), d.files, d.fetched)
  }

  /** The loop over `srcs`, as a fold, starting from the given files. */
  function RunFrom(world: World, files: map<string, string>, srcs: seq<Source>): RunState {
    if srcs == [] then RunState([], Tally(0, 0, 0), files, [])
    else SourceStep(world, RunFrom(world, files, srcs[..|srcs| - 1]), srcs[|srcs| - 1])
  }

  /** The whole run: purge, then every source in turn. */
  function Run(world: World): RunState {
    RunFrom(world, PurgeDirs(world.before, SourceDirs), Sources)
  }

  /** The `*.md` files of size zero under the output directory. */
  function EmptyMdFiles(files: map<string, string>): set<string> {
    set p | p in files && EndsWith(p, ".md") && files[p] == []
  }

  /** `main`'s result: 1 when an empty `.md` file exists or anything failed, 0 otherwise. */
  function ExitStatus(r: RunState): int {
    if EmptyMdFiles(r.files) != {} then 1
    else if r.totals.fail > 0 then 1
    else 0
  }

  /** The status `main` ends with: 1 when the purge raises (Python reports the uncaught
      exception and exits with 1 before any request), otherwise that of the completed run. */
  function MainStatus(world: World): int {
    if PurgeRaises(world.before, SourceDirs) then 1 else ExitStatus(Run(world))
  }

  /** The component-wise sum of the summary's counters. */
  function SumTallies(results: seq<SourceResult>): Tally {
    if results == [] then Tally(0, 0, 0)
    else Add(SumTallies(results[..|results| - 1]), results[|results| - 1].tally)
  }

  /** One source's step appends its summary line and adds its counters to the totals. */
  lemma SourceStepTally(world: World, st: RunState, src: Source)
    ensures SourceStep(world, st, src).results == st.results + [SourceResult(src.name, SourceTally(world, src))]
    ensures SourceStep(world, st, src).totals == Add(st.totals, SourceTally(world, src))
  {
    if src.indexUrl in world.pages {
      var urls := Links.ExtractUrls(world.pages[src.indexUrl]);
      var fetched := st.fetched + [src.indexUrl];
      var fetched' := if IsCodeSource(src) then fetched + [DocsMapUrl] else fetched;
      DocsTally(world, src, DocsMapFor(world, src), DocRun(Tally(0, 0, 0), st.files, fetched'), urls);
    }
  }

  /** The summary lines of `srcs`, each with its source's counters. */
  function Summary(world: World, srcs: seq<Source>): seq<SourceResult> {
    if srcs == [] then []
    else Summary(world, srcs[..|srcs| - 1]) + [SourceResult(srcs[|srcs| - 1].name, SourceTally(world, srcs[|srcs| - 1]))]
  }

  /** The summary has one line per source, in order, with that source's name and counters. */
  lemma {:induction false} SummaryLines(world: World, srcs: seq<Source>)
    ensures |Summary(world, srcs)| == |srcs|
    ensures forall i :: 0 <= i < |srcs| ==>
              Summary(world, srcs)[i] == SourceResult(srcs[i].name, SourceTally(world, srcs[i]))
  {
    if srcs != [] {
      var n := |srcs| - 1;
      SummaryLines(world, srcs[..n]);
      assert forall i :: 0 <= i < n ==> srcs[i] == srcs[..n][i];
    }
  }

  /** The run reports the summary lines of its sources. */
  lemma {:induction false} RunResults(world: World, files: map<string, string>, srcs: seq<Source>)
    ensures RunFrom(world, files, srcs).results == Summary(world, srcs)
  {
    if srcs != [] {
      var n := |srcs| - 1;
      RunResults(world, files, srcs[..n]);
      SourceStepTally(world, RunFrom(world, files, srcs[..n]), srcs[n]);
    }
  }

  /** The totals are the component-wise sums of the summary's counters. */
  lemma {:induction false} RunTotals(world: World, files: map<string, string>, srcs: seq<Source>)
    ensures RunFrom(world, files, srcs).totals == SumTallies(RunFrom(world, files, srcs).results)
  {
    if srcs != [] {
      var n := |srcs| - 1;
      var prev := RunFrom(world, files, srcs[..n]);
      var r := RunFrom(world, files, srcs);
      RunTotals(world, files, srcs[..n]);
      SourceStepTally(world, prev, srcs[n]);
      assert r.results[..|r.results| - 1] == prev.results;
    }
  }

  /** The totals count a failure exactly when some summary line does. */
  lemma {:induction false} SumTalliesFail(results: seq<SourceResult>)
    ensures SumTallies(results).fail == 0 <==> forall i :: 0 <= i < |results| ==> results[i].tally.fail == 0
  {
    if results != [] {
      SumTalliesFail(results[..|results| - 1]);
    }
  }

  /** The counters only grow as the run goes from source to source. */
  lemma {:induction false} TotalsMonotone(world: World, files: map<string, string>, srcs: seq<Source>, k: nat)
    requires k <= |srcs|
    ensures Le(RunFrom(world, files, srcs[..k]).totals, RunFrom(world, files, srcs).totals)
  {
    if k < |srcs| {
      var n := |srcs| - 1;
      TotalsMonotone(world, files, srcs[..n], k);
      assert srcs[..n][..k] == srcs[..k];
    } else {
      assert srcs[..k] == srcs;
    }
  }

  /** The run as a whole exits with 1 exactly when an empty `.md` file is left or some source
      counted a failure, whether of its index or of a document; otherwise with 0. */
  lemma ExitStatusRule(world: World)
    ensures ExitStatus(Run(world)) == 0 || ExitStatus(Run(world)) == 1
    ensures ExitStatus(Run(world)) == 1 <==>
              EmptyMdFiles(Run(world).files) != {}
              || exists i :: 0 <= i < |Sources| && SourceTally(world, Sources[i]).fail > 0
  {
    var r := Run(world);
    RunResults(world, PurgeDirs(world.before, SourceDirs), Sources);
    SummaryLines(world, Sources);
    RunTotals(world, PurgeDirs(world.before, SourceDirs), Sources);
    SumTalliesFail(r.results);
  }

  /** `main` exits with 1 exactly when a source directory's name is taken by a file before the
      run, or the completed run leaves an empty `.md` file or counts a failure; otherwise
      with 0. */
  lemma MainStatusRule(world: World)
    ensures MainStatus(world) == 0 || MainStatus(world) == 1
    ensures MainStatus(world) == 1 <==>
              (exists i :: 0 <= i < |SourceDirs| && SourceDirs[i] in world.before)
              || EmptyMdFiles(Run(world).files) != {}
              || exists i :: 0 <= i < |Sources| && SourceTally(world, Sources[i]).fail > 0
  {
    SourceDirsUnslashed();
    PurgeRaisesIff(world.before, SourceDirs);
    ExitStatusRule(world);
  }

  /** A file named `MCP` in the output directory makes the purge raise, so the run exits with
      1 even when every index is fetched and nothing fails. */
  lemma PurgeRaisesExample(world: World)
    requires world.before == map["MCP" := "x"]
    ensures PurgeRaises(world.before, SourceDirs) && MainStatus(world) == 1
  {
    SourceDirsUnslashed();
    PurgeRaisesIff(world.before, SourceDirs);
    assert SourceDirs[1] in world.before;
  }

  /** With files at the API source's and the Claude Code source's names and a document under
      `MCP/`, the first directory that raises is the API source's, before anything is removed:
      `ScrapeAll` then ends with every file, `MCP/x.md` included, still there. */
  lemma FirstRaiseExample(world: World, i: nat)
    requires world.before == map[SdkName := "a", "MCP/x.md" := "b", CodeName := "c"]
    requires i < |SourceDirs| && SourceDirs[i] in PurgeDirs(world.before, SourceDirs[..i])
    requires forall j :: 0 <= j < i ==> SourceDirs[j] !in PurgeDirs(world.before, SourceDirs[..j])
    ensures i == 0 && PurgeDirs(world.before, SourceDirs[..i]) == world.before
  {
    SourceDirsAreNames();
    assert SourceDirs[..0] == [];
    assert SourceDirs[0] in PurgeDirs(world.before, SourceDirs[..0]);
  }

  /** A source whose index cannot be fetched makes the run fail. */
  lemma IndexFailureFails(world: World, i: nat)
    requires i < |Sources| && Sources[i].indexUrl !in world.pages
    ensures ExitStatus(Run(world)) == 1 && MainStatus(world) == 1
  {
    ExitStatusRule(world);
    assert SourceTally(world, Sources[i]).fail > 0;
  }

  /** The run leaves every file outside the source directories it handles as it was. */
  lemma {:induction false} RunKeepsOthers(world: World, files: map<string, string>, srcs: seq<Source>,
                                          p: string)
    requires forall j :: 0 <= j < |srcs| ==> !StartsWith(p, srcs[j].name + "/")
    ensures p in RunFrom(world, files, srcs).files <==> p in files
    ensures p in files ==> RunFrom(world, files, srcs).files[p] == files[p]
  {
    if srcs != [] {
      var n := |srcs| - 1;
      var prev := RunFrom(world, files, srcs[..n]);
      RunKeepsOthers(world, files, srcs[..n], p);
      var src := srcs[n];
      if src.indexUrl in world.pages {
        var urls := Links.ExtractUrls(world.pages[src.indexUrl]);
        var fetched := prev.fetched + [src.indexUrl];
        var fetched' := if IsCodeSource(src) then fetched + [DocsMapUrl] else fetched;
        DocsKeepOthers(world, src, DocsMapFor(world, src), DocRun(Tally(0, 0, 0), prev.files, fetched'), urls, p);
      }
    }
  }

  /** One source's step either leaves a file as it was or writes into the source's directory
      the body of a document it requested, and it forgets no earlier request. */
  lemma SourceStepWrites(world: World, st: RunState, src: Source, p: string)
    requires EndsWith(src.strip, "/")
    ensures var r := SourceStep(world, st, src);
            (forall u :: u in st.fetched ==> u in r.fetched)
            && (p in r.files ==> (p in st.files && r.files[p] == st.files[p])
                                 || WrittenBy(world, src, DocsMapFor(world, src), r.fetched, p, r.files[p]))
  {
    if src.indexUrl in world.pages {
      var urls := Links.ExtractUrls(world.pages[src.indexUrl]);
      var fetched := st.fetched + [src.indexUrl];
      var fetched' := if IsCodeSource(src) then fetched + [DocsMapUrl] else fetched;
      var dm := DocsMapFor(world, src);
      var d0 := DocRun(Tally(0, 0, 0), st.files, fetched');
      assert forall i :: 0 <= i < |urls| ==> EndsWith(urls[i], ".md") by {
        assert forall i :: 0 <= i < |urls| ==> Links.IsMdUrl(urls[i]);
      }
      DocsWrite(world, src, dm, d0, urls, p);
      DocsFetched(world, src, dm, d0, urls);
    }
  }

  /** Every file the run has in a source's directory holds the body of a document it requested. */
  lemma {:induction false} RunWrites(world: World, files: map<string, string>, srcs: seq<Source>,
                                     p: string)
    requires forall j :: 0 <= j < |srcs| ==> EndsWith(srcs[j].strip, "/")
    ensures var r := RunFrom(world, files, srcs);
            p in r.files ==> (p in files && r.files[p] == files[p])
                             || exists j :: 0 <= j < |srcs|
                                  && WrittenBy(world, srcs[j], DocsMapFor(world, srcs[j]), r.fetched, p, r.files[p])
  {
    if srcs != [] {
      var n := |srcs| - 1;
      var prev := RunFrom(world, files, srcs[..n]);
      var r := RunFrom(world, files, srcs);
      assert r == SourceStep(world, prev, srcs[n]);
      RunWrites(world, files, srcs[..n], p);
      SourceStepWrites(world, prev, srcs[n], p);
      if p in r.files && !(p in files && r.files[p] == files[p]) {
        if p in prev.files && r.files[p] == prev.files[p] {
          var j :| 0 <= j < n && WrittenBy(world, srcs[..n][j], DocsMapFor(world, srcs[..n][j]), prev.fetched, p, prev.files[p]);
          var dm := DocsMapFor(world, srcs[j]);
          var u :| u in prev.fetched && u in world.pages && world.pages[u] == prev.files[p]
                   && p == OutPath(srcs[j], Paths.DerivePath(u, srcs[j].strip, dm));
          assert u in r.fetched;
          assert WrittenBy(world, srcs[j], dm, r.fetched, p, r.files[p]);
        } else {
          assert WrittenBy(world, srcs[n], DocsMapFor(world, srcs[n]), r.fetched, p, r.files[p]);
        }
      }
    }
  }

  lemma SourcesShape()
    ensures forall j :: 0 <= j < |Sources| ==> EndsWith(Sources[j].strip, "/")
    ensures SourceDirs == [Sources[0].name, Sources[1].name, Sources[2].name]
  {
  }

  /** The purge is scoped: a file outside the source directories is there after the run
      exactly when it was there before, with the same content. */
  lemma PurgeScoped(world: World, p: string)
    requires !InSourceDir(p)
    ensures p in Run(world).files <==> p in world.before
    ensures p in world.before ==> Run(world).files[p] == world.before[p]
  {
    SourceDirsAreNames();
    PurgeDirsKeeps(world.before, SourceDirs, p);
    RunKeepsOthers(world, PurgeDirs(world.before, SourceDirs), Sources, p);
  }

  /** Nothing stale survives in a source directory: every file there after the run is a `.md`
      file, the output path of a document this run requested, holding that document's body. */
  lemma StaleFilesRemoved(world: World, p: string)
    requires InSourceDir(p) && p in Run(world).files
    ensures EndsWith(p, ".md")
    ensures exists j, u :: 0 <= j < |Sources| && u in Run(world).fetched && u in world.pages
                           && world.pages[u] == Run(world).files[p]
                           && p == OutPath(Sources[j], Paths.DerivePath(u, Sources[j].strip, DocsMapFor(world, Sources[j])))
  {
    SourceDirsAreNames();
    SourcesShape();
    var purged := PurgeDirs(world.before, SourceDirs);
    PurgeDirsKeeps(world.before, SourceDirs, p);
    assert p !in purged;
    RunWrites(world, purged, Sources, p);
    var j :| 0 <= j < |Sources| && WrittenBy(world, Sources[j], DocsMapFor(world, Sources[j]), Run(world).fetched, p, Run(world).files[p]);
  }

  /** A document fetched with an empty body and left saved makes the run fail. */
  lemma EmptyDocumentFails(world: World, p: string)
    requires InSourceDir(p) && p in Run(world).files && Run(world).files[p] == []
    ensures ExitStatus(Run(world)) == 1 && MainStatus(world) == 1
  {
    StaleFilesRemoved(world, p);
    assert p in EmptyMdFiles(Run(world).files);
  }

  /** Counting one more document. */
  lemma CountPush(world: World, src: Source, docsMap: Option<map<string, string>>,
                  urls: seq<string>, u: string, o: Outcome)
    ensures Count(world, src, docsMap, urls + [u], o)
            == Count(world, src, docsMap, urls, o) + (if DocOutcome(world, src, docsMap, u) == o then 1 else 0)
  {
    assert (urls + [u])[..|urls|] == urls;
  }

  /** The literal sequences a three-document index builds one element at a time: a proof
      step of `CountOfThree`. */
  lemma ThreeElements(x: string, y: string, z: string)
    ensures [] + [x] == [x] && [x] + [y] == [x, y] && [x, y] + [z] == [x, y, z]
  {
  }

  /** Among three documents, the number with a given outcome is the number of the three
      that have it. */
  lemma CountOfThree(world: World, src: Source, docsMap: Option<map<string, string>>,
                     x: string, y: string, z: string, o: Outcome)
    ensures Count(world, src, docsMap, [x, y, z], o)
            == (if DocOutcome(world, src, docsMap, x) == o then 1 else 0)
               + (if DocOutcome(world, src, docsMap, y) == o then 1 else 0)
               + (if DocOutcome(world, src, docsMap, z) == o then 1 else 0)
  {
    ThreeElements(x, y, z);
    CountPush(world, src, docsMap, [], x, o);
    CountPush(world, src, docsMap, [x], y, o);
    CountPush(world, src, docsMap, [x, y], z, o);
  }

  /** Three documents of a source without a map that are saved, failed and skipped count
      once each. */
  lemma CountThree(world: World, src: Source, x: string, y: string, z: string)
    requires DocOutcome(world, src, None, x) == Saved
    requires DocOutcome(world, src, None, y) == Failed
    requires DocOutcome(world, src, None, z) == Skipped
    ensures Counts(world, src, None, [x, y, z]) == Tally(1, 1, 1)
  {
    CountOfThree(world, src, None, x, y, z, Saved);
    CountOfThree(world, src, None, x, y, z, Failed);
    CountOfThree(world, src, None, x, y, z, Skipped);
  }

  /** The URL of a document below a source's prefix is derived back to the rest of it. */
  lemma RelPathBelowPrefix(src: Source, rest: string)
    ensures Paths.DerivePath(src.strip + rest, src.strip, None) == rest
  {
    assert (src.strip + rest)[..|src.strip|] == src.strip;
  }

  /** The end-to-end example: the API source's index links to a page that is saved, one whose
      fetch fails and one in `api/go/` that the filter skips. The source counts one of each,
      and the failed fetch makes the run exit with 1. */
  lemma EndToEndExample(world: World, a: string, b: string, c: string)
    requires Sources[0].indexUrl in world.pages
    requires Links.ExtractUrls(world.pages[Sources[0].indexUrl]) == [a, b, c]
    requires a == Sources[0].strip + "intro.md" && b == Sources[0].strip + "guide.md"
    requires c == Sources[0].strip + "api/go/client.md"
    requires a in world.pages && OutPath(Sources[0], "intro.md") !in world.unwritable
    requires b !in world.pages
    ensures SourceTally(world, Sources[0]) == Tally(1, 1, 1)
    ensures ExitStatus(Run(world)) == 1 && MainStatus(world) == 1
  {
    var src := Sources[0];
    assert IsSdkSource(src);
    assert DocsMapFor(world, src) == None;
    RelPathBelowPrefix(src, "intro.md");
    RelPathBelowPrefix(src, "guide.md");
    RelPathBelowPrefix(src, "api/go/client.md");
    assert !Paths.SdkSkip("intro.md") by { assert "intro.md"[..4][0] == 'i'; }
    assert !Paths.SdkSkip("guide.md") by { assert "guide.md"[..4][0] == 'g'; }
    Paths.SdkSkipGo("api/go/client.md");
    CountThree(world, src, a, b, c);
    ExitStatusRule(world);
  }

  /** The fold over one more source is one more step. */
  lemma RunFromSnoc(world: World, files: map<string, string>, srcs: seq<Source>, i: nat)
    requires i < |srcs|
    ensures RunFrom(world, files, srcs[..i + 1]) == SourceStep(world, RunFrom(world, files, srcs[..i]), srcs[i])
  {
    assert srcs[..i + 1][..i] == srcs[..i];
  }

  /** The body of `main`'s loop for one source: its index, the documentation map for the
      Claude Code source, then its documents. */
  method ScrapeSource(world: World, src: Source, results0: seq<SourceResult>, totals0: Tally,
                      files0: map<string, string>, fetched0: seq<string>)
    returns (results: seq<SourceResult>, totals: Tally, files: map<string, string>, fetched: seq<string>)
    ensures RunState(results, totals, files, fetched)
            == SourceStep(world, RunState(results0, totals0, files0, fetched0), src)
  {
    results, totals, files := results0, totals0, files0;
    fetched := fetched0 + [src.indexUrl];
    if src.indexUrl !in world.pages {
      results := results + [SourceResult(src.name, Tally(0, 1, 0))];
      totals := totals.(fail := totals.fail + 1);
      return;
    }
    var urls := Links.ExtractUrls(world.pages[src.indexUrl]);
    var docsMap: Option<map<string, string>> := None;
    if IsCodeSource(src) {
      fetched := fetched + [DocsMapUrl];
      if DocsMapUrl in world.pages {
        var m := DocsMap.ParseDocsMap(world.pages[DocsMapUrl]);
        docsMap := Some(m);
      } else {
        docsMap := Some(map[]);
      }
    }
    assert docsMap == DocsMapFor(world, src);
    var tally;
    tally, files, fetched := FetchDocuments(world, src, docsMap, urls, files, fetched);
    results := results + [SourceResult(src.name, tally)];
    totals := Add(totals, tally);
  }

  /** The purge loop over one more directory is one more removal. */
  lemma PurgeDirsSnoc(files: map<string, string>, dirs: seq<string>, i: nat)
    requires i < |dirs|
    ensures PurgeDirs(files, dirs[..i + 1]) == RemoveDir(PurgeDirs(files, dirs[..i]), dirs[i])
  {
    assert dirs[..i + 1][..i] == dirs[..i];
  }

  /** `main` from the purge to the exit status. When the purge raises, the run stops there
      with status 1, the directories before the failing one purged, and nothing requested;
      otherwise it ends in the state `Run` gives. */
  method ScrapeAll(world: World)
    returns (results: seq<SourceResult>, totals: Tally, files: map<string, string>,
             fetched: seq<string>, status: int)
    ensures PurgeRaises(world.before, SourceDirs) ==>
              results == [] && fetched == []
              && exists i :: 0 <= i < |SourceDirs| && SourceDirs[i] in files
                             && files == PurgeDirs(world.before, SourceDirs[..i])
                             && forall j :: 0 <= j < i ==> SourceDirs[j] !in PurgeDirs(world.before, SourceDirs[..j])
    ensures !PurgeRaises(world.before, SourceDirs) ==>
              RunState(results, totals, files, fetched) == Run(world)
    ensures status == MainStatus(world)
  {
    totals := Tally(0, 0, 0);
    results := [];
    fetched := [];
    files := world.before;
    for i := 0 to |SourceDirs|
      invariant files == PurgeDirs(world.before, SourceDirs[..i])
      invariant forall j :: 0 <= j < i ==> SourceDirs[j] !in PurgeDirs(world.before, SourceDirs[..j])
    {
      if SourceDirs[i] in files {
        status := 1;
        return;
      }
      PurgeDirsSnoc(world.before, SourceDirs, i);
      files := RemoveDir(files, SourceDirs[i]);
    }
    assert SourceDirs[..|SourceDirs|] == SourceDirs;
    ghost var purged := files;
    for i := 0 to |Sources|
      invariant RunState(results, totals, files, fetched) == RunFrom(world, purged, Sources[..i])
    {
      RunFromSnoc(world, purged, Sources, i);
      results, totals, files, fetched := ScrapeSource(world, Sources[i], results, totals, files, fetched);
    }
    assert Sources[..|Sources|] == Sources;
    if EmptyMdFiles(files) != {} {
      status := 1;
    } else {
      status := if totals.fail > 0 then 1 else 0;
    }
  }
}
