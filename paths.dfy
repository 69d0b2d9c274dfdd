/** `derive_path` and the SDK language filter: where a document is written, relative to its
    source's directory, and which documents of the API source are not fetched at all. */
module Paths {
  import opened Wrappers
  import opened Strings

  /** `PurePath(rel).name` for a `/`-separated path: the text after the last `/`. */
  function BaseName(rel: string): (name: string)
    ensures '/' !in name
    ensures EndsWith(rel, name)
    ensures name == rel || EndsWith(rel, "/" + name)
  {
    var k := LastIndexOf(rel, '/');
    var name := rel[k + 1..];
    assert forall j :: 0 <= j < |name| ==> name[j] == rel[k + 1 + j];
    if k >= 0 then assert rel[|rel| - |name| - 1..] == "/" + name; name
    else assert rel[0..] == rel; name
  }

  /** Where `PurePath.suffix` cuts a name: at its last `.`, provided that dot is neither the
      first nor the last character; otherwise the name has no suffix. The ensures say that a
      cut is at such a dot; `SuffixStartAtLastDot` says that such a dot is the cut. */
  function SuffixStart(name: string): (i: nat)
    ensures i <= |name|
    ensures i < |name| ==> 0 < i < |name| - 1 && name[i] == '.'
    ensures i < |name| ==> forall j :: i < j < |name| ==> name[j] != '.'
  {
    var k := LastIndexOf(name, '.');
    if 0 < k < |name| - 1 then k else |name|
  }

  /** The last `.` of a name, when it is neither the first nor the last character, is where
      the suffix starts: the converse of `SuffixStart`'s ensures. */
  lemma SuffixStartAtLastDot(name: string, k: nat)
    requires 0 < k < |name| - 1 && name[k] == '.'
    requires forall j :: k < j < |name| ==> name[j] != '.'
    ensures SuffixStart(name) == k
    ensures Stem(name) == name[..k] && Suffix(name) == name[k..]
  {
    LastIndexOfAt(name, '.', k);
  }

  /** `PurePath(name).stem`. */
  function Stem(name: string): string {
    name[..SuffixStart(name)]
  }

  /** `PurePath(name).suffix`. */
  function Suffix(name: string): string {
    name[SuffixStart(name)..]
  }

  /** A name is its stem followed by its suffix; the suffix is empty or a `.` with at least
      one character after it and no other `.`. */
  lemma StemSuffix(name: string)
    ensures Stem(name) + Suffix(name) == name
    ensures Suffix(name) == [] || (|Suffix(name)| >= 2 && Suffix(name)[0] == '.'
                                   && '.' !in Suffix(name)[1..])
    ensures Suffix(name) == [] ==> Stem(name) == name
  {
    var i := SuffixStart(name);
    assert name[..i] + name[i..] == name;
    if i < |name| {
      assert forall j :: 0 <= j < |name[i..][1..]| ==> name[i..][1..][j] == name[i + 1 + j];
    }
  }

  /** A stem keeps a file name's `/`-freedom. */
  lemma StemNoSlash(name: string)
    requires '/' !in name
    ensures '/' !in Stem(name)
  {
    assert forall j :: 0 <= j < |Stem(name)| ==> Stem(name)[j] == name[j];
  }

  /** `Path(dir) / file`, for a `file` that is a single component. */
  function JoinPath(dir: string, file: string): string {
    if dir == [] then file else dir + "/" + file
  }

  /** The directory a document is filed under when a map is given: its section, or `misc`. */
  function SectionOf(docsMap: map<string, string>, stem: string): string {
    if stem in docsMap then docsMap[stem] else "misc"
  }

  /** `derive_path(url, strip, docs_map)`: with no map, what follows `strip` in `url` (all
      of `url` when it does not start with `strip`); with a map, the section the stem of that
      remainder is listed under, and the stem with `.md` after it. */
  function DerivePath(url: string, strip: string, docsMap: Option<map<string, string>>): string {
    var rel := RemovePrefix(url, strip);
    match docsMap
    case None => rel
    case Some(m) =>
      var stem := Stem(BaseName(rel));
      JoinPath(SectionOf(m, stem), stem + ".md")
  }

  /** Without a map the path is the URL with its prefix removed, or the URL itself. */
  lemma DerivePathNoMap(url: string, strip: string)
    ensures StartsWith(url, strip) ==> strip + DerivePath(url, strip, None) == url
    ensures !StartsWith(url, strip) ==> DerivePath(url, strip, None) == url
  {
  }

  /** With a map whose sections are single non-empty components, the path has exactly two
      components: the section (`misc` for an unlisted stem) and the stem with `.md`. */
  lemma DerivePathWithMap(url: string, strip: string, m: map<string, string>)
    requires forall k :: k in m ==> m[k] != [] && '/' !in m[k]
    ensures var stem := Stem(BaseName(RemovePrefix(url, strip)));
            var section := if stem in m then m[stem] else "misc";
            DerivePath(url, strip, Some(m)) == section + "/" + stem + ".md"
            && section != [] && '/' !in section && '/' !in stem + ".md"
  {
    var stem := Stem(BaseName(RemovePrefix(url, strip)));
    StemNoSlash(BaseName(RemovePrefix(url, strip)));
    assert '/' !in ".md";
  }

  /** A suffix free of `/` that ends `a + b`, where `a` ends in `/`, lies within `b`. */
  lemma SuffixPastSlash(a: string, b: string, suf: string)
    requires EndsWith(a + b, suf) && EndsWith(a, "/") && '/' !in suf
    ensures EndsWith(b, suf)
  {
    var s := a + b;
    assert forall j :: 0 <= j < |suf| ==> s[|s| - |suf| + j] == suf[j];
    assert s[|a| - 1] == '/';
    assert |b| >= |suf|;
    assert s[|s| - |suf|..] == b[|b| - |suf|..];
  }

  /** Without a map, a URL ending in `.md` gives a path ending in `.md`, when the prefix ends
      in `/`. */
  lemma DerivePathNoMapIsMd(url: string, strip: string)
    requires EndsWith(url, ".md") && EndsWith(strip, "/")
    ensures EndsWith(DerivePath(url, strip, None), ".md")
  {
    var r := DerivePath(url, strip, None);
    if StartsWith(url, strip) {
      assert url == strip + r;
      assert '/' !in ".md";
      SuffixPastSlash(strip, r, ".md");
    }
  }

  /** With a map, every derived path ends in `.md`. */
  lemma DerivePathWithMapIsMd(url: string, strip: string, m: map<string, string>)
    ensures EndsWith(DerivePath(url, strip, Some(m)), ".md")
  {
    var stem := Stem(BaseName(RemovePrefix(url, strip)));
    var file := stem + ".md";
    var dir := SectionOf(m, stem);
    assert EndsWith(file, ".md") by {
      assert file[|file| - 3..] == ".md";
    }
    if dir != [] {
      ConcatAffixes(dir + "/", file, ".md");
      assert JoinPath(dir, file) == (dir + "/") + file;
    }
    assert DerivePath(url, strip, Some(m)) == JoinPath(dir, file);
  }

  lemma BarFacts(name: string)
    requires name == "bar.md"
    ensures BaseName(name) == name && Stem(name) == "bar"
  {
    assert forall j :: 0 <= j < |name| ==> name[j] != '/';
    LastIndexOfAbsent(name, '/');
    assert name[3] == '.' && name[4] != '.' && name[5] != '.';
    LastIndexOfAt(name, '.', 3);
    assert name[..3] == "bar";
  }

  /** The example `https://host/docs/en/foo/bar.md` without a map gives `foo/bar.md`. */
  lemma DerivePathNoMapExample(url: string, strip: string)
    requires url == "https://host/docs/en/foo/bar.md" && strip == "https://host/docs/en/"
    ensures DerivePath(url, strip, None) == "foo/bar.md"
  {
    assert url == strip + "foo/bar.md";
  }

  /** The example `https://host/x/bar.md`, with a map listing `bar` under `guides`, and with
      one that does not list it. */
  lemma DerivePathWithMapExamples(url: string, strip: string)
    requires url == "https://host/x/bar.md" && strip == "https://host/x/"
    ensures DerivePath(url, strip, Some(map["bar" := "guides"])) == "guides/bar.md"
    ensures DerivePath(url, strip, Some(map[])) == "misc/bar.md"
  {
    assert url == strip + "bar.md";
    BarFacts(RemovePrefix(url, strip));
  }

  // The SDK language filter `^api/(go|java|kotlin|ruby)/`.

  /** The languages whose API reference is not downloaded. */
  predicate IsSkippedLanguage(segment: string) {
    segment == "go" || segment == "java" || segment == "kotlin" || segment == "ruby"
  }

  /** `SDK_SKIP.match(path)`: after a leading `api/`, the next component (ended by a `/`) names
      a skipped language. */
  predicate SdkSkip(path: string) {
    StartsWith(path, "api/") &&
    var rest := path[4..];
    var k := IndexOf(rest, '/', 0);
    k < |rest| && IsSkippedLanguage(rest[..k])
  }

  /** Past a common prefix `a`, `a + b` starts `s` exactly when `b` starts what follows. */
  lemma StartsWithSplit(s: string, a: string, b: string)
    ensures StartsWith(s, a + b) <==> StartsWith(s, a) && StartsWith(s[|a|..], b)
  {
    if StartsWith(s, a + b) {
      assert s[..|a|] == (a + b)[..|a|];
      assert s[|a|..][..|b|] == (a + b)[|a|..];
    }
    if StartsWith(s, a) && StartsWith(s[|a|..], b) {
      assert s[..|a| + |b|] == s[..|a|] + s[|a|..][..|b|];
    }
  }

  /** The first `/`-ended component of `rest` is `seg` exactly when `rest` starts `seg/`. */
  lemma FirstSegment(rest: string, seg: string)
    requires '/' !in seg
    ensures (IndexOf(rest, '/', 0) < |rest| && rest[..IndexOf(rest, '/', 0)] == seg)
            <==> StartsWith(rest, seg + "/")
  {
    var k := IndexOf(rest, '/', 0);
    if StartsWith(rest, seg + "/") {
      assert forall j :: 0 <= j < |seg| ==> rest[j] == (seg + "/")[j] == seg[j];
      assert rest[|seg|] == '/';
      assert k == |seg|;
      assert rest[..k] == (seg + "/")[..|seg|];
    }
    if k < |rest| && rest[..k] == seg {
      assert rest[..k + 1] == rest[..k] + [rest[k]];
    }
  }

  /** The filter holds exactly for paths that start with `api/go/`, `api/java/`,
      `api/kotlin/` or `api/ruby/`. */
  lemma SdkSkipPrefixes(path: string)
    ensures SdkSkip(path) <==>
              StartsWith(path, "api/go/") || StartsWith(path, "api/java/")
              || StartsWith(path, "api/kotlin/") || StartsWith(path, "api/ruby/")
  {
    var api := "api/";
    forall lang | IsSkippedLanguage(lang)
      ensures StartsWith(path, api + (lang + "/")) <==>
              StartsWith(path, api) && StartsWith(path[4..], lang + "/")
      ensures StartsWith(path, api) ==>
              ((IndexOf(path[4..], '/', 0) < |path[4..]| && path[4..][..IndexOf(path[4..], '/', 0)] == lang)
               <==> StartsWith(path[4..], lang + "/"))
    {
      StartsWithSplit(path, api, lang + "/");
      if StartsWith(path, api) {
        FirstSegment(path[4..], lang);
      }
    }
    assert api + ("go" + "/") == "api/go/";
    assert api + ("java" + "/") == "api/java/";
    assert api + ("kotlin" + "/") == "api/kotlin/";
    assert api + ("ruby" + "/") == "api/ruby/";
  }

  /** `api/go/client.md` is filtered out. */
  lemma SdkSkipGo(a: string)
    requires a == "api/go/client.md"
    ensures SdkSkip(a)
  {
    SdkSkipPrefixes(a);
    assert a[..7] == "api/go/";
  }

  /** `api/python/client.md` and `api/golang/x.md` are kept: neither starts with a skipped
      language's directory. */
  lemma SdkKeepExamples(b: string, c: string)
    requires b == "api/python/client.md" && c == "api/golang/x.md"
    ensures !SdkSkip(b) && !SdkSkip(c)
  {
    SdkSkipPrefixes(b);
    DiffersAt(b, "api/go/", 4);
    DiffersAt(b, "api/java/", 4);
    DiffersAt(b, "api/kotlin/", 4);
    DiffersAt(b, "api/ruby/", 4);
    SdkSkipPrefixes(c);
    DiffersAt(c, "api/go/", 6);
    DiffersAt(c, "api/java/", 4);
    DiffersAt(c, "api/kotlin/", 4);
    DiffersAt(c, "api/ruby/", 4);
  }
}
