/** `parse_docs_map`: the documentation map read line by line into a mapping from a
    document's file name to the directory of the section it is listed under. */
module DocsMap {
  import opened Wrappers
  import opened Strings
  import Sections

  /** `line.startswith("## ") and not line.startswith("### ")`: a section header. */
  predicate IsHeader(line: string) {
    StartsWith(line, "## ") && !StartsWith(line, "### ")
  }

  /** The directory a header opens: its title after `## `, stripped and normalised. */
  function HeaderSection(line: string): (section: string)
    requires IsHeader(line)
    ensures forall c :: c in section ==> Sections.IsSectionChar(c)
  {
    Sections.NormalizeAlphabet(Strip(line[3..]));
    Sections.Normalize(Strip(line[3..]))
  }

  /** `re.match(r"### \[([^\]]+)\]", line)`: the name between `### [` and the first `]`,
      when that name is not empty. */
  function EntryName(line: string): (name: Option<string>)
    ensures name.Some? ==> StartsWith(line, "### [") && name.value != [] && ']' !in name.value
  {
    if StartsWith(line, "### [") then
      var k := IndexOf(line, ']', 5);
      if 5 < k < |line| then Some(line[5..k]) else None
    else None
  }

  /** A line holds entry `name` exactly when it reads `### [name]…` with a non-empty `name`
      free of `]`. */
  lemma EntryNameMatches(line: string, name: string)
    ensures EntryName(line) == Some(name)
            <==> name != [] && ']' !in name && StartsWith(line, "### [" + name + "]")
  {
    var pre := "### [" + name + "]";
    if name != [] && ']' !in name && StartsWith(line, pre) {
      assert forall j :: 5 <= j < 5 + |name| ==> line[j] == name[j - 5];
      assert line[5 + |name|] == ']';
      assert IndexOf(line, ']', 5) == 5 + |name|;
      assert line[5..5 + |name|] == name;
    }
    if EntryName(line) == Some(name) {
      assert line[..|pre|] == line[..5] + line[5..5 + |name|] + [line[5 + |name|]];
    }
  }

  /** An entry line is never a header. */
  lemma EntryIsNoHeader(line: string)
    requires StartsWith(line, "### [")
    ensures !IsHeader(line)
  {
    assert line[..4] == "### [" [..4];
  }

  /** What a line means to the loop: a header opening a section, an entry naming a document,
      or anything else. */
  datatype Line = Header(section: string) | Entry(name: string) | Other

  /** How the loop body reads one line. A line is a header first; otherwise it is an entry
      when it matches `### [name]`; every other line is ignored. */
  function Classify(line: string): (l: Line)
    ensures l.Header? <==> IsHeader(line)
    ensures l.Header? ==> forall c :: c in l.section ==> Sections.IsSectionChar(c)
    ensures l.Entry? <==> !IsHeader(line) && EntryName(line).Some?
    ensures l.Entry? ==> EntryName(line) == Some(l.name) && StartsWith(line, "### [")
  {
    if IsHeader(line) then Header(HeaderSection(line))
    else
      var m := EntryName(line);
      if m.Some? then Entry(m.value) else Other
  }

  /** Every line of `lines`, classified. */
  function Classified(lines: seq<string>): (ls: seq<Line>)
    ensures |ls| == |lines|
    ensures forall i :: 0 <= i < |lines| ==> ls[i] == Classify(lines[i])
  {
    seq(|lines|, i requires 0 <= i < |lines| => Classify(lines[i]))
  }

  /** An entry is recorded only while the current section is truthy: set and not empty. */
  predicate Active(section: Option<string>) {
    section.Some? && section.value != []
  }

  /** The loop's variables: `section` and `mapping`. */
  datatype ParseState = ParseState(section: Option<string>, mapping: map<string, string>)

  /** One iteration of the loop: a header replaces the section, an entry under a truthy
      section is recorded with it, and nothing else changes the variables. */
  function Step(st: ParseState, l: Line): ParseState {
    if l.Header? then ParseState(Some(l.section), st.mapping)
    else if l.Entry? && Active(st.section) then
      ParseState(st.section, st.mapping[l.name := st.section.value])
    else st
  }

  /** The loop's variables after the given lines, starting from no section and no entries. */
  function Scan(ls: seq<Line>): ParseState {
    if ls == [] then ParseState(None, map[])
    else Step(Scan(ls[..|ls| - 1]), ls[|ls| - 1])
  }

  /** The mapping `parse_docs_map(text)` returns. */
  function Parse(text: string): map<string, string> {
    Scan(Classified(SplitLines(text))).mapping
  }

  /** `parse_docs_map(text)`. */
  method ParseDocsMap(text: string) returns (mapping: map<string, string>)
    ensures mapping == Parse(text)
  {
    var lines := SplitLines(text);
    ghost var ls := Classified(lines);
    var section: Option<string> := None;
    mapping := map[];
    for i := 0 to |lines|
      invariant Scan(ls[..i]) == ParseState(section, mapping)
    {
      var line := lines[i];
      ScanNext(ls, i);
      ghost var st := ParseState(section, mapping);
      if StartsWith(line, "## ") && !StartsWith(line, "### ") {
        StepHeader(st, line);
        section := Some(Sections.Normalize(Strip(line[3..])));
      } else if StartsWith(line, "### [") && section.Some? && section.value != [] {
        StepEntry(st, line);
        var m := EntryName(line);
        if m.Some? {
          mapping := mapping[m.value := section.value];
        }
      } else {
        StepSkipped(st, line);
      }
    }
    assert ls[..|lines|] == ls;
  }

  /** The fold over one more line is one more step. */
  lemma ScanNext(ls: seq<Line>, i: nat)
    requires i < |ls|
    ensures Scan(ls[..i + 1]) == Step(Scan(ls[..i]), ls[i])
  {
    assert ls[..i + 1][..i] == ls[..i];
  }

  /** The header branch of the loop body sets the section to the normalised title. */
  lemma StepHeader(st: ParseState, line: string)
    requires IsHeader(line)
    ensures Step(st, Classify(line)) == ParseState(Some(Sections.Normalize(Strip(line[3..]))), st.mapping)
  {
  }

  /** The entry branch of the loop body records the matched name, if any, with the section. */
  lemma StepEntry(st: ParseState, line: string)
    requires !IsHeader(line) && StartsWith(line, "### [") && Active(st.section)
    ensures Step(st, Classify(line))
            == if EntryName(line).Some? then ParseState(st.section, st.mapping[EntryName(line).value := st.section.value])
               else st
  {
  }

  /** Every other line leaves the loop's variables as they are. */
  lemma StepSkipped(st: ParseState, line: string)
    requires !IsHeader(line) && !(StartsWith(line, "### [") && Active(st.section))
    ensures Step(st, Classify(line)) == st
  {
  }

  // The declarative reading of the loop: which header is in force at each line, and which
  // lines record an entry.

  /** The index of the last header before line `i`, or -1 when there is none. */
  function LastHeader(ls: seq<Line>, i: nat): (h: int)
    requires i <= |ls|
    ensures -1 <= h < i
    ensures h >= 0 ==> ls[h].Header?
    ensures forall k :: h < k < i ==> !ls[k].Header?
  {
    if i == 0 then -1
    else if ls[i - 1].Header? then i - 1
    else LastHeader(ls, i - 1)
  }

  /** The current section when line `i` is reached: that of the nearest header above it. */
  function SectionBefore(ls: seq<Line>, i: nat): Option<string>
    requires i <= |ls|
  {
    var h := LastHeader(ls, i);
    if h < 0 then None else Some(ls[h].section)
  }

  /** Line `i` records entry `name`: it reads `### [name]…` and a truthy section is current. */
  predicate Records(ls: seq<Line>, i: nat, name: string)
    requires i < |ls|
  {
    ls[i] == Entry(name) && Active(SectionBefore(ls, i))
  }

  lemma {:induction false} LastHeaderPrefix(ls: seq<Line>, n: nat, i: nat)
    requires i <= n <= |ls|
    ensures LastHeader(ls[..n], i) == LastHeader(ls, i)
  {
    if i > 0 {
      assert ls[..n][i - 1] == ls[i - 1];
      LastHeaderPrefix(ls, n, i - 1);
    }
  }

  /** The current section at line `i` depends only on the lines above it. */
  lemma SectionBeforePrefix(ls: seq<Line>, n: nat, i: nat)
    requires i <= n <= |ls|
    ensures SectionBefore(ls[..n], i) == SectionBefore(ls, i)
  {
    LastHeaderPrefix(ls, n, i);
    var h := LastHeader(ls, i);
    if h >= 0 {
      assert ls[..n][h] == ls[h];
    }
  }

  /** The `section` variable after the lines is the section of the last header among them. */
  lemma {:induction false} ScanSection(ls: seq<Line>)
    ensures Scan(ls).section == SectionBefore(ls, |ls|)
  {
    if ls != [] {
      var n := |ls| - 1;
      ScanSection(ls[..n]);
      SectionBeforePrefix(ls, n, n);
    }
  }

  /** What one line does to the entry for `name`: it is recorded with the current section,
      or left as it was. */
  lemma StepMapping(st: ParseState, l: Line, name: string)
    ensures l == Entry(name) && Active(st.section)
            ==> name in Step(st, l).mapping && Step(st, l).mapping[name] == st.section.value
    ensures !(l == Entry(name) && Active(st.section))
            ==> (name in Step(st, l).mapping <==> name in st.mapping)
                && (name in st.mapping ==> Step(st, l).mapping[name] == st.mapping[name])
  {
  }

  /** Whether line `i` records an entry depends only on the lines down to it. */
  lemma RecordsPrefix(ls: seq<Line>, n: nat, i: nat, name: string)
    requires i < n <= |ls|
    ensures Records(ls[..n], i, name) == Records(ls, i, name)
  {
    SectionBeforePrefix(ls, n, i);
  }

  /** The last line records `name` exactly when it names that entry and the scan of the
      lines above it is at a truthy section, which is then the section current there. */
  lemma LastLineRecords(ls: seq<Line>, name: string)
    requires ls != []
    ensures var n := |ls| - 1;
            (ls[n] == Entry(name) && Active(Scan(ls[..n]).section)) == Records(ls, n, name)
    ensures var n := |ls| - 1;
            Records(ls, n, name) ==> SectionBefore(ls, n) == Scan(ls[..n]).section
  {
    var n := |ls| - 1;
    ScanSection(ls[..n]);
    SectionBeforePrefix(ls, n, n);
  }

  /** Cutting the lines after line `n` changes no earlier line's record. */
  lemma RecordsPrefixAll(ls: seq<Line>, n: nat, name: string)
    requires n <= |ls|
    ensures forall i :: 0 <= i < n ==> Records(ls[..n], i, name) == Records(ls, i, name)
  {
    forall i | 0 <= i < n
      ensures Records(ls[..n], i, name) == Records(ls, i, name)
    {
      RecordsPrefix(ls, n, i, name);
    }
  }

  /** When the last line records `name`, the entry holds the section current there. */
  lemma LastLineSets(ls: seq<Line>, name: string)
    requires ls != [] && Records(ls, |ls| - 1, name)
    ensures name in Scan(ls).mapping
    ensures Scan(ls).mapping[name] == SectionBefore(ls, |ls| - 1).value
  {
    var n := |ls| - 1;
    StepMapping(Scan(ls[..n]), ls[n], name);
    LastLineRecords(ls, name);
  }

  /** When the last line does not record `name`, the entry is as the lines above left it. */
  lemma LastLineKeeps(ls: seq<Line>, name: string)
    requires ls != [] && !Records(ls, |ls| - 1, name)
    ensures var before := Scan(ls[..|ls| - 1]).mapping;
            (name in Scan(ls).mapping <==> name in before)
            && (name in before ==> Scan(ls).mapping[name] == before[name])
  {
    var n := |ls| - 1;
    StepMapping(Scan(ls[..n]), ls[n], name);
    LastLineRecords(ls, name);
  }

  /** The mapping holds `name` exactly when some line records it. */
  lemma {:induction false} ScanMappingKeys(ls: seq<Line>, name: string)
    ensures name in Scan(ls).mapping <==> exists i :: 0 <= i < |ls| && Records(ls, i, name)
  {
    if ls != [] {
      var n := |ls| - 1;
      if Records(ls, n, name) {
        LastLineSets(ls, name);
      } else {
        LastLineKeeps(ls, name);
        ScanMappingKeys(ls[..n], name);
        RecordsPrefixAll(ls, n, name);
      }
    }
  }

  /** The entry for `name` holds the section current at the last line that records it: a
      later entry wins. */
  lemma {:induction false} ScanMappingLast(ls: seq<Line>, name: string, i: nat)
    requires i < |ls| && Records(ls, i, name)
    requires forall j :: i < j < |ls| ==> !Records(ls, j, name)
    ensures name in Scan(ls).mapping
    ensures Scan(ls).mapping[name] == SectionBefore(ls, i).value
  {
    var n := |ls| - 1;
    if i == n {
      LastLineSets(ls, name);
    } else {
      assert !Records(ls, n, name);
      LastLineKeeps(ls, name);
      RecordsPrefixAll(ls, n, name);
      ScanMappingLast(ls[..n], name, i);
      SectionBeforePrefix(ls, n, i);
    }
  }

  // Properties the source's comment and control flow promise.

  /** A classified line as `Classify` produces them: a header's section is made of
      `[a-z0-9-]`, an entry's name is non-empty and free of `]`. */
  predicate WellFormedLine(l: Line) {
    (l.Header? ==> forall c :: c in l.section ==> Sections.IsSectionChar(c))
    && (l.Entry? ==> l.name != [] && ']' !in l.name)
  }

  /** Over well-formed lines, every recorded name is non-empty and free of `]`, and every
      section is a non-empty run of `[a-z0-9-]`. */
  lemma {:induction false} ScanWellFormed(ls: seq<Line>)
    requires forall i :: 0 <= i < |ls| ==> WellFormedLine(ls[i])
    ensures forall name :: name in Scan(ls).mapping ==>
              name != [] && ']' !in name && Scan(ls).mapping[name] != []
              && forall c :: c in Scan(ls).mapping[name] ==> Sections.IsSectionChar(c)
    ensures Scan(ls).section.Some? ==>
              forall c :: c in Scan(ls).section.value ==> Sections.IsSectionChar(c)
  {
    if ls != [] {
      ScanWellFormed(ls[..|ls| - 1]);
    }
  }

  /** Every name `parse_docs_map` returns is non-empty and free of `]`, and every section it
      maps to is a non-empty run of `[a-z0-9-]`. */
  lemma ParseWellFormed(text: string)
    ensures forall name :: name in Parse(text) ==>
              name != [] && ']' !in name && Parse(text)[name] != []
              && forall c :: c in Parse(text)[name] ==> Sections.IsSectionChar(c)
  {
    var ls := Classified(SplitLines(text));
    forall i | 0 <= i < |ls|
      ensures WellFormedLine(ls[i])
    {
      assert ls[i] == Classify(SplitLines(text)[i]);
    }
    ScanWellFormed(ls);
  }

  /** A `### ` subsection line never changes the current section. */
  lemma SubsectionKeepsSection(st: ParseState, line: string)
    requires StartsWith(line, "### ")
    ensures Step(st, Classify(line)).section == st.section
  {
    assert line[..3] == "###"[..3];
  }

  /** Lines before the first header record nothing. */
  lemma {:induction false} NothingBeforeFirstHeader(ls: seq<Line>)
    requires forall k :: 0 <= k < |ls| ==> !ls[k].Header?
    ensures Scan(ls).mapping == map[] && Scan(ls).section == None
  {
    if ls != [] {
      NothingBeforeFirstHeader(ls[..|ls| - 1]);
    }
  }

  /** Without a truthy section, a line that is not a header changes nothing. */
  lemma StepInactive(st: ParseState, l: Line)
    requires !l.Header? && !Active(st.section)
    ensures Step(st, l) == st
  {
  }

  /** Scanning one more line of a prefix is one more step of the loop. */
  lemma ScanPrefixSnoc(ls: seq<Line>, k: nat)
    requires 0 < k <= |ls|
    ensures Scan(ls[..k]) == Step(Scan(ls[..k - 1]), ls[k - 1])
  {
    assert ls[..k][..k - 1] == ls[..k - 1];
  }

  /** Once the section is empty, lines up to the next header leave the loop's variables alone. */
  lemma {:induction false} ScanInactive(ls: seq<Line>, h: nat, k: nat)
    requires h < k <= |ls| && Scan(ls[..h + 1]).section == Some([])
    requires forall m :: h < m < k ==> !ls[m].Header?
    ensures Scan(ls[..k]) == Scan(ls[..h + 1])
  {
    if k > h + 1 {
      var prev := Scan(ls[..k - 1]);
      ScanInactive(ls, h, k - 1);
      ScanPrefixSnoc(ls, k);
      StepInactive(prev, ls[k - 1]);
    }
  }

  /** A header whose title normalises to the empty string suspends recording until the next
      header. */
  lemma EmptySectionSuspends(lines: seq<string>, h: nat, k: nat)
    requires h < k <= |lines| && IsHeader(lines[h]) && HeaderSection(lines[h]) == []
    requires forall m :: h < m < k ==> !IsHeader(lines[m])
    ensures Scan(Classified(lines)[..k]).mapping == Scan(Classified(lines)[..h + 1]).mapping
    ensures Scan(Classified(lines)[..k]).section == Some([])
  {
    var ls := Classified(lines);
    assert ls[h] == Header([]);
    ScanPrefixSnoc(ls, h + 1);
    forall m | h < m < k
      ensures !ls[m].Header?
    {
      assert ls[m] == Classify(lines[m]);
    }
    ScanInactive(ls, h, k);
  }

  /** Parsing text that ends every line with `\n`: the lines that were joined. */
  lemma ParseJoined(lines: seq<string>)
    requires forall l :: l in lines ==> '\n' !in l
    ensures Parse(JoinLines(lines)) == Scan(Classified(lines)).mapping
  {
    SplitJoinLines(lines);
  }

  // The worked example of a documentation map:
  //   ## Guides / ### [quickstart](url1) / ### Not A Link / ## Reference / ### [api-ref](url2)
  // gives {quickstart: guides, api-ref: reference}.

  /** Scanning one more line is one more step of the loop. */
  lemma ScanSnoc(ls: seq<Line>, l: Line)
    ensures Scan(ls + [l]) == Step(Scan(ls), l)
  {
    assert (ls + [l])[..|ls|] == ls;
  }

  /** Headers and entries `header, entry, other, header, entry`, as the loop reads them. */
  lemma ScanFiveLines(s0: string, n1: string, s3: string, n4: string)
    requires s0 != [] && s3 != []
    ensures Scan([Header(s0), Entry(n1), Other, Header(s3), Entry(n4)]).mapping
            == map[n1 := s0, n4 := s3]
  {
    var l0, l1, l2, l3, l4 := Header(s0), Entry(n1), Other, Header(s3), Entry(n4);
    ScanSnoc([], l0);
    assert [] + [l0] == [l0];
    ScanSnoc([l0], l1);
    assert [l0] + [l1] == [l0, l1];
    ScanSnoc([l0, l1], l2);
    assert [l0, l1] + [l2] == [l0, l1, l2];
    ScanSnoc([l0, l1, l2], l3);
    assert [l0, l1, l2] + [l3] == [l0, l1, l2, l3];
    ScanSnoc([l0, l1, l2, l3], l4);
    assert [l0, l1, l2, l3] + [l4] == [l0, l1, l2, l3, l4];
  }

  /** A title with no white space at either end is its own stripped form. */
  lemma StripUnpadded(s: string)
    requires s != [] && !IsSpace(s[0]) && !IsSpace(s[|s| - 1])
    ensures Strip(s) == s
  {
    assert LeadingSpaces(s) == 0;
    assert s[0..] == s;
  }

  lemma SectionTitlePieces()
    ensures Sections.NormalizeByChar("Gui") == "gui"
    ensures Sections.NormalizeByChar("des") == "des"
    ensures Sections.NormalizeByChar("Ref") == "ref"
    ensures Sections.NormalizeByChar("ere") == "ere"
    ensures Sections.NormalizeByChar("nce") == "nce"
    ensures Sections.NormalizeByChar("") == ""
  {
  }

  /** A header whose title is its own stripped form opens the section made of the normal
      forms of the title's pieces, in order. */
  lemma HeaderFromPieces(line: string, title: string, a: string, b: string, c: string,
                         na: string, nb: string, nc: string, section: string)
    requires IsHeader(line) && line[3..] == title && Strip(title) == title
    requires title == a + b + c + ""
    requires Sections.NormalizeByChar(a) == na && Sections.NormalizeByChar(b) == nb
    requires Sections.NormalizeByChar(c) == nc && section == na + nb + nc + ""
    ensures HeaderSection(line) == section
  {
    Sections.NormalizeFromPieces(title, a, b, c, "", na, nb, nc, "");
  }

  /** A header line reads as a header opening its section. */
  lemma ClassifyHeader(line: string, section: string)
    requires IsHeader(line) && HeaderSection(line) == section
    ensures Classify(line) == Header(section)
  {
  }

  /** A line starting with `### [name]`, for a non-empty `name` without `]`, reads as the
      entry `name`. */
  lemma ClassifyEntry(line: string, name: string)
    requires name != [] && ']' !in name && StartsWith(line, "### [" + name + "]")
    ensures Classify(line) == Entry(name)
  {
    EntryNameMatches(line, name);
    assert line[..5] == ("### [" + name + "]")[..5];
    EntryIsNoHeader(line);
  }

  /** A `### ` line whose fifth character is not `[` reads as neither header nor entry. */
  lemma ClassifyOther(line: string)
    requires StartsWith(line, "### ") && |line| > 4 && line[4] != '['
    ensures Classify(line) == Other
  {
    DiffersAt(line, "### [", 4);
  }

  /** A sequence of five lines is the display of its five lines. */
  lemma FiveLines(ls: seq<Line>)
    requires |ls| == 5
    ensures ls == [ls[0], ls[1], ls[2], ls[3], ls[4]]
  {
  }

  /** Five lines read as `header, entry, other, header, entry` give each entry the section
      above it. */
  lemma ScanClassifiedFive(lines: seq<string>)
    requires |lines| == 5
    requires Classify(lines[0]) == Header("guides") && Classify(lines[1]) == Entry("quickstart")
    requires Classify(lines[2]) == Other && Classify(lines[3]) == Header("reference")
    requires Classify(lines[4]) == Entry("api-ref")
    ensures Scan(Classified(lines)).mapping == map["quickstart" := "guides", "api-ref" := "reference"]
  {
    var ls := Classified(lines);
    FiveLines(ls);
    assert ls[0] == Header("guides") && ls[1] == Entry("quickstart") && ls[2] == Other;
    assert ls[3] == Header("reference") && ls[4] == Entry("api-ref");
    ScanFiveLines("guides", "quickstart", "reference", "api-ref");
  }

  // The lines of the worked example, one lemma each so that each proof sees one literal.

  lemma GuidesSection(line: string)
    requires line == "## Guides"
    ensures IsHeader(line) && HeaderSection(line) == "guides"
  {
    var title := line[3..];
    assert title == "Gui" + "des" + "" + "";
    StripUnpadded(title);
    SectionTitlePieces();
    HeaderFromPieces(line, title, "Gui", "des", "", "gui", "des", "", "guides");
  }

  lemma ReferenceSection(line: string)
    requires line == "## Reference"
    ensures IsHeader(line) && HeaderSection(line) == "reference"
  {
    var title := line[3..];
    assert title == "Ref" + "ere" + "nce" + "";
    StripUnpadded(title);
    SectionTitlePieces();
    HeaderFromPieces(line, title, "Ref", "ere", "nce", "ref", "ere", "nce", "reference");
  }

  lemma HeaderGuides(line: string)
    requires line == "## Guides"
    ensures Classify(line) == Header("guides")
  {
    GuidesSection(line);
    ClassifyHeader(line, "guides");
  }

  lemma HeaderReference(line: string)
    requires line == "## Reference"
    ensures Classify(line) == Header("reference")
  {
    ReferenceSection(line);
    ClassifyHeader(line, "reference");
  }

  lemma EntryQuickstart(line: string)
    requires line == "### [quickstart](url1)"
    ensures Classify(line) == Entry("quickstart")
  {
    assert line[..16] == "### [quickstart]";
    ClassifyEntry(line, "quickstart");
  }

  lemma EntryApiRef(line: string)
    requires line == "### [api-ref](url2)"
    ensures Classify(line) == Entry("api-ref")
  {
    assert line[..13] == "### [api-ref]";
    ClassifyEntry(line, "api-ref");
  }

  lemma NotALink(line: string)
    requires line == "### Not A Link"
    ensures Classify(line) == Other
  {
    assert line[..4] == "### ";
    ClassifyOther(line);
  }

  /** No line of the worked example holds a line break. */
  lemma ExampleLinesUnbroken(lines: seq<string>)
    requires lines == ["## Guides", "### [quickstart](url1)", "### Not A Link",
                       "## Reference", "### [api-ref](url2)"]
    ensures forall l :: l in lines ==> '\n' !in l
  {
  }

  /** The worked example, as the text `parse_docs_map` receives: the third line is a
      subsection that names no entry, and each entry lands in the section above it. */
  lemma ParseDocsMapExample(lines: seq<string>)
    requires lines == ["## Guides", "### [quickstart](url1)", "### Not A Link",
                       "## Reference", "### [api-ref](url2)"]
    ensures Parse(JoinLines(lines)) == map["quickstart" := "guides", "api-ref" := "reference"]
  {
    HeaderGuides(lines[0]);
    EntryQuickstart(lines[1]);
    NotALink(lines[2]);
    HeaderReference(lines[3]);
    EntryApiRef(lines[4]);
    ScanClassifiedFive(lines);
    ExampleLinesUnbroken(lines);
    ParseJoined(lines);
  }
}
