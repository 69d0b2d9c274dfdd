/** `extract_urls`: the Markdown links `[label](https://….md)` of an index document,
    found left to right as `re.findall` finds them, with later repeats dropped. */
module Links {
  import opened Wrappers
  import opened Strings

  const Scheme := "https://"
  const MdSuffix := ".md"

  /** The link pattern's group `https://[^)]+\.md`: the scheme, at least one more
      character, the `.md` suffix, and no `)` anywhere. */
  predicate IsMdUrl(u: string) {
    |u| > |Scheme| + |MdSuffix| && StartsWith(u, Scheme) && EndsWith(u, MdSuffix) && ')' !in u
  }

  /** The part of the pattern after the label, with the label's `]` at `q` and the final `)`
      at `e`: `](`, then a URL, then `)`. */
  predicate IsLinkTail(text: string, q: int, e: int) {
    0 <= q && q + 2 <= e < |text|
    && text[q] == ']' && text[q + 1] == '(' && text[e] == ')'
    && IsMdUrl(text[q + 2..e])
  }

  /** The link pattern `\[.*?\]\((https://[^)]+\.md)\)` matches with `[` at `p`, the `]` closing
      the label at `q` and the final `)` at `e`: the label `text[p+1..q]` holds no newline
      and the URL is `text[q+2..e]`. */
  predicate IsLink(text: string, p: int, q: int, e: int) {
    0 <= p < q < |text| && text[p] == '['
    && (forall k :: p < k < q ==> text[k] != '\n')
    && IsLinkTail(text, q, e)
  }

  /** `u` stands in `text` as the URL of a link. */
  ghost predicate OccursAsLink(text: string, u: string) {
    exists p, q, e :: IsLink(text, p, q, e) && text[q + 2..e] == u
  }

  /** The rest of the pattern, tried with the label closing at `q`: the URL runs from
      `q + 2` up to the first `)`. */
  function LinkTail(text: string, q: nat): (r: Option<nat>)
    requires q < |text|
    ensures r.Some? ==> IsLinkTail(text, q, r.value)
  {
    if q + 1 < |text| && text[q] == ']' && text[q + 1] == '(' then
      var e := IndexOf(text, ')', q + 2);
      if e < |text| && IsMdUrl(text[q + 2..e]) then Some(e) else None
    else None
  }

  /** Where the rest of the pattern matches after `q`, `LinkTail` finds it: a URL holds no
      `)`, so its end is the first `)` after `q + 2`. */
  lemma LinkTailComplete(text: string, q: nat, e: int)
    requires IsLinkTail(text, q, e)
    ensures LinkTail(text, q) == Some(e)
  {
    assert forall j :: q + 2 <= j < e ==> text[j] == text[q + 2..e][j - q - 2];
  }

  /** The lazy label `.*?`: the first `q >= from`, before any newline, at which the rest of
      the pattern matches. */
  function LabelEnd(text: string, from: nat): (r: Option<(nat, nat)>)
    requires from <= |text|
    ensures r.Some? ==> from <= r.value.0 && IsLinkTail(text, r.value.0, r.value.1)
    ensures r.Some? ==> forall k :: from <= k < r.value.0 ==> text[k] != '\n'
    decreases |text| - from
  {
    if from == |text| || text[from] == '\n' then None
    else match LinkTail(text, from)
      case Some(e) => Some((from, e))
      case None => LabelEnd(text, from + 1)
  }

  /** The label scan reaches every place where a link opened before `from` can close. */
  lemma {:induction false} LabelEndComplete(text: string, p: nat, from: nat, q: nat, e: nat)
    requires p < from <= q && IsLink(text, p, q, e)
    ensures LabelEnd(text, from).Some? && LabelEnd(text, from).value.0 <= q
    decreases q - from
  {
    if LinkTail(text, from).None? {
      if from == q {
        LinkTailComplete(text, q, e);
      }
      assert text[from] != '\n';
      LabelEndComplete(text, p, from + 1, q, e);
    }
  }

  /** The match of the link pattern that starts at `p`, with the shortest label, if any. */
  function MatchAt(text: string, p: nat): (r: Option<(nat, nat)>)
    requires p < |text|
    ensures r.Some? ==> IsLink(text, p, r.value.0, r.value.1)
  {
    if text[p] == '[' then LabelEnd(text, p + 1) else None
  }

  /** A link starting at `p` is found by `MatchAt`, with a label at most as long. */
  lemma MatchAtComplete(text: string, p: nat, q: nat, e: nat)
    requires IsLink(text, p, q, e)
    ensures MatchAt(text, p).Some? && MatchAt(text, p).value.0 <= q
  {
    LabelEndComplete(text, p, p + 1, q, e);
  }

  /** `MatchAt` picks, among the links starting at `p`, the one with the shortest label. */
  lemma MatchAtShortest(text: string, p: nat, q: nat, e: nat)
    requires IsLink(text, p, q, e)
    requires forall q', e' :: q' < q ==> !IsLink(text, p, q', e')
    ensures MatchAt(text, p) == Some((q, e))
  {
    MatchAtComplete(text, p, q, e);
    var m := MatchAt(text, p).value;
    assert m.0 == q;
    LinkTailComplete(text, q, e);
    LinkTailComplete(text, q, m.1);
  }

  /** `re.findall` from position `pos`: the URL of every match, leftmost first, each search
      resuming after the previous match. */
  function FindAll(text: string, pos: nat): (urls: seq<string>)
    requires pos <= |text|
    ensures forall u :: u in urls ==> IsMdUrl(u)
    decreases |text| - pos
  {
    if pos == |text| then []
    else
      var m := MatchAt(text, pos);
      if m.Some? then [text[m.value.0 + 2..m.value.1]] + FindAll(text, m.value.1 + 1)
      else FindAll(text, pos + 1)
  }

  /** Where a match starts at `pos`, its URL comes first and the search resumes after it. */
  lemma FindAllMatch(text: string, pos: nat, q: nat, e: nat)
    requires pos < |text| && MatchAt(text, pos) == Some((q, e))
    ensures e + 1 <= |text|
    ensures FindAll(text, pos) == [text[q + 2..e]] + FindAll(text, e + 1)
  {
  }

  /** Where no match starts at `pos`, the search moves on by one. */
  lemma FindAllNoMatch(text: string, pos: nat)
    requires pos < |text| && MatchAt(text, pos).None?
    ensures FindAll(text, pos) == FindAll(text, pos + 1)
  {
  }

  /** Every URL found in `text[pos..]` is the URL of a link that starts there. */
  lemma {:induction false} FindAllSound(text: string, pos: nat, u: string)
    requires pos <= |text| && u in FindAll(text, pos)
    ensures exists p, q, e :: pos <= p && IsLink(text, p, q, e) && text[q + 2..e] == u
    decreases |text| - pos
  {
    assert pos < |text|;
    var m := MatchAt(text, pos);
    if m.Some? {
      var q, e := m.value.0, m.value.1;
      FindAllMatch(text, pos, q, e);
      if u == text[q + 2..e] {
        assert IsLink(text, pos, q, e);
      } else {
        assert u in FindAll(text, e + 1);
        FindAllSound(text, e + 1, u);
      }
    } else {
      FindAllNoMatch(text, pos);
      FindAllSound(text, pos + 1, u);
    }
  }

  /** With no link starting at or after `pos`, nothing is found. */
  lemma {:induction false} FindAllNone(text: string, pos: nat)
    requires pos <= |text|
    requires forall p, q, e :: pos <= p ==> !IsLink(text, p, q, e)
    ensures FindAll(text, pos) == []
    decreases |text| - pos
  {
    if pos < |text| {
      assert MatchAt(text, pos).None?;
      FindAllNoMatch(text, pos);
      FindAllNone(text, pos + 1);
    }
  }

  /** The first URL found is that of the leftmost link, with its shortest label, and the
      search goes on right after that link's `)`: matches do not overlap. */
  lemma {:induction false} FindAllLeftmost(text: string, pos: nat, p: nat, q: nat, e: nat)
    requires pos <= p && IsLink(text, p, q, e)
    requires forall p', q', e' :: pos <= p' < p ==> !IsLink(text, p', q', e')
    requires forall q', e' :: q' < q ==> !IsLink(text, p, q', e')
    ensures FindAll(text, pos) == [text[q + 2..e]] + FindAll(text, e + 1)
    decreases p - pos
  {
    if pos < p {
      assert MatchAt(text, pos).None?;
      FindAllNoMatch(text, pos);
      FindAllLeftmost(text, pos + 1, p, q, e);
    } else {
      MatchAtShortest(text, pos, q, e);
      FindAllMatch(text, pos, q, e);
    }
  }

  /** Whenever some link starts at or after `pos`, something is found. */
  lemma {:induction false} FindAllNonEmpty(text: string, pos: nat, p: nat, q: nat, e: nat)
    requires pos <= p && IsLink(text, p, q, e)
    ensures FindAll(text, pos) != []
    decreases p - pos
  {
    if pos == p {
      MatchAtComplete(text, p, q, e);
    }
    var m := MatchAt(text, pos);
    if m.Some? {
      FindAllMatch(text, pos, m.value.0, m.value.1);
    } else {
      FindAllNoMatch(text, pos);
      FindAllNonEmpty(text, pos + 1, p, q, e);
    }
  }

  /** No value occurs twice. */
  predicate Distinct<T(==)>(s: seq<T>) {
    forall i, j :: 0 <= i < j < |s| ==> s[i] != s[j]
  }

  /** The index of the first occurrence of `x` in `s`. */
  function FirstIndex<T(==)>(s: seq<T>, x: T): (i: nat)
    requires x in s
    ensures i < |s| && s[i] == x && x !in s[..i]
  {
    if s[0] == x then 0
    else
      var i := 1 + FirstIndex(s[1..], x);
      assert s[..i] == [s[0]] + s[1..][..i - 1];
      i
  }

  /** The first occurrence is the only occurrence with no earlier one. */
  lemma FirstIndexUnique<T>(s: seq<T>, x: T, k: nat)
    requires k < |s| && s[k] == x && x !in s[..k]
    ensures FirstIndex(s, x) == k
  {
    var i := FirstIndex(s, x);
    assert forall j :: 0 <= j < k ==> s[..k][j] == s[j];
    assert forall j :: 0 <= j < i ==> s[..i][j] == s[j];
  }

  /** Extending a sequence leaves the first occurrences of its values where they were. */
  lemma FirstIndexPrefix<T>(s: seq<T>, n: nat, x: T)
    requires n <= |s| && x in s[..n]
    ensures FirstIndex(s, x) == FirstIndex(s[..n], x)
  {
    var k := FirstIndex(s[..n], x);
    assert s[..k] == s[..n][..k];
    FirstIndexUnique(s, x, k);
  }

  /** `list(dict.fromkeys(s))`: every value of `s` once, at the place of its first occurrence. */
  function Dedup<T(==)>(s: seq<T>): (r: seq<T>)
    ensures Distinct(r)
    ensures forall i :: 0 <= i < |r| ==> r[i] in s
    ensures forall i :: 0 <= i < |s| ==> s[i] in r
  {
    if |s| == 0 then []
    else
      var init := s[..|s| - 1];
      var d := Dedup(init);
      var x := s[|s| - 1];
      assert forall i :: 0 <= i < |s| - 1 ==> s[i] == init[i];
      if x in d then d else d + [x]
  }

  /** The values kept by `Dedup` appear in the order of their first occurrences in `s`. */
  lemma {:induction false} DedupFirstOccurrenceOrder<T>(s: seq<T>, i: nat, j: nat)
    requires i < j < |Dedup(s)|
    ensures FirstIndex(s, Dedup(s)[i]) < FirstIndex(s, Dedup(s)[j])
  {
    var init := s[..|s| - 1];
    var d := Dedup(init);
    var x := s[|s| - 1];
    assert s == init + [x];
    var r := Dedup(s);
    if x in d { assert r == d; } else { assert r == d + [x]; }
    assert i < |d| && r[i] == d[i];
    assert r[i] in init;
    FirstIndexPrefix(s, |s| - 1, r[i]);
    if j < |d| {
      assert r[j] == d[j];
      DedupFirstOccurrenceOrder(init, i, j);
      FirstIndexPrefix(s, |s| - 1, r[j]);
    } else {
      assert r == d + [x] && r[j] == x && x !in init;
      FirstIndexUnique(s, x, |s| - 1);
    }
  }

  /** A sequence without repeats is left as it is. */
  lemma {:induction false} DedupDistinct<T>(s: seq<T>)
    requires Distinct(s)
    ensures Dedup(s) == s
  {
    if |s| > 0 {
      var init := s[..|s| - 1];
      assert Distinct(init);
      DedupDistinct(init);
      assert s[|s| - 1] !in init;
    }
  }

  /** Deduplicating twice is deduplicating once. */
  lemma DedupIdempotent<T>(s: seq<T>)
    ensures Dedup(Dedup(s)) == Dedup(s)
  {
    DedupDistinct(Dedup(s));
  }

  /** `extract_urls(text)`. */
  function ExtractUrls(text: string): (urls: seq<string>)
    ensures Distinct(urls)
    ensures forall u :: u in urls <==> u in FindAll(text, 0)
    ensures forall u :: u in urls ==> IsMdUrl(u)
  {
    var found := FindAll(text, 0);
    var r := Dedup(found);
    assert forall u :: u in r ==> u in found by {
      forall u | u in r ensures u in found {
        var i :| 0 <= i < |r| && r[i] == u;
      }
    }
    assert forall u :: u in found ==> u in r by {
      forall u | u in found ensures u in r {
        var i :| 0 <= i < |found| && found[i] == u;
      }
    }
    r
  }

  /** Every extracted URL starts with `https://`, ends with `.md`, has no `)`, and is the
      URL of a `[label](url)` link in the text. */
  lemma ExtractedUrlsAreLinks(text: string, u: string)
    requires u in ExtractUrls(text)
    ensures StartsWith(u, Scheme) && EndsWith(u, MdSuffix) && ')' !in u
    ensures OccursAsLink(text, u)
  {
    FindAllSound(text, 0, u);
  }

  /** The extracted URLs keep the order of their first occurrences among the matches. */
  lemma ExtractedUrlsInFirstOccurrenceOrder(text: string, i: nat, j: nat)
    requires i < j < |ExtractUrls(text)|
    ensures FirstIndex(FindAll(text, 0), ExtractUrls(text)[i]) < FirstIndex(FindAll(text, 0), ExtractUrls(text)[j])
  {
    DedupFirstOccurrenceOrder(FindAll(text, 0), i, j);
  }

  /** Deduplicating the extracted URLs again changes nothing. */
  lemma ExtractUrlsDedupStable(text: string)
    ensures Dedup(ExtractUrls(text)) == ExtractUrls(text)
  {
    DedupIdempotent(FindAll(text, 0));
  }

  /** A text holds a link exactly when some URL is extracted from it. */
  lemma ExtractUrlsEmpty(text: string)
    ensures ExtractUrls(text) == [] <==> forall p, q, e :: !IsLink(text, p, q, e)
  {
    if forall p, q, e :: !IsLink(text, p, q, e) {
      FindAllNone(text, 0);
    } else {
      var p, q, e :| IsLink(text, p, q, e);
      FindAllNonEmpty(text, 0, p, q, e);
      assert FindAll(text, 0)[0] in ExtractUrls(text);
    }
  }
}
