/** `normalize`: a section title turned into a directory name, as in
    `'Getting Started' -> 'getting-started'`. */
module Sections {

  /** The characters `[a-z0-9-]` a directory name is made of. */
  predicate IsSectionChar(c: char) {
    'a' <= c <= 'z' || '0' <= c <= '9' || c == '-'
  }

  /** `str.lower()` on one character, for the ASCII letters. */
  function LowerChar(c: char): char {
    if 'A' <= c <= 'Z' then (c as int - 'A' as int + 'a' as int) as char else c
  }

  /** `name.lower()`. */
  function Lower(s: string): string {
    seq(|s|, i requires 0 <= i < |s| => LowerChar(s[i]))
  }

  /** `.replace(' ', '-')`. */
  function Hyphenate(s: string): string {
    seq(|s|, i requires 0 <= i < |s| => if s[i] == ' ' then '-' else s[i])
  }

  /** `re.sub(r'[^a-z0-9-]', '', s)`: `s` with every character outside `[a-z0-9-]` removed. */
  function KeepSectionChars(s: string): (r: string)
    ensures |r| <= |s|
    ensures forall c :: c in r ==> IsSectionChar(c)
  {
    if s == [] then []
    else (if IsSectionChar(s[0]) then [s[0]] else []) + KeepSectionChars(s[1..])
  }

  /** `normalize(name)`. */
  function Normalize(name: string): string {
    KeepSectionChars(Hyphenate(Lower(name)))
  }

  /** What `normalize` makes of a single character: a space becomes `-`, an upper-case letter
      its lower-case one, a character of `[a-z0-9-]` stays, anything else goes. */
  function NormalizeChar(c: char): string {
    if c == ' ' then "-"
    else if 'A' <= c <= 'Z' then [LowerChar(c)]
    else if IsSectionChar(c) then [c]
    else []
  }

  /** A reference definition: `normalize` character by character. */
  function NormalizeByChar(s: string): string {
    if s == [] then [] else NormalizeChar(s[0]) + NormalizeByChar(s[1..])
  }

  lemma {:induction false} KeepSectionCharsConcat(a: string, b: string)
    ensures KeepSectionChars(a + b) == KeepSectionChars(a) + KeepSectionChars(b)
  {
    if a == [] {
      assert a + b == b;
    } else {
      assert a + b == [a[0]] + (a[1..] + b);
      KeepSectionCharsConcat(a[1..], b);
    }
  }

  /** `normalize` works character by character, so it distributes over concatenation. */
  lemma NormalizeConcat(a: string, b: string)
    ensures Normalize(a + b) == Normalize(a) + Normalize(b)
  {
    assert Hyphenate(Lower(a + b)) == Hyphenate(Lower(a)) + Hyphenate(Lower(b));
    KeepSectionCharsConcat(Hyphenate(Lower(a)), Hyphenate(Lower(b)));
  }

  /** The three-step pipeline of `normalize` agrees with the character-by-character definition. */
  lemma {:induction false} NormalizeIsByChar(s: string)
    ensures Normalize(s) == NormalizeByChar(s)
  {
    if s != [] {
      assert s == [s[0]] + s[1..];
      NormalizeConcat([s[0]], s[1..]);
      NormalizeIsByChar(s[1..]);
      assert Hyphenate(Lower([s[0]])) == [if s[0] == ' ' then '-' else LowerChar(s[0])];
    }
  }

  /** Every character of a normalised name is in `[a-z0-9-]`. */
  lemma NormalizeAlphabet(name: string)
    ensures forall c :: c in Normalize(name) ==> IsSectionChar(c)
  {
  }

  /** `KeepSectionChars` leaves a string of `[a-z0-9-]` as it is. */
  lemma {:induction false} KeepSectionCharsFixpoint(s: string)
    requires forall c :: c in s ==> IsSectionChar(c)
    ensures KeepSectionChars(s) == s
  {
    if s != [] {
      assert s[0] in s;
      assert forall c :: c in s[1..] ==> c in s;
      KeepSectionCharsFixpoint(s[1..]);
    }
  }

  /** A name already made of `[a-z0-9-]` is its own normal form. */
  lemma NormalizeFixpoint(s: string)
    requires forall c :: c in s ==> IsSectionChar(c)
    ensures Normalize(s) == s
  {
    assert forall i :: 0 <= i < |s| ==> s[i] in s;
    assert Hyphenate(Lower(s)) == s;
    KeepSectionCharsFixpoint(s);
  }

  /** Normalising twice is normalising once. */
  lemma NormalizeIdempotent(name: string)
    ensures Normalize(Normalize(name)) == Normalize(name)
  {
    NormalizeFixpoint(Normalize(name));
  }

  lemma {:induction false} NormalizeByCharConcat(a: string, b: string)
    ensures NormalizeByChar(a + b) == NormalizeByChar(a) + NormalizeByChar(b)
  {
    if a == [] {
      assert a + b == b;
    } else {
      assert a + b == [a[0]] + (a[1..] + b);
      NormalizeByCharConcat(a[1..], b);
    }
  }

  /** Normalising a name piece by piece. */
  lemma NormalizeFromPieces(s: string, a: string, b: string, c: string, d: string,
                            na: string, nb: string, nc: string, nd: string)
    requires s == a + b + c + d
    requires NormalizeByChar(a) == na && NormalizeByChar(b) == nb
    requires NormalizeByChar(c) == nc && NormalizeByChar(d) == nd
    ensures Normalize(s) == na + nb + nc + nd
  {
    NormalizeByCharConcat(a, b);
    NormalizeByCharConcat(a + b, c);
    NormalizeByCharConcat(a + b + c, d);
    NormalizeIsByChar(s);
  }

  lemma NormalizeGettingStartedPieces()
    ensures NormalizeByChar("Gett") == "gett"
    ensures NormalizeByChar("ing ") == "ing-"
    ensures NormalizeByChar("Star") == "star"
    ensures NormalizeByChar("ted") == "ted"
  {
  }

  /** The worked example `Getting Started -> getting-started`. */
  lemma NormalizeGettingStarted(title: string)
    requires title == "Getting Started"
    ensures Normalize(title) == "getting-started"
  {
    NormalizeGettingStartedPieces();
    NormalizeFromPieces(title, "Gett", "ing ", "Star", "ted",
                        "gett", "ing-", "star", "ted");
  }

  lemma NormalizeSdksAndToolsPieces()
    ensures NormalizeByChar("SDKs") == "sdks"
    ensures NormalizeByChar(" & ") == "--"
    ensures NormalizeByChar("Too") == "too"
    ensures NormalizeByChar("ls!") == "ls"
  {
  }

  /** The worked example `SDKs & Tools! -> sdks--tools`: the space on each side of `&`
      becomes a hyphen before `&` and `!` are dropped. */
  lemma NormalizeSdksAndTools(title: string)
    requires title == "SDKs & Tools!"
    ensures Normalize(title) == "sdks--tools"
  {
    NormalizeSdksAndToolsPieces();
    NormalizeFromPieces(title, "SDKs", " & ", "Too", "ls!",
                        "sdks", "--", "too", "ls");
  }
}
