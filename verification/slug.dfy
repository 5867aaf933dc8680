/** pkg/utils/slugify.go and frontend/src/utils/slugify.ts, on ASCII text. */
module Slug {
  import opened Base
  import opened Text

  predicate IsUpper(c: char) {
    0x41 <= c as int <= 0x5A
  }

  predicate IsLower(c: char) {
    0x61 <= c as int <= 0x7A
  }

  function LowerChar(c: char): char {
    if IsUpper(c) then (c as int + 32) as char else c
  }

  function UpperChar(c: char): char {
    if IsLower(c) then (c as int - 32) as char else c
  }

  function Lower(s: string): (t: string)
    ensures |t| == |s|
    ensures forall i | 0 <= i < |s| :: t[i] == LowerChar(s[i])
  {
    seq(|s|, i requires 0 <= i < |s| => LowerChar(s[i]))
  }

  /** A character outside `[a-z0-9]`. */
  predicate Other(c: char) {
    !IsLower(c) && !(0x30 <= c as int <= 0x39)
  }

  predicate Dash(c: char) {
    c == '-'
  }

  /** Replaces every maximal run of matching characters by a hyphen; `inside` says whether `s` goes on
      with a run whose hyphen has been written. */
  function ReplaceRuns(s: string, matches: char -> bool, inside: bool): string {
    if s == "" then ""
    else if matches(s[0]) then
      if inside then ReplaceRuns(s[1..], matches, true) else "-" + ReplaceRuns(s[1..], matches, true)
    else [s[0]] + ReplaceRuns(s[1..], matches, false)
  }

  function Squeeze(s: string, inside: bool): string {
    ReplaceRuns(s, Other, inside)
  }

  function CutRight(s: string): string {
    TrimRight(s, Dash)
  }

  /** Hyphens removed at both ends. */
  function Cut(s: string): string {
    CutRight(TrimLeft(s, Dash))
  }

  /** Go's `Slugify`. */
  function GoSlugify(s: string): string {
    Cut(ReplaceRuns(Squeeze(Lower(s), false), Dash, false))
  }

  /** TypeScript's `slugify`. */
  function Slugify(s: string): string {
    Cut(Squeeze(Lower(s), false))
  }

  function Capitalize(word: string): string {
    if word == "" then "" else [UpperChar(word[0])] + word[1..]
  }

  function CapitalizeAll(words: seq<string>): (r: seq<string>)
    ensures |r| == |words|
    ensures forall i | 0 <= i < |words| :: r[i] == Capitalize(words[i])
  {
    seq(|words|, i requires 0 <= i < |words| => Capitalize(words[i]))
  }

  /** TypeScript's `deslugify`. */
  function Deslugify(s: string): string {
    Join(CapitalizeAll(Split(s, '-')), ' ')
  }

  // ---------------------------------------------------------------- Go and TypeScript agree

  /** Letters, digits and single hyphens. */
  predicate Squeezed(s: string) {
    && (forall c | c in s :: Other(c) ==> c == '-')
    && (forall i | 0 < i < |s| :: s[i - 1] == '-' ==> s[i] != '-')
  }

  lemma {:induction false} ReplacedIsSqueezed(s: string, inside: bool)
    ensures Squeezed(Squeeze(s, inside))
    ensures inside ==> Squeeze(s, inside) == "" || Squeeze(s, inside)[0] != '-'
  {
    if s != "" {
      ReplacedIsSqueezed(s[1..], Other(s[0]));
    }
  }

  lemma {:induction false} SqueezedStays(s: string, matches: char -> bool, inside: bool)
    requires Squeezed(s) && (forall c | c in s :: matches(c) <==> c == '-')
    requires inside ==> s == "" || s[0] != '-'
    ensures ReplaceRuns(s, matches, inside) == s
  {
    if s != "" {
      assert s[0] in s && s == [s[0]] + s[1..];
      assert forall i | 0 < i < |s[1..]| :: s[1..][i - 1] == s[i] && s[1..][i] == s[i + 1];
      SqueezedStays(s[1..], matches, matches(s[0]));
    }
  }

  /** Go's second replacement has nothing left to do. */
  lemma GoAgrees(s: string)
    ensures GoSlugify(s) == Slugify(s)
  {
    ReplacedIsSqueezed(Lower(s), false);
    SqueezedStays(Squeeze(Lower(s), false), Dash, false);
  }

  // ---------------------------------------------------------------- normal forms

  /** Words of `[a-z0-9]` separated by single hyphens. */
  predicate Normal(s: string) {
    && Squeezed(s)
    && (s != "" ==> s[0] != '-' && s[|s| - 1] != '-')
  }

  lemma SqueezedPart(s: string, i: nat, j: nat)
    requires Squeezed(s) && i <= j <= |s|
    ensures Squeezed(s[i..j])
  {
    var t := s[i..j];
    assert forall c | c in t :: c in s;
    forall k | 0 < k < |t| ensures t[k - 1] == '-' ==> t[k] != '-' {
      assert s[i + k - 1] == '-' ==> s[i + k] != '-';
    }
  }

  lemma TrimmedIsNormal(s: string)
    requires Squeezed(s)
    ensures Normal(Cut(s))
  {
    var l := TrimLeft(s, Dash);
    var t := TrimRight(l, Dash);
    hide TrimLeft, TrimRight, Squeezed;
    assert t == s[|s| - |l|..|s| - |l| + |t|];
    SqueezedPart(s, |s| - |l|, |s| - |l| + |t|);
    assert t != "" ==> t[0] == l[0];
  }

  lemma NormalStays(s: string)
    requires Normal(s)
    ensures Slugify(s) == s
  {
    forall i | 0 <= i < |s| ensures LowerChar(s[i]) == s[i] {
      assert s[i] in s;
    }
    assert Lower(s) == s;
    SqueezedStays(s, Other, false);
    assert TrimLeft(s, Dash) == s;
  }

  /** A slug is in normal form, and the normal forms are exactly the texts that are their own slugs. */
  lemma SlugIsNormal(s: string)
    ensures Normal(Slugify(s))
    ensures Slugify(s) == s <==> Normal(s)
  {
    ReplacedIsSqueezed(Lower(s), false);
    TrimmedIsNormal(Squeeze(Lower(s), false));
    if Normal(s) {
      NormalStays(s);
    }
  }

  lemma SlugifyTwice(s: string)
    ensures Slugify(Slugify(s)) == Slugify(s)
  {
    SlugIsNormal(s);
    SlugIsNormal(Slugify(s));
  }

  // ---------------------------------------------------------------- what a slug says

  /** The maximal runs of letters and digits. */
  function Words(s: string): seq<string> {
    if s == "" then
      []
    else if Other(s[0]) then
      Words(s[1..])
    else
      var rest := Words(s[1..]);
      if |s| == 1 || Other(s[1]) then [[s[0]]] + rest else [[s[0]] + rest[0]] + rest[1..]
  }

  lemma WordsStep(s: string)
    ensures s == "" ==> Words(s) == []
    ensures s != "" && Other(s[0]) ==> Words(s) == Words(s[1..])
    ensures s != "" && !Other(s[0]) && (|s| == 1 || Other(s[1])) ==> Words(s) == [[s[0]]] + Words(s[1..])
    ensures s != "" && !Other(s[0]) && |s| > 1 && !Other(s[1]) ==>
              Words(s[1..]) != [] && Words(s) == [[s[0]] + Words(s[1..])[0]] + Words(s[1..])[1..]
  {
  }

  predicate AllLetters(words: seq<string>) {
    forall i | 0 <= i < |words| :: words[i] != ""
  }

  lemma {:induction false} WordsHaveLetters(s: string)
    ensures AllLetters(Words(s))
  {
    hide Words;
    WordsStep(s);
    if s != "" {
      WordsHaveLetters(s[1..]);
    }
  }

  lemma JoinNotEmpty(words: seq<string>)
    requires words != [] && words[0] != ""
    ensures Join(words, '-') != ""
  {
  }

  lemma WordsNotEmpty(s: string)
    ensures Words(s) != [] ==> Join(Words(s), '-') != ""
  {
    hide Words, Join;
    WordsHaveLetters(s);
    if Words(s) != [] {
      JoinNotEmpty(Words(s));
    }
  }

  lemma SqueezeStep(s: string, inside: bool)
    ensures s == "" ==> Squeeze(s, inside) == ""
    ensures s != "" && Other(s[0]) ==>
              Squeeze(s, inside) == if inside then Squeeze(s[1..], true) else ['-'] + Squeeze(s[1..], true)
    ensures s != "" && !Other(s[0]) ==> Squeeze(s, inside) == [s[0]] + Squeeze(s[1..], false)
  {
  }

  lemma {:induction false} CutRightStep(c: char, z: string)
    ensures z == "" ==> CutRight(z) == ""
    ensures CutRight([c] + z) == if CutRight(z) != "" then [c] + CutRight(z) else if Dash(c) then "" else [c]
  {
    var s := [c] + z;
    if z != "" {
      assert s[..|s| - 1] == [c] + z[..|z| - 1] && s[|s| - 1] == z[|z| - 1];
      if Dash(z[|z| - 1]) {
        CutRightStep(c, z[..|z| - 1]);
      }
    } else {
      assert s[..0] == "";
    }
  }

  lemma CutStep(c: char, z: string)
    ensures Dash(c) ==> Cut([c] + z) == Cut(z)
    ensures !Dash(c) ==> Cut([c] + z) == CutRight([c] + z)
    ensures z == "" || !Dash(z[0]) ==> Cut(z) == CutRight(z)
  {
    assert ([c] + z)[1..] == z;
  }

  /** What trimming leaves of the squeezed text, whether or not a hyphen was written before it. */
  predicate CutsToWords(s: string) {
    Cut(Squeeze(s, true)) == Cut(Squeeze(s, false)) == Join(Words(s), '-')
  }

  lemma {:induction false} CutWords(s: string)
    ensures CutsToWords(s)
  {
    hide Squeeze, Cut, CutRight, Words;
    SqueezeStep(s, true);
    SqueezeStep(s, false);
    WordsStep(s);
    if s == "" {
      CutRightStep('-', s);
      CutStep('-', s);
      assert Join(Words(s), '-') == "";
    } else {
      CutWords(s[1..]);
      if Other(s[0]) {
        CutStep('-', Squeeze(s[1..], true));
      } else {
        WordStart(s);
        CutStep(s[0], Squeeze(s[1..], false));
      }
    }
  }

  lemma WordStart(s: string)
    requires s != "" && !Other(s[0]) && CutsToWords(s[1..])
    ensures CutRight([s[0]] + Squeeze(s[1..], false)) == Join(Words(s), '-')
  {
    hide Squeeze, Cut, CutRight, Words, Join;
    var rest := s[1..];
    CutRightStep(s[0], Squeeze(rest, false));
    WordsStep(s);
    if rest == "" || Other(rest[0]) {
      NextSeparator(rest);
      JoinCons([s[0]], Words(rest));
    } else {
      SqueezeStep(rest, false);
      CutStep('-', Squeeze(rest, false));
      WordsNotEmpty(rest);
      JoinGlue(s[0], Words(rest));
    }
  }

  lemma NextSeparator(rest: string)
    requires (rest == "" || Other(rest[0])) && CutsToWords(rest)
    ensures CutRight(Squeeze(rest, false)) == if Words(rest) == [] then "" else "-" + Join(Words(rest), '-')
  {
    hide Squeeze, Cut, CutRight, Words, Squeezed;
    SqueezeStep(rest, true);
    SqueezeStep(rest, false);
    WordsStep(rest);
    var y := Squeeze(rest, true);
    CutRightStep('-', y);
    if rest == "" {
      assert CutRight(Squeeze(rest, false)) == "";
    } else {
      ReplacedIsSqueezed(rest, true);
      WordsNotEmpty(rest);
      CutStep('-', y);
    }
  }

  lemma JoinCons(word: string, words: seq<string>)
    ensures Join([word] + words, '-') == if words == [] then word else word + "-" + Join(words, '-')
  {
    assert ([word] + words)[1..] == words;
  }

  lemma JoinGlue(c: char, words: seq<string>)
    requires words != []
    ensures Join([[c] + words[0]] + words[1..], '-') == [c] + Join(words, '-')
  {
    assert ([[c] + words[0]] + words[1..])[1..] == words[1..];
  }

  /** What both functions compute: the words of the text, in lower case, joined by single hyphens. */
  lemma SlugIsWords(s: string)
    ensures Slugify(s) == GoSlugify(s) == Join(Words(Lower(s)), '-')
  {
    GoAgrees(s);
    CutWords(Lower(s));
  }

  // ---------------------------------------------------------------- there and back

  /** Equal except for which separators stand between the words. */
  predicate SameShape(a: string, b: string) {
    && |a| == |b|
    && forall i | 0 <= i < |a| :: (Other(a[i]) <==> Other(b[i])) && (!Other(a[i]) ==> a[i] == b[i])
  }

  lemma {:induction false} ShapeDecides(a: string, b: string, inside: bool)
    requires SameShape(a, b)
    ensures Squeeze(a, inside) == Squeeze(b, inside)
  {
    if a != "" {
      ShapeDecides(a[1..], b[1..], Other(a[0]));
    }
  }

  lemma LowerAppend(a: string, c: char, b: string)
    ensures Lower(a + [c] + b) == Lower(a) + [LowerChar(c)] + Lower(b)
  {
  }

  lemma {:induction false} JoinShape(caps: seq<string>, words: seq<string>)
    requires |caps| == |words| && forall i | 0 <= i < |words| :: Lower(caps[i]) == Lower(words[i])
    ensures SameShape(Lower(Join(caps, ' ')), Lower(Join(words, '-')))
  {
    if |words| > 1 {
      JoinShape(caps[1..], words[1..]);
      LowerAppend(caps[0], ' ', Join(caps[1..], ' '));
      LowerAppend(words[0], '-', Join(words[1..], '-'));
      hide Lower;
    }
  }

  lemma CapitalizeLower(word: string)
    ensures Lower(Capitalize(word)) == Lower(word)
  {
  }

  /** Deslugifying never changes the slug; so it is undone by slugify exactly on normal forms, as the
      routing of component pages needs. */
  lemma SlugOfDeslug(s: string)
    ensures Slugify(Deslugify(s)) == Slugify(s)
    ensures Slugify(Deslugify(s)) == s <==> Normal(s)
  {
    var words := Split(s, '-');
    forall i | 0 <= i < |words| ensures Lower(CapitalizeAll(words)[i]) == Lower(words[i]) {
      CapitalizeLower(words[i]);
    }
    JoinShape(CapitalizeAll(words), words);
    JoinOfSplit(s, '-');
    ShapeDecides(Lower(Deslugify(s)), Lower(s), false);
    SlugIsNormal(s);
  }

  // ---------------------------------------------------------------- characters

  /** The two cases of a letter have one place in the alphabet; other characters have one case. */
  lemma CaseTable(c: char)
    ensures 'A' <= c <= 'Z' ==> 'a' <= LowerChar(c) <= 'z' && LowerChar(c) as int - 'a' as int == c as int - 'A' as int
    ensures 'a' <= c <= 'z' ==> 'A' <= UpperChar(c) <= 'Z' && UpperChar(c) as int - 'A' as int == c as int - 'a' as int
    ensures !('A' <= c <= 'Z') ==> LowerChar(c) == c
    ensures !('a' <= c <= 'z') ==> UpperChar(c) == c
  {
  }

  /** A slug has only lower-case letters, digits and hyphens, none of these at its ends or doubled, and every
      such text is a slug. */
  lemma SlugAlphabet(s: string)
    ensures Slugify(s) == s <==>
            && (forall c | c in s :: 'a' <= c <= 'z' || '0' <= c <= '9' || c == '-')
            && (s != "" ==> s[0] != '-' && s[|s| - 1] != '-')
            && (forall i | 0 < i < |s| :: !(s[i - 1] == '-' && s[i] == '-'))
  {
    SlugIsNormal(s);
    hide Slugify;
  }

  /** `d` is `s` with spaces for hyphens and a capital at the start of every word. */
  predicate Titled(s: string, d: string) {
    |d| == |s| && forall i | 0 <= i < |s| :: d[i] == TitleAt(s, i)
  }

  function TitleAt(s: string, i: nat): char
    requires i < |s|
  {
    if s[i] == '-' then ' ' else if i == 0 || s[i - 1] == '-' then UpperChar(s[i]) else s[i]
  }

  /** Deslugify, character by character: hyphens become spaces, and the first letter of every word a capital. */
  lemma DeslugifyAt(s: string)
    ensures Titled(s, Deslugify(s))
  {
    JoinOfSplit(s, '-');
    SplitHasNoSeparator(s, '-');
    CapitalizedAt(Split(s, '-'));
    hide Split, Titled;
  }

  lemma {:induction false} SplitHasNoSeparator(s: string, sep: char)
    ensures forall w | w in Split(s, sep) :: sep !in w
  {
    if s != "" {
      SplitHasNoSeparator(s[1..], sep);
      var rest := Split(s[1..], sep);
      assert rest[0] in rest && forall w | w in rest[1..] :: w in rest;
    }
  }

  lemma TitledWord(word: string)
    requires '-' !in word
    ensures Titled(word, Capitalize(word))
  {
    assert forall i | 0 <= i < |word| :: word[i] in word;
  }

  lemma TitledAppend(a: string, b: string, x: string, y: string)
    requires Titled(a, x) && Titled(b, y)
    ensures Titled(a + ['-'] + b, x + [' '] + y)
  {
    var s, d, n := a + ['-'] + b, x + [' '] + y, |a|;
    assert |d| == |s| == n + 1 + |b|;
    forall i | 0 <= i < |s| ensures d[i] == TitleAt(s, i) {
      if i < n {
        assert TitleAt(s, i) == TitleAt(a, i);
        assert d[i] == x[i];
      } else if i > n {
        assert TitleAt(s, i) == TitleAt(b, i - n - 1);
        assert d[i] == y[i - n - 1];
      }
    }
  }

  lemma {:induction false} CapitalizedAt(words: seq<string>)
    requires words != [] && forall w | w in words :: '-' !in w
    ensures Titled(Join(words, '-'), Join(CapitalizeAll(words), ' '))
  {
    assert words[0] in words;
    TitledWord(words[0]);
    if |words| > 1 {
      assert CapitalizeAll(words)[1..] == CapitalizeAll(words[1..]);
      CapitalizedAt(words[1..]);
      hide Titled, Capitalize;
      TitledAppend(words[0], Join(words[1..], '-'), Capitalize(words[0]), Join(CapitalizeAll(words[1..]), ' '));
    }
  }
}
