/** Joining and splitting strings at a separator. */
module Text {

  /** `strings.Join` with a one-character separator. */
  function Join(names: seq<string>, sep: char): string {
    if names == [] then "" else if |names| == 1 then names[0] else names[0] + [sep] + Join(names[1..], sep)
  }

  /** `strings.Split` with a one-character separator. */
  function Split(s: string, sep: char): (pieces: seq<string>)
    ensures pieces != []
  {
    if s == "" then
      [""]
    else
      var rest := Split(s[1..], sep);
      if s[0] == sep then [""] + rest else [[s[0]] + rest[0]] + rest[1..]
  }

  function Pieces(names: seq<string>, sep: char): seq<string> {
    if names == [] then [] else Split(names[0], sep) + Pieces(names[1..], sep)
  }

  lemma SplitCons(c: char, s: string, sep: char)
    ensures var rest := Split(s, sep);
            Split([c] + s, sep) == if c == sep then [""] + rest else [[c] + rest[0]] + rest[1..]
  {
    assert ([c] + s)[1..] == s;
  }

  lemma GlueAppend(c: char, a: seq<string>, b: seq<string>)
    requires a != []
    ensures [[c] + (a + b)[0]] + (a + b)[1..] == ([[c] + a[0]] + a[1..]) + b
  {
    assert (a + b)[1..] == a[1..] + b;
  }

  lemma Associative<T>(a: seq<T>, b: seq<T>, c: seq<T>)
    ensures (a + b) + c == a + (b + c)
  {
  }

  lemma SplitAppendStep(c: char, a: string, s: string, sep: char)
    requires s != "" && Split(a + s, sep) == Split(a, sep) + Split(s[1..], sep)
    ensures Split(([c] + a) + s, sep) == Split([c] + a, sep) + Split(s[1..], sep)
  {
    hide Split;
    Associative([c], a, s);
    SplitCons(c, a, sep);
    SplitCons(c, a + s, sep);
    if c == sep {
      Associative([""], Split(a, sep), Split(s[1..], sep));
    } else {
      GlueAppend(c, Split(a, sep), Split(s[1..], sep));
    }
  }

  /** `s` begins with a separator. */
  lemma {:induction false} SplitAppend(a: string, s: string, sep: char)
    requires s != "" && s[0] == sep
    ensures Split(a + s, sep) == Split(a, sep) + Split(s[1..], sep)
  {
    if a == "" {
      assert Split(a, sep) == [""];
      hide Split;
      assert a + s == s == [sep] + s[1..];
      SplitCons(sep, s[1..], sep);
    } else {
      hide Split;
      SplitAppend(a[1..], s, sep);
      SplitAppendStep(a[0], a[1..], s, sep);
      assert [a[0]] + a[1..] == a;
    }
  }

  lemma {:induction false} SplitOfJoin(names: seq<string>, sep: char)
    requires names != []
    ensures Split(Join(names, sep), sep) == Pieces(names, sep)
  {
    if |names| > 1 {
      SplitOfJoin(names[1..], sep);
      var rest := Join(names[1..], sep);
      SplitAppend(names[0], [sep] + rest, sep);
      Associative(names[0], [sep], rest);
      assert ([sep] + rest)[1..] == rest;
    } else {
      assert Pieces(names[1..], sep) == [];
    }
  }

  lemma {:induction false} JoinOfSplit(s: string, sep: char)
    ensures Join(Split(s, sep), sep) == s
  {
    if s != "" {
      JoinOfSplit(s[1..], sep);
      var rest := Split(s[1..], sep);
      if s[0] == sep {
        assert ([""] + rest)[1..] == rest;
      } else {
        assert ([[s[0]] + rest[0]] + rest[1..])[1..] == rest[1..];
      }
    }
  }

  /** Joining loses exactly the difference between a separator inside a name and one between names. */
  lemma JoinInjective(a: seq<string>, b: seq<string>, sep: char)
    requires a != [] && b != []
    ensures Join(a, sep) == Join(b, sep) <==> Pieces(a, sep) == Pieces(b, sep)
  {
    SplitOfJoin(a, sep);
    SplitOfJoin(b, sep);
    JoinOfSplit(Join(a, sep), sep);
    JoinOfSplit(Join(b, sep), sep);
  }
}
