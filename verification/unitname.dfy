/** cmd/component-monitor/systemd-prober.go: escaping a unit name for a D-Bus object path. */
module UnitName {
  import opened Base
  import opened Text

  type Byte = b: int | 0 <= b < 256

  predicate Alphanumeric(b: Byte) {
    0x61 <= b <= 0x7A || 0x41 <= b <= 0x5A || 0x30 <= b <= 0x39
  }

  /** A digit of `%02x`. */
  function HexDigit(n: nat): (c: char)
    requires n < 16
    ensures HexValue(c) == Some(n)
  {
    if n < 10 then (0x30 + n) as char else (0x61 + n - 10) as char
  }

  function HexValue(c: char): (n: Option<nat>)
    ensures n.Some? ==> n.value < 16
  {
    var v := c as int;
    if 0x30 <= v <= 0x39 then Some(v - 0x30) else if 0x61 <= v <= 0x66 then Some(v - 0x61 + 10) else None
  }

  function EscapeByte(b: Byte): string {
    if Alphanumeric(b) then [b as char] else ['_', HexDigit(b / 16), HexDigit(b % 16)]
  }

  function Escaped(unit: seq<Byte>): string {
    if unit == [] then "" else Escaped(unit[..|unit| - 1]) + EscapeByte(unit[|unit| - 1])
  }

  /** `escapeUnitName`. */
  method EscapeUnitName(unit: seq<Byte>) returns (path: string)
    ensures path == Escaped(unit)
  {
    path := "";
    for i := 0 to |unit|
      invariant path == Escaped(unit[..i])
    {
      var c := unit[i];
      assert unit[..i + 1][..i] == unit[..i];
      if (c >= 0x61 && c <= 0x7A) || (c >= 0x41 && c <= 0x5A) || (c >= 0x30 && c <= 0x39) {
        path := path + [c as char];
      } else {
        path := path + ['_', HexDigit(c / 16), HexDigit(c % 16)];
      }
    }
    assert unit[..|unit|] == unit;
  }

  // ---------------------------------------------------------------- decoding

  function Cons(b: Byte, rest: Option<seq<Byte>>): Option<seq<Byte>> {
    match rest
    case None => None
    case Some(unit) => Some([b] + unit)
  }

  /** Reads a path component back, rejecting everything no unit is escaped to. */
  function Unescaped(path: string): Option<seq<Byte>> {
    if path == "" then
      Some([])
    else if (path[0] as int) < 256 && Alphanumeric(path[0] as int) then
      Cons(path[0] as int, Unescaped(path[1..]))
    else if path[0] == '_' && |path| >= 3 && HexValue(path[1]).Some? && HexValue(path[2]).Some? then
      var b := 16 * HexValue(path[1]).value + HexValue(path[2]).value;
      if Alphanumeric(b) then None else Cons(b, Unescaped(path[3..]))
    else
      None
  }

  lemma EscapedSnoc(unit: seq<Byte>, b: Byte)
    ensures Escaped(unit + [b]) == Escaped(unit) + EscapeByte(b)
  {
    assert (unit + [b])[..|unit|] == unit;
  }

  lemma {:induction false} EscapedCons(b: Byte, rest: seq<Byte>)
    ensures Escaped([b] + rest) == EscapeByte(b) + Escaped(rest)
  {
    if rest == [] {
      assert Escaped(rest) == "";
      hide Escaped, EscapeByte;
      assert rest + [b] == [b] + rest;
      EscapedSnoc(rest, b);
    } else {
      hide Escaped, EscapeByte;
      var init, last := rest[..|rest| - 1], rest[|rest| - 1];
      assert rest == init + [last] && [b] + rest == ([b] + init) + [last];
      EscapedCons(b, init);
      EscapedSnoc(init, last);
      EscapedSnoc([b] + init, last);
      Associative(EscapeByte(b), Escaped(init), EscapeByte(last));
    }
  }

  lemma {:induction false} UnescapeEscaped(unit: seq<Byte>)
    ensures Unescaped(Escaped(unit)) == Some(unit)
  {
    if unit != [] {
      var b, rest := unit[0], unit[1..];
      assert unit == [b] + rest;
      EscapedCons(b, rest);
      UnescapeEscaped(rest);
      assert (EscapeByte(b) + Escaped(rest))[|EscapeByte(b)|..] == Escaped(rest);
    }
  }

  lemma HexInverse(c: char)
    ensures HexValue(c).Some? ==> HexDigit(HexValue(c).value) == c
  {
  }

  lemma UnescapePlain(path: string)
    requires path != "" && Unescaped(path).Some? && (path[0] as int) < 256 && Alphanumeric(path[0] as int)
    ensures var unit := Unescaped(path).value;
            unit != [] && EscapeByte(unit[0]) == path[..1] && Unescaped(path[1..]) == Some(unit[1..])
  {
    hide HexValue;
  }

  lemma HexEscape(high: char, low: char)
    requires HexValue(high).Some? && HexValue(low).Some?
    ensures var b := 16 * HexValue(high).value + HexValue(low).value;
            b < 256 && (!Alphanumeric(b) ==> EscapeByte(b) == ['_', high, low])
  {
    HexInverse(high);
    HexInverse(low);
    hide HexValue, HexDigit;
  }

  lemma HexUnfolds(path: string)
    requires path != "" && Unescaped(path).Some? && !((path[0] as int) < 256 && Alphanumeric(path[0] as int))
    ensures |path| >= 3 && path[0] == '_' && HexValue(path[1]).Some? && HexValue(path[2]).Some?
    ensures var b := 16 * HexValue(path[1]).value + HexValue(path[2]).value;
            !Alphanumeric(b) && Unescaped(path) == Cons(b, Unescaped(path[3..]))
  {
    hide HexValue, HexDigit, EscapeByte;
  }

  lemma UnescapeHex(path: string)
    requires path != "" && Unescaped(path).Some? && !((path[0] as int) < 256 && Alphanumeric(path[0] as int))
    ensures var unit := Unescaped(path).value;
            |path| >= 3 && unit != [] && EscapeByte(unit[0]) == path[..3] && Unescaped(path[3..]) == Some(unit[1..])
  {
    hide HexValue, HexDigit, EscapeByte, Unescaped, Alphanumeric;
    HexUnfolds(path);
    HexEscape(path[1], path[2]);
    FirstThree(path);
    ConsParts(16 * HexValue(path[1]).value + HexValue(path[2]).value, Unescaped(path[3..]));
    hide Cons;
  }

  lemma FirstThree(s: string)
    requires |s| >= 3
    ensures s[..3] == [s[0], s[1], s[2]]
  {
  }

  lemma ConsParts(b: Byte, rest: Option<seq<Byte>>)
    ensures Cons(b, rest).Some? ==> rest.Some? && Cons(b, rest).value != [] && Cons(b, rest).value[0] == b
    ensures Cons(b, rest).Some? ==> rest == Some(Cons(b, rest).value[1..])
  {
  }

  lemma UnescapeStep(path: string)
    requires path != "" && Unescaped(path).Some?
    ensures var unit := Unescaped(path).value;
            unit != [] && var n := |EscapeByte(unit[0])|;
            n <= |path| && path[..n] == EscapeByte(unit[0]) && Unescaped(path[n..]) == Some(unit[1..])
  {
    if (path[0] as int) < 256 && Alphanumeric(path[0] as int) {
      UnescapePlain(path);
    } else {
      UnescapeHex(path);
    }
    hide Unescaped, EscapeByte, HexValue;
  }

  lemma {:induction false} EscapeUnescaped(path: string)
    ensures Unescaped(path).Some? ==> Escaped(Unescaped(path).value) == path
  {
    if path != "" && Unescaped(path).Some? {
      UnescapeStep(path);
      var unit := Unescaped(path).value;
      var n := |EscapeByte(unit[0])|;
      hide Unescaped, EscapeByte;
      EscapeUnescaped(path[n..]);
      EscapedCons(unit[0], unit[1..]);
      assert unit == [unit[0]] + unit[1..];
      assert path == path[..n] + path[n..];
    }
  }

  /** Escaping is reversible: the decoder finds the unit of every escaped name, and accepts nothing
      else. */
  lemma EscapeReversible(unit: seq<Byte>, path: string)
    ensures Unescaped(path) == Some(unit) <==> path == Escaped(unit)
  {
    UnescapeEscaped(unit);
    EscapeUnescaped(path);
  }

  /** So two units never share a path. */
  lemma EscapeInjective(a: seq<Byte>, b: seq<Byte>)
    requires Escaped(a) == Escaped(b)
    ensures a == b
  {
    UnescapeEscaped(a);
    UnescapeEscaped(b);
  }

  // ---------------------------------------------------------------- the form of the output

  /** The characters of an element of an object path, [A-Z][a-z][0-9]_: D-Bus Specification, section
      "Valid Object Paths". */
  predicate PathCharacter(c: char) {
    var v := c as int;
    0x61 <= v <= 0x7A || 0x41 <= v <= 0x5A || 0x30 <= v <= 0x39 || c == '_'
  }

  function EscapedBytes(unit: seq<Byte>): nat {
    if unit == [] then 0 else EscapedBytes(unit[..|unit| - 1]) + if Alphanumeric(unit[|unit| - 1]) then 0 else 1
  }

  /** Every unit name but the empty one becomes a valid path element, two characters longer for each
      escaped byte. */
  lemma {:induction false} EscapedForm(unit: seq<Byte>)
    ensures |Escaped(unit)| == |unit| + 2 * EscapedBytes(unit)
    ensures forall c | c in Escaped(unit) :: PathCharacter(c)
    ensures Escaped(unit) == "" <==> unit == []
  {
    if unit != [] {
      EscapedForm(unit[..|unit| - 1]);
      var b := unit[|unit| - 1];
      forall c | c in EscapeByte(b) ensures PathCharacter(c) {
        if !Alphanumeric(b) {
          assert c == '_' || c == HexDigit(b / 16) || c == HexDigit(b % 16);
        }
      }
    }
  }

  /** What happens to each byte: ASCII letters and digits stay, every other byte becomes an underscore and its two
      lower-case hexadecimal digits. */
  lemma EscapeTable(b: Byte)
    ensures Escaped([b]) ==
            if 'a' as int <= b <= 'z' as int || 'A' as int <= b <= 'Z' as int || '0' as int <= b <= '9' as int
            then [b as char]
            else ['_', "0123456789abcdef"[b / 16], "0123456789abcdef"[b % 16]]
  {
    assert [b][..0] == [];
    HexTable(b / 16);
    HexTable(b % 16);
    hide HexDigit;
  }

  lemma HexTable(n: nat)
    requires n < 16
    ensures HexDigit(n) == "0123456789abcdef"[n]
  {
  }
}
