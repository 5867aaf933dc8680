/** Small vocabulary shared by every module: optional values, instants, and Go's TrimSpace. */
module Base {

  datatype Option<+T> = None | Some(value: T)

  /** An instant in nanoseconds counted from Go's zero time, so `time.Time.IsZero` is `t == 0`. */
  type Time = int

  const SECOND: Time := 1_000_000_000

  /** `Time.Truncate(time.Second)`: the last whole second not after `t`. */
  function Truncate(t: Time): (r: Time)
    ensures r <= t < r + SECOND
    ensures r % SECOND == 0
  {
    t - t % SECOND
  }

  function TruncateOption(t: Option<Time>): Option<Time> {
    match t
    case None => None
    case Some(v) => Some(Truncate(v))
  }

  lemma TruncateMonotone(s: Time, t: Time)
    requires s <= t
    ensures Truncate(s) <= Truncate(t)
  {
    assert s / SECOND <= t / SECOND;
  }

  /** The characters `strings.TrimSpace` removes (Unicode White_Space). */
  predicate IsSpace(c: char) {
    var n := c as int;
    || 9 <= n <= 13 || n == 0x20 || n == 0x85 || n == 0xA0 || n == 0x1680
    || 0x2000 <= n <= 0x200A || n == 0x2028 || n == 0x2029 || n == 0x202F || n == 0x205F || n == 0x3000
  }

  /** In ASCII these are tab, line feed, vertical tab, form feed, carriage return and space. */
  lemma AsciiSpace(c: char)
    requires (c as int) < 0x80
    ensures IsSpace(c) <==> c == '\t' || c == '\n' || c as int == 11 || c as int == 12 || c == '\r' || c == ' '
  {
  }

  predicate Blank(s: string) {
    forall c | c in s :: IsSpace(c)
  }

  /** `s` without its longest prefix of characters from `cut`. */
  function TrimLeft(s: string, cut: char -> bool): (t: string)
    ensures t != "" ==> !cut(t[0])
    ensures |t| <= |s| && s[|s| - |t|..] == t && forall c | c in s[..|s| - |t|] :: cut(c)
  {
    if s != "" && cut(s[0]) then
      var t := TrimLeft(s[1..], cut);
      assert s[..|s| - |t|] == [s[0]] + s[1..][..|s| - 1 - |t|];
      t
    else
      s
  }

  /** `s` without its longest suffix of characters from `cut`. */
  function TrimRight(s: string, cut: char -> bool): (t: string)
    ensures t != "" ==> !cut(t[|t| - 1])
    ensures |t| <= |s| && s[..|t|] == t && forall c | c in s[|t|..] :: cut(c)
  {
    if s != "" && cut(s[|s| - 1]) then
      var t := TrimRight(s[..|s| - 1], cut);
      assert s[|t|..] == s[..|s| - 1][|t|..] + [s[|s| - 1]];
      t
    else
      s
  }

  /** `strings.TrimFunc`. */
  function Trim(s: string, cut: char -> bool): string {
    TrimRight(TrimLeft(s, cut), cut)
  }

  function TrimSpace(s: string): string {
    Trim(s, IsSpace)
  }

  lemma TrimSpaceIdempotent(s: string)
    ensures TrimSpace(TrimSpace(s)) == TrimSpace(s)
  {
    var l, t := TrimLeft(s, IsSpace), TrimSpace(s);
    if t != "" {
      assert t[0] == l[0];
      assert TrimLeft(t, IsSpace) == t;
    }
  }

  /** `strings.TrimSpace(s) == ""` is the blank test of `Outage.Validate`. */
  lemma TrimSpaceBlank(s: string)
    ensures TrimSpace(s) == "" <==> Blank(s)
  {
    var l := TrimLeft(s, IsSpace);
    assert s == s[..|s| - |l|] + l;
    if TrimSpace(s) == "" {
      assert l == l[0..];
    } else {
      assert l[0] in s;
    }
  }

  lemma SubsetCount<T>(a: set<T>, b: set<T>)
    requires a <= b
    ensures |a| <= |b|
  {
    if x :| x in a {
      SubsetCount(a - {x}, b - {x});
    }
  }
}
