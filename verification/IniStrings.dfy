/** The string operations that the INI reader and writer rest on, over text as a sequence of Unicode characters. */
module IniStrings {

  const TRIPLE := "\"\"\""

  /** White space as unicode.IsSpace has it. */
  predicate IsSpace(c: char)
  {
    var n := c as int;
    || 9 <= n <= 13 || n == 0x20 || n == 0x85 || n == 0xA0 || n == 0x1680 || 0x2000 <= n <= 0x200A
    || n == 0x2028 || n == 0x2029 || n == 0x202F || n == 0x205F || n == 0x3000
  }

  predicate AllSpace(s: string) { forall i | 0 <= i < |s| :: IsSpace(s[i]) }

  predicate Trimmed(s: string) { s != "" ==> !IsSpace(s[0]) && !IsSpace(s[|s| - 1]) }

  function TrimLeft(s: string): (r: string)
    ensures |r| <= |s| && r == s[|s| - |r|..]
    ensures r != "" ==> !IsSpace(r[0])
  {
    if s != "" && IsSpace(s[0]) then TrimLeft(s[1..]) else s
  }

  function TrimRight(s: string): (r: string)
    ensures r <= s
    ensures r != "" ==> !IsSpace(r[|r| - 1])
  {
    if s != "" && IsSpace(s[|s| - 1]) then TrimRight(s[..|s| - 1]) else s
  }

  function TrimSpace(s: string): (r: string)
    ensures |r| <= |s|
  {
    TrimRight(TrimLeft(s))
  }

  lemma {:induction false} TrimLeftSkips(space: string, s: string)
    requires AllSpace(space)
    ensures TrimLeft(space + s) == TrimLeft(s)
    decreases |space|
  {
    if space == "" {
      assert space + s == s;
    } else {
      assert (space + s)[1..] == space[1..] + s;
      TrimLeftSkips(space[1..], s);
    }
  }

  lemma {:induction false} TrimRightSkips(s: string, space: string)
    requires AllSpace(space)
    ensures TrimRight(s + space) == TrimRight(s)
    decreases |space|
  {
    if space == "" {
      assert s + space == s;
    } else {
      assert (s + space)[..|s + space| - 1] == s + space[..|space| - 1];
      TrimRightSkips(s, space[..|space| - 1]);
    }
  }

  lemma TrimAllSpace(space: string)
    requires AllSpace(space)
    ensures TrimLeft(space) == ""
  {
    TrimLeftSkips(space, "");
    assert space + "" == space;
  }

  /** A trimmed text is what remains of itself between white space. */
  lemma TrimSpaceBetween(left: string, s: string, right: string)
    requires AllSpace(left) && AllSpace(right) && Trimmed(s)
    ensures TrimSpace(left + s + right) == s
  {
    assert left + s + right == left + (s + right);
    TrimLeftSkips(left, s + right);
    if s == "" {
      assert s + right == right + "";
      TrimLeftSkips(right, "");
    } else {
      assert TrimLeft(s + right) == s + right;
      TrimRightSkips(s, right);
    }
  }

  // Searching

  predicate HasAny(s: string, chars: string) { exists i | 0 <= i < |s| :: s[i] in chars }

  function IndexAny(s: string, chars: string): (r: int)
    ensures -1 <= r < |s|
    ensures r >= 0 ==> s[r] in chars
    ensures forall j | 0 <= j < (if r < 0 then |s| else r) :: s[j] !in chars
  {
    if s == "" then -1
    else if s[0] in chars then 0
    else var r := IndexAny(s[1..], chars); if r < 0 then -1 else r + 1
  }

  predicate Occurs(s: string, pattern: string, i: int)
  {
    0 <= i && i + |pattern| <= |s| && s[i..i + |pattern|] == pattern
  }

  function LastIndexFrom(s: string, pattern: string, n: int): (r: int)
    requires -1 <= n
    ensures -1 <= r <= n
    ensures r >= 0 ==> Occurs(s, pattern, r)
    ensures forall j | r < j <= n :: !Occurs(s, pattern, j)
  {
    if n < 0 || Occurs(s, pattern, n) then n else LastIndexFrom(s, pattern, n - 1)
  }

  /** Where the pattern occurs last, or -1. */
  function LastIndex(s: string, pattern: string): (r: int)
    ensures r >= 0 ==> Occurs(s, pattern, r)
    ensures -1 <= r
    ensures forall j | r < j :: !Occurs(s, pattern, j)
  {
    LastIndexFrom(s, pattern, |s|)
  }

  function IndexFrom(s: string, pattern: string, n: nat): (r: int)
    requires n <= |s| + 1
    ensures r == -1 || (r >= n && Occurs(s, pattern, r))
    ensures forall j | n <= j && (r < 0 || j < r) :: !Occurs(s, pattern, j)
    decreases |s| + 1 - n
  {
    if n > |s| then -1 else if Occurs(s, pattern, n) then n else IndexFrom(s, pattern, n + 1)
  }

  /** Where the pattern occurs first, or -1. */
  function Index(s: string, pattern: string): (r: int)
    ensures r == -1 || (r >= 0 && Occurs(s, pattern, r))
    ensures forall j | 0 <= j && (r < 0 || j < r) :: !Occurs(s, pattern, j)
  {
    IndexFrom(s, pattern, 0)
  }

  predicate Contains(s: string, pattern: string) { LastIndex(s, pattern) >= 0 }

  /** A quote that closes a text is the last one when what follows has no quote character. */
  lemma LastIndexOfClosing(s: string, quote: string, after: string)
    requires quote != "" && forall i | 0 <= i < |quote| :: quote[i] == quote[0]
    requires quote[0] !in after
    ensures LastIndex(s + quote + after, quote) == |s|
  {
    var all := s + quote + after;
    assert Occurs(all, quote, |s|);
    forall j | |s| < j && j + |quote| <= |all| ensures !Occurs(all, quote, j) {
      assert all[j..j + |quote|][|quote| - 1] == after[j - |s| - 1];
    }
  }

  /** A quote is found first at the end of a text without its quote character. */
  lemma IndexOfClosing(s: string, quote: string, after: string)
    requires quote != "" && quote[0] !in s
    ensures Index(s + quote + after, quote) == |s|
  {
    var all := s + quote + after;
    assert Occurs(all, quote, |s|);
    forall j | 0 <= j < |s| ensures !Occurs(all, quote, j) {
      assert all[j..j + |quote|][0] == s[j];
    }
  }

  /** The first delimiter is where the text before it ends. */
  lemma IndexAnyAfter(s: string, c: char, after: string, chars: string)
    requires c in chars && !HasAny(s, chars)
    ensures IndexAny(s + [c] + after, chars) == |s|
  {
    var all := s + [c] + after;
    assert all[|s|] == c;
    assert forall j | 0 <= j < |s| :: all[j] == s[j];
  }

  // Lines and lengths

  /** One line with its line break, or the rest of the text when there is none. */
  datatype Line = Line(text: string, rest: string, eof: bool)

  function ReadLine(s: string): (l: Line)
    ensures l.text + l.rest == s
    ensures l.eof ==> l.rest == ""
    ensures !l.eof ==> l.text != ""
  {
    if s == "" then Line("", "", true)
    else if s[0] == '\n' then Line("\n", s[1..], false)
    else var l := ReadLine(s[1..]); Line([s[0]] + l.text, l.rest, l.eof)
  }

  lemma ReadLineCons(c: char, s: string)
    requires c != '\n'
    ensures var l := ReadLine(s); ReadLine([c] + s) == Line([c] + l.text, l.rest, l.eof)
  {
    assert ([c] + s)[1..] == s;
  }

  lemma Associate(a: string, b: string, c: string)
    ensures a + b + c == a + (b + c)
  {}

  lemma {:induction false} ReadLineAfter(a: string, s: string)
    requires '\n' !in a
    ensures var l := ReadLine(s); ReadLine(a + s) == Line(a + l.text, l.rest, l.eof)
    decreases |a|
  {
    hide ReadLine;
    var l := ReadLine(s);
    if a == "" {
      assert a + s == s && a + l.text == l.text;
    } else {
      var c, tail := a[0], a[1..];
      ReadLineAfter(tail, s);
      ReadLineCons(c, tail + s);
      assert a == [c] + tail;
      Associate([c], tail, s);
      Associate([c], tail, l.text);
    }
  }

  lemma ReadLineTo(a: string, s: string)
    requires '\n' !in a
    ensures ReadLine(a + "\n" + s) == Line(a + "\n", s, false)
  {
    assert ReadLine("\n" + s) == Line("\n", s, false) by { assert ("\n" + s)[1..] == s; }
    ReadLineAfter(a, "\n" + s);
    assert a + "\n" + s == a + ("\n" + s);
  }

  /** The length of a text in UTF-8. */
  function ByteLength(s: string): (n: nat)
    ensures n >= |s|
  {
    if s == "" then 0
    else
      var c := s[0] as int;
      (if c < 0x80 then 1 else if c < 0x800 then 2 else if c < 0x1_0000 then 3 else 4) + ByteLength(s[1..])
  }
}
