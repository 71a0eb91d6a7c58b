/** Decimal numbers and lists of them as text. */
module Decimals {

  /** A number as the program writes it. */
  function Digits(n: nat): (s: string)
    ensures s != ""
  {
    (if n < 10 then "" else Digits(n / 10)) + ["0123456789"[n % 10]]
  }

  lemma {:induction false} DigitsOnly(n: nat)
    ensures forall i | 0 <= i < |Digits(n)| :: '0' <= Digits(n)[i] <= '9'
  {
    if n >= 10 { DigitsOnly(n / 10); }
    assert '0' <= "0123456789"[n % 10] <= '9';
  }

  /** The number that a text of digits stands for, if it is one. */
  function ReadNumber(s: string): (r: int)
    ensures r >= -1
  {
    if s == "" || !('0' <= s[|s| - 1] <= '9') then -1
    else
      var d := s[|s| - 1] as int - '0' as int;
      if |s| == 1 then d else var front := ReadNumber(s[..|s| - 1]); if front < 0 then -1 else 10 * front + d
  }

  lemma {:induction false} ReadBack(n: nat)
    ensures ReadNumber(Digits(n)) == n
  {
    var s, c := Digits(n), "0123456789"[n % 10];
    assert s[|s| - 1] == c && c as int - '0' as int == n % 10;
    if n >= 10 {
      ReadBack(n / 10);
      assert s[..|s| - 1] == Digits(n / 10);
    }
  }

  /** Numbers with a separator between them. */
  function Joined(ns: seq<nat>, separator: char): string
  {
    if ns == [] then ""
    else if |ns| == 1 then Digits(ns[0])
    else Joined(ns[..|ns| - 1], separator) + [separator] + Digits(ns[|ns| - 1])
  }

  /** The parts of a text between separators; a text without any is one part. */
  function Parts(s: string, separator: char): (parts: seq<string>)
    ensures parts != []
  {
    if s == "" then [""]
    else
      var front, c := Parts(s[..|s| - 1], separator), s[|s| - 1];
      if c == separator then front + [""]
      else front[..|front| - 1] + [front[|front| - 1] + [c]]
  }

  lemma PartsOfLonger(s: string, c: char, separator: char)
    ensures var p := Parts(s, separator);
            Parts(s + [c], separator) == if c == separator then p + [""] else p[..|p| - 1] + [p[|p| - 1] + [c]]
  {
    var all := s + [c];
    assert all[..|all| - 1] == s && all[|all| - 1] == c;
  }

  /** Text without the separator goes to the last part. */
  lemma {:induction false} PartsGrow(s: string, t: string, separator: char)
    requires separator !in t
    ensures var p := Parts(s, separator); Parts(s + t, separator) == p[..|p| - 1] + [p[|p| - 1] + t]
    decreases |t|
  {
    hide Parts;
    var p := Parts(s, separator);
    var n := |p| - 1;
    if t == "" {
      assert s + t == s && p[n] + t == p[n];
      assert p == p[..n] + [p[n]];
    } else {
      var u, c := t[..|t| - 1], t[|t| - 1];
      assert t == u + [c];
      PartsGrow(s, u, separator);
      PartsOfLonger(s + u, c, separator);
      var q := Parts(s + u, separator);
      assert q[..n] == p[..n] && q[n] == p[n] + u && |q| == n + 1;
      assert s + u + [c] == s + t;
      assert p[n] + u + [c] == p[n] + t;
    }
  }

  lemma PartsSeparated(s: string, t: string, separator: char)
    requires separator !in t
    ensures Parts(s + [separator] + t, separator) == Parts(s, separator) + [t]
  {
    PartsOfLonger(s, separator, separator);
    hide Parts;
    PartsGrow(s + [separator], t, separator);
    assert "" + t == t;
  }

  lemma OnePart(t: string, separator: char)
    requires separator !in t
    ensures Parts(t, separator) == [t]
  {
    PartsGrow("", t, separator);
    assert "" + t == t;
  }

  /** Splitting a joined list gives its numbers, one part each. */
  lemma {:induction false} PartsOfJoined(ns: seq<nat>, separator: char)
    requires ns != [] && !('0' <= separator <= '9')
    ensures var p := Parts(Joined(ns, separator), separator);
            |p| == |ns| && forall i | 0 <= i < |ns| :: p[i] == Digits(ns[i])
    decreases |ns|
  {
    hide Digits, Parts;
    var front, last := ns[..|ns| - 1], ns[|ns| - 1];
    DigitsOnly(last);
    if |ns| == 1 {
      OnePart(Digits(last), separator);
    } else {
      PartsOfJoined(front, separator);
      PartsSeparated(Joined(front, separator), Digits(last), separator);
    }
  }

  function Occurrences(s: string, c: char): nat
  {
    if s == "" then 0 else Occurrences(s[..|s| - 1], c) + (if s[|s| - 1] == c then 1 else 0)
  }

  lemma {:induction false} PartsCount(s: string, separator: char)
    ensures |Parts(s, separator)| == Occurrences(s, separator) + 1
  {
    if s != "" { PartsCount(s[..|s| - 1], separator); }
  }
}
