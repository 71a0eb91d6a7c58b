/** What the reader makes of text that the writer never produces: comments, continued lines, quotes around values, the
    other delimiter, numbered keys and a byte order mark. */
module IniReading {

  import opened Decimals
  import opened IniStrings
  import opened IniStore
  import opened IniParser
  import opened IniPrinter
  import opened IniRoundTrip

  // Trimming

  lemma {:induction false} TrimRightKeeps(a: string, b: string)
    requires TrimRight(b) != ""
    ensures TrimRight(a + b) == a + TrimRight(b)
    decreases |b|
  {
    if IsSpace(b[|b| - 1]) {
      TrimRightKeeps(a, b[..|b| - 1]);
      assert (a + b)[..|a + b| - 1] == a + b[..|b| - 1];
    }
  }

  /** Text that begins with a visible character keeps it, and loses only white space at the end. */
  lemma TrimRightOf(c: char, w: string)
    requires !IsSpace(c)
    ensures var t := TrimRight([c] + w); t != "" && t[0] == c
  {
    hide IsSpace;
    TrimRightKeepsFirst([c] + w);
  }

  /** A triple quote at the start ends before any other character. */
  lemma TripleBefore(x: string, c: char, y: string)
    requires c != '"'
    ensures TRIPLE <= x + [c] + y ==> TRIPLE <= x
  {
    var line := x + [c] + y;
    assert line[|x|] == c;
    if |x| >= 3 {
      assert line[..3] == x[..3];
    }
  }

  // Values

  lemma BlanksAreSpace(blanks: string)
    requires Blanks(blanks)
    ensures AllSpace(blanks) && '"' !in blanks && !HasAny(blanks, "#;")
  {}

  /** What stands before the comment on a line: the value and blanks, or nothing. */
  function Lead(v: string, blanks: string): string { if v == "" then "" else v + blanks }

  predicate EndsIn(s: string, c: char) { s != "" && s[|s| - 1] == c }

  /** A line whose first character is visible is not changed on the left. */
  lemma VisibleFirst(v: string, blanks: string, c: char, w: string)
    requires Trimmed(v) && !IsSpace(c)
    ensures TrimLeft(Lead(v, blanks) + ([c] + w)) == Lead(v, blanks) + ([c] + w)
  {
    hide IsSpace, TrimLeft;
    var line := Lead(v, blanks) + ([c] + w);
    assert line[0] == if v == "" then c else v[0];
    TrimLeftFixed(line);
  }

  /** The line of a value with a comment, without the white space before it. */
  lemma CommentLine(v: string, blanks: string, c: char, w: string)
    requires Trimmed(v) && Blanks(blanks) && !IsSpace(c)
    ensures TrimLeft(v + blanks + ([c] + w)) == Lead(v, blanks) + ([c] + w)
  {
    BlanksAreSpace(blanks);
    VisibleFirst(v, blanks, c, w);
    hide IsSpace, TrimLeft, AllSpace, HasAny, Trimmed;
    var tail := [c] + w;
    if v == "" {
      assert v + blanks + tail == blanks + tail && Lead(v, blanks) + tail == tail;
      TrimLeftSkips(blanks, tail);
    }
  }

  /** And without the white space behind it. */
  lemma CommentTrimmed(lead: string, c: char, w: string, lineBreak: string)
    requires (c == '#' || c == ';') && LineBreak(lineBreak)
    ensures var t := TrimRight([c] + w);
            t != "" && t[0] == c && TrimRight(lead + ([c] + (w + lineBreak))) == lead + t
  {
    TrimRightOf(c, w);
    LineBreakIsSpace(lineBreak);
    hide TrimLeft, TrimRight, LineBreak, IsSpace, AllSpace;
    Associate([c], w, lineBreak);
    TrimRightSkips([c] + w, lineBreak);
    TrimRightKeeps(lead, [c] + w + lineBreak);
  }

  /** Such a line begins with no quote that the reader would see. */
  lemma CommentStart(v: string, blanks: string, c: char, y: string)
    requires GoodPlain(v) && !HasAny(v, "\n`") && Blanks(blanks) && (c == '#' || c == ';')
    ensures var line := Lead(v, blanks) + ([c] + y); !(TRIPLE <= line) && line[0] != '`' && line != ""
  {
    NoneOf(v, "\n`");
    BlanksAreSpace(blanks);
    hide HasAny, HasSurroundedQuote, Trimmed;
    var line := Lead(v, blanks) + ([c] + y);
    if v == "" {
      assert line[0] == c && TRIPLE[0] != c;
    } else {
      var after := blanks + ([c] + y);
      assert line == v + [after[0]] + after[1..] && line[0] == v[0];
      TripleBefore(v, after[0], after[1..]);
    }
  }

  lemma EmptyIsSpace()
    ensures AllSpace("")
  {}

  /** Blanks around a value are trimmed away. */
  lemma LeadTrimmed(v: string, blanks: string)
    requires Trimmed(v) && Blanks(blanks)
    ensures TrimSpace(Lead(v, blanks)) == v
  {
    BlanksAreSpace(blanks);
    hide TrimSpace, Trimmed, AllSpace, HasAny, Blanks;
    var after := if v == "" then "" else blanks;
    assert AllSpace("") && AllSpace(after) by { EmptyIsSpace(); }
    TrimSpaceBetween("", v, after);
    assert "" + v + after == Lead(v, blanks);
  }

  lemma NoCommentBefore(v: string, blanks: string)
    requires !HasAny(v, "#;") && Blanks(blanks)
    ensures !HasAny(Lead(v, blanks), "#;")
  {
    BlanksAreSpace(blanks);
    var lead := Lead(v, blanks);
    forall i | 0 <= i < |lead| ensures lead[i] !in "#;" {
      assert lead[i] == if i < |v| then v[i] else blanks[i - |v|];
    }
  }

  /** The comment is cut off the trimmed line. */
  lemma CommentCut(v: string, blanks: string, c: char, t: string)
    requires GoodPlain(v) && !HasAny(v, "#;") && Blanks(blanks) && (c == '#' || c == ';') && t != "" && t[0] == c
    ensures PlainValue(Lead(v, blanks) + t) == v
  {
    hide HasAny, HasSurroundedQuote, TrimSpace, Trimmed, IndexAny, AllSpace, Blanks, Lead;
    var lead := Lead(v, blanks);
    NoCommentBefore(v, blanks);
    LeadTrimmed(v, blanks);
    assert lead + t == lead + [c] + t[1..];
    IndexAnyAfter(lead, c, t[1..], "#;");
    assert (lead + t)[..|lead|] == lead;
  }

  lemma TrimSpaceOf(s: string)
    ensures TrimLeft(s) == s ==> TrimSpace(s) == TrimRight(s)
  {}

  /** A comment at the end of a line: what stands before it is the value. */
  lemma InlineComment(v: string, blanks: string, c: char, w: string, lineBreak: string, rest: string)
    requires GoodPlain(v) && !HasAny(v, "\n`") && !HasAny(v, "#;") && Blanks(blanks) && (c == '#' || c == ';')
    requires LineBreak(lineBreak) && !EndsIn(TrimRight([c] + w), '\\')
    ensures ReadValue(v + blanks + ([c] + (w + lineBreak)), rest, false) == Value(v, rest, false)
  {
    assert !IsSpace(c) && Trimmed(v);
    hide TrimLeft, TrimRight, TrimSpace, HasSurroundedQuote, PlainValue, HasAny, GoodPlain, LineBreak, Blanks,
      ReadValue, IsSpace, Trimmed, Lead;
    var lead, y, t := Lead(v, blanks), w + lineBreak, TrimRight([c] + w);
    CommentLine(v, blanks, c, y);
    VisibleFirst(v, blanks, c, y);
    CommentTrimmed(lead, c, w, lineBreak);
    CommentStart(v, blanks, c, y);
    CommentCut(v, blanks, c, t);
    TrimSpaceOf(lead + ([c] + y));
    SameLine(v + blanks + ([c] + y), lead + ([c] + y), rest);
    Unquoted(lead + ([c] + y), lead + t, rest);
    assert (lead + t)[|lead + t| - 1] == t[|t| - 1];
  }

  lemma QuotesNotTriple(q: char, v: string, lineBreak: string)
    requires (q == '\'' || q == '"') && q !in v && LineBreak(lineBreak)
    ensures !(TRIPLE <= [q] + v + [q] + lineBreak)
  {
    var line := [q] + v + [q] + lineBreak;
    if q == '"' {
      if v == "" {
        assert line[2] == lineBreak[0];
      } else {
        assert line[1] == v[0] && v[0] in v;
      }
    } else {
      assert line[0] == q;
    }
  }

  lemma QuotesSeen(q: char, v: string)
    requires q !in v
    ensures HasSurroundedQuote([q] + v + [q], q)
  {
    var t := [q] + v + [q];
    assert t[1..] == v + [q] + "";
    assert !HasAny(v, [q]);
    IndexAnyAfter(v, q, "", [q]);
  }

  lemma QuotesTrimmed(q: char, v: string, lineBreak: string)
    requires !IsSpace(q) && LineBreak(lineBreak)
    ensures var t := [q] + v + [q];
            TrimLeft(t + lineBreak) == t + lineBreak && TrimSpace(t + lineBreak) == t
  {
    LineBreakIsSpace(lineBreak);
    EmptyIsSpace();
    hide TrimLeft, TrimSpace, LineBreak, IsSpace, AllSpace;
    var t := [q] + v + [q];
    assert t[0] == q && t[|t| - 1] == q && (t + lineBreak)[0] == q;
    TrimLeftFixed(t + lineBreak);
    TrimSpaceBetween("", t, lineBreak);
    assert "" + t + lineBreak == t + lineBreak;
  }

  lemma NoCommentIn(q: char, v: string)
    requires q != '#' && q != ';' && !HasAny(v, "#;")
    ensures '#' !in [q] + v + [q] && ';' !in [q] + v + [q]
  {
    NoneOf(v, "#;");
  }

  /** A value in single or double quotes that holds no such quote, comment or other quoting: what stands between them,
      blanks included. */
  lemma QuotesTakenOff(q: char, v: string, lineBreak: string, rest: string)
    requires (q == '\'' || q == '"') && q !in v && !HasAny(v, "#;") && LineBreak(lineBreak)
    ensures ReadValue([q] + v + [q] + lineBreak, rest, false) == Value(v, rest, false)
  {
    assert !IsSpace(q);
    hide ReadValue, TrimLeft, TrimSpace, HasSurroundedQuote, HasAny, LineBreak, IsSpace, PlainValue;
    var t := [q] + v + [q];
    QuotesTrimmed(q, v, lineBreak);
    NoCommentIn(q, v);
    QuotesNotTriple(q, v, lineBreak);
    QuotesSeen(q, v);
    Unquoted(t + lineBreak, t, rest);
    PlainOf(t);
    assert t[1..|t| - 1] == v;
  }

  lemma QuotesWithin(q: char, q': char, v: string)
    requires q in v
    ensures !HasSurroundedQuote([q] + v + [q], q')
  {
    var t := [q] + v + [q];
    if q == q' {
      var i :| 0 <= i < |v| && v[i] == q;
      assert t[1..][i] == q;
    } else {
      assert t[0] == q;
    }
  }

  /** When that quote occurs between them too, all of it is the value. */
  lemma QuotesKept(q: char, v: string, lineBreak: string, rest: string)
    requires (q == '\'' || q == '"') && q in v && !HasAny(v, "#;") && LineBreak(lineBreak)
    requires !(TRIPLE <= [q] + v + [q] + lineBreak)
    ensures ReadValue([q] + v + [q] + lineBreak, rest, false) == Value([q] + v + [q], rest, false)
  {
    assert !IsSpace(q);
    hide ReadValue, TrimLeft, TrimSpace, HasSurroundedQuote, HasAny, LineBreak, IsSpace, PlainValue;
    var t := [q] + v + [q];
    QuotesTrimmed(q, v, lineBreak);
    NoCommentIn(q, v);
    QuotesWithin(q, '\'', v);
    QuotesWithin(q, '"', v);
    Unquoted(t + lineBreak, t, rest);
    PlainOf(t);
  }

  // Values continued over lines

  function Joined(ps: seq<string>): string { if ps == [] then "" else ps[0] + Joined(ps[1..]) }

  /** The pieces of a value, each but the last with a backslash behind it, and blanks around each. */
  function Continued(ps: seq<string>, before: string, behind: string, lineBreak: string): string
  {
    if ps == [] then ""
    else
      before + (ps[0] + (if |ps| > 1 then "\\" else "")) + behind + lineBreak +
      Continued(ps[1..], before, behind, lineBreak)
  }

  predicate Pieces(ps: seq<string>)
  {
    && ps != [] && (forall i | 0 <= i < |ps| :: Trimmed(ps[i]) && '\n' !in ps[i])
    && ps[|ps| - 1] != "" && ps[|ps| - 1][|ps[|ps| - 1]| - 1] != '\\'
  }

  /** One of those lines, as the reader sees it. */
  lemma PieceLine(before: string, x: string, behind: string, lineBreak: string, rest: string)
    requires Blanks(before) && Blanks(behind) && Trimmed(x) && '\n' !in x && LineBreak(lineBreak)
    ensures var l := ReadLine(before + x + behind + lineBreak + rest);
            TrimSpace(l.text) == x && l.rest == rest && !l.eof
  {
    BlanksAreSpace(before);
    BlanksAreSpace(behind);
    LineBreakIsSpace(lineBreak);
    assert '\n' !in before + x + behind;
    ReadLineThrough(before + x + behind, lineBreak, rest);
    assert AllSpace(behind + lineBreak);
    hide ReadLine, TrimSpace, Trimmed, AllSpace, HasAny, LineBreak, Blanks;
    TrimSpaceBetween(before, x, behind + lineBreak);
    assert before + x + (behind + lineBreak) == before + x + behind + lineBreak;
  }

  lemma PieceWithBackslash(x: string)
    requires Trimmed(x) && '\n' !in x
    ensures Trimmed(x + "\\") && '\n' !in x + "\\"
  {
    var y := x + "\\";
    assert y[0] == if x == "" then '\\' else x[0];
    assert y[|y| - 1] == '\\';
  }

  /** One turn of the reader over such lines. */
  lemma ContinuationStep(val: string, x: string, lines: string, more: string)
    requires x != "" && var l := ReadLine(lines); TrimSpace(l.text) == x && l.rest == more && !l.eof
    ensures ContinuationLines(val, lines) ==
            if x[|x| - 1] == '\\' then ContinuationLines(val + x[..|x| - 1], more) else Value(val + x, more, false)
  {
    hide ReadLine, TrimSpace;
    var joined := val + x;
    assert joined[|joined| - 1] == x[|x| - 1] && joined[..|joined| - 1] == val + x[..|x| - 1];
  }

  lemma ContinuedSplit(ps: seq<string>, before: string, behind: string, lineBreak: string, tail: string)
    requires ps != []
    ensures var x := ps[0] + (if |ps| > 1 then "\\" else "");
            Continued(ps, before, behind, lineBreak) + tail ==
            before + x + behind + lineBreak + (Continued(ps[1..], before, behind, lineBreak) + tail)
  {
    var x := ps[0] + (if |ps| > 1 then "\\" else "");
    Associate(before + x + behind + lineBreak, Continued(ps[1..], before, behind, lineBreak), tail);
  }

  lemma {:induction false} PiecesRest(ps: seq<string>)
    requires Pieces(ps) && |ps| > 1
    ensures Pieces(ps[1..])
  {
    hide Trimmed;
  }

  lemma NothingContinued(before: string, behind: string, lineBreak: string, tail: string)
    ensures Continued([], before, behind, lineBreak) + tail == tail
  {}

  lemma {:induction false} JoinedSplit(val: string, ps: seq<string>)
    requires ps != []
    ensures val + Joined(ps) == val + ps[0] + Joined(ps[1..])
    ensures |ps| == 1 ==> val + Joined(ps) == val + ps[0]
  {
    Associate(val, ps[0], Joined(ps[1..]));
    if |ps| == 1 {
      assert ps[1..] == [];
      assert val + ps[0] + "" == val + ps[0];
    }
  }

  lemma PieceStep(val: string, before: string, x: string, behind: string, lineBreak: string, more: string)
    requires Blanks(before) && Blanks(behind) && Trimmed(x) && '\n' !in x && x != "" && LineBreak(lineBreak)
    ensures ContinuationLines(val, before + x + behind + lineBreak + more) ==
            if x[|x| - 1] == '\\' then ContinuationLines(val + x[..|x| - 1], more) else Value(val + x, more, false)
  {
    hide ReadLine, TrimSpace, Trimmed, Blanks, LineBreak, ContinuationLines;
    PieceLine(before, x, behind, lineBreak, more);
    ContinuationStep(val, x, before + x + behind + lineBreak + more, more);
  }

  lemma PieceGoesOn(val: string, p: string, before: string, behind: string, lineBreak: string, more: string)
    requires Blanks(before) && Blanks(behind) && Trimmed(p) && '\n' !in p && LineBreak(lineBreak)
    ensures ContinuationLines(val, before + (p + "\\") + behind + lineBreak + more) == ContinuationLines(val + p, more)
  {
    hide ReadLine, TrimSpace, Trimmed, Blanks, LineBreak, ContinuationLines;
    PieceWithBackslash(p);
    var x := p + "\\";
    PieceStep(val, before, x, behind, lineBreak, more);
    assert x[..|x| - 1] == p;
  }

  /** A value spread over lines that end in a backslash reads as the pieces joined in order. */
  lemma {:induction false} ContinuationJoins(val: string, ps: seq<string>, before: string, behind: string,
                                             lineBreak: string, tail: string)
    requires Pieces(ps) && Blanks(before) && Blanks(behind) && LineBreak(lineBreak)
    ensures ContinuationLines(val, Continued(ps, before, behind, lineBreak) + tail) ==
            Value(val + Joined(ps), tail, false)
    decreases |ps|
  {
    assert Trimmed(ps[0]) && '\n' !in ps[0];
    hide ReadLine, TrimSpace, Trimmed, Blanks, LineBreak, ContinuationLines, Continued, Joined;
    var more := Continued(ps[1..], before, behind, lineBreak) + tail;
    ContinuedSplit(ps, before, behind, lineBreak, tail);
    JoinedSplit(val, ps);
    if |ps| > 1 {
      PiecesRest(ps);
      hide Pieces;
      PieceGoesOn(val, ps[0], before, behind, lineBreak, more);
      ContinuationJoins(val + ps[0], ps[1..], before, behind, lineBreak, tail);
    } else {
      assert ps[0] + "" == ps[0] && ps[1..] == [];
      PieceStep(val, before, ps[0], behind, lineBreak, more);
      NothingContinued(before, behind, lineBreak, tail);
    }
  }

  lemma ContinuedStart(p: string, lineBreak: string)
    requires Trimmed(p) && !(TRIPLE <= p) && p[..if p == "" then 0 else 1] != "`" && LineBreak(lineBreak)
    ensures var line := p + "\\" + lineBreak;
            line != "" && TrimLeft(line) == line && !(TRIPLE <= line) && line[0] != '`' && TrimSpace(line) == p + "\\"
  {
    var x, line := p + "\\", p + "\\" + lineBreak;
    assert Trimmed(x) by { assert x[0] == if p == "" then '\\' else p[0]; }
    assert line[0] == x[0] && !IsSpace(line[0]);
    if p != "" { assert p[..1] == [p[0]]; }
    LineBreakIsSpace(lineBreak);
    EmptyIsSpace();
    hide TrimLeft, TrimSpace, LineBreak, IsSpace, AllSpace, Trimmed;
    TrimLeftFixed(line);
    TripleBefore(p, '\\', lineBreak);
    TrimSpaceBetween("", x, lineBreak);
    assert "" + x + lineBreak == line;
  }

  /** A value that begins on one line and is continued on others. */
  lemma ValueContinues(ps: seq<string>, before: string, behind: string, lineBreak: string, tail: string)
    requires Pieces(ps) && |ps| > 1 && Blanks(before) && Blanks(behind) && LineBreak(lineBreak)
    requires !(TRIPLE <= ps[0]) && ps[0][..if ps[0] == "" then 0 else 1] != "`"
    ensures ReadValue(ps[0] + "\\" + lineBreak, Continued(ps[1..], before, behind, lineBreak) + tail, false) ==
            Value(Joined(ps), tail, false)
  {
    assert Trimmed(ps[0]);
    PiecesRest(ps);
    hide TrimLeft, TrimSpace, LineBreak, Trimmed, Blanks, ContinuationLines, Continued, Joined, Pieces, ReadValue;
    var more := Continued(ps[1..], before, behind, lineBreak) + tail;
    ContinuedStart(ps[0], lineBreak);
    var x := ps[0] + "\\";
    Unquoted(x + lineBreak, x, more);
    assert x[..|x| - 1] == ps[0];
    ContinuationJoins(ps[0], ps[1..], before, behind, lineBreak, tail);
    JoinedSplit("", ps);
    assert "" + Joined(ps) == Joined(ps) && "" + ps[0] == ps[0];
  }

  // Lines

  /** A line that begins with a comment character is passed over. */
  lemma CommentSkipped(ch: char, w: string, lineBreak: string, c: Cursor)
    requires (ch == '#' || ch == ';') && '\n' !in w && LineBreak(lineBreak) && !c.eof
    ensures ParseFrom(c.(rest := [ch] + w + lineBreak + c.rest)) == ParseFrom(c)
  {
    assert !IsSpace(ch) && ch != '\n';
    hide ReadLine, TrimLeft, LastIndex, DispatchKey, LineBreak, IsSpace;
    ReadLineThrough([ch] + w, lineBreak, c.rest);
    assert ([ch] + w + lineBreak)[0] == ch;
    TrimLeftFixed([ch] + w + lineBreak);
  }

  lemma NoDelimiterNoKey(line: string)
    requires line != "" && '=' !in line && ':' !in line
    ensures !ReadKeyName(line).Key?
  {}

  lemma NoClosing(line: string)
    requires ']' !in line
    ensures LastIndex(line, "]") == -1
  {
    forall j | 0 <= j && j + 1 <= |line| ensures !Occurs(line, "]", j) {
      assert line[j..j + 1][0] == line[j];
    }
  }

  /** A section header that is not closed, and any other line without a delimiter, end the reading in failure, and the
      document is left as it was. */
  lemma BadLine(line: string, lineBreak: string, c: Cursor)
    requires line != "" && !IsSpace(line[0]) && line[0] != '#' && line[0] != ';' && '\n' !in line
    requires if line[0] == '[' then ']' !in line else '=' !in line && ':' !in line
    requires LineBreak(lineBreak) && !c.eof
    ensures ParseFrom(c.(rest := line + lineBreak + c.rest)) == Parsed(false, c.doc)
  {
    LineBreakIsSpace(lineBreak);
    assert '=' !in lineBreak && ':' !in lineBreak;
    hide ReadLine, TrimLeft, LastIndex, ReadKeyName, LineBreak, IsSpace;
    ReadLineThrough(line, lineBreak, c.rest);
    assert (line + lineBreak)[0] == line[0];
    TrimLeftFixed(line + lineBreak);
    if line[0] == '[' { NoClosing(line + lineBreak); } else { NoDelimiterNoKey(line + lineBreak); }
  }

  lemma NotTripleKey(k: string, blanks: string, d: char, x: string)
    requires Blanks(blanks) && Delimiter(d) && '"' !in k
    ensures var line := "\"" + k + "\"" + blanks + [d] + x; line[0] == '"' && !(TRIPLE <= line)
  {
    var line, after := "\"" + k + "\"" + blanks + [d] + x, blanks + [d] + x;
    if k == "" {
      assert line[2] == after[0];
      assert after[0] == if blanks == "" then d else blanks[0];
    } else {
      assert line[1] == k[0] && k[0] in k;
    }
  }

  /** Either delimiter ends an unquoted key, and double quotes hold a key as backticks do. */
  lemma KeyForms(k: string, blanks: string, d: char, x: string)
    requires Blanks(blanks) && Delimiter(d) && Trimmed(k) && '"' !in k
    ensures !HasAny(k, "=:") && '`' !in k ==> ReadKeyName(k + blanks + [d] + x) == Key(k, |k + blanks + [d]|)
    ensures ReadKeyName("\"" + k + "\"" + blanks + [d] + x) == Key(k, |"\"" + k + "\"" + blanks + [d]|)
  {
    TrimSpaceWithin(k);
    QuotedKey("\"", k, blanks, d, x);
    if !HasAny(k, "=:") && '`' !in k {
      assert !HasAny(k, "\"=:") && !HasAny(k, "`");
      PlainKey(k, blanks, d, x);
    }
    NotTripleKey(k, blanks, d, x);
    hide TrimSpace, TrimLeft, QuotedKeyName, HasAny, ByteLength, Trimmed;
  }

  lemma DashIsKey(x: string)
    ensures var line := "-=" + x; TrimLeft(line) == line && line[0] == '-' && ReadKeyName(line) == Key("-", 2)
  {
    TrimLeftFixed("-=" + x);
    assert "-" + "" + "=" + x == "-=" + x;
    PlainKey("-", "", '=', x);
    TrimSpaceWithin("-");
  }

  /** A key written as "-" gets the next number of its section. */
  lemma NumberedKey(v: string, lineBreak: string, c: Cursor)
    requires GoodValue(v) && LineBreak(lineBreak) && !c.eof
    ensures ReadOne(c.(rest := "-=" + (QuoteValue(v) + lineBreak + c.rest))) ==
            Go(c.(doc := PutKey(c.doc, c.section, "#" + Digits(c.count), v), count := c.count + 1))
  {
    hide ReadLine, ReadValue, TrimLeft, PutKey, QuoteValue, GoodValue, LineBreak, ReadKeyName, Digits, LastIndex;
    var x := QuoteValue(v) + lineBreak + c.rest;
    var l := ReadLine(x);
    ReadLineAfter("-=", x);
    assert "" + QuoteValue(v) == QuoteValue(v);
    ValueReadBack("", v, lineBreak, c.rest);
    DashIsKey(l.text);
    assert ("-=" + l.text)[2..] == l.text;
  }

  /** A byte order mark is not part of the text. */
  lemma MarkSkipped(doc: Doc, text: string)
    requires text == "" || text[0] != BOM
    ensures Parse(doc, [BOM] + text) == Parse(doc, text)
  {
    assert ([BOM] + text)[1..] == text;
  }

  lemma CommentText(v: string, blanks: string, ch: char, w: string, lineBreak: string, rest: string)
    requires !HasAny(v, "\n`") && Blanks(blanks) && ch != '\n' && '\n' !in w && LineBreak(lineBreak)
    ensures var x := " " + (v + blanks + ([ch] + (w + lineBreak))); ReadLine(x + rest) == Line(x, rest, false)
  {
    NoneOf(v, "\n`");
    var a, x := " " + (v + blanks + ([ch] + w)), " " + (v + blanks + ([ch] + (w + lineBreak)));
    assert '\n' !in a;
    assert a + lineBreak == x;
    ReadLineThrough(a, lineBreak, rest);
  }

  /** A line with a comment at its end puts the key and the value before the comment, for instance "port = 8080 ;
      default". */
  lemma CommentedLine(k: string, v: string, blanks: string, ch: char, w: string, lineBreak: string, c: Cursor)
    requires GoodKey(k) && GoodPlain(v) && !HasAny(v, "\n`") && !HasAny(v, "#;") && Blanks(blanks)
    requires (ch == '#' || ch == ';') && '\n' !in w && LineBreak(lineBreak) && !EndsIn(TrimRight([ch] + w), '\\')
    requires !c.eof
    ensures ReadOne(c.(rest := QuoteKey(k) + " " + "=" + (" " + (v + blanks + ([ch] + (w + lineBreak))) + c.rest))) ==
            Go(c.(doc := PutKey(c.doc, c.section, k, v)))
  {
    var x := v + blanks + ([ch] + (w + lineBreak));
    CommentText(v, blanks, ch, w, lineBreak, c.rest);
    InlineComment(v, blanks, ch, w, lineBreak, c.rest);
    TrimLeftSkips(" ", x);
    SameLine(" " + x, x, c.rest);
    KeyPart(k, " ");
    ReadLineAfter(QuoteKey(k) + " " + "=", " " + x + c.rest);
    KeyLine(k, " ", " " + x, c);
    hide ReadLine, ReadValue, TrimLeft, PutKey, QuoteKey, GoodPlain, LineBreak, GoodKey, Dispatch, Blanks, HasAny;
  }
}
