/** What is written can be read back: exactly which keys and values survive, and that whole documents made of them do,
    in every format. */
module IniRoundTrip {

  import opened Collections
  import opened Decimals
  import opened IniStrings
  import opened IniStore
  import opened IniParser
  import opened IniPrinter

  // Lines

  lemma {:induction false} EofIsNoBreak(s: string)
    ensures ReadLine(s).eof <==> '\n' !in s
    ensures ReadLine(s).eof ==> ReadLine(s).text == s
  {
    if s != "" && s[0] != '\n' {
      EofIsNoBreak(s[1..]);
      assert s == [s[0]] + s[1..];
    }
  }

  /** What follows a text does not change its first line, if that has a line break. */
  lemma {:induction false} ReadLineBefore(s: string, x: string)
    requires !ReadLine(s).eof
    ensures var l := ReadLine(s); ReadLine(s + x) == Line(l.text, l.rest + x, false)
  {
    assert (s + x)[1..] == s[1..] + x && (s + x)[0] == s[0];
    if s[0] != '\n' {
      ReadLineBefore(s[1..], x);
    }
  }

  predicate LineBreak(s: string) { s == "\n" || s == "\r\n" }

  lemma ReadLineThrough(a: string, lineBreak: string, tail: string)
    requires '\n' !in a && LineBreak(lineBreak)
    ensures ReadLine(a + lineBreak + tail) == Line(a + lineBreak, tail, false)
  {
    if lineBreak == "\n" {
      ReadLineTo(a, tail);
    } else {
      ReadLineTo(a + "\r", tail);
      assert a + "\r\n" == (a + "\r") + "\n";
    }
  }

  lemma LineBreakIsSpace(s: string)
    requires LineBreak(s)
    ensures AllSpace(s) && '"' !in s && '`' !in s && ']' !in s && 1 <= |s| <= 2
  {}

  // Values

  /** Some line but the last holds a triple quote. */
  predicate ClosesEarly(v: string)
    decreases |v|
  {
    var l := ReadLine(v);
    !l.eof && (Contains(l.text, TRIPLE) || ClosesEarly(l.rest))
  }

  predicate GoodPlain(v: string)
  {
    && Trimmed(v) && (v != "" ==> v[|v| - 1] != '\\') && !(TRIPLE <= v)
    && !HasSurroundedQuote(v, '\'') && !HasSurroundedQuote(v, '"')
  }

  /** The values that survive. Each style of quoting has its own condition. */
  predicate GoodValue(v: string)
  {
    if HasAny(v, "\n`") then !ClosesEarly(v)
    else if HasAny(v, "#;") then true
    else GoodPlain(v)
  }

  /** The remaining lines of a triple-quoted value: complete when no line closes it early, cut short otherwise. */
  lemma {:induction false} MultiLinesBack(val: string, b: string, lineBreak: string, tail: string)
    requires LineBreak(lineBreak)
    ensures var r := MultiLines(val, b + TRIPLE + lineBreak + tail, TRIPLE);
            && r.Value?
            && (if ClosesEarly(b) then |r.value| < |val + b| else r == Value(val + b, tail, false))
    decreases |b|
  {
    hide LastIndex, ReadLine;
    LineBreakIsSpace(lineBreak);
    var l, rest := ReadLine(b), TRIPLE + lineBreak + tail;
    EofIsNoBreak(b);
    if l.eof {
      ReadLineThrough(b + TRIPLE, lineBreak, tail);
      LastIndexOfClosing(b, TRIPLE, lineBreak);
    } else {
      assert b + TRIPLE + lineBreak + tail == b + rest;
      ReadLineBefore(b, rest);
      assert l.rest + rest == l.rest + TRIPLE + lineBreak + tail;
      MultiLinesBack(val + l.text, l.rest, lineBreak, tail);
      assert val + l.text + l.rest == val + b;
    }
  }

  /** Reading further lines is visible in what is left. */
  lemma {:induction false} MultiLinesConsume(val: string, rest: string, quote: string)
    ensures var r := MultiLines(val, rest, quote); r.Value? ==> r.eof || |r.rest| < |rest|
    decreases |rest|
  {
    hide ReadLine, LastIndex;
    var l := ReadLine(rest);
    if LastIndex(l.text, quote) == -1 && !l.eof {
      MultiLinesConsume(val + l.text, l.rest, quote);
    }
  }

  lemma {:induction false} ContinuationConsumes(val: string, rest: string)
    ensures var r := ContinuationLines(val, rest); r.eof || |r.rest| < |rest|
    decreases |rest|
  {
    hide ReadLine, TrimSpace;
    var l := ReadLine(rest);
    var next := TrimSpace(l.text);
    var joined := val + next;
    if next != "" && joined[|joined| - 1] == '\\' {
      ContinuationConsumes(joined[..|joined| - 1], l.rest);
    }
  }

  /** The text that follows the delimiter, and what it is read as. */
  function ReadBack(blank: string, v: string, lineBreak: string, tail: string): ValueRead
  {
    var l := ReadLine(blank + QuoteValue(v) + lineBreak + tail);
    ReadValue(l.text, l.rest, l.eof)
  }

  predicate Blank(s: string) { s == "" || s == " " }

  lemma BlankIsSpace(s: string)
    requires Blank(s)
    ensures AllSpace(s) && '\n' !in s
  {}

  lemma TrimLeftFixed(s: string)
    requires s != "" && !IsSpace(s[0])
    ensures TrimLeft(s) == s
  {}

  lemma QuoteSeen(quote: string, body: string)
    requires (quote == TRIPLE || quote == "`") && body != ""
    ensures ValueQuote(quote + body) == quote && TrimLeft(quote + body) == quote + body
  {
    hide TrimLeft, ByteLength;
    TrimLeftFixed(quote + body);
    if quote == "`" {
      assert (quote + body)[0] != TRIPLE[0];
    }
  }

  /** A value that begins with a quote. */
  lemma QuotedValue(blank: string, quote: string, body: string, rest: string, eof: bool)
    requires Blank(blank) && (quote == TRIPLE || quote == "`") && body != "" && (eof ==> rest == "")
    ensures ReadValue(blank + quote + body, rest, eof) ==
            var pos := LastIndex(body, quote);
            if pos == -1 then MultiLines(body, rest, quote) else Value(body[..pos], rest, eof)
  {
    hide LastIndex, TrimLeft, ValueQuote, MultiLines, ContinuationLines, PlainValue, Blank, TrimSpace;
    BlankIsSpace(blank);
    var line := quote + body;
    Associate(blank, quote, body);
    TrimLeftSkips(blank, line);
    QuoteSeen(quote, body);
    assert line[|quote|..] == body;
  }

  lemma RegroupValue(blank: string, quote: string, v: string, lineBreak: string)
    ensures blank + (quote + v + quote) + lineBreak == blank + quote + (v + quote + lineBreak)
  {}

  lemma Drop(a: string, b: string)
    ensures (a + b)[..|a|] == a
  {}

  lemma TripleLine(blank: string, v: string, lineBreak: string, tail: string)
    requires Blank(blank) && LineBreak(lineBreak) && HasAny(v, "\n`") && ReadLine(v).eof
    ensures ReadBack(blank, v, lineBreak, tail) == Value(v, tail, false)
  {
    hide LastIndex, ReadLine, ReadValue, MultiLines, HasAny, LineBreak, Blank;
    LineBreakIsSpace(lineBreak);
    BlankIsSpace(blank);
    EofIsNoBreak(v);
    var q := TRIPLE + v + TRIPLE;
    assert '\n' !in q;
    ReadLineThrough(blank + q, lineBreak, tail);
    RegroupValue(blank, TRIPLE, v, lineBreak);
    QuotedValue(blank, TRIPLE, v + TRIPLE + lineBreak, tail, false);
    LastIndexOfClosing(v, TRIPLE, lineBreak);
    Drop(v, TRIPLE + lineBreak);
    Associate(v, TRIPLE, lineBreak);
  }

  lemma RegroupLines(blank: string, quote: string, v: string, lineBreak: string, tail: string)
    ensures blank + (quote + v + quote) + lineBreak + tail == blank + quote + (v + (quote + lineBreak + tail))
  {}

  lemma RegroupRest(a: string, b: string, c: string, d: string)
    ensures a + (b + c + d) == a + b + c + d
  {}

  lemma TripleLines(blank: string, v: string, lineBreak: string, tail: string)
    requires Blank(blank) && LineBreak(lineBreak) && HasAny(v, "\n`") && !ReadLine(v).eof
    ensures ReadBack(blank, v, lineBreak, tail) == Value(v, tail, false) <==> !ClosesEarly(v)
  {
    hide LastIndex, ReadLine, ReadValue, MultiLines, HasAny, LineBreak, Blank;
    BlankIsSpace(blank);
    var l, lead, rest := ReadLine(v), blank + TRIPLE, TRIPLE + lineBreak + tail;
    RegroupLines(blank, TRIPLE, v, lineBreak, tail);
    ReadLineBefore(v, rest);
    ReadLineAfter(lead, v + rest);
    QuotedValue(blank, TRIPLE, l.text, l.rest + rest, false);
    RegroupRest(l.rest, TRIPLE, lineBreak, tail);
    MultiLinesBack(l.text, l.rest, lineBreak, tail);
  }

  lemma TripleBack(blank: string, v: string, lineBreak: string, tail: string)
    requires Blank(blank) && LineBreak(lineBreak) && HasAny(v, "\n`")
    ensures ReadBack(blank, v, lineBreak, tail) == Value(v, tail, false) <==> !ClosesEarly(v)
  {
    hide LastIndex, ReadLine, ReadValue, MultiLines, HasAny, LineBreak, Blank;
    if ReadLine(v).eof {
      TripleLine(blank, v, lineBreak, tail);
    } else {
      TripleLines(blank, v, lineBreak, tail);
    }
  }

  lemma NoneOf(v: string, chars: string)
    requires !HasAny(v, chars)
    ensures forall c | c in chars :: c !in v
  {}

  lemma BacktickBack(blank: string, v: string, lineBreak: string, tail: string)
    requires Blank(blank) && LineBreak(lineBreak) && !HasAny(v, "\n`") && HasAny(v, "#;")
    ensures ReadBack(blank, v, lineBreak, tail) == Value(v, tail, false)
  {
    LineBreakIsSpace(lineBreak);
    BlankIsSpace(blank);
    NoneOf(v, "\n`");
    hide LastIndex, ReadLine, ReadValue, MultiLines, HasAny, LineBreak, Blank;
    ReadLineThrough(blank + ("`" + v + "`"), lineBreak, tail);
    RegroupValue(blank, "`", v, lineBreak);
    QuotedValue(blank, "`", v + "`" + lineBreak, tail, false);
    LastIndexOfClosing(v, "`", lineBreak);
    Associate(v, "`", lineBreak);
    Drop(v, "`" + lineBreak);
  }

  lemma {:induction false} TrimLeftThen(s: string, right: string)
    ensures TrimLeft(s + right) == if TrimLeft(s) == "" then TrimLeft(right) else TrimLeft(s) + right
    decreases |s|
  {
    if s == "" {
      assert s + right == right;
    } else if IsSpace(s[0]) {
      assert (s + right)[1..] == s[1..] + right;
      TrimLeftThen(s[1..], right);
    }
  }

  /** Trimming does not see white space around a text. */
  lemma TrimSpaceAround(left: string, s: string, right: string)
    requires AllSpace(left) && AllSpace(right)
    ensures TrimSpace(left + s + right) == TrimSpace(s)
  {
    hide IsSpace, AllSpace, TrimLeft, TrimRight;
    Associate(left, s, right);
    TrimLeftSkips(left, s + right);
    TrimLeftThen(s, right);
    if TrimLeft(s) == "" {
      TrimAllSpace(right);
    } else {
      TrimRightSkips(TrimLeft(s), right);
    }
  }

  /** A text that begins with a triple quote is never read back as anything of its own length. */
  lemma TripleNotPlain(v: string, line: string, tail: string)
    requires TRIPLE <= line && 3 < |line| <= |v| + 2
    ensures ReadValue(line, tail, false) != Value(v, tail, false)
  {
    hide LastIndex, TrimLeft, MultiLines;
    var body := line[3..];
    assert "" + TRIPLE + body == line;
    QuotedValue("", TRIPLE, body, tail, false);
    hide ReadValue;
    MultiLinesConsume(body, tail, TRIPLE);
  }

  lemma Unquoted(line: string, t: string, tail: string)
    requires line != "" && TrimLeft(line) == line && !(TRIPLE <= line) && line[0] != '`'
    requires t == TrimSpace(line) && t != ""
    ensures ReadValue(line, tail, false) ==
            if t[|t| - 1] == '\\' then ContinuationLines(t[..|t| - 1], tail) else Value(PlainValue(t), tail, false)
  {
    hide TrimLeft, ContinuationLines, MultiLines, ByteLength, TrimSpace, PlainValue, LastIndex;
    assert ValueQuote(line) == "";
  }

  /** Without a comment only a pair of quotes is taken off. */
  lemma PlainOf(t: string)
    requires '#' !in t && ';' !in t
    ensures PlainValue(t) ==
            if HasSurroundedQuote(t, '\'') || HasSurroundedQuote(t, '"') then t[1..|t| - 1] else t
    ensures HasSurroundedQuote(t, '\'') || HasSurroundedQuote(t, '"') ==> |t| >= 2
  {
  }

  lemma TrimSpaceWithin(v: string)
    ensures forall i | 0 <= i < |TrimSpace(v)| :: TrimSpace(v)[i] in v
    ensures TrimSpace(v) == v <==> Trimmed(v)
  {
    if Trimmed(v) {
      TrimSpaceBetween("", v, "");
      assert "" + v + "" == v;
    }
  }

  /** A text without quote or comment: the trimmed text is what counts. */
  lemma UnquotedNotPlain(v: string, line: string, tail: string)
    requires line != "" && TrimLeft(line) == line && !(TRIPLE <= line) && line[0] != '`'
    requires TrimSpace(line) == TrimSpace(v) && TrimSpace(v) != "" && !HasAny(v, "#;")
    ensures var t := TrimSpace(v);
            ReadValue(line, tail, false) == Value(v, tail, false) <==>
            t == v && t[|t| - 1] != '\\' && !HasSurroundedQuote(t, '\'') && !HasSurroundedQuote(t, '"')
  {
    var t := TrimSpace(v);
    TrimSpaceWithin(v);
    NoneOf(v, "#;");
    hide *;
    Unquoted(line, t, tail);
    ContinuationConsumes(t[..|t| - 1], tail);
    PlainOf(t);
  }

  lemma PlainLine(blank: string, v: string, lineBreak: string, tail: string)
    requires Blank(blank) && LineBreak(lineBreak) && !HasAny(v, "\n`") && !HasAny(v, "#;")
    ensures ReadBack(blank, v, lineBreak, tail) == ReadValue(blank + v + lineBreak, tail, false)
  {
    BlankIsSpace(blank);
    NoneOf(v, "\n`");
    hide ReadLine, ReadValue, HasAny, LineBreak, Blank;
    ReadLineThrough(blank + v, lineBreak, tail);
  }

  /** Only the text after leading white space matters. */
  lemma SameLine(a: string, b: string, tail: string)
    requires TrimLeft(a) == TrimLeft(b)
    ensures ReadValue(a, tail, false) == ReadValue(b, tail, false)
  {
    hide TrimLeft, TrimSpace, MultiLines, ContinuationLines, LastIndex, PlainValue, ValueQuote;
  }

  lemma OnlySpace(v: string)
    requires TrimLeft(v) == ""
    ensures GoodPlain(v) <==> v == ""
  {}

  lemma {:induction false} TrimRightKeepsFirst(s: string)
    requires s != "" ==> !IsSpace(s[0])
    ensures s != "" ==> TrimRight(s) != ""
    decreases |s|
  {
    if |s| > 1 { TrimRightKeepsFirst(s[..|s| - 1]); }
  }

  lemma {:induction false} TrimmedLeft(v: string)
    ensures Trimmed(v) ==> TrimLeft(v) == v
    ensures v == "" ==> Trimmed(v) && !HasSurroundedQuote(v, '\'') && !HasSurroundedQuote(v, '"')
    ensures TrimLeft(v) != "" ==> TrimSpace(v) != ""
  {
    hide IsSpace, TrimRight, TrimLeft;
    TrimRightKeepsFirst(TrimLeft(v));
    if v == "" {
      TrimAllSpace(v);
    } else if Trimmed(v) {
      TrimLeftFixed(v);
    }
  }

  lemma StartsBefore(x: string, lineBreak: string)
    requires TRIPLE <= x + lineBreak && '"' !in lineBreak
    ensures TRIPLE <= x
  {
    var line := x + lineBreak;
    assert line[0] == '"' && line[1] == '"' && line[2] == '"';
    assert forall i | |x| <= i < |line| :: line[i] != '"';
    assert TRIPLE == x[..3];
  }

  lemma PlainText(v: string, x: string, lineBreak: string, tail: string)
    requires LineBreak(lineBreak) && !HasAny(v, "\n`") && !HasAny(v, "#;")
    requires x == TrimLeft(v) && x != "" && TrimLeft(x + lineBreak) == x + lineBreak
    requires TrimSpace(x + lineBreak) == TrimSpace(v)
    ensures ReadValue(x + lineBreak, tail, false) == Value(v, tail, false) <==> GoodPlain(v)
  {
    LineBreakIsSpace(lineBreak);
    NoneOf(v, "\n`");
    TrimSpaceWithin(v);
    TrimmedLeft(v);
    hide TrimLeft, TrimSpace, HasSurroundedQuote, HasAny, LineBreak, AllSpace, ReadValue, Trimmed;
    var line := x + lineBreak;
    assert line[0] == x[0] && x[0] in v;
    if TRIPLE <= line {
      StartsBefore(x, lineBreak);
      TripleNotPlain(v, line, tail);
    } else {
      UnquotedNotPlain(v, line, tail);
      assert TRIPLE <= x ==> TRIPLE <= line;
    }
  }

  lemma EmptyLine(input: string, tail: string)
    requires TrimLeft(input) == ""
    ensures ReadValue(input, tail, false) == Value("", tail, false)
  {}

  /** The line as the reader sees it. */
  lemma TrimLeftOfLine(blank: string, v: string, lineBreak: string)
    requires Blank(blank) && AllSpace(lineBreak)
    ensures var x, line := TrimLeft(v), TrimLeft(blank + v + lineBreak);
            && (x == "" ==> line == "")
            && (x != "" ==> line == x + lineBreak && TrimLeft(line) == line && TrimSpace(line) == TrimSpace(v))
  {
    assert blank + v + lineBreak == blank + (v + lineBreak);
    TrimLeftSkips(blank, v + lineBreak);
    TrimLeftThen(v, lineBreak);
    if TrimLeft(v) == "" {
      TrimAllSpace(lineBreak);
    } else {
      TrimRightSkips(TrimLeft(v), lineBreak);
    }
  }

  lemma PlainBack(blank: string, v: string, lineBreak: string, tail: string)
    requires Blank(blank) && LineBreak(lineBreak) && !HasAny(v, "\n`") && !HasAny(v, "#;")
    ensures ReadBack(blank, v, lineBreak, tail) == Value(v, tail, false) <==> GoodPlain(v)
  {
    LineBreakIsSpace(lineBreak);
    PlainLine(blank, v, lineBreak, tail);
    TrimLeftOfLine(blank, v, lineBreak);
    hide *;
    var input, x := blank + v + lineBreak, TrimLeft(v);
    if x == "" {
      EmptyLine(input, tail);
      OnlySpace(v);
    } else {
      SameLine(input, x + lineBreak, tail);
      PlainText(v, x, lineBreak, tail);
    }
  }

  /** A value survives exactly when it meets the condition of its quoting style, whatever follows it. */
  lemma ValueReadBack(blank: string, v: string, lineBreak: string, tail: string)
    requires Blank(blank) && LineBreak(lineBreak)
    ensures ReadBack(blank, v, lineBreak, tail) == Value(v, tail, false) <==> GoodValue(v)
  {
    hide ReadBack, ClosesEarly, HasAny, GoodPlain;
    if HasAny(v, "\n`") {
      TripleBack(blank, v, lineBreak, tail);
    } else if HasAny(v, "#;") {
      BacktickBack(blank, v, lineBreak, tail);
    } else {
      PlainBack(blank, v, lineBreak, tail);
    }
  }

  // Keys

  /** The keys whose names survive: trimmed, and without a backtick where backticks are the quotes. */
  predicate ReadableKey(k: string) { Trimmed(k) && (HasAny(k, "\"=:") ==> '`' !in k) }

  predicate Blanks(s: string) { forall i | 0 <= i < |s| :: s[i] == ' ' }

  predicate Delimiter(c: char) { c == '=' || c == ':' }

  /** A key in quotes whose character it does not hold. */
  lemma QuotedKey(quote: string, k: string, blanks: string, d: char, x: string)
    requires (quote == TRIPLE || quote == "`" || quote == "\"") && quote[0] !in k && Blanks(blanks) && Delimiter(d)
    ensures QuotedKeyName(quote + k + quote + blanks + [d] + x, quote) ==
            Key(TrimSpace(k), |quote + k + quote + blanks + [d]|)
  {
    hide Index, IndexAny, TrimSpace;
    var line, n := quote + k + quote + blanks + [d] + x, |quote|;
    var after := blanks + [d] + x;
    assert line[n..] == k + quote + after;
    IndexOfClosing(k, quote, after);
    assert line[n..n + |k|] == k;
    assert line[n + |k| + n..] == after;
    IndexAnyAfter(blanks, d, x, "=:");
  }

  /** A backtick inside a key in backticks ends the name early. */
  lemma BacktickInKey(k: string, blanks: string, x: string)
    requires '`' in k
    ensures var r := QuotedKeyName("`" + k + "`" + blanks + "=" + x, "`"); r.Key? ==> |r.name| < |k|
  {
    hide Index, IndexAny, TrimSpace;
    var line := "`" + k + "`" + blanks + "=" + x;
    var i :| 0 <= i < |k| && k[i] == '`';
    assert line[1..][i..i + 1] == "`";
    assert Occurs(line[1..], "`", i);
  }

  lemma PlainKey(k: string, blanks: string, d: char, x: string)
    requires !HasAny(k, "\"=:") && !HasAny(k, "`") && Blanks(blanks) && Delimiter(d)
    ensures ReadKeyName(k + blanks + [d] + x) == Key(TrimSpace(k), |k + blanks + [d]|)
  {
    hide TrimSpace, TrimLeft, ByteLength, QuotedKeyName;
    var line, name := k + blanks + [d] + x, k + blanks;
    NoneOf(k, "\"=:");
    NoneOf(k, "`");
    assert line[0] != '"' && line[0] != '`' by {
      assert line[0] == if k != "" then k[0] else if blanks != "" then blanks[0] else d;
    }
    assert !HasAny(name, "=:");
    IndexAnyAfter(name, d, x, "=:");
    hide IndexAny;
    assert line[..|name|] == name;
    TrimSpaceAround("", k, blanks);
    assert "" + k + blanks == name;
  }

  /** The name of a key survives exactly when it is readable, whatever the alignment and whatever the value. */
  lemma KeyReadBack(k: string, blanks: string, x: string)
    requires Blanks(blanks)
    ensures var written := QuoteKey(k) + blanks + "=";
            ReadKeyName(written + x) == Key(k, |written|) <==> ReadableKey(k)
  {
    TrimSpaceWithin(k);
    hide TrimSpace, TrimLeft, Index, IndexAny, ByteLength, QuotedKeyName, Trimmed;
    if HasAny(k, "\"=:") {
      if '`' in k {
        BacktickInKey(k, blanks, x);
      } else {
        QuotedKey("`", k, blanks, '=', x);
      }
    } else if HasAny(k, "`") {
      NoneOf(k, "\"=:");
      QuotedKey(TRIPLE, k, blanks, '=', x);
      assert ByteLength(TRIPLE + k + TRIPLE + blanks + "=" + x) > 6;
    } else {
      PlainKey(k, blanks, '=', x);
    }
  }

  // Lines of a document

  /** The keys a text can give rise to. */
  predicate ReadKey(k: string) { k != "" && Trimmed(k) && '\n' !in k && k != "-" }

  /** The key's quotes can hold it, and without quotes it looks neither like a comment nor like a section. */
  predicate WritableKey(k: string)
  {
    && (HasAny(k, "\"=:") ==> '`' !in k)
    && (k != "" && !HasAny(k, "\"=:") && !HasAny(k, "`") ==> k[0] !in "#;[")
  }

  /** A key that survives as part of a line: further, it is not empty, has no line break, does not stand for a number,
      and does not look like a comment or a section when it is written without quotes. */
  predicate GoodKey(k: string) { ReadKey(k) && WritableKey(k) }

  lemma SpaceParts(a: string, b: string)
    requires AllSpace(a + b)
    ensures AllSpace(a) && AllSpace(b)
  {
    hide IsSpace;
    forall i | 0 <= i < |a| ensures IsSpace(a[i]) { assert (a + b)[i] == a[i]; }
    forall i | 0 <= i < |b| ensures IsSpace(b[i]) { assert (a + b)[|a| + i] == b[i]; }
  }

  lemma SplitSpace(space: string, l: Line)
    requires AllSpace(space) && l.text + l.rest == space
    ensures AllSpace(l.rest) && TrimLeft(l.text) == ""
  {
    hide IsSpace, TrimLeft;
    SpaceParts(l.text, l.rest);
    TrimAllSpace(l.text);
  }

  /** White space before a line, blank lines included, is not seen. */
  lemma {:induction false} SpaceSkipped(space: string, c: Cursor)
    requires AllSpace(space) && !c.eof
    ensures ParseFrom(c.(rest := space + c.rest)) == ParseFrom(c)
    decreases |space|
  {
    hide ReadLine, TrimLeft, DispatchKey, LastIndex;
    var l := ReadLine(space);
    EofIsNoBreak(space);
    if l.eof {
      ReadLineAfter(space, c.rest);
      TrimLeftSkips(space, ReadLine(c.rest).text);
    } else {
      ReadLineBefore(space, c.rest);
      SplitSpace(space, l);
      SpaceSkipped(l.rest, c);
    }
  }

  /** The separator is white space, the delimiter and at most one space. */
  lemma SeparatorParts(fmt: Format, width: nat, written: nat) returns (blanks: string, gap: string)
    ensures Separator(fmt, width, written) == blanks + "=" + gap && Blanks(blanks) && Blank(gap)
  {
    if fmt.align {
      blanks, gap := (if written < width then Spaces(width - written) else "") + " ", " ";
    } else {
      blanks, gap := "", "";
    }
  }

  lemma KeyStart(k: string, rest: string)
    requires ReadKey(k)
    ensures QuoteKey(k) != "" && '\n' !in QuoteKey(k) && TrimLeft(QuoteKey(k) + rest) == QuoteKey(k) + rest
  {
    var line := QuoteKey(k) + rest;
    assert line[0] == QuoteKey(k)[0];
    assert !IsSpace(line[0]);
  }

  lemma KeyFirst(k: string, blanks: string, x: string)
    requires GoodKey(k)
    ensures var line := QuoteKey(k) + blanks + "=" + x; line[0] != '#' && line[0] != ';' && line[0] != '['
  {
    KeyStart(k, "");
    assert (QuoteKey(k) + blanks + "=" + x)[0] == QuoteKey(k)[0];
  }

  lemma RegroupKey(a: string, b: string, c: string, d: string)
    ensures a + b + c + d == a + (b + c + d)
  {}

  lemma LineStart(k: string, blanks: string, x: string)
    requires ReadKey(k)
    ensures TrimLeft(QuoteKey(k) + blanks + "=" + x) == QuoteKey(k) + blanks + "=" + x
  {
    hide ReadKey, TrimLeft, QuoteKey;
    KeyStart(k, blanks + "=" + x);
    RegroupKey(QuoteKey(k), blanks, "=", x);
  }

  /** A line with a good key is read as that key, and the value begins behind the delimiter. */
  lemma KeyLine(k: string, blanks: string, x: string, after: Cursor)
    requires GoodKey(k) && Blanks(blanks) && (after.eof ==> after.rest == "")
    ensures var line, v := QuoteKey(k) + blanks + "=" + x, ReadValue(x, after.rest, after.eof);
            && TrimLeft(line) == line
            && (v.Value? ==>
                  Dispatch(line, after) == Go(Cursor(v.rest, v.eof, PutKey(after.doc, after.section, k, v.value),
                                                     after.section, after.count)))
  {
    assert k != "" && k != "-" && ReadableKey(k);
    hide ReadKeyName, ReadValue, TrimLeft, PutKey, QuoteKey, ReadKey, WritableKey, LastIndex, Blanks, ReadableKey;
    var written := QuoteKey(k) + blanks + "=";
    KeyReadBack(k, blanks, x);
    LineStart(k, blanks, x);
    KeyFirst(k, blanks, x);
    assert (written + x)[|written|..] == x;
  }

  lemma KeyPart(k: string, blanks: string)
    requires ReadKey(k) && Blanks(blanks)
    ensures '\n' !in QuoteKey(k) + blanks + "="
  {
    KeyStart(k, "");
  }

  lemma RegroupEntry(a: string, b: string, c: string, d: string, e: string, f: string, g: string)
    ensures a + (b + c + d) + e + f + g == a + b + c + (d + e + f + g)
  {}

  /** How a written line comes apart: the key up to the delimiter, and what ReadBack reads the value from. */
  lemma LineParts(fmt: Format, width: nat, e: Entry, tail: string) returns (blanks: string, gap: string, l: Line)
    requires ReadKey(e.name) && LineBreak(fmt.lineBreak)
    ensures Blanks(blanks) && Blank(gap)
    ensures l == ReadLine(gap + QuoteValue(e.value) + fmt.lineBreak + tail)
    ensures ReadLine(LineText(fmt, width, e) + tail) == Line(QuoteKey(e.name) + blanks + "=" + l.text, l.rest, l.eof)
  {
    hide ReadLine, QuoteKey, QuoteValue, Separator, Written, ReadKey, Blanks, Blank, LineBreak;
    var k := QuoteKey(e.name);
    blanks, gap := SeparatorParts(fmt, width, Written(e.name));
    var x := gap + QuoteValue(e.value) + fmt.lineBreak + tail;
    l := ReadLine(x);
    KeyPart(e.name, blanks);
    ReadLineAfter(k + blanks + "=", x);
    RegroupEntry(k, blanks, "=", gap, QuoteValue(e.value), fmt.lineBreak, tail);
  }

  /** One written line, or several when the value has several, puts its key into the current section. */
  lemma EntryLine(fmt: Format, width: nat, e: Entry, c: Cursor)
    requires LineBreak(fmt.lineBreak) && GoodKey(e.name) && GoodValue(e.value)
    ensures ReadOne(c.(rest := LineText(fmt, width, e) + c.rest)) ==
            Go(c.(eof := false, doc := PutKey(c.doc, c.section, e.name, e.value)))
  {
    hide ReadLine, ReadValue, TrimLeft, Dispatch, PutKey, QuoteKey, QuoteValue, LineText, ReadKey, WritableKey,
      GoodValue, Blanks, Blank, LineBreak;
    var blanks, gap, l := LineParts(fmt, width, e, c.rest);
    ValueReadBack(gap, e.value, fmt.lineBreak, c.rest);
    KeyLine(e.name, blanks, l.text, c.(rest := l.rest, eof := l.eof));
  }

  lemma EntryBack(fmt: Format, width: nat, e: Entry, c: Cursor)
    requires LineBreak(fmt.lineBreak) && GoodKey(e.name) && GoodValue(e.value) && !c.eof
    ensures ParseFrom(c.(rest := LineText(fmt, width, e) + c.rest)) ==
            ParseFrom(c.(doc := PutKey(c.doc, c.section, e.name, e.value)))
  {
    hide ReadOne, PutKey, LineText, GoodKey, GoodValue, LineBreak;
    EntryLine(fmt, width, e, c);
  }

  // Whole documents

  ghost predicate GoodEntries(es: seq<Entry>)
  {
    && Distinct(Names(es))
    && forall i | 0 <= i < |es| :: GoodKey(es[i].name) && GoodValue(es[i].value)
  }

  /** The formats the writer can be set to: any line break it knows, any white space as indentation. */
  predicate GoodFormat(fmt: Format) { LineBreak(fmt.lineBreak) && AllSpace(fmt.indent) }

  /** The text does not happen to begin with the character that is taken for a byte order mark. */
  predicate NoMark(fmt: Format, first: seq<Entry>)
  {
    !fmt.header && first != [] && first[0].name != "" ==> QuoteKey(first[0].name)[..1] != [BOM]
  }

  /** The documents that survive. The default section comes first, as it does in every document that was read. */
  ghost predicate Printable(fmt: Format, doc: Doc)
  {
    && doc != [] && doc[0].name == DEFAULT_SECTION && Distinct(Names(doc))
    && (forall i | 0 <= i < |doc| :: doc[i].name != "" && '\n' !in doc[i].name && GoodEntries(doc[i].value))
    && NoMark(fmt, doc[0].value)
  }

  /** A key that is new to the last section comes last in it. */
  lemma PutKeyLast(before: Doc, name: string, es: seq<Entry>, e: Entry)
    requires name !in Names(before) && e.name !in Names(es)
    ensures PutKey(before + [Item(name, es)], name, e.name, e.value) == before + [Item(name, es + [e])]
  {
    var doc := before + [Item(name, es)];
    assert Names(doc) == Names(before) + [name];
    assert Place(Names(doc), name) == |before|;
    assert doc[|before|].value == es;
    assert e == Item(e.name, e.value);
  }

  /** The cursor in front of a text, with everything before its last section and the part of that already read. */
  function In(rest: string, before: Doc, name: string, es: seq<Entry>, count: nat): Cursor
  {
    Cursor(rest, false, before + [Item(name, es)], name, count)
  }

  lemma OneEntryBack(fmt: Format, width: nat, before: Doc, name: string, es: seq<Entry>, e: Entry, tail: string,
                     count: nat)
    requires GoodFormat(fmt) && name !in Names(before) && e.name !in Names(es) && GoodKey(e.name) && GoodValue(e.value)
    ensures ParseFrom(In(EntryText(fmt, width, name, e) + tail, before, name, es, count)) ==
            ParseFrom(In(tail, before, name, es + [e], count))
  {
    hide ParseFrom, PutKey, LineText, GoodKey, GoodValue, LineBreak;
    var text := LineText(fmt, width, e);
    var indent := if name == DEFAULT_SECTION then "" else fmt.indent;
    var c := In(tail, before, name, es, count);
    Associate(indent, text, tail);
    SpaceSkipped(indent, c.(rest := text + tail));
    EntryBack(fmt, width, e, c);
    PutKeyLast(before, name, es, e);
  }

  lemma NewName<V>(items: seq<Item<V>>, i: nat)
    requires Distinct(Names(items)) && i < |items|
    ensures items[i].name !in Names(items[..i])
  {
    assert forall j | 0 <= j < i :: Names(items[..i])[j] == Names(items)[j] && Names(items)[j] != Names(items)[i];
  }

  /** The keys of a section are read in order. */
  lemma {:induction false} EntriesBack(fmt: Format, width: nat, before: Doc, name: string, es: seq<Entry>, j: nat,
                                       tail: string, count: nat)
    requires GoodFormat(fmt) && name !in Names(before) && GoodEntries(es) && j <= |es|
    ensures ParseFrom(In(EntriesText(fmt, width, name, es[j..]) + tail, before, name, es[..j], count)) ==
            ParseFrom(In(tail, before, name, es, count))
    decreases |es| - j
  {
    hide ParseFrom, EntryText, GoodKey, GoodValue, GoodFormat;
    if j == |es| {
      assert es[..j] == es && es[j..] == [];
      assert EntriesText(fmt, width, name, es[j..]) + tail == tail;
    } else {
      var e, rest := es[j], EntriesText(fmt, width, name, es[j + 1..]);
      assert es[j..][0] == e && es[j..][1..] == es[j + 1..] && es[..j] + [e] == es[..j + 1];
      Associate(EntryText(fmt, width, name, e), rest, tail);
      NewName(es, j);
      OneEntryBack(fmt, width, before, name, es[..j], e, rest + tail, count);
      EntriesBack(fmt, width, before, name, es, j + 1, tail, count);
    }
  }

  /** A header makes its section the current one. */
  lemma HeaderBack(name: string, lineBreak: string, c: Cursor)
    requires name != "" && '\n' !in name && LineBreak(lineBreak) && !c.eof
    ensures ParseFrom(c.(rest := "[" + name + "]" + lineBreak + c.rest)) ==
            ParseFrom(c.(doc := PutSection(c.doc, name), section := name, count := 1))
  {
    LineBreakIsSpace(lineBreak);
    hide ReadLine, TrimLeft, LastIndex, DispatchKey, PutSection, LineBreak;
    var line := "[" + name + "]" + lineBreak;
    ReadLineThrough("[" + name + "]", lineBreak, c.rest);
    TrimLeftFixed(line);
    LastIndexOfClosing("[" + name, "]", lineBreak);
    assert line[1..|name| + 1] == name;
  }

  /** The keys of a section and the gap behind it. */
  lemma BodyBack(fmt: Format, before: Doc, name: string, es: seq<Entry>, tail: string, count: nat)
    requires GoodFormat(fmt) && name !in Names(before) && GoodEntries(es)
    ensures var gap := if fmt.gaps then fmt.lineBreak else "";
            ParseFrom(In(EntriesText(fmt, Width(es), name, es) + gap + tail, before, name, [], count)) ==
            ParseFrom(In(tail, before, name, es, count))
  {
    LineBreakIsSpace(fmt.lineBreak);
    hide ParseFrom, EntriesText, Width, LineBreak, GoodEntries;
    var gap := if fmt.gaps then fmt.lineBreak else "";
    var text := EntriesText(fmt, Width(es), name, es);
    Associate(text, gap, tail);
    assert es[0..] == es && es[..0] == [];
    EntriesBack(fmt, Width(es), before, name, es, 0, gap + tail, count);
    SpaceSkipped(gap, In(tail, before, name, es, count));
  }

  lemma RegroupThree(a: string, b: string, c: string, d: string)
    ensures a + (b + c) + d == a + (b + c + d)
  {}

  /** A section after the first. */
  lemma SectionBack(fmt: Format, before: Doc, sec: Item<seq<Entry>>, c: Cursor)
    requires GoodFormat(fmt) && sec.name != "" && '\n' !in sec.name && GoodEntries(sec.value)
    requires sec.name !in Names(before) && c.doc == before && !c.eof
    ensures ParseFrom(c.(rest := SectionText(fmt, false, sec) + c.rest)) ==
            ParseFrom(In(c.rest, before, sec.name, sec.value, 1))
  {
    hide ParseFrom, EntriesText, Width, LineBreak, GoodEntries;
    var gap := if fmt.gaps then fmt.lineBreak else "";
    var header := "[" + sec.name + "]" + fmt.lineBreak;
    var body := EntriesText(fmt, Width(sec.value), sec.name, sec.value);
    RegroupThree(header, body, gap, c.rest);
    HeaderBack(sec.name, fmt.lineBreak, c.(rest := body + gap + c.rest));
    BodyBack(fmt, before, sec.name, sec.value, c.rest, 1);
  }

  /** The first section, with or without its header. */
  lemma FirstBack(fmt: Format, sec: Item<seq<Entry>>, tail: string)
    requires GoodFormat(fmt) && sec.name == DEFAULT_SECTION && GoodEntries(sec.value)
    ensures ParseFrom(In(SectionText(fmt, true, sec) + tail, [], DEFAULT_SECTION, [], 1)) ==
            ParseFrom(In(tail, [], DEFAULT_SECTION, sec.value, 1))
  {
    hide ParseFrom, EntriesText, Width, LineBreak, GoodEntries;
    var gap := if fmt.gaps then fmt.lineBreak else "";
    var body := EntriesText(fmt, Width(sec.value), sec.name, sec.value);
    if !fmt.header && sec.value == [] {
      assert "" + tail == tail;
    } else if fmt.header {
      var header := "[" + sec.name + "]" + fmt.lineBreak;
      RegroupThree(header, body, gap, tail);
      HeaderBack(sec.name, fmt.lineBreak, In(body + gap + tail, [], DEFAULT_SECTION, [], 1));
      var start: Doc := [] + [Item(DEFAULT_SECTION, [])];
      assert Names(start)[0] == DEFAULT_SECTION;
      assert PutSection(start, DEFAULT_SECTION) == start;
      BodyBack(fmt, [], sec.name, sec.value, tail, 1);
    } else {
      RegroupThree("", body, gap, tail);
      assert "" + (body + gap + tail) == body + gap + tail;
      BodyBack(fmt, [], sec.name, sec.value, tail, 1);
    }
  }

  lemma NothingLeft(c: Cursor)
    requires c.rest == "" && !c.eof
    ensures ParseFrom(c) == Parsed(true, c.doc)
  {
    assert TrimLeft("") == "";
  }

  /** From section i on. */
  lemma {:induction false} SectionsBack(fmt: Format, doc: Doc, i: nat, c: Cursor)
    requires GoodFormat(fmt) && Printable(fmt, doc) && 1 <= i <= |doc|
    requires c.rest == PrintFrom(fmt, doc, i) && c.doc == doc[..i] && !c.eof
    ensures ParseFrom(c) == Parsed(true, doc)
    decreases |doc| - i
  {
    hide ParseFrom, SectionText, GoodEntries, GoodFormat;
    if i == |doc| {
      assert doc[..i] == doc;
      NothingLeft(c);
    } else {
      var sec, rest := doc[i], PrintFrom(fmt, doc, i + 1);
      NewName(doc, i);
      hide Distinct, QuoteKey;
      SectionBack(fmt, doc[..i], sec, c.(rest := rest));
      var next := In(rest, doc[..i], sec.name, sec.value, 1);
      assert doc[..i] + [Item(sec.name, sec.value)] == doc[..i + 1];
      SectionsBack(fmt, doc, i + 1, next);
    }
  }

  lemma StartsAt(text: string)
    requires text != "" ==> text[0] != BOM
    ensures Parse([], text) == ParseFrom(In(text, [], DEFAULT_SECTION, [], 1))
  {
    hide ParseFrom;
    assert Start([], text) == In(text, [], DEFAULT_SECTION, [], 1);
  }

  lemma PrintsFirst(fmt: Format, doc: Doc)
    requires doc != []
    ensures Print(fmt, doc) == SectionText(fmt, true, doc[0]) + PrintFrom(fmt, doc, 1)
  {}

  lemma FirstIsGood(fmt: Format, doc: Doc)
    requires Printable(fmt, doc)
    ensures doc[0].name == DEFAULT_SECTION && GoodEntries(doc[0].value)
  {}

  lemma FirstAlone(doc: Doc, rest: string)
    requires doc != [] && doc[0].name == DEFAULT_SECTION
    ensures var c := In(rest, [], DEFAULT_SECTION, doc[0].value, 1); c.doc == doc[..1] && c.rest == rest && !c.eof
  {}

  lemma NoBOM(fmt: Format, doc: Doc)
    requires GoodFormat(fmt) && Printable(fmt, doc)
    ensures Print(fmt, doc) != "" ==> Print(fmt, doc)[0] != BOM
  {
    hide QuoteValue, Separator, Width, Written, AllSpace, LineBreak;
    var first := SectionText(fmt, true, doc[0]);
    if first == "" {
      assert Print(fmt, doc) == PrintFrom(fmt, doc, 1);
    } else {
      assert Print(fmt, doc)[0] == first[0];
      if !fmt.header {
        var e := doc[0].value[0];
        KeyStart(e.name, "");
        hide QuoteKey;
        assert first[0] == QuoteKey(e.name)[0];
      }
    }
  }

  /** Reading what was written gives back the document: the same sections, keys and values, in the same order, for every
      format and every mixture of plain, backtick-quoted and triple-quoted keys and values. */
  lemma RoundTrip(fmt: Format, doc: Doc)
    requires GoodFormat(fmt) && Printable(fmt, doc)
    ensures Parse([], Print(fmt, doc)) == Parsed(true, doc)
  {
    var text, rest := Print(fmt, doc), PrintFrom(fmt, doc, 1);
    NoBOM(fmt, doc);
    StartsAt(text);
    hide *;
    assert text == SectionText(fmt, true, doc[0]) + rest by { PrintsFirst(fmt, doc); }
    assert doc[0].name == DEFAULT_SECTION && GoodEntries(doc[0].value) by { FirstIsGood(fmt, doc); }
    FirstBack(fmt, doc[0], rest);
    var next := In(rest, [], DEFAULT_SECTION, doc[0].value, 1);
    assert next.doc == doc[..1] && next.rest == rest && !next.eof by { FirstAlone(doc, rest); }
    SectionsBack(fmt, doc, 1, next);
  }

  // Documents that were read

  ghost predicate ReadEntries(es: seq<Entry>)
  {
    Distinct(Names(es)) && forall i | 0 <= i < |es| :: ReadKey(es[i].name)
  }

  ghost predicate ReadSection(sec: Item<seq<Entry>>) { sec.name != "" && '\n' !in sec.name && ReadEntries(sec.value) }

  /** The shape of every document that was read. */
  ghost predicate Normal(doc: Doc)
  {
    && doc != [] && doc[0].name == DEFAULT_SECTION && Distinct(Names(doc))
    && forall i | 0 <= i < |doc| :: ReadSection(doc[i])
  }

  /** A line break can only be the last character. */
  predicate OneLine(line: string) { forall j | 0 <= j < |line| - 1 :: line[j] != '\n' }

  lemma {:induction false} LinesAreSingle(s: string)
    ensures OneLine(ReadLine(s).text)
  {
    if s != "" && s[0] != '\n' {
      LinesAreSingle(s[1..]);
      var l := ReadLine(s[1..]);
      assert forall j | 1 <= j < |l.text| + 1 :: ([s[0]] + l.text)[j] == l.text[j - 1];
    }
  }

  lemma TrimSpaceIsTrimmed(s: string)
    ensures Trimmed(TrimSpace(s))
  {
    hide IsSpace;
  }

  /** A name cut out of a line before its last character. */
  lemma NameOf(line: string, a: nat, b: nat)
    requires OneLine(line) && a <= b < |line|
    ensures '\n' !in line[a..b] && '\n' !in TrimSpace(line[a..b]) && Trimmed(TrimSpace(line[a..b]))
  {
    hide TrimSpace;
    TrimSpaceWithin(line[a..b]);
    TrimSpaceIsTrimmed(line[a..b]);
  }

  lemma QuotedNameIsRead(line: string, quote: string)
    requires OneLine(line) && quote <= line && quote != ""
    ensures var k := QuotedKeyName(line, quote); k.Key? ==> Trimmed(k.name) && '\n' !in k.name
  {
    hide TrimSpace, Index, IndexAny, OneLine, Trimmed;
    var pos := Index(line[|quote|..], quote);
    if pos != -1 {
      NameOf(line, |quote|, |quote| + pos);
    }
  }

  lemma NameIsRead(line: string)
    requires OneLine(line) && line != ""
    ensures var k := ReadKeyName(line); k.Key? ==> Trimmed(k.name) && '\n' !in k.name
  {
    hide TrimSpace, IndexAny, OneLine, Trimmed, QuotedKeyName, ByteLength;
    if line[0] == '"' {
      QuotedNameIsRead(line, if ByteLength(line) > 6 && TRIPLE <= line then TRIPLE else "\"");
    } else if line[0] == '`' {
      QuotedNameIsRead(line, "`");
    } else {
      var end := IndexAny(line, "=:");
      if end >= 0 {
        NameOf(line, 0, end);
        assert line[0..end] == line[..end];
      }
    }
  }

  lemma NumberIsRead(n: nat)
    ensures ReadKey("#" + Digits(n))
  {
    DigitsOnly(n);
    var k := "#" + Digits(n);
    assert k[|k| - 1] == Digits(n)[|Digits(n)| - 1];
    assert k[0] == '#';
  }

  lemma EntryIsRead(line: string, rest: string, eof: bool, count: nat)
    requires OneLine(line) && line != "" && (eof ==> rest == "")
    ensures var e := ReadEntry(line, rest, eof, count); e.EntryAt? ==> ReadKey(e.name)
  {
    NameIsRead(line);
    NumberIsRead(count);
    hide ReadKeyName, ReadValue, Trimmed, Digits, OneLine;
  }

  lemma PutKeepsNames<V>(items: seq<Item<V>>, name: string, value: V)
    requires Distinct(Names(items))
    ensures Distinct(Names(Put(items, name, value)))
    ensures var after := Put(items, name, value);
            forall i | 0 <= i < |after| :: after[i] == Item(name, value) || (i < |items| && after[i] == items[i])
  {
    var i := Place(Names(items), name);
    var after := Put(items, name, value);
    if i < |items| {
      assert Names(after) == Names(items);
    } else {
      assert Names(after) == Names(items) + [name];
    }
  }

  lemma PutEntryKeeps(es: seq<Entry>, key: string, value: string)
    requires ReadEntries(es) && ReadKey(key)
    ensures ReadEntries(Put(es, key, value))
  {
    hide ReadKey, Put, Distinct;
    PutKeepsNames(es, key, value);
  }

  lemma PutKeyKeeps(doc: Doc, section: string, key: string, value: string)
    requires Normal(doc) && ReadKey(key)
    ensures Normal(PutKey(doc, section, key, value))
  {
    hide ReadKey, ReadEntries;
    var i := Place(Names(doc), section);
    if i < |doc| {
      PutEntryKeeps(doc[i].value, key, value);
      assert Names(PutKey(doc, section, key, value)) == Names(doc);
    }
  }

  lemma PutSectionKeeps(doc: Doc, name: string)
    requires Normal(doc) && name != "" && '\n' !in name
    ensures Normal(PutSection(doc, name))
  {
    if name !in Names(doc) {
      var after := PutSection(doc, name);
      assert Names(after) == Names(doc) + [name];
      assert after[|doc|] == Item(name, []);
      assert ReadSection(after[|doc|]);
    }
  }

  lemma SuffixIsOneLine(text: string)
    requires OneLine(text)
    ensures OneLine(TrimLeft(text))
  {
    hide TrimLeft;
    var line := TrimLeft(text);
    assert forall j | 0 <= j < |line| :: line[j] == text[|text| - |line| + j];
  }

  lemma HeaderKeepsNormal(line: string, after: Cursor)
    requires OneLine(line) && line != "" && line[0] == '[' && Normal(after.doc) && (after.eof ==> after.rest == "")
    ensures var r := Dispatch(line, after); r.Go? ==> Normal(r.next.doc)
  {
    hide LastIndex, PutSection, Normal, OneLine, TrimSpace, Trimmed, DispatchKey;
    var close := LastIndex(line, "]");
    if close > 1 {
      NameOf(line, 1, close);
      PutSectionKeeps(after.doc, line[1..close]);
    }
  }

  lemma KeyKeepsNormal(line: string, after: Cursor)
    requires OneLine(line) && line != "" && Normal(after.doc) && (after.eof ==> after.rest == "")
    ensures var r := DispatchKey(line, after); r.Go? ==> Normal(r.next.doc)
  {
    hide ReadEntry, PutKey, Normal, OneLine, ReadKey;
    EntryIsRead(line, after.rest, after.eof, after.count);
    var e := ReadEntry(line, after.rest, after.eof, after.count);
    if e.EntryAt? {
      PutKeyKeeps(after.doc, after.section, e.name, e.value);
    }
  }

  lemma ReadOneKeepsNormal(c: Cursor)
    requires Normal(c.doc)
    ensures ReadOne(c).Go? ==> Normal(ReadOne(c).next.doc)
  {
    hide ReadLine, TrimLeft, LastIndex, PutSection, Normal, OneLine, DispatchKey;
    var l := ReadLine(c.rest);
    LinesAreSingle(c.rest);
    SuffixIsOneLine(l.text);
    var line, after := TrimLeft(l.text), c.(rest := l.rest, eof := l.eof);
    if line != "" {
      if line[0] == '[' {
        HeaderKeepsNormal(line, after);
      } else {
        KeyKeepsNormal(line, after);
      }
    }
  }

  lemma {:induction false} ParseKeepsNormal(c: Cursor)
    requires Normal(c.doc)
    ensures Normal(ParseFrom(c).doc)
    decreases |c.rest|, !c.eof
  {
    ReadOneKeepsNormal(c);
    hide ReadOne, Normal;
    if !c.eof && ReadOne(c).Go? {
      ParseKeepsNormal(ReadOne(c).next);
    }
  }

  /** Every document that comes from reading a text, any text, has the default section first, different non-empty
      section names on one line, and in each section different, trimmed, non-empty keys on one line. So no other
      document can survive being written and read. */
  lemma ParsedIsNormal(text: string)
    ensures Normal(Parse([], text).doc)
  {
    var c := Start([], text);
    assert c.doc == [Item(DEFAULT_SECTION, [])];
    assert ReadSection(c.doc[0]);
    ParseKeepsNormal(c);
  }

  /** A document read from any text is stable under writing and reading as soon as its keys and values can be
      written. */
  lemma ReadIsStable(fmt: Format, text: string)
    requires GoodFormat(fmt)
    requires var doc := Parse([], text).doc; doc != [] ==> NoMark(fmt, doc[0].value)
    requires var doc := Parse([], text).doc;
             forall i, j | 0 <= i < |doc| && 0 <= j < |doc[i].value| ::
               WritableKey(doc[i].value[j].name) && GoodValue(doc[i].value[j].value)
    ensures var doc := Parse([], text).doc; Parse([], Print(fmt, doc)) == Parsed(true, doc)
  {
    var doc := Parse([], text).doc;
    ParsedIsNormal(text);
    hide Parse, Print, GoodValue, WritableKey, NoMark;
    forall i | 0 <= i < |doc| ensures GoodEntries(doc[i].value) {
      assert ReadSection(doc[i]);
    }
    RoundTrip(fmt, doc);
  }

  // Which lines do what they should

  /** The current section is there and does not have the key yet. */
  ghost predicate HasRoom(doc: Doc, section: string, key: string)
  {
    section in Names(doc) && key !in Names(doc[Place(Names(doc), section)].value)
  }

  lemma PutKeyChanges(doc: Doc, section: string, key: string, value: string)
    requires HasRoom(doc, section, key)
    ensures PutKey(doc, section, key, value) != doc && |PutKey(doc, section, key, value)| == |doc|
  {
    var i := Place(Names(doc), section);
    assert |PutKey(doc, section, key, value)[i].value| == |doc[i].value| + 1;
  }

  lemma PutTells<V>(items: seq<Item<V>>, name: string, value: V, name': string, value': V)
    requires name !in Names(items) && Put(items, name', value') == Put(items, name, value)
    ensures name' == name && value' == value
  {
    assert Put(items, name, value)[|items|] == Item(name, value);
    assert Put(items, name', value')[|items|] == Item(name', value');
  }

  /** A new key in a document tells what was put. */
  lemma PutKeyTells(doc: Doc, section: string, key: string, value: string, key': string, value': string)
    requires HasRoom(doc, section, key)
    requires PutKey(doc, section, key', value') == PutKey(doc, section, key, value)
    ensures key' == key && value' == value
  {
    var i := Place(Names(doc), section);
    var es := doc[i].value;
    assert PutKey(doc, section, key, value)[i].value == Put(es, key, value);
    assert PutKey(doc, section, key', value')[i].value == Put(es, key', value');
    PutTells(es, key, value, key', value');
  }

  /** Only a line with a key can put a key into the document. */
  lemma OnlyKeyLines(line: string, after: Cursor, key: string, value: string)
    requires (after.eof ==> after.rest == "") && HasRoom(after.doc, after.section, key)
    requires var r := Dispatch(line, after); r.Go? && r.next.doc == PutKey(after.doc, after.section, key, value)
    ensures line != "" && line[0] != '#' && line[0] != ';' && line[0] != '['
    ensures Dispatch(line, after) == DispatchKey(line, after)
  {
    hide PutKey, HasRoom, DispatchKey, LastIndex;
    PutKeyChanges(after.doc, after.section, key, value);
  }

  /** What such a line held. */
  lemma KeyLineTells(line: string, after: Cursor, c: Cursor, key: string, value: string)
    requires OneLine(line) && line != "" && (after.eof ==> after.rest == "") && HasRoom(after.doc, after.section, key)
    requires after.doc == c.doc && after.section == c.section && after.count == c.count
    requires DispatchKey(line, after) == Go(c.(eof := false, doc := PutKey(c.doc, c.section, key, value)))
    ensures ReadKey(key) && ReadKeyName(line).Key? && ReadKeyName(line).name == key
    ensures ReadValue(line[ReadKeyName(line).offset..], after.rest, after.eof) == Value(value, c.rest, false)
  {
    hide PutKey, HasRoom, ReadKeyName, ReadValue, ReadKey, OneLine, Digits;
    var e := ReadEntry(line, after.rest, after.eof, after.count);
    EntryIsRead(line, after.rest, after.eof, after.count);
    PutKeyTells(c.doc, c.section, key, value, e.name, e.value);
  }

  /** A line that is read as its key can only have been written from a good one. */
  lemma KeyMustBeGood(k: string, blanks: string, x: string)
    requires ReadKey(k) && Blanks(blanks)
    requires var line := QuoteKey(k) + blanks + "=" + x;
             && line[0] != '#' && line[0] != ';' && line[0] != '['
             && ReadKeyName(line).Key? && ReadKeyName(line).name == k
    ensures WritableKey(k)
  {
    var line := QuoteKey(k) + blanks + "=" + x;
    assert line[0] == QuoteKey(k)[0];
    if HasAny(k, "\"=:") && '`' in k {
      BacktickInKey(k, blanks, x);
    }
  }

  lemma OffsetOf(k: string, blanks: string, x: string)
    requires ReadKey(k) && WritableKey(k) && Blanks(blanks)
    ensures var line := QuoteKey(k) + blanks + "=" + x; ReadKeyName(line).Key? && line[ReadKeyName(line).offset..] == x
  {
    KeyReadBack(k, blanks, x);
    hide ReadKeyName, QuoteKey;
    var written := QuoteKey(k) + blanks + "=";
    assert (written + x)[|written|..] == x;
  }

  lemma EntryMustBeGood(fmt: Format, width: nat, e: Entry, c: Cursor)
    requires LineBreak(fmt.lineBreak) && HasRoom(c.doc, c.section, e.name)
    requires ReadOne(c.(rest := LineText(fmt, width, e) + c.rest)) ==
             Go(c.(eof := false, doc := PutKey(c.doc, c.section, e.name, e.value)))
    ensures GoodKey(e.name) && GoodValue(e.value)
  {
    var all := LineText(fmt, width, e) + c.rest;
    var l0 := ReadLine(all);
    LinesAreSingle(all);
    SuffixIsOneLine(l0.text);
    hide ReadLine, TrimLeft, Dispatch, DispatchKey, PutKey, QuoteKey, QuoteValue, LineText, ReadKey, WritableKey,
      GoodValue, Blanks, Blank, LineBreak, HasRoom, OneLine, ReadKeyName, ReadValue;
    var line, after := TrimLeft(l0.text), c.(rest := l0.rest, eof := l0.eof);
    OnlyKeyLines(line, after, e.name, e.value);
    KeyLineTells(line, after, c, e.name, e.value);
    var blanks, gap, l := LineParts(fmt, width, e, c.rest);
    LineStart(e.name, blanks, l.text);
    KeyMustBeGood(e.name, blanks, l.text);
    OffsetOf(e.name, blanks, l.text);
    ValueReadBack(gap, e.value, fmt.lineBreak, c.rest);
  }

  /** A written entry, read where its key is new, puts exactly that entry into the section and consumes exactly its own
      text if and only if key and value meet their conditions. */
  lemma EntryBackExactly(fmt: Format, width: nat, e: Entry, c: Cursor)
    requires LineBreak(fmt.lineBreak) && HasRoom(c.doc, c.section, e.name)
    ensures ReadOne(c.(rest := LineText(fmt, width, e) + c.rest)) ==
            Go(c.(eof := false, doc := PutKey(c.doc, c.section, e.name, e.value))) <==>
            GoodKey(e.name) && GoodValue(e.value)
  {
    hide ReadOne, PutKey, LineText, GoodKey, GoodValue, LineBreak, HasRoom;
    if GoodKey(e.name) && GoodValue(e.value) {
      EntryLine(fmt, width, e, c);
    } else if ReadOne(c.(rest := LineText(fmt, width, e) + c.rest)) ==
              Go(c.(eof := false, doc := PutKey(c.doc, c.section, e.name, e.value))) {
      EntryMustBeGood(fmt, width, e, c);
    }
  }

  /** Saving a file and loading the text into a new one. */
  method SaveAndLoad(f: File, fmt: Format) returns (ok: bool, g: File)
    requires f.Valid()
    ensures fresh(g) && g.Valid()
    ensures GoodFormat(fmt) && Printable(fmt, f.Contents()) ==> ok && g.Contents() == f.Contents()
  {
    hide Parse, Print, Printable, GoodFormat, File.Valid, File.Contents;
    var text := WriteToIndent(f, fmt);
    g := new File();
    ghost var doc := f.Contents();
    if GoodFormat(fmt) && Printable(fmt, doc) {
      RoundTrip(fmt, doc);
    }
    ok := ParseInto(g, text);
  }
}
