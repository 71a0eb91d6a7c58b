/** Reading INI text with the default options: what the parser makes of a text as functions, and the reader's loops
    proved to compute that. Comments are skipped; they never influence names, order or values. */
module IniParser {

  import opened Decimals
  import opened IniStrings
  import opened IniStore

  const BOM := '\U{FEFF}'

  // Key names

  datatype KeyRead = Key(name: string, offset: nat) | MissingQuote | MissingDelimiter

  function QuotedKeyName(line: string, quote: string): (r: KeyRead)
    requires quote <= line
    ensures r.Key? ==> 0 < r.offset <= |line| && line[r.offset - 1] in "=:"
  {
    var start := |quote|;
    var pos := Index(line[start..], quote);
    if pos == -1 then MissingQuote
    else
      var close := pos + start;
      var i := IndexAny(line[close + start..], "=:");
      if i < 0 then MissingDelimiter
      else Key(TrimSpace(line[start..close]), close + i + start + 1)
  }

  /** readKeyName: the name before the delimiter, in quotes or not, and where the value begins. */
  function ReadKeyName(line: string): (r: KeyRead)
    requires line != ""
    ensures r.Key? ==> 0 < r.offset <= |line| && line[r.offset - 1] in "=:"
  {
    if line[0] == '"' then QuotedKeyName(line, if ByteLength(line) > 6 && TRIPLE <= line then TRIPLE else "\"")
    else if line[0] == '`' then QuotedKeyName(line, "`")
    else
      var end := IndexAny(line, "=:");
      if end < 0 then MissingDelimiter else Key(TrimSpace(line[..end]), end + 1)
  }

  // Values

  /** A value, the text after it, and whether the end of the text has been seen. */
  datatype ValueRead = Value(value: string, rest: string, eof: bool) | Unclosed

  /** Lines up to the last quote of the first line that has one. */
  function MultiLines(val: string, rest: string, quote: string): (r: ValueRead)
    ensures r.Value? ==> |r.rest| <= |rest| && (rest == "" ==> r.eof)
    decreases |rest|
  {
    var l := ReadLine(rest);
    var pos := LastIndex(l.text, quote);
    if pos > -1 then Value(val + l.text[..pos], l.rest, l.eof)
    else if l.eof then Unclosed
    else MultiLines(val + l.text, l.rest, quote)
  }

  /** Lines joined as long as they end in a backslash. */
  function ContinuationLines(val: string, rest: string): (r: ValueRead)
    ensures r.Value? && |r.rest| <= |rest| && (rest == "" ==> r.eof)
    decreases |rest|
  {
    var l := ReadLine(rest);
    var next := TrimSpace(l.text);
    if next == "" then Value(val, l.rest, l.eof)
    else
      var joined := val + next;
      if joined[|joined| - 1] != '\\' then Value(joined, l.rest, l.eof)
      else ContinuationLines(joined[..|joined| - 1], l.rest)
  }

  predicate HasSurroundedQuote(s: string, quote: char)
  {
    |s| >= 2 && s[0] == quote && s[|s| - 1] == quote && IndexAny(s[1..], [quote]) == |s| - 2
  }

  function ValueQuote(line: string): (q: string)
    requires line != ""
    ensures q <= line
  {
    if ByteLength(line) > 3 && TRIPLE <= line then TRIPLE else if line[0] == '`' then "`" else ""
  }

  /** An unquoted value on one line: a comment is cut off, then one pair of quotes. */
  function PlainValue(line: string): string
  {
    var i := IndexAny(line, "#;");
    var s := if i > -1 then TrimSpace(line[..i]) else line;
    if HasSurroundedQuote(s, '\'') || HasSurroundedQuote(s, '"') then s[1..|s| - 1] else s
  }

  function ReadValue(input: string, rest: string, eof: bool): (r: ValueRead)
    requires eof ==> rest == ""
    ensures r.Value? ==> |r.rest| <= |rest| && (eof ==> r.eof)
  {
    var line := TrimLeft(input);
    if line == "" then Value("", rest, eof)
    else
      var quote := ValueQuote(line);
      if quote != "" then
        var body := line[|quote|..];
        var pos := LastIndex(body, quote);
        if pos == -1 then MultiLines(body, rest, quote) else Value(body[..pos], rest, eof)
      else
        var s := TrimSpace(line);
        if s != "" && s[|s| - 1] == '\\' then ContinuationLines(s[..|s| - 1], rest)
        else Value(PlainValue(s), rest, eof)
  }

  // The whole text

  /** How a parse ended, and the document it left. */
  datatype Parsed = Parsed(ok: bool, doc: Doc)

  /** What remains of a parse: the text ahead, the document so far, the current section and the number for the next
      key named "-". */
  datatype Cursor = Cursor(rest: string, eof: bool, doc: Doc, section: string, count: nat)

  datatype LineRead = Go(next: Cursor) | Fail

  datatype EntryRead = EntryAt(name: string, value: string, rest: string, eof: bool, count: nat) | NoEntry

  /** A line with a key, and the lines its value goes on over. */
  function ReadEntry(line: string, rest: string, eof: bool, count: nat): (r: EntryRead)
    requires line != "" && (eof ==> rest == "")
    ensures r.EntryAt? ==> r.name != "" && |r.rest| <= |rest| && (eof ==> r.eof)
  {
    var k := ReadKeyName(line);
    if !k.Key? then NoEntry
    else
      var v := ReadValue(line[k.offset..], rest, eof);
      if !v.Value? || k.name == "" then NoEntry
      else if k.name == "-" then EntryAt("#" + Digits(count), v.value, v.rest, v.eof, count + 1)
      else EntryAt(k.name, v.value, v.rest, v.eof, count)
  }

  function DispatchKey(line: string, after: Cursor): (r: LineRead)
    requires line != "" && (after.eof ==> after.rest == "")
    ensures r.Go? ==> |r.next.rest| <= |after.rest| && (after.eof ==> r.next.eof)
  {
    var e := ReadEntry(line, after.rest, after.eof, after.count);
    if e.NoEntry? then Fail
    else Go(Cursor(e.rest, e.eof, PutKey(after.doc, after.section, e.name, e.value), after.section, e.count))
  }

  /** A line without the white space before it; `after` is the cursor behind it. */
  function Dispatch(line: string, after: Cursor): (r: LineRead)
    requires after.eof ==> after.rest == ""
    ensures r.Go? ==> |r.next.rest| <= |after.rest| && (after.eof ==> r.next.eof)
  {
    if line == "" || line[0] == '#' || line[0] == ';' then Go(after)
    else if line[0] == '[' then
      var close := LastIndex(line, "]");
      if close <= 1 then Fail
      else Go(after.(doc := PutSection(after.doc, line[1..close]), section := line[1..close], count := 1))
    else
      DispatchKey(line, after)
  }

  /** One turn of the loop, on the line that was read. */
  function ReadOne(c: Cursor): (r: LineRead)
    ensures r.Go? ==> |r.next.rest| <= |c.rest| && (|r.next.rest| < |c.rest| || r.next.eof)
  {
    var l := ReadLine(c.rest);
    Dispatch(TrimLeft(l.text), c.(rest := l.rest, eof := l.eof))
  }

  function ParseFrom(c: Cursor): Parsed
    decreases |c.rest|, !c.eof
  {
    if c.eof then Parsed(true, c.doc)
    else
      var r := ReadOne(c);
      if r.Fail? then Parsed(false, c.doc) else ParseFrom(r.next)
  }

  function Start(doc: Doc, text: string): Cursor
  {
    Cursor(if text != "" && text[0] == BOM then text[1..] else text, false, PutSection(doc, DEFAULT_SECTION),
           DEFAULT_SECTION, 1)
  }

  /** Reading a text into a document that may hold something already. */
  function Parse(doc: Doc, text: string): Parsed { ParseFrom(Start(doc, text)) }

  // The reader

  /** The reader's state: the text not yet read, whether its end was met, and the counter for keys named "-". */
  class Parser {
    var rest: string
    var isEOF: bool
    var count: nat

    ghost predicate Valid()
      reads this
    {
      isEOF ==> rest == ""
    }

    constructor (text: string)
      ensures Valid() && rest == text && !isEOF && count == 1
    {
      rest, isEOF, count := text, false, 1;
    }

    method SkipBOM()
      requires Valid()
      modifies this`rest
      ensures Valid() && rest == if old(rest) != "" && old(rest)[0] == BOM then old(rest)[1..] else old(rest)
    {
      if rest != "" && rest[0] == BOM {
        rest := rest[1..];
      }
    }

    /** readUntil for the line break. */
    method ReadUntil() returns (line: string)
      requires Valid()
      modifies this`rest, this`isEOF
      ensures Valid() && Line(line, rest, isEOF) == ReadLine(old(rest))
    {
      var n := 0;
      while n < |rest| && rest[n] != '\n'
        invariant n <= |rest| && rest == old(rest) && '\n' !in rest[..n]
      {
        n := n + 1;
      }
      assert rest == rest[..n] + rest[n..];
      ReadLineAfter(rest[..n], rest[n..]);
      if n < |rest| {
        assert rest[..n] + "\n" == rest[..n + 1];
        line, rest := rest[..n + 1], rest[n + 1..];
        isEOF := false;
      } else {
        line, rest := rest, "";
        isEOF := true;
      }
    }

    method ReadMultilines(start: string, quote: string) returns (r: Option<string>)
      requires Valid()
      modifies this`rest, this`isEOF
      ensures Valid()
      ensures var m := MultiLines(start, old(rest), quote);
              if m.Value? then r == Some(m.value) && rest == m.rest && isEOF == m.eof else r.None?
    {
      var val := start;
      while true
        invariant Valid() && MultiLines(val, rest, quote) == MultiLines(start, old(rest), quote)
        decreases |rest|
      {
        var next := ReadUntil();
        var pos := LastIndex(next, quote);
        if pos > -1 {
          return Some(val + next[..pos]);
        }
        val := val + next;
        if isEOF {
          return None;
        }
      }
    }

    method ReadContinuationLines(start: string) returns (val: string)
      requires Valid()
      modifies this`rest, this`isEOF
      ensures Valid() && Value(val, rest, isEOF) == ContinuationLines(start, old(rest))
    {
      hide TrimSpace, ReadLine;
      val := start;
      while true
        invariant Valid() && ContinuationLines(val, rest) == ContinuationLines(start, old(rest))
        decreases |rest|
      {
        var data := ReadUntil();
        var next := TrimSpace(data);
        if next == "" {
          return;
        }
        val := val + next;
        if val[|val| - 1] != '\\' {
          return;
        }
        val := val[..|val| - 1];
      }
    }

    method ReadValueFrom(input: string) returns (r: Option<string>)
      requires Valid()
      modifies this`rest, this`isEOF
      ensures Valid()
      ensures var v := ReadValue(input, old(rest), old(isEOF));
              if v.Value? then r == Some(v.value) && rest == v.rest && isEOF == v.eof else r.None?
    {
      hide TrimSpace, TrimLeft, ReadLine, MultiLines, ContinuationLines, LastIndex, IndexAny, ValueQuote;
      var line := TrimLeft(input);
      if line == "" {
        return Some("");
      }
      var quote := ValueQuote(line);
      if quote != "" {
        var pos := LastIndex(line[|quote|..], quote);
        if pos == -1 {
          r := ReadMultilines(line[|quote|..], quote);
          return;
        }
        return Some(line[|quote|..][..pos]);
      }
      line := TrimSpace(line);
      if line != "" && line[|line| - 1] == '\\' {
        var val := ReadContinuationLines(line[..|line| - 1]);
        return Some(val);
      }
      var i := IndexAny(line, "#;");
      if i > -1 {
        line := TrimSpace(line[..i]);
      }
      if HasSurroundedQuote(line, '\'') || HasSurroundedQuote(line, '"') {
        line := line[1..|line| - 1];
      }
      r := Some(line);
    }

    ghost function At(doc: Doc, section: string): Cursor
      reads this
    {
      Cursor(rest, isEOF, doc, section, count)
    }

    /** A line with a key: its value is read, over further lines if need be. */
    method ReadKey(line: string) returns (name: string, value: Option<string>)
      requires Valid() && line != ""
      modifies this
      ensures Valid()
      ensures var e := ReadEntry(line, old(rest), old(isEOF), old(count));
              if value.Some? && name != ""
              then e == EntryAt(name, value.value, rest, isEOF, count)
              else e.NoEntry?
    {
      hide ReadKeyName, Digits, ReadValue;
      var k := ReadKeyName(line);
      if !k.Key? {
        return "", None;
      }
      name := k.name;
      if name == "-" {
        name := "#" + Digits(count);
        count := count + 1;
      }
      value := ReadValueFrom(line[k.offset..]);
    }

    /** One turn of the loop: the line and what it brings into the file. */
    method ReadInto(f: File, section: Section) returns (ok: bool, current: Section)
      requires Valid() && !isEOF && f.Valid() && section.file == f && section.Attached()
      modifies this, f, section
      ensures Valid() && f.Valid() && current.file == f && current.Attached()
      ensures forall n | n in f.sections :: f.sections[n] in old(f.sections.Values) || fresh(f.sections[n])
      ensures var r := ReadOne(old(At(f.Contents(), section.name)));
              if ok then r == Go(At(f.Contents(), current.name)) else r.Fail? && f.Contents() == old(f.Contents())
    {
      hide TrimLeft, ReadLine, LastIndex, ReadEntry, PutSection, PutKey, File.Valid, File.Contents, Section.Valid;
      current := section;
      var line := ReadUntil();
      line := TrimLeft(line);
      if line == "" || line[0] == '#' || line[0] == ';' {
        return true, current;
      }
      if line[0] == '[' {
        var close := LastIndex(line, "]");
        if close == -1 {
          return false, current;
        }
        var r := f.NewSection(line[1..close]);
        if r.None? {
          return false, current;
        }
        current := r.value;
        count := 1;
        return true, current;
      }
      var name, value := ReadKey(line);
      if value.None? {
        return false, current;
      }
      f.AttachedIsValid(section);
      ok := section.NewKey(name, value.value);
    }
  }

  /** File.parse. The file ends up holding what the text says, up to the first line that cannot be read. */
  method ParseInto(f: File, text: string) returns (ok: bool)
    requires f.Valid()
    modifies f, f.sections.Values
    ensures f.Valid()
    ensures Parsed(ok, f.Contents()) == Parse(old(f.Contents()), text)
  {
    hide ReadOne, PutSection, File.Valid, File.Contents;
    var p := new Parser(text);
    p.SkipBOM();
    var r := f.NewSection(DEFAULT_SECTION);
    var section := r.value;
    while !p.isEOF
      invariant f.Valid() && p.Valid() && section.file == f && section.Attached()
      invariant forall n | n in f.sections :: f.sections[n] in old(f.sections.Values) || fresh(f.sections[n])
      invariant ParseFrom(p.At(f.Contents(), section.name)) == Parse(old(f.Contents()), text)
      decreases |p.rest|, !p.isEOF
    {
      ok, section := p.ReadInto(f, section);
      if !ok {
        return;
      }
    }
    ok := true;
  }
}
