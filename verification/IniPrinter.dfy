/** Writing a document as INI text, in every format the writer offers. */
module IniPrinter {

  import opened IniStrings
  import opened IniStore

  /** PrettyFormat, PrettySection, DefaultHeader, the indentation of keys and the line break. */
  datatype Format = Format(align: bool, gaps: bool, header: bool, indent: string, lineBreak: string)

  // The text of a document

  function QuoteKey(k: string): string
  {
    if HasAny(k, "\"=:") then "`" + k + "`" else if HasAny(k, "`") then TRIPLE + k + TRIPLE else k
  }

  function QuoteValue(v: string): string
  {
    if HasAny(v, "\n`") then TRIPLE + v + TRIPLE else if HasAny(v, "#;") then "`" + v + "`" else v
  }

  function Spaces(n: nat): (s: string)
    ensures |s| == n && forall i | 0 <= i < n :: s[i] == ' '
  {
    seq(n, _ => ' ')
  }

  /** The length of a key as it is written. */
  function Written(k: string): nat { ByteLength(QuoteKey(k)) }

  /** The length of the longest. */
  function Width(es: seq<Entry>): (w: nat)
  {
    if es == [] then 0
    else var w, n := Width(es[..|es| - 1]), Written(es[|es| - 1].name); if n > w then n else w
  }

  lemma {:induction false} WidthIsLargest(es: seq<Entry>)
    ensures forall i | 0 <= i < |es| :: Written(es[i].name) <= Width(es)
    ensures es == [] || exists i | 0 <= i < |es| :: Written(es[i].name) == Width(es)
  {
    hide Written;
    if es != [] {
      var before := es[..|es| - 1];
      WidthIsLargest(before);
      assert forall i | 0 <= i < |before| :: before[i] == es[i];
      assert before == [] ==> Width(before) == 0;
      if Written(es[|es| - 1].name) < Width(es) {
        var i :| 0 <= i < |before| && Written(before[i].name) == Width(before);
        assert Written(es[i].name) == Width(es);
      } else {
        assert Written(es[|es| - 1].name) == Width(es);
      }
    }
  }

  /** What stands between a key and its value. */
  function Separator(fmt: Format, width: nat, written: nat): string
  {
    if !fmt.align then "=" else (if written < width then Spaces(width - written) else "") + " = "
  }

  /** The line of a key, or lines when the value has several. */
  function LineText(fmt: Format, width: nat, e: Entry): string
  {
    QuoteKey(e.name) + Separator(fmt, width, Written(e.name)) + QuoteValue(e.value) + fmt.lineBreak
  }

  function EntryText(fmt: Format, width: nat, section: string, e: Entry): string
  {
    (if section == DEFAULT_SECTION then "" else fmt.indent) + LineText(fmt, width, e)
  }

  function EntriesText(fmt: Format, width: nat, section: string, es: seq<Entry>): string
  {
    if es == [] then "" else EntryText(fmt, width, section, es[0]) + EntriesText(fmt, width, section, es[1..])
  }

  /** The header of the first section is left out, and so is the whole of it when it is empty. */
  function SectionText(fmt: Format, first: bool, section: Item<seq<Entry>>): string
  {
    var headed := !first || fmt.header;
    if !headed && section.value == [] then ""
    else
      (if headed then "[" + section.name + "]" + fmt.lineBreak else "") +
      (EntriesText(fmt, Width(section.value), section.name, section.value) + (if fmt.gaps then fmt.lineBreak else ""))
  }

  function PrintFrom(fmt: Format, doc: Doc, i: nat): string
    requires i <= |doc|
    decreases |doc| - i
  {
    if i == |doc| then "" else SectionText(fmt, i == 0, doc[i]) + PrintFrom(fmt, doc, i + 1)
  }

  function Print(fmt: Format, doc: Doc): string { PrintFrom(fmt, doc, 0) }

  // The writer

  lemma {:induction false} ByteLengthAdd(s: string, t: string)
    ensures ByteLength(s + t) == ByteLength(s) + ByteLength(t)
  {
    if s == "" {
      assert s + t == t;
    } else {
      ByteLengthAdd(s[1..], t);
      assert (s + t)[1..] == s[1..] + t;
    }
  }

  /** The writer counts two or six more characters for a key that will be quoted. */
  lemma QuotedLength(k: string)
    ensures ByteLength(QuoteKey(k)) ==
            ByteLength(k) + (if HasAny(k, "\"=:") then 2 else if HasAny(k, "`") then 6 else 0)
  {
    ByteLengthAdd("`" + k, "`");
    ByteLengthAdd("`", k);
    ByteLengthAdd(TRIPLE + k, TRIPLE);
    ByteLengthAdd(TRIPLE, k);
    assert ByteLength("`") == 1 by { assert "`"[1..] == ""; }
    assert ByteLength(TRIPLE) == 3 by {
      assert TRIPLE[1..] == "\"\"" && "\"\""[1..] == "\"" && "\""[1..] == "";
      assert ByteLength("\"") == 1;
    }
  }

  method AlignLength(es: seq<Entry>) returns (n: nat)
    ensures n == Width(es)
  {
    n := 0;
    for i := 0 to |es|
      invariant n == Width(es[..i])
    {
      var name := es[i].name;
      var keyLength := ByteLength(name);
      if HasAny(name, "\"=:") {
        keyLength := keyLength + 2;
      } else if HasAny(name, "`") {
        keyLength := keyLength + 6;
      }
      QuotedLength(name);
      if keyLength > n {
        n := keyLength;
      }
      assert es[..i + 1][..i] == es[..i];
    }
    assert es[..|es|] == es;
  }

  lemma RegroupLine(a: string, b: string, c: string, d: string, e: string, f: string)
    ensures a + b + c + d + e + f == a + (b + (c + d) + e + f)
    ensures c == "" ==> a + b + d + e + f == a + (b + d + e + f)
  {}

  method WriteKey(fmt: Format, section: string, e: Entry, alignLength: nat, ghost width: nat, alignSpaces: string)
    returns (buf: string)
    requires fmt.align ==> alignLength == width >= Written(e.name) && alignSpaces == Spaces(width)
    ensures buf == EntryText(fmt, width, section, e)
  {
    hide HasAny, ByteLength;
    var kname, val := e.name, e.value;
    buf := "";
    if section != DEFAULT_SECTION {
      buf := buf + fmt.indent;
    }
    ghost var lead := buf;
    if HasAny(kname, "\"=:") {
      kname := "`" + kname + "`";
    } else if HasAny(kname, "`") {
      kname := TRIPLE + kname + TRIPLE;
    }
    buf := buf + kname;
    ghost var pad := "";
    if fmt.align {
      pad := alignSpaces[..alignLength - ByteLength(kname)];
      assert pad == Spaces(|pad|);
      buf := buf + alignSpaces[..alignLength - ByteLength(kname)];
    }
    if HasAny(val, "\n`") {
      val := TRIPLE + val + TRIPLE;
    } else if HasAny(val, "#;") {
      val := "`" + val + "`";
    }
    var equalSign := if fmt.align then " = " else "=";
    assert Separator(fmt, width, Written(e.name)) == pad + equalSign;
    hide QuoteKey, QuoteValue, Separator;
    RegroupLine(lead, kname, pad, equalSign, val, fmt.lineBreak);
    buf := buf + equalSign + val + fmt.lineBreak;
  }

  /** The keys of one section. The slice of the alignment never goes out of bounds. */
  method WriteKeys(fmt: Format, section: string, es: seq<Entry>) returns (buf: string)
    ensures buf == EntriesText(fmt, Width(es), section, es)
  {
    var alignLength := 0;
    if fmt.align {
      alignLength := AlignLength(es);
    }
    var alignSpaces := Spaces(alignLength);
    buf := "";
    WidthIsLargest(es);
    hide Width;
    for i := 0 to |es|
      invariant buf + EntriesText(fmt, Width(es), section, es[i..]) == EntriesText(fmt, Width(es), section, es)
    {
      hide EntryText, Written, QuoteKey, QuoteValue, Separator;
      var line := WriteKey(fmt, section, es[i], alignLength, Width(es), alignSpaces);
      assert es[i..][0] == es[i] && es[i..][1..] == es[i + 1..];
      Associate(buf, line, EntriesText(fmt, Width(es), section, es[i + 1..]));
      buf := buf + line;
    }
  }

  lemma RegroupSection(a: string, b: string, c: string, d: string)
    ensures a + b + c + d == a + (b + (c + d))
    ensures b == "" ==> a + c + d == a + (b + (c + d))
    ensures d == "" ==> a + b + c == a + (b + (c + d))
    ensures b == "" && d == "" ==> a + c == a + (b + (c + d))
  {}

  /** The part of the writer's loop that writes one section. */
  method WriteSection(start: string, fmt: Format, first: bool, sname: string, es: seq<Entry>) returns (buf: string)
    ensures buf == start + SectionText(fmt, first, Item(sname, es))
  {
    hide EntriesText, Width;
    buf := start;
    ghost var header := if !first || fmt.header then "[" + sname + "]" + fmt.lineBreak else "";
    if !first || fmt.header {
      buf := buf + ("[" + sname + "]" + fmt.lineBreak);
    } else if es == [] {
      return;
    }
    var keys := WriteKeys(fmt, sname, es);
    buf := buf + keys;
    if fmt.gaps {
      buf := buf + fmt.lineBreak;
    }
    RegroupSection(start, header, keys, if fmt.gaps then fmt.lineBreak else "");
  }

  /** WriteToIndent, on a file without comments. */
  method WriteToIndent(f: File, fmt: Format) returns (buf: string)
    requires f.Valid()
    ensures buf == Print(fmt, f.Contents())
  {
    hide SectionText, File.Valid, File.Contents, Section.Valid, Section.Entries;
    buf := "";
    ghost var doc := f.Contents();
    for i := 0 to |f.sectionList|
      invariant buf + PrintFrom(fmt, doc, i) == Print(fmt, doc)
    {
      var sname := f.sectionList[i];
      f.SectionAt(i);
      var sec := f.GetSection(sname);
      var es := sec.value.List();
      assert doc[i] == Item(sname, es);
      Associate(buf, SectionText(fmt, i == 0, doc[i]), PrintFrom(fmt, doc, i + 1));
      buf := WriteSection(buf, fmt, i == 0, sname, es);
    }
  }

  // Columns

  lemma {:induction false} SpacesTakeOneByte(n: nat)
    ensures ByteLength(Spaces(n)) == n
  {
    if n > 0 {
      SpacesTakeOneByte(n - 1);
      assert Spaces(n)[1..] == Spaces(n - 1);
    }
  }

  /** With alignment the equal signs of a section stand in one column, just behind its longest key. */
  lemma ColumnsAlign(fmt: Format, es: seq<Entry>, i: nat) returns (head: string)
    requires fmt.align && i < |es|
    ensures LineText(fmt, Width(es), es[i]) == head + " = " + QuoteValue(es[i].value) + fmt.lineBreak
    ensures QuoteKey(es[i].name) <= head && ByteLength(head) == Width(es)
  {
    WidthIsLargest(es);
    hide HasAny, ByteLength, QuoteKey, QuoteValue, Width;
    var key, gap := QuoteKey(es[i].name), Width(es) - Written(es[i].name);
    head := key + Spaces(gap);
    ByteLengthAdd(key, Spaces(gap));
    SpacesTakeOneByte(gap);
    RegroupLine("", key, Spaces(gap), " = ", QuoteValue(es[i].value), fmt.lineBreak);
  }

  /** Every line of a key begins with the indentation, except in the default section. */
  lemma {:induction false} Indented(fmt: Format, width: nat, section: string, es: seq<Entry>, i: nat)
    returns (head: string, tail: string)
    requires i < |es|
    ensures EntriesText(fmt, width, section, es) ==
            head + ((if section == DEFAULT_SECTION then "" else fmt.indent) + LineText(fmt, width, es[i])) + tail
    ensures head == EntriesText(fmt, width, section, es[..i]) && tail == EntriesText(fmt, width, section, es[i + 1..])
    decreases i
  {
    hide LineText;
    if i == 0 {
      head, tail := "", EntriesText(fmt, width, section, es[1..]);
      assert es[..0] == [];
    } else {
      var h, e := EntryText(fmt, width, section, es[0]), EntryText(fmt, width, section, es[i]);
      head, tail := Indented(fmt, width, section, es[1..], i - 1);
      assert es[1..][i - 1] == es[i] && es[1..][i..] == es[i + 1..];
      assert es[..i][0] == es[0] && es[..i][1..] == es[1..][..i - 1];
      hide EntryText;
      Associate(h, head + e, tail);
      Associate(h, head, e);
      head := h + head;
    }
  }
}
