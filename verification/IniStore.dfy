/** The in-memory form of an INI file: sections by name with a list that keeps their order, keys by name likewise, and
    lookups that fall back to parent sections. Each name map and its list together stand for an ordered document. */
module IniStore {

  import opened Collections

  const DEFAULT_SECTION := "DEFAULT"

  // Ordered tables and documents

  datatype Item<V> = Item(name: string, value: V)

  type Entry = Item<string>

  type Doc = seq<Item<seq<Entry>>>

  /** The place of a name, or the length when it is missing. */
  function Place(names: seq<string>, name: string): (i: nat)
    ensures i <= |names|
    ensures name in names <==> i < |names|
    ensures i < |names| ==> names[i] == name
    ensures forall j | 0 <= j < i :: names[j] != name
  {
    if names == [] || names[0] == name then 0 else 1 + Place(names[1..], name)
  }

  function Names<V>(items: seq<Item<V>>): (names: seq<string>)
    ensures |names| == |items|
  {
    seq(|items|, i requires 0 <= i < |items| => items[i].name)
  }

  /** An item keeps its place when it gets a new value; a new item comes last. */
  function Put<V>(items: seq<Item<V>>, name: string, value: V): seq<Item<V>>
  {
    var i := Place(Names(items), name);
    if i < |items| then items[i := Item(name, value)] else items + [Item(name, value)]
  }

  function PutSection(doc: Doc, name: string): Doc
  {
    if name in Names(doc) then doc else doc + [Item(name, [])]
  }

  /** Puts a key into a section, if that is there. */
  function PutKey(doc: Doc, name: string, key: string, value: string): Doc
  {
    var i := Place(Names(doc), name);
    if i < |doc| then doc[i := Item(name, Put(doc[i].value, key, value))] else doc
  }

  function Without<T>(s: seq<T>, i: nat): seq<T> { if i < |s| then s[..i] + s[i + 1..] else s }

  /** Deleting a name that has just been added gives back the table as it was. */
  lemma DeleteUndoesPut<V>(items: seq<Item<V>>, name: string, value: V)
    requires name !in Names(items)
    ensures var after := Put(items, name, value); Without(after, Place(Names(after), name)) == items
  {
    var after := Put(items, name, value);
    assert Names(after) == Names(items) + [name];
    assert Place(Names(after), name) == |items|;
  }

  /** A map and a list with the same names, each once. */
  ghost predicate Matches<V>(list: seq<string>, m: map<string, V>)
  {
    Distinct(list) && forall n :: n in list <==> n in m
  }

  /** The table that a list and a map stand for. */
  function Ordered<V>(list: seq<string>, m: map<string, V>): (items: seq<Item<V>>)
    requires forall i | 0 <= i < |list| :: list[i] in m
    ensures Names(items) == list
  {
    seq(|list|, i requires 0 <= i < |list| => Item(list[i], m[list[i]]))
  }

  lemma OrderedUpdate<V>(list: seq<string>, m: map<string, V>, name: string, value: V)
    requires Matches(list, m) && name in list
    ensures Matches(list, m[name := value])
    ensures Ordered(list, m[name := value]) == Put(Ordered(list, m), name, value)
  {
    var i := Place(list, name);
    assert forall j | 0 <= j < |list| && j != i :: list[j] != name;
  }

  lemma OrderedAdd<V>(list: seq<string>, m: map<string, V>, name: string, value: V)
    requires Matches(list, m) && name !in list
    ensures Matches(list + [name], m[name := value])
    ensures Ordered(list + [name], m[name := value]) == Put(Ordered(list, m), name, value)
  {
    var list' := list + [name];
    assert forall n :: n in list' <==> n in list || n == name;
    assert forall j | 0 <= j < |list| :: list'[j] == list[j];
    assert forall j | 0 <= j < |list| :: list[j] != name;
  }

  lemma MembersWithout(list: seq<string>, i: nat, n: string)
    requires Distinct(list) && i < |list|
    ensures n in Without(list, i) <==> n in list && n != list[i]
  {
    var list' := Without(list, i);
    if n in list' {
      var j := Place(list', n);
      assert list[if j < i then j else j + 1] == n;
    }
    if n in list && n != list[i] {
      var j := Place(list, n);
      assert list'[if j < i then j else j - 1] == n;
    }
  }

  lemma MatchesWithout<V>(list: seq<string>, m: map<string, V>, i: nat)
    requires Matches(list, m) && i < |list|
    ensures Matches(Without(list, i), m - {list[i]})
  {
    var list' := Without(list, i);
    assert Distinct(list') by {
      assert forall j | 0 <= j < |list'| :: list'[j] == if j < i then list[j] else list[j + 1];
    }
    hide Without, Distinct;
    forall n ensures n in list' <==> n in m - {list[i]} {
      MembersWithout(list, i, n);
    }
  }

  /** What hiding the definition leaves to be known. */
  lemma MatchesMembers<V>(list: seq<string>, m: map<string, V>)
    requires Matches(list, m)
    ensures forall n :: n in list <==> n in m
  {}

  lemma OrderedWithout<V>(list: seq<string>, m: map<string, V>, i: nat)
    requires Matches(list, m) && i < |list|
    ensures Matches(Without(list, i), m - {list[i]})
    ensures Ordered(Without(list, i), m - {list[i]}) == Without(Ordered(list, m), i)
  {
    MatchesWithout(list, m, i);
    var list', m' := Without(list, i), m - {list[i]};
    MatchesMembers(list, m);
    MatchesMembers(list', m');
    hide Matches;
    var was, now := Ordered(list, m), Ordered(list', m');
    assert |now| == |list'| == |list| - 1;
    forall j | 0 <= j < |now| ensures now[j] == Without(was, i)[j] {
      assert list'[j] == if j < i then list[j] else list[j + 1];
      assert now[j] == Item(list'[j], m[list'[j]]);
    }
  }

  lemma SameKeysMatch<V, W>(list: seq<string>, m: map<string, V>, w: map<string, W>)
    requires Matches(list, m) && w.Keys == m.Keys
    ensures Matches(list, w)
  {
    assert forall n :: n in m <==> n in w;
  }

  // Parents

  function LastDot(s: string): (i: int)
    ensures -1 <= i < |s|
    ensures i >= 0 ==> s[i] == '.'
    ensures forall j | i < j < |s| :: s[j] != '.'
  {
    if s == "" then -1 else if s[|s| - 1] == '.' then |s| - 1 else LastDot(s[..|s| - 1])
  }

  function Dots(s: string): nat
  {
    if s == "" then 0 else Dots(s[..|s| - 1]) + (if s[|s| - 1] == '.' then 1 else 0)
  }

  /** The empty name means the default section. */
  function Resolved(name: string): string { if name == "" then DEFAULT_SECTION else name }

  /** The names under which the parents of a section are looked up, nearest first. */
  function Chain(name: string): seq<string>
    decreases |name|
  {
    var i := LastDot(name);
    if i < 0 then [] else [Resolved(name[..i])] + Chain(name[..i])
  }

  lemma {:induction false} DotsAdd(s: string, t: string)
    ensures Dots(s + t) == Dots(s) + Dots(t)
    decreases |t|
  {
    if t == "" {
      assert s + t == s;
    } else {
      DotsAdd(s, t[..|t| - 1]);
      assert (s + t)[..|s + t| - 1] == s + t[..|t| - 1];
    }
  }

  lemma {:induction false} NoDots(s: string)
    requires forall j | 0 <= j < |s| :: s[j] != '.'
    ensures Dots(s) == 0
    decreases |s|
  {
    if s != "" { NoDots(s[..|s| - 1]); }
  }

  lemma DotBefore(a: string, b: string)
    requires forall j | 0 <= j < |b| :: b[j] != '.'
    ensures Dots(a + "." + b) == Dots(a) + 1
  {
    DotsAdd(a + ".", b);
    DotsAdd(a, ".");
    NoDots(b);
    assert "."[..0] == "";
  }

  /** Cutting a name at its last dot takes one dot away. */
  lemma CutAtLastDot(s: string)
    ensures var i := LastDot(s); if i < 0 then Dots(s) == 0 else Dots(s[..i]) == Dots(s) - 1
  {
    hide Dots, LastDot;
    var i := LastDot(s);
    if i < 0 {
      NoDots(s);
    } else {
      DotBefore(s[..i], s[i + 1..]);
      assert s == s[..i] + "." + s[i + 1..];
    }
  }

  lemma {:induction false} ChainLength(name: string)
    ensures |Chain(name)| == Dots(name)
    decreases |name|
  {
    CutAtLastDot(name);
    if LastDot(name) >= 0 { ChainLength(name[..LastDot(name)]); }
  }

  /** The chain holds exactly the prefixes that end at a dot, the longest first. */
  lemma {:induction false} ChainAt(name: string, k: nat)
    requires k < |name| && name[k] == '.'
    ensures |Chain(name)| == Dots(name) > Dots(name[k + 1..])
    ensures Chain(name)[Dots(name[k + 1..])] == Resolved(name[..k])
    decreases |name|
  {
    hide Dots, LastDot, Resolved;
    ChainLength(name);
    var i := LastDot(name);
    var cut := name[..i];
    assert Chain(name) == [Resolved(cut)] + Chain(cut);
    if k == i {
      NoDots(name[k + 1..]);
    } else {
      ChainAt(cut, k);
      DotBefore(name[k + 1..i], name[i + 1..]);
      assert name[k + 1..] == name[k + 1..i] + "." + name[i + 1..];
      assert cut[k + 1..] == name[k + 1..i] && cut[..k] == name[..k];
    }
  }

  /** The chain of a parent is the rest of the chain, also where the parent is the default section. */
  lemma ChainOfResolved(name: string)
    ensures Chain(Resolved(name)) == Chain(name) && Dots(Resolved(name)) == Dots(name)
  {
    NoDots(DEFAULT_SECTION);
    ChainLength(DEFAULT_SECTION);
    NoDots("");
    ChainLength("");
  }

  // Sections and files

  datatype Lookup = Found(value: string) | NotFound

  method InSlice(name: string, names: seq<string>) returns (r: bool)
    ensures r <==> name in names
  {
    for i := 0 to |names|
      invariant name !in names[..i]
    {
      if name == names[i] {
        return true;
      }
    }
    assert names[..|names|] == names;
    r := false;
  }

  /** The loop with which both kinds of deletion begin. */
  method FindName(names: seq<string>, name: string) returns (i: nat)
    ensures i == Place(names, name)
  {
    i := 0;
    while i < |names| && names[i] != name
      invariant i <= |names|
      invariant forall j | 0 <= j < i :: names[j] != name
    {
      i := i + 1;
    }
    assert name in names ==> Place(names, name) >= i;
  }

  class Section {
    const file: File
    const name: string
    var keys: map<string, string>
    var keyList: seq<string>

    ghost predicate Valid()
      reads this
    {
      Matches(keyList, keys)
    }

    ghost function Entries(): (es: seq<Entry>)
      requires Valid()
      reads this
    {
      Ordered(keyList, keys)
    }

    /** The section belongs to its file. It stops doing so when it is deleted, and remains usable. */
    ghost predicate Attached()
      reads file
    {
      name in file.sections && file.sections[name] == this
    }

    constructor (file: File, name: string)
      ensures this.file == file && this.name == name
      ensures Valid() && Entries() == []
    {
      this.file, this.name, keys, keyList := file, name, map[], [];
    }

    /** Creates a key, or gives an existing one a new value; an empty name is refused. */
    method NewKey(key: string, value: string) returns (ok: bool)
      requires Valid()
      modifies this
      ensures Valid()
      ensures ok <==> key != ""
      ensures Entries() == if ok then Put(old(Entries()), key, value) else old(Entries())
      ensures old(file.Valid() && Attached()) ==> file.Valid()
      ensures old(file.Valid() && Attached()) ==>
                file.Contents() ==
                if ok then PutKey(old(file.Contents()), name, key, value) else old(file.Contents())
    {
      hide Matches, Ordered, Place, Put;
      if key == "" {
        return false;
      }
      ok := true;
      StoreKey(key, value);
      ghost var belongs := old(file.Valid() && Attached());
      if belongs {
        ghost var before := old(file.SectionEntries());
        assert forall n | n in file.sections && n != name :: file.sections[n] != this;
        assert file.SectionEntries() == before[name := Entries()];
        file.ContentsUpdate(name, before, Entries());
      }
    }

    method StoreKey(key: string, value: string)
      requires Valid() && key != ""
      modifies this
      ensures Valid() && Entries() == Put(old(Entries()), key, value)
    {
      var there := InSlice(key, keyList);
      if there {
        ReplaceKey(key, value);
      } else {
        AddKey(key, value);
      }
    }

    method ReplaceKey(key: string, value: string)
      requires Valid() && key in keyList
      modifies this`keys
      ensures Valid() && Entries() == Put(old(Entries()), key, value)
    {
      OrderedUpdate(keyList, keys, key, value);
      keys := keys[key := value];
    }

    method AddKey(key: string, value: string)
      requires Valid() && key !in keyList
      modifies this
      ensures Valid() && Entries() == Put(old(Entries()), key, value)
    {
      OrderedAdd(keyList, keys, key, value);
      keyList := keyList + [key];
      keys := keys[key := value];
    }

    /** The keys in order, each with its value. */
    method List() returns (es: seq<Entry>)
      requires Valid() && file.Valid()
      ensures es == Entries()
    {
      es := [];
      for i := 0 to |keyList|
        invariant es == Entries()[..i]
      {
        assert keyList[i] in keyList;
        var v := GetKey(keyList[i]);
        es := es + [Item(keyList[i], v.value)];
      }
    }

    method DeleteKey(key: string)
      requires Valid()
      modifies this
      ensures Valid()
      ensures Entries() == Without(old(Entries()), Place(old(keyList), key))
    {
      var i := FindName(keyList, key);
      if i < |keyList| {
        OrderedWithout(keyList, keys, i);
        keyList := keyList[..i] + keyList[i + 1..];
        keys := keys - {key};
      }
    }

    /** The value of a key: the section's own, or that of the nearest parent which exists and has the key. */
    method GetKey(key: string) returns (r: Lookup)
      requires Valid() && file.Valid()
      ensures key in keys ==> r == Found(keys[key])
      ensures key !in keys ==> file.NearestIs(Chain(name), key, r)
      decreases Dots(name)
    {
      hide Matches, Ordered, Dots, LastDot, Resolved, File.NearestIs;
      if key in keys {
        return Found(keys[key]);
      }
      var sname := name;
      ghost var missing: seq<string> := [];
      var i := LastDot(sname);
      while i > -1
        invariant i == LastDot(sname)
        invariant Chain(name) == missing + Chain(sname)
        invariant forall n | n in missing :: n !in file.sections
        invariant Dots(sname) <= Dots(name)
        decreases |sname|
      {
        CutAtLastDot(sname);
        sname := sname[..i];
        ChainOfResolved(sname);
        var sec := file.GetSection(sname);
        if sec.Some? {
          r := sec.value.GetKey(key);
          file.NearestAfter(missing, Resolved(sname), key, r);
          return;
        }
        missing := missing + [Resolved(sname)];
        i := LastDot(sname);
      }
      r := NotFound;
      assert Chain(name) == missing;
      file.NearestMissing(missing, key);
    }
  }

  datatype Option<T> = Some(value: T) | None

  class File {
    var sections: map<string, Section>
    var sectionList: seq<string>

    ghost predicate Valid()
      reads this, sections.Values
    {
      && Matches(sectionList, sections) && "" !in sections
      && (forall n | n in sections :: sections[n].name == n && sections[n].file == this && sections[n].Valid())
    }

    ghost function SectionEntries(): (m: map<string, seq<Entry>>)
      requires Valid()
      reads this, sections.Values
      ensures m.Keys == sections.Keys
    {
      map n | n in sections :: sections[n].Entries()
    }

    ghost function Contents(): (doc: Doc)
      requires Valid()
      reads this, sections.Values
      ensures Names(doc) == sectionList
    {
      Ordered(sectionList, SectionEntries())
    }

    lemma ContentsUpdate(name: string, before: map<string, seq<Entry>>, es: seq<Entry>)
      requires Valid() && name in before && SectionEntries() == before[name := es]
      ensures Matches(sectionList, before) && name in sectionList
      ensures var i, doc := Place(sectionList, name), Ordered(sectionList, before);
              doc[i].value == before[name] && Contents() == doc[i := Item(name, es)]
    {
      assert SectionEntries().Keys == before.Keys;
      SameKeysMatch(sectionList, sections, before);
      OrderedUpdate(sectionList, before, name, es);
    }

    constructor ()
      ensures Valid() && Contents() == []
    {
      sections, sectionList := map[], [];
    }

    /** Each listed section, as the document shows it. */
    lemma SectionAt(i: nat)
      requires Valid() && i < |sectionList|
      ensures sectionList[i] != "" && sectionList[i] in sections
      ensures var sec := sections[sectionList[i]];
              sec.Valid() && sec.file == this && Contents()[i] == Item(sectionList[i], sec.Entries())
    {
      assert sectionList[i] in sectionList;
    }

    lemma AttachedIsValid(sec: Section)
      requires Valid() && sec.file == this && sec.Attached()
      ensures sec.Valid()
    {}

    ghost predicate HasIn(name: string, key: string)
      reads this, sections.Values
    {
      name in sections && key in sections[name].keys
    }

    /** The result is what the first section in the chain that exists and has the key holds. */
    ghost predicate NearestIs(chain: seq<string>, key: string, r: Lookup)
      reads this, sections.Values
    {
      match r
      case NotFound => forall i | 0 <= i < |chain| :: !HasIn(chain[i], key)
      case Found(v) =>
        exists i | 0 <= i < |chain| ::
          HasIn(chain[i], key) && sections[chain[i]].keys[key] == v && forall j | 0 <= j < i :: !HasIn(chain[j], key)
    }

    lemma NearestMissing(missing: seq<string>, key: string)
      requires forall n | n in missing :: n !in sections
      ensures NearestIs(missing, key, NotFound)
    {}

    lemma NearestAfter(missing: seq<string>, name: string, key: string, r: Lookup)
      requires forall n | n in missing :: n !in sections
      requires name in sections
      requires if HasIn(name, key) then r == Found(sections[name].keys[key]) else NearestIs(Chain(name), key, r)
      ensures NearestIs(missing + ([name] + Chain(name)), key, r)
    {
      var all := missing + ([name] + Chain(name));
      var m := |missing|;
      assert all[m] == name;
      assert forall i | 0 <= i < |Chain(name)| :: all[m + 1 + i] == Chain(name)[i];
      assert forall j | 0 <= j < m :: all[j] == missing[j] && missing[j] in missing && !HasIn(all[j], key);
      if !HasIn(name, key) {
        if r.Found? {
          var i :| 0 <= i < |Chain(name)| && HasIn(Chain(name)[i], key) &&
                   sections[Chain(name)[i]].keys[key] == r.value &&
                   forall j | 0 <= j < i :: !HasIn(Chain(name)[j], key);
          assert HasIn(all[m + 1 + i], key);
          forall j | 0 <= j < m + 1 + i ensures !HasIn(all[j], key) {
            if j > m {
              assert all[j] == Chain(name)[j - m - 1];
            }
          }
        } else {
          forall j | 0 <= j < |all| ensures !HasIn(all[j], key) {
            if j > m {
              assert all[j] == Chain(name)[j - m - 1];
            }
          }
        }
      }
    }

    /** The section of this name, created at the end if it is missing; an empty name is refused. */
    method NewSection(name: string) returns (r: Option<Section>)
      requires Valid()
      modifies this
      ensures Valid()
      ensures r.None? <==> name == ""
      ensures r.None? ==> Contents() == old(Contents())
      ensures r.Some? ==> Contents() == PutSection(old(Contents()), name)
      ensures r.Some? ==> r.value.file == this && r.value.name == name && r.value.Attached()
      ensures r.None? || name in old(sections) ==> sections == old(sections)
      ensures r.Some? && name !in old(sections) ==> fresh(r.value) && sections == old(sections)[name := r.value]
    {
      if name == "" {
        return None;
      }
      var there := InSlice(name, sectionList);
      if there {
        return Some(sections[name]);
      }
      var sec := Append(name);
      r := Some(sec);
    }

    method Append(name: string) returns (sec: Section)
      requires Valid() && name !in sectionList && name != ""
      modifies this
      ensures Valid() && Contents() == old(Contents()) + [Item(name, [])]
      ensures fresh(sec) && sec.file == this && sec.name == name && sections == old(sections)[name := sec]
    {
      hide Matches, Ordered;
      ghost var before := SectionEntries();
      SameKeysMatch(sectionList, sections, before);
      sec := new Section(this, name);
      OrderedAdd(sectionList, sections, name, sec);
      OrderedAdd(sectionList, before, name, []);
      sectionList := sectionList + [name];
      sections := sections[name := sec];
      assert SectionEntries() == before[name := []];
    }

    method GetSection(name: string) returns (r: Option<Section>)
      requires Valid()
      ensures r.Some? <==> Resolved(name) in sections
      ensures r.Some? ==> r.value == sections[Resolved(name)]
    {
      var n := if name == "" then DEFAULT_SECTION else name;
      r := if n in sections then Some(sections[n]) else None;
    }

    method DeleteSection(name: string)
      requires Valid()
      modifies this
      ensures Valid()
      ensures Contents() == Without(old(Contents()), Place(old(sectionList), Resolved(name)))
    {
      var n := if name == "" then DEFAULT_SECTION else name;
      var i := FindName(sectionList, n);
      if i < |sectionList| {
        RemoveAt(i);
      }
    }

    method RemoveAt(i: nat)
      requires Valid() && i < |sectionList|
      modifies this
      ensures Valid() && Contents() == Without(old(Contents()), i)
    {
      hide Matches, Ordered;
      var n := sectionList[i];
      ghost var before := SectionEntries();
      SameKeysMatch(sectionList, sections, before);
      OrderedWithout(sectionList, before, i);
      OrderedWithout(sectionList, sections, i);
      var after := sections - {n};
      assert forall m | m in after :: m in sections && after[m] == sections[m];
      sectionList, sections := sectionList[..i] + sectionList[i + 1..], after;
      assert SectionEntries() == before - {n};
    }
  }
}
