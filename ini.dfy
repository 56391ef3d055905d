/** The structured view of an INI file that the `ini` crate gives the
    handlers: an ordered list of sections, each an ordered list of
    (key, value) entries in which a key may repeat. Sections are looked up by
    name, the first one of a name being the one `set` and `section_mut` act on. */
module Ini {
  import opened Wrappers

  datatype Section = Section(name: string, entries: seq<(string, string)>)

  datatype Document = Document(sections: seq<Section>)

  /** The placeholder key `append_ini_entry` sets to make sure its section exists. */
  const Placeholder := "dummy"

  /** Index of the first section called `name`. */
  function Find(sections: seq<Section>, name: string): (r: Option<nat>)
    ensures r.Some? ==> r.value < |sections| && sections[r.value].name == name
    ensures r.Some? ==> forall j :: 0 <= j < r.value ==> sections[j].name != name
    ensures r.None? ==> forall j :: 0 <= j < |sections| ==> sections[j].name != name
  {
    if sections == [] then None
    else if sections[0].name == name then Some(0)
    else match Find(sections[1..], name)
      case None => None
      case Some(i) => Some(i + 1)
  }

  /** The entries of the first section called `name`, none if there is no such section. */
  function EntriesOf(doc: Document, name: string): seq<(string, string)> {
    match Find(doc.sections, name)
    case None => []
    case Some(i) => doc.sections[i].entries
  }

  /** The values stored under `key`, in order. */
  function Values(entries: seq<(string, string)>, key: string): seq<string> {
    if entries == [] then []
    else (if entries[0].0 == key then [entries[0].1] else []) + Values(entries[1..], key)
  }

  /** The entries whose key is not `key`, in order. */
  function Without(entries: seq<(string, string)>, key: string): (r: seq<(string, string)>)
    ensures |r| <= |entries|
    ensures forall e :: e in r <==> e in entries && e.0 != key
  {
    if entries == [] then []
    else (if entries[0].0 == key then [] else [entries[0]]) + Without(entries[1..], key)
  }

  /** `Properties::insert`: every earlier entry of `key` goes, the new one is appended. */
  function Insert(entries: seq<(string, string)>, key: string, value: string): seq<(string, string)> {
    Without(entries, key) + [(key, value)]
  }

  /** The document with a section called `name`, appended empty if there was none. */
  function WithSection(doc: Document, name: string): (r: Document)
    ensures Find(r.sections, name).Some?
  {
    if Find(doc.sections, name).Some? then doc
    else
      var r := Document(doc.sections + [Section(name, [])]);
      assert r.sections[|doc.sections|].name == name;
      r
  }

  /** `ini.with_section(Some(name)).set(key, value)`. */
  function SetEntry(doc: Document, name: string, key: string, value: string): (r: Document)
    ensures Find(r.sections, name).Some?
  {
    var d := WithSection(doc, name);
    var i := Find(d.sections, name).value;
    var section := Section(name, Insert(d.sections[i].entries, key, value));
    FindAfterUpdate(d.sections, i, section, name);
    Document(d.sections[i := section])
  }

  /** `ini.section_mut(Some(name)).unwrap().append(key, value)`; the section must exist. */
  function AppendEntry(doc: Document, name: string, key: string, value: string): (r: Document)
    requires Find(doc.sections, name).Some?
    ensures |r.sections| == |doc.sections| && Find(r.sections, name) == Find(doc.sections, name)
    ensures var i := Find(doc.sections, name).value;
      && r.sections[i].entries == doc.sections[i].entries + [(key, value)]
      && forall j :: 0 <= j < |doc.sections| && j != i ==> r.sections[j] == doc.sections[j]
  {
    var i := Find(doc.sections, name).value;
    var section := Section(name, doc.sections[i].entries + [(key, value)]);
    FindAfterUpdate(doc.sections, i, section, name);
    Document(doc.sections[i := section])
  }

  /** `ini.with_section(Some(name)).delete(&key)`: every entry of `key` goes from
      every section called `name`. */
  function DeleteEntry(doc: Document, name: string, key: string): (r: Document)
    ensures |r.sections| == |doc.sections|
    ensures forall j :: 0 <= j < |doc.sections| ==> r.sections[j].name == doc.sections[j].name
    ensures forall j :: 0 <= j < |doc.sections| && doc.sections[j].name != name ==> r.sections[j] == doc.sections[j]
    ensures forall j, e :: 0 <= j < |doc.sections| && doc.sections[j].name == name ==>
      (e in r.sections[j].entries <==> e in doc.sections[j].entries && e.0 != key)
  {
    Document(seq(|doc.sections|, j requires 0 <= j < |doc.sections| =>
      if doc.sections[j].name == name then Section(name, Without(doc.sections[j].entries, key))
      else doc.sections[j]))
  }

  /** The three steps `append_ini_entry` takes: set the placeholder so that the
      section exists, append the entry, delete the placeholder. */
  function AppendThroughPlaceholder(doc: Document, name: string, key: string, value: string): (r: Document)
    ensures Find(r.sections, name).Some?
  {
    var withPlaceholder := SetEntry(doc, name, Placeholder, Placeholder);
    DeleteEntry(AppendEntry(withPlaceholder, name, key, value), name, Placeholder)
  }

  lemma {:induction false} ValuesConcat(a: seq<(string, string)>, b: seq<(string, string)>, key: string)
    ensures Values(a + b, key) == Values(a, key) + Values(b, key)
  {
    if a == [] {
      assert a + b == b;
    } else {
      assert (a + b)[1..] == a[1..] + b;
      ValuesConcat(a[1..], b, key);
    }
  }

  lemma {:induction false} WithoutConcat(a: seq<(string, string)>, b: seq<(string, string)>, key: string)
    ensures Without(a + b, key) == Without(a, key) + Without(b, key)
  {
    if a == [] {
      assert a + b == b;
    } else {
      assert (a + b)[1..] == a[1..] + b;
      WithoutConcat(a[1..], b, key);
    }
  }

  /** Removing a key leaves none of its values and every other key's values as they were. */
  lemma {:induction false} ValuesWithout(entries: seq<(string, string)>, removed: string, key: string)
    ensures Values(Without(entries, removed), key) == if key == removed then [] else Values(entries, key)
  {
    if entries != [] {
      ValuesWithout(entries[1..], removed, key);
      var head := if entries[0].0 == removed then [] else [entries[0]];
      ValuesConcat(head, Without(entries[1..], removed), key);
      if entries[0].0 != removed {
        assert [entries[0]][1..] == [];
      }
    }
  }

  /** Removing a key twice is removing it once. */
  lemma {:induction false} WithoutTwice(entries: seq<(string, string)>, key: string)
    ensures Without(Without(entries, key), key) == Without(entries, key)
  {
    if entries != [] {
      WithoutTwice(entries[1..], key);
      var head := if entries[0].0 == key then [] else [entries[0]];
      WithoutConcat(head, Without(entries[1..], key), key);
      if entries[0].0 != key {
        assert [entries[0]][1..] == [];
      }
    }
  }

  /** The first section called `name` after `SetEntry` holds its earlier
      entries minus those of `key`, then the new entry. */
  lemma SetEntryEntries(doc: Document, name: string, key: string, value: string)
    ensures EntriesOf(SetEntry(doc, name, key, value), name)
         == Without(EntriesOf(doc, name), key) + [(key, value)]
  {
    var d := WithSection(doc, name);
    var i := Find(d.sections, name).value;
    FindAfterUpdate(d.sections, i, Section(name, Insert(d.sections[i].entries, key, value)), name);
    if Find(doc.sections, name).None? {
      assert i == |doc.sections|;
    }
  }

  /** `SetEntry` adds a section only when none had the name, and changes no
      section but the first one called `name`. */
  lemma SetEntryShape(doc: Document, name: string, key: string, value: string)
    ensures var r := SetEntry(doc, name, key, value);
      && |r.sections| == |doc.sections| + (if Find(doc.sections, name).Some? then 0 else 1)
      && (forall j :: 0 <= j < |doc.sections| && j != Find(r.sections, name).value ==>
            r.sections[j] == doc.sections[j])
  {
    var d := WithSection(doc, name);
    var i := Find(d.sections, name).value;
    FindAfterUpdate(d.sections, i, Section(name, Insert(d.sections[i].entries, key, value)), name);
  }

  /** `SetEntry` leaves `key` with the single value `value` in the first section
      called `name`, which it creates at the end when missing; the section's
      other keys keep their values, and no other section changes. */
  lemma SetEntryMeaning(doc: Document, name: string, key: string, value: string)
    ensures var r := SetEntry(doc, name, key, value);
      && Values(EntriesOf(r, name), key) == [value]
      && (forall k :: k != key ==> Values(EntriesOf(r, name), k) == Values(EntriesOf(doc, name), k))
      && |r.sections| == |doc.sections| + (if Find(doc.sections, name).Some? then 0 else 1)
      && (forall j :: 0 <= j < |doc.sections| && j != Find(r.sections, name).value ==>
            r.sections[j] == doc.sections[j])
  {
    SetEntryEntries(doc, name, key, value);
    SetEntryShape(doc, name, key, value);
    var before := EntriesOf(doc, name);
    ValuesConcat(Without(before, key), [(key, value)], key);
    ValuesWithout(before, key, key);
    assert Values([(key, value)], key) == [value];
    forall k | k != key
      ensures Values(Without(before, key) + [(key, value)], k) == Values(before, k)
    {
      ValuesConcat(Without(before, key), [(key, value)], k);
      ValuesWithout(before, key, k);
      assert Values([(key, value)], k) == [];
    }
  }

  /** Replacing the first section of a name by one of the same name keeps it first. */
  lemma FindAfterUpdate(sections: seq<Section>, i: nat, s: Section, name: string)
    requires Find(sections, name) == Some(i) && s.name == name
    ensures Find(sections[i := s], name) == Some(i)
  {
    var updated := sections[i := s];
    assert updated[i].name == name;
    assert forall j :: 0 <= j < i ==> updated[j].name != name;
  }

  /** Appending to an existing section and then deleting a key from the
      sections of that name leaves the first one with its entries and the new
      one, minus that key. */
  lemma AppendThenDelete(doc: Document, name: string, key: string, value: string, removed: string)
    requires Find(doc.sections, name).Some?
    ensures EntriesOf(DeleteEntry(AppendEntry(doc, name, key, value), name, removed), name)
         == Without(EntriesOf(doc, name) + [(key, value)], removed)
  {
    var i := Find(doc.sections, name).value;
    var a := AppendEntry(doc, name, key, value);
    FindAfterUpdate(doc.sections, i, Section(name, doc.sections[i].entries + [(key, value)]), name);
    var r := DeleteEntry(a, name, removed);
    assert r.sections[i] == Section(name, Without(a.sections[i].entries, removed));
    assert forall j :: 0 <= j < i ==> r.sections[j].name != name;
  }

  /** `AppendThroughPlaceholder` leaves the first section called `name` with its
      earlier entries minus any placeholder entry, followed by the new entry
      (unless the new key is the placeholder itself, which the final delete
      also removes). */
  lemma AppendMeaning(doc: Document, name: string, key: string, value: string)
    ensures EntriesOf(AppendThroughPlaceholder(doc, name, key, value), name)
         == Without(EntriesOf(doc, name), Placeholder) + (if key == Placeholder then [] else [(key, value)])
  {
    var w := SetEntry(doc, name, Placeholder, Placeholder);
    SetEntryEntries(doc, name, Placeholder, Placeholder);
    AppendThenDelete(w, name, key, value, Placeholder);
    var before := EntriesOf(doc, name);
    var tail := [(Placeholder, Placeholder), (key, value)];
    assert EntriesOf(w, name) + [(key, value)] == Without(before, Placeholder) + tail;
    WithoutConcat(Without(before, Placeholder), tail, Placeholder);
    WithoutTwice(before, Placeholder);
    assert Without(tail, Placeholder) == if key == Placeholder then [] else [(key, value)];
  }

  /** `AppendThroughPlaceholder` adds a section only when none had the name,
      and sections of other names do not change. */
  lemma AppendShape(doc: Document, name: string, key: string, value: string)
    ensures var r := AppendThroughPlaceholder(doc, name, key, value);
      && |r.sections| == |doc.sections| + (if Find(doc.sections, name).Some? then 0 else 1)
      && (forall j :: 0 <= j < |doc.sections| && doc.sections[j].name != name ==>
            r.sections[j] == doc.sections[j])
  {
    SetEntryShape(doc, name, Placeholder, Placeholder);
  }

  /** After `AppendThroughPlaceholder` no section called `name` holds a
      placeholder entry, whether or not one was there before. */
  lemma AppendLeavesNoPlaceholder(doc: Document, name: string, key: string, value: string)
    ensures var r := AppendThroughPlaceholder(doc, name, key, value);
      forall j :: 0 <= j < |r.sections| && r.sections[j].name == name ==>
        Values(r.sections[j].entries, Placeholder) == []
  {
    var w := SetEntry(doc, name, Placeholder, Placeholder);
    var a := AppendEntry(w, name, key, value);
    var r := DeleteEntry(a, name, Placeholder);
    forall j | 0 <= j < |r.sections| && r.sections[j].name == name
      ensures Values(r.sections[j].entries, Placeholder) == []
    {
      ValuesWithout(a.sections[j].entries, Placeholder, Placeholder);
    }
  }

  /** Appending keeps the values already stored under `key` and adds `value`
      after them; other keys keep theirs, the placeholder aside. */
  lemma AppendKeepsEarlierValues(doc: Document, name: string, key: string, value: string)
    requires key != Placeholder
    ensures var r := AppendThroughPlaceholder(doc, name, key, value);
      && Values(EntriesOf(r, name), key) == Values(EntriesOf(doc, name), key) + [value]
      && forall k :: k != key && k != Placeholder ==>
           Values(EntriesOf(r, name), k) == Values(EntriesOf(doc, name), k)
  {
    AppendMeaning(doc, name, key, value);
    ValuesAfterAppend(EntriesOf(doc, name), key, value);
  }

  /** The entry-level half of `AppendKeepsEarlierValues`. */
  lemma ValuesAfterAppend(before: seq<(string, string)>, key: string, value: string)
    requires key != Placeholder
    ensures Values(Without(before, Placeholder) + [(key, value)], key) == Values(before, key) + [value]
    ensures forall k :: k != key && k != Placeholder ==>
      Values(Without(before, Placeholder) + [(key, value)], k) == Values(before, k)
  {
    ValuesConcat(Without(before, Placeholder), [(key, value)], key);
    ValuesWithout(before, Placeholder, key);
    forall k | k != key && k != Placeholder
      ensures Values(Without(before, Placeholder) + [(key, value)], k) == Values(before, k)
    {
      ValuesConcat(Without(before, Placeholder), [(key, value)], k);
      ValuesWithout(before, Placeholder, k);
    }
  }

  /** On a section `[A]` holding `x=1`, setting `x` to 2 keeps only `x=2`,
      while appending keeps both entries and no placeholder. */
  lemma SetVersusAppend()
    ensures var doc := Document([Section("A", [("x", "1")])]);
      && EntriesOf(SetEntry(doc, "A", "x", "2"), "A") == [("x", "2")]
      && EntriesOf(AppendThroughPlaceholder(doc, "A", "x", "2"), "A") == [("x", "1"), ("x", "2")]
  {
    var doc := Document([Section("A", [("x", "1")])]);
    SetEntryMeaning(doc, "A", "x", "2");
    AppendMeaning(doc, "A", "x", "2");
    assert EntriesOf(doc, "A") == [("x", "1")];
    assert Without([("x", "1")], "x") == [];
    assert Without([("x", "1")], Placeholder) == [("x", "1")];
  }
}
