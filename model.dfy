/** Model building: the parsed sections of the configuration file become the
    list of section names and the ordered list of typed flags. */
module Model {
  import opened Wrappers
  import opened Text
  import opened CppTypes
  import opened ConfigErrors
  import opened Identifiers

  /** One configuration entry: its section, its identifier, its default value
      as C++ literal text, and its type. */
  datatype Flag = Flag(moduleName: string, identifier: string, val: string, cppType: CppType)

  /** A section of the file as the INI reader returns it: its name and its
      key/value pairs in file order. */
  datatype Section = Section(name: string, entries: seq<(string, string)>)

  /** The quoting step: a `std::string` value gets surrounding quotes unless it
      already starts with one; `val[0]` fails on the empty value. */
  function Wrap(t: CppType, val: string): (r: Result<string, Error>)
    ensures t != StdString ==> r == Success(val)
    ensures t == StdString ==> (r.Failure? <==> val == [])
    ensures r.Success? && t == StdString ==> |r.value| > 0 && r.value[0] == '"'
    ensures t == StdString && val != [] && val[0] != '"' ==>
      && |r.value| == |val| + 2
      && r.value[1..|r.value| - 1] == val
      && r.value[|r.value| - 1] == '"'
    ensures t == StdString && val != [] && val[0] == '"' ==> r == Success(val)
  {
    if t == StdString then
      if val == [] then Failure(EmptyStringValue)
      else if val[0] != '"' then Success("\"" + val + "\"")
      else Success(val)
    else Success(val)
  }

  /** Quoting twice is quoting once, and a value written with or without its
      quotes gives the same literal. */
  lemma WrapIdempotent(t: CppType, val: string)
    requires Wrap(t, val).Success?
    ensures Wrap(t, Wrap(t, val).value) == Wrap(t, val)
    ensures t == StdString && val[0] != '"' ==> Wrap(t, "\"" + val + "\"") == Wrap(t, val)
  {
  }

  /** The identifiers of a list of flags. */
  function IdentifierSet(fs: seq<Flag>): (ids: set<string>)
    ensures forall i :: 0 <= i < |fs| ==> fs[i].identifier in ids
    ensures forall x :: x in ids ==> exists i :: 0 <= i < |fs| && fs[i].identifier == x
  {
    set f | f in fs :: f.identifier
  }

  /** One loop iteration of `parse_config`: resolve the key, refuse an
      identifier the section already has, quote, append. */
  function AddEntry(name: string, done: seq<Flag>, key: string, val: string): Result<seq<Flag>, Error> {
    var parsed :- ParseIdentifier(key, val);
    if parsed.1 in IdentifierSet(done) then Failure(DefinedTwice(parsed.1, name))
    else
      var literal :- Wrap(parsed.0, val);
      Success(done + [Flag(name, parsed.1, literal, parsed.0)])
  }

  /** The flags of one section, entry by entry; the first error met stops it. */
  function SectionFlags(name: string, entries: seq<(string, string)>): (r: Result<seq<Flag>, Error>)
    decreases |entries|
  {
    if entries == [] then Success([])
    else
      var done :- SectionFlags(name, entries[..|entries| - 1]);
      AddEntry(name, done, entries[|entries| - 1].0, entries[|entries| - 1].1)
  }

  /** The flags of all sections, section by section; the first error met stops it. */
  function BuildFlags(sections: seq<Section>): Result<seq<Flag>, Error>
    decreases |sections|
  {
    if sections == [] then Success([])
    else
      var done :- BuildFlags(sections[..|sections| - 1]);
      var last := sections[|sections| - 1];
      var mine :- SectionFlags(last.name, last.entries);
      Success(done + mine)
  }

  /** What `parse_config` returns: the section names in file order, and the flags. */
  function Build(sections: seq<Section>): (r: Result<(seq<string>, seq<Flag>), Error>)
    ensures r.Success? ==>
      && |r.value.0| == |sections|
      && forall i :: 0 <= i < |sections| ==> r.value.0[i] == sections[i].name
    ensures r.Success? <==> BuildFlags(sections).Success?
    ensures r.Success? ==> r.value.1 == BuildFlags(sections).value
    ensures r.Failure? ==> r.error == BuildFlags(sections).error
  {
    var flags :- BuildFlags(sections);
    Success((seq(|sections|, i requires 0 <= i < |sections| => sections[i].name), flags))
  }

  /** `parse_config`, over already-read sections. */
  method ParseConfig(sections: seq<Section>) returns (r: Result<(seq<string>, seq<Flag>), Error>)
    ensures r == Build(sections)
  {
    var flags: seq<Flag> := [];
    var s := 0;
    while s < |sections|
      invariant 0 <= s <= |sections|
      invariant BuildFlags(sections[..s]) == Success(flags)
    {
      var mine := ParseSection(sections[s]);
      if mine.Failure? {
        BuildFailurePersists(sections, s, mine.error);
        return Failure(mine.error);
      }
      assert sections[..s + 1][..s] == sections[..s];
      flags := flags + mine.value;
      s := s + 1;
    }
    assert sections[..s] == sections;
    r := Success((seq(|sections|, i requires 0 <= i < |sections| => sections[i].name), flags));
  }

  /** The body of `parse_config`'s loop over one section: its keys, the set of
      identifiers met so far in the section, and the flags it appends. */
  method ParseSection(section: Section) returns (r: Result<seq<Flag>, Error>)
    ensures r == SectionFlags(section.name, section.entries)
  {
    var flags: seq<Flag> := [];
    var keys: set<string> := {};
    var k := 0;
    assert section.entries[..0] == [];
    while k < |section.entries|
      invariant 0 <= k <= |section.entries|
      invariant SectionFlags(section.name, section.entries[..k]) == Success(flags)
      invariant keys == IdentifierSet(flags)
    {
      var (key, val) := section.entries[k];
      SectionStep(section.name, section.entries, k, flags);
      var step := AddKey(section.name, flags, keys, key, val);
      if step.Failure? {
        SectionFailurePersists(section.name, section.entries, k + 1);
        return Failure(step.error);
      }
      flags, keys := step.value.0, step.value.1;
      k := k + 1;
    }
    assert section.entries[..k] == section.entries;
    r := Success(flags);
  }

  /** One key of a section: resolve it, refuse an identifier already in
      `keys`, quote a string value that has no quotes, append the flag. */
  method AddKey(name: string, flags: seq<Flag>, keys: set<string>, key: string, val: string)
    returns (r: Result<(seq<Flag>, set<string>), Error>)
    requires keys == IdentifierSet(flags)
    ensures r.Failure? ==> AddEntry(name, flags, key, val) == Failure(r.error)
    ensures r.Success? ==> AddEntry(name, flags, key, val) == Success(r.value.0) && r.value.1 == IdentifierSet(r.value.0)
  {
    var parsed := ParseIdentifier(key, val);
    if parsed.Failure? {
      return Failure(parsed.error);
    }
    var (cppType, identifier) := parsed.value;
    if identifier in keys {
      return Failure(DefinedTwice(identifier, name));
    }
    var newKeys := keys + {identifier};
    var literal := val;
    if cppType == StdString {
      if val == [] {
        return Failure(EmptyStringValue);
      }
      if val[0] != '"' {
        literal := "\"" + val + "\"";
      }
    }
    assert Wrap(cppType, val) == Success(literal);
    var flag := Flag(name, identifier, literal, cppType);
    AddEntryAppends(name, flags, key, val, cppType, identifier, literal);
    assert IdentifierSet(flags + [flag]) == newKeys;
    r := Success((flags + [flag], newKeys));
  }

  /** An entry whose key resolves to a new identifier and whose value quotes
      appends its flag. */
  lemma AddEntryAppends(name: string, done: seq<Flag>, key: string, val: string, t: CppType, id: string, lit: string)
    requires ParseIdentifier(key, val) == Success((t, id))
    requires id !in IdentifierSet(done) && Wrap(t, val) == Success(lit)
    ensures AddEntry(name, done, key, val) == Success(done + [Flag(name, id, lit, t)])
  {
  }

  lemma SectionStep(name: string, entries: seq<(string, string)>, k: nat, done: seq<Flag>)
    requires k < |entries| && SectionFlags(name, entries[..k]) == Success(done)
    ensures SectionFlags(name, entries[..k + 1]) == AddEntry(name, done, entries[k].0, entries[k].1)
  {
    assert entries[..k + 1][..k] == entries[..k];
  }

  /** An error in an earlier entry of a section is the section's error. */
  lemma {:induction false} SectionFailurePersists(name: string, entries: seq<(string, string)>, k: nat)
    requires k <= |entries| && SectionFlags(name, entries[..k]).Failure?
    ensures SectionFlags(name, entries) == SectionFlags(name, entries[..k])
    decreases |entries| - k
  {
    if k < |entries| {
      assert entries[..k + 1][..k] == entries[..k];
      SectionFailurePersists(name, entries, k + 1);
    } else {
      assert entries[..k] == entries;
    }
  }

  /** An error in section `s` is the whole build's error. */
  lemma {:induction false} BuildFailurePersists(sections: seq<Section>, s: nat, e: Error)
    requires s < |sections| && BuildFlags(sections[..s]).Success?
    requires SectionFlags(sections[s].name, sections[s].entries) == Failure(e)
    ensures BuildFlags(sections) == Failure(e)
  {
    var prefix := sections[..s + 1];
    assert prefix[..|prefix| - 1] == sections[..s];
    assert prefix[|prefix| - 1] == sections[s];
    assert prefix != [];
    assert BuildFlags(prefix).Failure?;
    assert BuildFlags(prefix) == Failure(e);
    BuildPrefixFailure(sections, s + 1);
  }

  lemma {:induction false} BuildPrefixFailure(sections: seq<Section>, k: nat)
    requires k <= |sections| && BuildFlags(sections[..k]).Failure?
    ensures BuildFlags(sections) == BuildFlags(sections[..k])
    decreases |sections| - k
  {
    if k < |sections| {
      assert sections[..k + 1][..k] == sections[..k];
      BuildPrefixFailure(sections, k + 1);
    } else {
      assert sections[..k] == sections;
    }
  }

  /** The flag an entry of section `name` stands for: same section, type and
      identifier as resolved from its key, and its value after quoting. */
  predicate Resolves(name: string, entry: (string, string), f: Flag) {
    && f.moduleName == name
    && ParseIdentifier(entry.0, entry.1) == Success((f.cppType, f.identifier))
    && Wrap(f.cppType, entry.1) == Success(f.val)
  }

  /** Entries and flags pair up one for one, in order, each flag resolved
      from its entry. */
  predicate Paired(name: string, es: seq<(string, string)>, fs: seq<Flag>)
    decreases |es|
  {
    && |es| == |fs|
    && (es == [] || (Paired(name, es[..|es| - 1], fs[..|fs| - 1]) && Resolves(name, es[|es| - 1], fs[|fs| - 1])))
  }

  /** Paired entries and flags match at every position. */
  lemma {:induction false} PairedAt(name: string, es: seq<(string, string)>, fs: seq<Flag>, k: nat)
    requires Paired(name, es, fs) && k < |es|
    ensures |fs| == |es| && Resolves(name, es[k], fs[k])
    decreases |es|
  {
    if k < |es| - 1 {
      PairedAt(name, es[..|es| - 1], fs[..|fs| - 1], k);
    }
  }

  /** A section's flags: one per entry, in entry order, with pairwise distinct identifiers. */
  lemma SectionFlagsSpec(name: string, entries: seq<(string, string)>)
    requires SectionFlags(name, entries).Success?
    ensures var fs := SectionFlags(name, entries).value;
      && |fs| == |entries|
      && (forall k :: 0 <= k < |fs| ==> Resolves(name, entries[k], fs[k]))
      && (forall i, j :: 0 <= i < j < |fs| ==> fs[i].identifier != fs[j].identifier)
  {
    var fs := SectionFlags(name, entries).value;
    SectionFlagsResolve(name, entries);
    forall k | 0 <= k < |fs| ensures Resolves(name, entries[k], fs[k]) {
      PairedAt(name, entries, fs, k);
    }
    SectionFlagsDistinct(name, entries);
  }

  /** A successful entry step appends exactly one flag, resolved from the entry. */
  lemma AddEntryResolves(name: string, done: seq<Flag>, key: string, val: string)
    requires AddEntry(name, done, key, val).Success?
    ensures var fs := AddEntry(name, done, key, val).value;
      |fs| == |done| + 1 && fs[..|done|] == done && Resolves(name, (key, val), fs[|done|])
  {
  }

  /** A section's flags pair up with its entries. */
  lemma {:induction false} SectionFlagsResolve(name: string, entries: seq<(string, string)>)
    requires SectionFlags(name, entries).Success?
    ensures Paired(name, entries, SectionFlags(name, entries).value)
    decreases |entries|
  {
    if entries != [] {
      var prefix, last := entries[..|entries| - 1], entries[|entries| - 1];
      SectionFlagsResolve(name, prefix);
      var done := SectionFlags(name, prefix).value;
      assert SectionFlags(name, entries) == AddEntry(name, done, last.0, last.1);
      AddEntryResolves(name, done, last.0, last.1);
    }
  }

  /** The flags of a section have pairwise distinct identifiers. */
  lemma {:induction false} SectionFlagsDistinct(name: string, entries: seq<(string, string)>)
    requires SectionFlags(name, entries).Success?
    ensures var fs := SectionFlags(name, entries).value;
      forall i, j :: 0 <= i < j < |fs| ==> fs[i].identifier != fs[j].identifier
    decreases |entries|
  {
    if entries != [] {
      var prefix := entries[..|entries| - 1];
      SectionFlagsDistinct(name, prefix);
      var done := SectionFlags(name, prefix).value;
      var fs := SectionFlags(name, entries).value;
      assert fs == done + [fs[|fs| - 1]];
      assert fs[|fs| - 1].identifier !in IdentifierSet(done);
    }
  }

  /** An entry whose key resolves and whose value can be quoted. */
  predicate EntryResolves(entry: (string, string)) {
    ParseIdentifier(entry.0, entry.1).Success? &&
    Wrap(ParseIdentifier(entry.0, entry.1).value.0, entry.1).Success?
  }

  /** Two entries whose keys resolve to the same identifier. */
  predicate SameIdentifier(a: (string, string), b: (string, string)) {
    && ParseIdentifier(a.0, a.1).Success?
    && ParseIdentifier(b.0, b.1).Success?
    && ParseIdentifier(a.0, a.1).value.1 == ParseIdentifier(b.0, b.1).value.1
  }

  /** A section builds when each entry resolves and no two share an identifier. */
  lemma {:induction false} SectionFlagsSucceed(name: string, entries: seq<(string, string)>)
    requires forall k :: 0 <= k < |entries| ==> EntryResolves(entries[k])
    requires forall i, j :: 0 <= i < j < |entries| ==> !SameIdentifier(entries[i], entries[j])
    ensures SectionFlags(name, entries).Success?
    decreases |entries|
  {
    if entries != [] {
      var prefix := entries[..|entries| - 1];
      forall k | 0 <= k < |prefix| ensures entries[k] == prefix[k] { }
      SectionFlagsSucceed(name, prefix);
      SectionFlagsSpec(name, prefix);
      var done := SectionFlags(name, prefix).value;
      var last := entries[|entries| - 1];
      var id := ParseIdentifier(last.0, last.1).value.1;
      assert id !in IdentifierSet(done) by {
        forall f | f in done ensures f.identifier != id {
          var i :| 0 <= i < |done| && done[i] == f;
          assert Resolves(name, prefix[i], done[i]);
          assert !SameIdentifier(entries[i], entries[|entries| - 1]);
        }
      }
    }
  }

  /** An entry of the file together with the position and name of its section. */
  datatype Entry = Entry(section: nat, name: string, key: string, val: string)

  function SectionEntries(index: nat, sec: Section): (es: seq<Entry>)
    ensures |es| == |sec.entries|
  {
    seq(|sec.entries|, k requires 0 <= k < |sec.entries| =>
      Entry(index, sec.name, sec.entries[k].0, sec.entries[k].1))
  }

  /** All entries of the file, section by section and in key order within each. */
  function Entries(sections: seq<Section>): seq<Entry>
    decreases |sections|
  {
    if sections == [] then []
    else Entries(sections[..|sections| - 1]) + SectionEntries(|sections| - 1, sections[|sections| - 1])
  }

  ghost predicate NamesTheirSection(es: seq<Entry>, sections: seq<Section>) {
    forall k :: 0 <= k < |es| ==> es[k].section < |sections| && es[k].name == sections[es[k].section].name
  }

  ghost predicate InSectionOrder(es: seq<Entry>) {
    forall i, j :: 0 <= i < j < |es| ==> es[i].section <= es[j].section
  }

  /** Entries name their section correctly and come in section order. */
  lemma {:induction false} EntriesShape(sections: seq<Section>)
    ensures NamesTheirSection(Entries(sections), sections)
    ensures InSectionOrder(Entries(sections))
    decreases |sections|
  {
    if sections != [] {
      var prefix := sections[..|sections| - 1];
      EntriesShape(prefix);
      assert NamesTheirSection(Entries(prefix), prefix);
      assert InSectionOrder(Entries(prefix));
      forall i | 0 <= i < |prefix| ensures sections[i] == prefix[i] { }
      var pes, mes := Entries(prefix), SectionEntries(|sections| - 1, sections[|sections| - 1]);
      var es := Entries(sections);
      assert es == pes + mes;
      forall k | 0 <= k < |es|
        ensures es[k].section < |sections| && es[k].name == sections[es[k].section].name
      {
        if k < |pes| {
          assert es[k] == pes[k];
          assert pes[k].section < |prefix|;
          assert prefix[pes[k].section] == sections[pes[k].section];
        } else {
          assert es[k] == mes[k - |pes|];
          assert mes[k - |pes|].section == |sections| - 1;
        }
      }
      forall i, j | 0 <= i < j < |es| ensures es[i].section <= es[j].section {
        if j < |pes| {
          assert es[i] == pes[i] && es[j] == pes[j];
        } else if i < |pes| {
          assert es[i] == pes[i] && es[j] == mes[j - |pes|];
          assert mes[j - |pes|].section == |sections| - 1;
        } else {
          assert es[i] == mes[i - |pes|] && es[j] == mes[j - |pes|];
          assert mes[i - |pes|].section == mes[j - |pes|].section;
        }
      }
    }
  }

  /** The flags of the whole file: one per entry, in file order, each resolved
      from its entry. */
  lemma {:induction false} BuildFlagsResolve(sections: seq<Section>)
    requires BuildFlags(sections).Success?
    ensures |BuildFlags(sections).value| == |Entries(sections)|
    ensures forall k :: 0 <= k < |Entries(sections)| ==>
      Resolves(Entries(sections)[k].name, (Entries(sections)[k].key, Entries(sections)[k].val), BuildFlags(sections).value[k])
    decreases |sections|
  {
    if sections != [] {
      var prefix := sections[..|sections| - 1];
      var last := sections[|sections| - 1];
      BuildFlagsResolve(prefix);
      SectionFlagsSpec(last.name, last.entries);
      var done, mine := BuildFlags(prefix).value, SectionFlags(last.name, last.entries).value;
      var pes, mes := Entries(prefix), SectionEntries(|sections| - 1, last);
      var fs, es := BuildFlags(sections).value, Entries(sections);
      assert fs == done + mine && es == pes + mes;
      forall k | 0 <= k < |fs| ensures Resolves(es[k].name, (es[k].key, es[k].val), fs[k]) {
        if k < |done| {
          assert fs[k] == done[k] && es[k] == pes[k];
        } else {
          assert fs[k] == mine[k - |done|] && es[k] == mes[k - |done|];
          assert (es[k].key, es[k].val) == last.entries[k - |done|];
        }
      }
    }
  }

  /** Flags from entries of one section have distinct identifiers. */
  lemma {:induction false} BuildFlagsDistinct(sections: seq<Section>)
    requires BuildFlags(sections).Success?
    ensures |BuildFlags(sections).value| == |Entries(sections)|
    ensures forall i, j :: 0 <= i < j < |Entries(sections)| && Entries(sections)[i].section == Entries(sections)[j].section ==>
      BuildFlags(sections).value[i].identifier != BuildFlags(sections).value[j].identifier
    decreases |sections|
  {
    if sections != [] {
      var prefix := sections[..|sections| - 1];
      var last := sections[|sections| - 1];
      BuildFlagsDistinct(prefix);
      EntriesShape(prefix);
      assert NamesTheirSection(Entries(prefix), prefix);
      SectionFlagsSpec(last.name, last.entries);
      var done, mine := BuildFlags(prefix).value, SectionFlags(last.name, last.entries).value;
      var pes, mes := Entries(prefix), SectionEntries(|sections| - 1, last);
      var fs, es := BuildFlags(sections).value, Entries(sections);
      assert fs == done + mine && es == pes + mes;
      forall i, j | 0 <= i < j < |fs| && es[i].section == es[j].section
        ensures fs[i].identifier != fs[j].identifier
      {
        if j < |done| {
          assert fs[i] == done[i] && fs[j] == done[j] && es[i] == pes[i] && es[j] == pes[j];
        } else if i >= |done| {
          assert fs[i] == mine[i - |done|] && fs[j] == mine[j - |done|];
        }
      }
    }
  }

  /** The section names of a file, as the INI reader guarantees them, are distinct. */
  ghost predicate DistinctNames(sections: seq<Section>) {
    forall i, j :: 0 <= i < j < |sections| ==> sections[i].name != sections[j].name
  }

  /** No two flags of one module share an identifier, while the same identifier
      may appear in different modules. */
  lemma UniqueWithinModule(sections: seq<Section>)
    requires DistinctNames(sections) && Build(sections).Success?
    ensures var fs := Build(sections).value.1;
      forall i, j :: 0 <= i < j < |fs| && fs[i].moduleName == fs[j].moduleName ==>
        fs[i].identifier != fs[j].identifier
  {
    BuildFlagsResolve(sections);
    BuildFlagsDistinct(sections);
    EntriesShape(sections);
    assert NamesTheirSection(Entries(sections), sections);
    var fs, es := Build(sections).value.1, Entries(sections);
    forall i, j | 0 <= i < j < |fs| && fs[i].moduleName == fs[j].moduleName
      ensures fs[i].identifier != fs[j].identifier
    {
      assert Resolves(es[i].name, (es[i].key, es[i].val), fs[i]);
      assert Resolves(es[j].name, (es[j].key, es[j].val), fs[j]);
      assert es[i].section == es[j].section;
    }
  }

  /** A file builds when every section does. */
  lemma {:induction false} BuildFlagsSucceed(sections: seq<Section>)
    requires forall i :: 0 <= i < |sections| ==> SectionFlags(sections[i].name, sections[i].entries).Success?
    ensures BuildFlags(sections).Success?
    decreases |sections|
  {
    if sections != [] {
      var prefix := sections[..|sections| - 1];
      forall i | 0 <= i < |prefix| ensures prefix[i] == sections[i] { }
      BuildFlagsSucceed(prefix);
    }
  }

  /** Conversely, a file whose entries all resolve and whose sections have
      no repeated identifier builds without error. */
  lemma BuildSucceeds(sections: seq<Section>)
    requires forall i, k :: 0 <= i < |sections| && 0 <= k < |sections[i].entries| ==>
      EntryResolves(sections[i].entries[k])
    requires forall i, k, l :: 0 <= i < |sections| && 0 <= k < l < |sections[i].entries| ==>
      !SameIdentifier(sections[i].entries[k], sections[i].entries[l])
    ensures Build(sections).Success?
  {
    forall i | 0 <= i < |sections| ensures SectionFlags(sections[i].name, sections[i].entries).Success? {
      SectionFlagsSucceed(sections[i].name, sections[i].entries);
    }
    BuildFlagsSucceed(sections);
  }
}
