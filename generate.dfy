/** The entry point: parse the configuration, write the global option file,
    then one header per non-root module holding that module's flags. On any
    error the generator prints the error's message and exits with status 1. */
module Generate {
  import opened Wrappers
  import opened Text
  import opened ConfigErrors
  import opened Identifiers
  import opened Model
  import opened Render

  /** `[flag for flag in flags if flag.module == m]`: the flags of module `m`,
      in their order. */
  function FlagsOf(flags: seq<Flag>, m: string): (r: seq<Flag>)
    ensures |r| <= |flags|
    ensures forall f :: f in r <==> f in flags && f.moduleName == m
    decreases |flags|
  {
    if flags == [] then []
    else
      var last := flags[|flags| - 1];
      FlagsOf(flags[..|flags| - 1], m) + (if last.moduleName == m then [last] else [])
  }

  /** Filtering a concatenation filters each part. */
  lemma {:induction false} FlagsOfAppend(a: seq<Flag>, b: seq<Flag>, m: string)
    ensures FlagsOf(a + b, m) == FlagsOf(a, m) + FlagsOf(b, m)
    decreases |b|
  {
    if b != [] {
      var b' := b[..|b| - 1];
      assert (a + b)[..|a + b| - 1] == a + b';
      FlagsOfAppend(a, b', m);
    } else {
      assert a + b == a;
    }
  }

  /** Flags all of module `m` pass the filter unchanged; flags none of which
      is of module `m` leave nothing. */
  lemma {:induction false} FlagsOfWhole(fs: seq<Flag>, m: string)
    ensures (forall k :: 0 <= k < |fs| ==> fs[k].moduleName == m) ==> FlagsOf(fs, m) == fs
    ensures (forall k :: 0 <= k < |fs| ==> fs[k].moduleName != m) ==> FlagsOf(fs, m) == []
    decreases |fs|
  {
    if fs != [] {
      var prefix := fs[..|fs| - 1];
      FlagsOfWhole(prefix, m);
      assert forall k :: 0 <= k < |prefix| ==> prefix[k] == fs[k];
      assert fs == prefix + [fs[|fs| - 1]];
    }
  }

  /** The modules that get a header: every section but `root`, in order. */
  function NonRoot(modules: seq<string>): (r: seq<string>)
    ensures |r| <= |modules|
    ensures forall m :: m in r <==> m in modules && m != Root
    decreases |modules|
  {
    if modules == [] then []
    else
      var last := modules[|modules| - 1];
      NonRoot(modules[..|modules| - 1]) + (if last != Root then [last] else [])
  }

  /** Dropping `root` keeps the order of the other modules: it distributes
      over concatenation, and leaves a list without `root` as it is. */
  lemma {:induction false} NonRootAppend(a: seq<string>, b: seq<string>)
    ensures NonRoot(a + b) == NonRoot(a) + NonRoot(b)
    decreases |b|
  {
    if b != [] {
      var b' := b[..|b| - 1];
      assert (a + b)[..|a + b| - 1] == a + b';
      NonRootAppend(a, b');
    } else {
      assert a + b == a;
    }
  }

  lemma {:induction false} NonRootWithoutRoot(modules: seq<string>)
    requires Root !in modules
    ensures NonRoot(modules) == modules
    decreases |modules|
  {
    if modules != [] {
      var init, last := modules[..|modules| - 1], modules[|modules| - 1];
      assert last in modules && init + [last] == modules;
      NonRootWithoutRoot(init);
    }
  }

  /** The headers written, as (module, text of `module/config.h`). */
  function Headers(modules: seq<string>, flags: seq<Flag>): (hs: seq<(string, string)>)
    ensures |hs| == |NonRoot(modules)|
    ensures forall k :: 0 <= k < |hs| ==>
      hs[k] == (NonRoot(modules)[k], ModuleConfigStr(NonRoot(modules)[k], FlagsOf(flags, NonRoot(modules)[k])))
  {
    var ms := NonRoot(modules);
    seq(|ms|, k requires 0 <= k < |ms| => (ms[k], ModuleConfigStr(ms[k], FlagsOf(flags, ms[k]))))
  }

  /** The loop of `main` over the modules: each module other than `root` gets
      the header of its own flags. */
  method GenerateModuleConfigs(modules: seq<string>, flags: seq<Flag>) returns (headers: seq<(string, string)>)
    ensures headers == Headers(modules, flags)
  {
    headers := [];
    var i := 0;
    while i < |modules|
      invariant 0 <= i <= |modules|
      invariant |headers| == |NonRoot(modules[..i])|
      invariant forall k :: 0 <= k < |headers| ==>
        headers[k] == (NonRoot(modules[..i])[k], ModuleConfigStr(NonRoot(modules[..i])[k], FlagsOf(flags, NonRoot(modules[..i])[k])))
    {
      var m := modules[i];
      assert modules[..i + 1][..i] == modules[..i];
      if m != Root {
        headers := headers + [(m, ModuleConfigStr(m, FlagsOf(flags, m)))];
      }
      i := i + 1;
    }
    assert modules[..i] == modules;
  }

  /** Every flag of a built file belongs to the module of the section its
      entry came from, and has a valid identifier. */
  lemma BuildFlagsModules(sections: seq<Section>)
    requires BuildFlags(sections).Success?
    ensures |BuildFlags(sections).value| == |Entries(sections)|
    ensures forall k :: 0 <= k < |Entries(sections)| ==>
      && Entries(sections)[k].section < |sections|
      && BuildFlags(sections).value[k].moduleName == sections[Entries(sections)[k].section].name
      && IsIdentifier(BuildFlags(sections).value[k].identifier)
  {
    BuildFlagsResolve(sections);
    EntriesShape(sections);
    assert NamesTheirSection(Entries(sections), sections);
    var fs, es := BuildFlags(sections).value, Entries(sections);
    forall k | 0 <= k < |es|
      ensures fs[k].moduleName == sections[es[k].section].name && IsIdentifier(fs[k].identifier)
    {
      assert Resolves(es[k].name, (es[k].key, es[k].val), fs[k]);
    }
  }

  /** A file builds only when each of its sections does. */
  lemma {:induction false} BuildFlagsSections(sections: seq<Section>, i: nat)
    requires BuildFlags(sections).Success? && i < |sections|
    ensures SectionFlags(sections[i].name, sections[i].entries).Success?
    decreases |sections|
  {
    var prefix := sections[..|sections| - 1];
    if i < |prefix| {
      assert prefix[i] == sections[i];
      BuildFlagsSections(prefix, i);
    }
  }

  /** The slicing of `main`: with distinct section names, the flags filtered
      for the module of section `i` are exactly the flags of that section. */
  lemma {:induction false} SliceIsSection(sections: seq<Section>, i: nat)
    requires DistinctNames(sections) && BuildFlags(sections).Success? && i < |sections|
    ensures SectionFlags(sections[i].name, sections[i].entries).Success?
    ensures FlagsOf(BuildFlags(sections).value, sections[i].name)
      == SectionFlags(sections[i].name, sections[i].entries).value
    decreases |sections|
  {
    BuildFlagsSections(sections, i);
    var prefix, last := sections[..|sections| - 1], sections[|sections| - 1];
    var n := sections[i].name;
    var done, mine := BuildFlags(prefix).value, SectionFlags(last.name, last.entries).value;
    assert BuildFlags(sections).value == done + mine;
    FlagsOfAppend(done, mine, n);
    SectionFlagsSpec(last.name, last.entries);
    assert forall k :: 0 <= k < |mine| ==> mine[k].moduleName == last.name;
    FlagsOfWhole(mine, n);
    if i == |sections| - 1 {
      EarlierSectionsOtherModules(sections);
    } else {
      DistinctPrefix(sections);
      assert prefix[i] == sections[i];
      SliceIsSection(prefix, i);
      assert n != last.name;
    }
  }

  /** No flag of the sections before the last belongs to the last one's module. */
  lemma EarlierSectionsOtherModules(sections: seq<Section>)
    requires DistinctNames(sections) && |sections| > 0
    requires BuildFlags(sections[..|sections| - 1]).Success?
    ensures FlagsOf(BuildFlags(sections[..|sections| - 1]).value, sections[|sections| - 1].name) == []
  {
    var prefix := sections[..|sections| - 1];
    var done := BuildFlags(prefix).value;
    BuildFlagsModules(prefix);
    var es := Entries(prefix);
    forall k | 0 <= k < |done| ensures done[k].moduleName != sections[|sections| - 1].name {
      assert done[k].moduleName == prefix[es[k].section].name == sections[es[k].section].name;
    }
    FlagsOfWhole(done, sections[|sections| - 1].name);
  }

  lemma DistinctPrefix(sections: seq<Section>)
    requires DistinctNames(sections) && |sections| > 0
    ensures DistinctNames(sections[..|sections| - 1])
  {
    assert forall a :: 0 <= a < |sections| - 1 ==> sections[..|sections| - 1][a] == sections[a];
  }

  /** Each header written for a section of a built file holds exactly that
      section's flags. */
  lemma OwnFlags(sections: seq<Section>, i: nat)
    requires DistinctNames(sections) && Build(sections).Success? && i < |sections|
    requires sections[i].name != Root
    ensures sections[i].name in NonRoot(Build(sections).value.0)
    ensures SectionFlags(sections[i].name, sections[i].entries).Success?
    ensures FlagsOf(Build(sections).value.1, sections[i].name)
      == SectionFlags(sections[i].name, sections[i].entries).value
  {
    assert Build(sections).value.0[i] == sections[i].name;
    SliceIsSection(sections, i);
  }

  /** No two registrations of the global option file share a name (Boost
      refuses a duplicate option): the names are distinct across sections by
      their module prefix, and within one by the duplicate check. */
  lemma MainOptionsDistinct(sections: seq<Section>)
    requires DistinctNames(sections) && Build(sections).Success?
    ensures var fs := Build(sections).value.1;
      forall i, j :: 0 <= i < j < |fs| ==> OptionName(fs[i]) != OptionName(fs[j])
  {
    var fs := Build(sections).value.1;
    UniqueWithinModule(sections);
    BuildFlagsModules(sections);
    forall i, j | 0 <= i < j < |fs| ensures OptionName(fs[i]) != OptionName(fs[j]) {
      if OptionName(fs[i]) == OptionName(fs[j]) {
        OptionNameInjective(fs[i], fs[j]);
      }
    }
  }

  /** What a run produces: the global option file and the module headers. */
  datatype Output = Output(mainConfig: string, headers: seq<(string, string)>)

  /** `main` after the freshness check, from the sections read: either the
      files to write, or the one line printed before exiting with status 1. */
  method Run(sections: seq<Section>) returns (r: Result<Output, string>)
    ensures Build(sections).Failure? ==> r == Failure(Message(Build(sections).error))
    ensures Build(sections).Success? ==>
      var (modules, flags) := Build(sections).value;
      r == Success(Output(MainConfigStr(flags), Headers(modules, flags)))
  {
    var parsed := ParseConfig(sections);
    if parsed.Failure? {
      return Failure(Message(parsed.error));
    }
    var (modules, flags) := parsed.value;
    var mainConfig := MainConfigStr(flags);
    var headers := GenerateModuleConfigs(modules, flags);
    r := Success(Output(mainConfig, headers));
  }
}
