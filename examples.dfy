/** Worked cases: single keys and values run through the model, and a small
    configuration file built end to end. Each case follows from the general
    lemmas, one step at a time. */
module Examples {
  import opened Wrappers
  import opened Text
  import opened Numbers
  import opened CppTypes
  import opened ConfigErrors
  import opened Inference
  import opened Identifiers
  import opened Model
  import opened Render
  import opened Generate

  // Steps of the builder, stated once for any section and entry.

  /** An entry whose identifier is new and whose value quotes is appended. */
  lemma SectionAppend(name: string, es: seq<(string, string)>, done: seq<Flag>,
                      key: string, val: string, t: CppType, id: string, lit: string,
                      es': seq<(string, string)>, done': seq<Flag>)
    requires SectionFlags(name, es) == Success(done)
    requires ParseIdentifier(key, val) == Success((t, id))
    requires id !in IdentifierSet(done) && Wrap(t, val) == Success(lit)
    requires es' == es + [(key, val)] && done' == done + [Flag(name, id, lit, t)]
    ensures SectionFlags(name, es') == Success(done')
  {
    assert es'[..|es|] == es;
    AddEntryAppends(name, done, key, val, t, id, lit);
  }

  /** An entry whose identifier the section already has stops the section. */
  lemma SectionClash(name: string, es: seq<(string, string)>, done: seq<Flag>,
                     key: string, val: string, t: CppType, id: string, es': seq<(string, string)>)
    requires SectionFlags(name, es) == Success(done)
    requires ParseIdentifier(key, val) == Success((t, id))
    requires id in IdentifierSet(done) && es' == es + [(key, val)]
    ensures SectionFlags(name, es') == Failure(DefinedTwice(id, name))
  {
    assert es'[..|es|] == es;
  }

  /** A section that builds adds its flags after those already built. */
  lemma BuildAppend(sections: seq<Section>, done: seq<Flag>, s: Section, mine: seq<Flag>)
    requires BuildFlags(sections) == Success(done)
    requires SectionFlags(s.name, s.entries) == Success(mine)
    ensures BuildFlags(sections + [s]) == Success(done + mine)
  {
    assert (sections + [s])[..|sections|] == sections;
  }

  /** A section that fails makes the whole file fail with its error. */
  lemma BuildAppendFails(sections: seq<Section>, done: seq<Flag>, s: Section, e: Error)
    requires BuildFlags(sections) == Success(done)
    requires SectionFlags(s.name, s.entries) == Failure(e)
    ensures BuildFlags(sections + [s]) == Failure(e)
  {
    assert (sections + [s])[..|sections|] == sections;
  }

  // Values.

  /** A port number is a non-negative integer: `uint64_t`. */
  lemma InferPort() ensures Infer("8080") == Success(UInt64) {
    IntToStringInference(8080);
  }

  /** A negative integer: `int32_t`. */
  lemma InferNegative() ensures Infer("-1") == Success(Int32) {
    IntToStringInference(-1);
  }

  /** Zero is false to Python, so it falls through to `std::string`. */
  lemma InferZero() ensures Infer("0") == Success(StdString) {
    ZeroIntegerIsString("0");
  }

  /** A decimal fraction: `double`. */
  lemma InferFraction() ensures Infer("1.5") == Success(Double) {
    assert ParseInt("1.5").None?;
    FloatInference("1.5");
  }

  /** A float literal too small for a double is 0.0, false to Python, so it
      falls through to `std::string`. */
  lemma InferUnderflow() ensures Infer("1e-400") == Success(StdString) {
    assert ParseInt("1e-400").None?;
    assert IndexOfExponent("1e-400") == 1;
    assert "1e-400"[..1] == "1" && "1e-400"[1..] == "e-400" && "e-400"[1..] == "-400";
    assert ParseMantissa("1") == Some((1, 0));
    assert DigitsValue("400") == 400 by {
      assert "400"[..2] == "40" && "40"[..1] == "4";
    }
    assert ParseExponent("e-400") == Some(-400);
    Underflow(Decimal(false, 1, -400));
    ZeroFloatIsString("1e-400");
  }

  /** A boolean word in any case: `bool`. */
  lemma InferBoolWord() ensures Infer("TRUE") == Success(Bool) {
    BoolInference("TRUE");
  }

  /** An empty value infers nothing. */
  lemma InferEmpty() ensures Infer("") == Failure(NoTypeInferred) {
    InferenceFailsOnlyOnEmpty("");
  }

  // Keys.

  /** A bare key takes the inferred type. */
  lemma KeyPort() ensures ParseIdentifier("port", "8080") == Success((UInt64, "port")) {
    InferPort();
    UntypedKey("port", "8080");
  }

  lemma KeyTimeout() ensures ParseIdentifier("timeout", "-1") == Success((Int32, "timeout")) {
    InferNegative();
    UntypedKey("timeout", "-1");
  }

  /** A bare key that is no C++ identifier is refused. */
  lemma KeyInvalid() ensures ParseIdentifier("a-b", "1") == Failure(InvalidIdentifier("a-b")) {
    assert !IsIdentPart("a-b"[1]);
    assert IsToken("a-b");
    SplitToken("a-b");
    UntypedKeyInvalid("a-b", "1");
  }

  /** A typed key takes the named type, whatever the value. */
  lemma KeyTyped() ensures ParseIdentifier("uint32_t" + " " + "count", "5") == Success((UInt32, "count")) {
    TypedKey("uint32_t", " ", "count", "5");
  }

  /** `string` stands for `std::string`. */
  lemma KeyString() ensures ParseIdentifier("string" + " " + "name", "worker1") == Success((StdString, "name")) {
    TypedKey("string", " ", "name", "worker1");
  }

  /** A type keyword outside the table is refused. */
  lemma KeyUnknownType() ensures ParseIdentifier("long" + " " + "x", "5") == Failure(UnsupportedType("long")) {
    TypedKey("long", " ", "x", "5");
  }

  /** Three tokens are too many. */
  lemma KeyTooMany() ensures ParseIdentifier("a b c", "1") == Failure(TooMuchWhiteSpace("a b c")) {
    assert |Split("a b c")| == 3;
  }

  // Sections.

  lemma NoIdentifiers() ensures IdentifierSet([]) == {} { }

  /** `[root]` with `port = 8080`. */
  lemma RootSection()
    ensures SectionFlags("root", [("port", "8080")]) == Success([Flag("root", "port", "8080", UInt64)])
  {
    KeyPort();
    NoIdentifiers();
    SectionAppend("root", [], [], "port", "8080", UInt64, "port", "8080",
                  [("port", "8080")], [Flag("root", "port", "8080", UInt64)]);
  }

  lemma NetFirstEntry()
    ensures SectionFlags("net", [("timeout", "-1")]) == Success([Flag("net", "timeout", "-1", Int32)])
  {
    KeyTimeout();
    NoIdentifiers();
    SectionAppend("net", [], [], "timeout", "-1", Int32, "timeout", "-1",
                  [("timeout", "-1")], [Flag("net", "timeout", "-1", Int32)]);
  }

  /** A string value is stored quoted. */
  lemma QuoteWorker() ensures Wrap(StdString, "worker1") == Success("\"worker1\"") {
    assert "\"" + "worker1" + "\"" == "\"worker1\"";
  }

  /** `[net]` with `timeout = -1` and `string name = worker1`. */
  lemma NetSection()
    ensures SectionFlags("net", [("timeout", "-1"), ("string" + " " + "name", "worker1")])
      == Success([Flag("net", "timeout", "-1", Int32), Flag("net", "name", "\"worker1\"", StdString)])
  {
    NetFirstEntry();
    KeyString();
    QuoteWorker();
    var done := [Flag("net", "timeout", "-1", Int32)];
    assert "name" !in IdentifierSet(done);
    SectionAppend("net", [("timeout", "-1")], done, "string" + " " + "name", "worker1", StdString, "name", "\"worker1\"",
                  [("timeout", "-1"), ("string" + " " + "name", "worker1")],
                  [Flag("net", "timeout", "-1", Int32), Flag("net", "name", "\"worker1\"", StdString)]);
  }

  /** A value written with its quotes gives the same flag as one without. */
  lemma QuotedValueSameFlag()
    ensures AddEntry("net", [], "string" + " " + "name", "\"worker1\"")
      == AddEntry("net", [], "string" + " " + "name", "worker1")
  {
    TypedKey("string", " ", "name", "worker1");
    TypedKey("string", " ", "name", "\"worker1\"");
    QuoteWorker();
    assert Wrap(StdString, "\"worker1\"") == Success("\"worker1\"");
  }

  /** A bare key and a typed key naming the same identifier clash, and the
      error names the section. */
  lemma DuplicateInSection()
    ensures SectionFlags("net", [("x", "1"), ("uint32_t" + " " + "x", "2")]) == Failure(DefinedTwice("x", "net"))
  {
    XFirst();
    TypedKey("uint32_t", " ", "x", "2");
    var done := [Flag("net", "x", "1", UInt64)];
    assert "x" in IdentifierSet(done);
    SectionClash("net", [("x", "1")], done, "uint32_t" + " " + "x", "2", UInt32, "x",
                 [("x", "1"), ("uint32_t" + " " + "x", "2")]);
  }

  lemma XFirst() ensures SectionFlags("net", [("x", "1")]) == Success([Flag("net", "x", "1", UInt64)]) {
    IntToStringInference(1);
    UntypedKey("x", "1");
    NoIdentifiers();
    SectionAppend("net", [], [], "x", "1", UInt64, "x", "1", [("x", "1")], [Flag("net", "x", "1", UInt64)]);
  }

  // The whole file.

  /** The file `[root] port = 8080` then `[net] timeout = -1, string name = worker1`
      builds into three flags, in file order. */
  lemma ExampleBuild()
    ensures BuildFlags([Section("root", [("port", "8080")]),
                        Section("net", [("timeout", "-1"), ("string" + " " + "name", "worker1")])])
      == Success([Flag("root", "port", "8080", UInt64),
                  Flag("net", "timeout", "-1", Int32),
                  Flag("net", "name", "\"worker1\"", StdString)])
  {
    var root := Section("root", [("port", "8080")]);
    var net := Section("net", [("timeout", "-1"), ("string" + " " + "name", "worker1")]);
    var rootFlags := [Flag("root", "port", "8080", UInt64)];
    var netFlags := [Flag("net", "timeout", "-1", Int32), Flag("net", "name", "\"worker1\"", StdString)];
    RootSection();
    NetSection();
    BuildAppend([], [], root, rootFlags);
    assert [] + [root] == [root] && [] + rootFlags == rootFlags;
    BuildAppend([root], rootFlags, net, netFlags);
    assert [root] + [net] == [root, net];
    assert rootFlags + netFlags == [rootFlags[0], netFlags[0], netFlags[1]];
  }

  /** A file whose second section has a clash fails with that clash. */
  lemma ExampleBuildFails()
    ensures BuildFlags([Section("root", [("port", "8080")]),
                        Section("net", [("x", "1"), ("uint32_t" + " " + "x", "2")])])
      == Failure(DefinedTwice("x", "net"))
  {
    var root := Section("root", [("port", "8080")]);
    var net := Section("net", [("x", "1"), ("uint32_t" + " " + "x", "2")]);
    var rootFlags := [Flag("root", "port", "8080", UInt64)];
    RootSection();
    DuplicateInSection();
    BuildAppend([], [], root, rootFlags);
    assert [] + [root] == [root] && [] + rootFlags == rootFlags;
    BuildAppendFails([root], rootFlags, net, DefinedTwice("x", "net"));
    assert [root] + [net] == [root, net];
  }

  /** Only `net` gets a header. */
  lemma ExampleModules() ensures NonRoot(["root", "net"]) == ["net"] {
    assert ["root", "net"][..1] == ["root"] && ["root"][..0] == [];
  }

  /** The `net` header holds the two `net` flags. */
  lemma ExampleSlice()
    ensures FlagsOf([Flag("root", "port", "8080", UInt64),
                     Flag("net", "timeout", "-1", Int32),
                     Flag("net", "name", "\"worker1\"", StdString)], "net")
      == [Flag("net", "timeout", "-1", Int32), Flag("net", "name", "\"worker1\"", StdString)]
  {
    var a := [Flag("root", "port", "8080", UInt64)];
    var b := [Flag("net", "timeout", "-1", Int32), Flag("net", "name", "\"worker1\"", StdString)];
    assert a + b == [a[0], b[0], b[1]];
    FlagsOfAppend(a, b, "net");
    FlagsOfWhole(a, "net");
    FlagsOfWhole(b, "net");
  }

  /** Options of `root` keep their bare name; the others are prefixed. */
  lemma ExampleOptionNames()
    ensures OptionName(Flag("root", "port", "8080", UInt64)) == "port"
    ensures OptionName(Flag("net", "timeout", "-1", Int32)) == "net.timeout"
  { }

  /** The error line a duplicate prints. */
  lemma ExampleMessage()
    ensures Message(DefinedTwice("x", "net")) == "Config.ini: x is defined twice in module net"
  { }
}
