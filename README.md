# knobManager configuration generator, modelled in Dafny

knobManager turns one INI file, `config.ini`, into C++ source. Each section of
the file is a module. Each key is a flag: either a bare identifier, whose C++
type is inferred from the value, or a type keyword and an identifier separated
by whitespace.

The generator writes two kinds of file:

- `config.cpp`, which registers every flag with Boost program_options. A
  flag of the `root` module is registered under its bare name; any other
  flag is registered as `module.identifier`.
- One `module/config.h` per module other than `root`. It declares a
  `config_t` struct holding that module's flags, a default constructor that
  reads them from the option store, and a full constructor that takes them
  as parameters.

On any error the generator prints the exception's message and exits with
status 1.

The model follows `config.py` part by part:

- **Wrappers**: `Option` and a failure-compatible `Result`.
- **Text**:
  - `str.split()` with Python's whitespace set, and the lemmas about where
    it cuts;
  - ASCII `lower`;
  - the identifier pattern `^[A-Za-z_][A-Za-z0-9_]*$`;
  - `str.join`, with the position of each piece in the joined text;
  - concatenation of parts, with the start of each part.
- **Numbers**:
  - `int()` and `float()` as decimal grammars that say when each raises;
  - a float literal kept exactly, as mantissa and exponent; whether `float()`
    gives zero follows IEEE 754 rounding to the nearest double, so a literal
    too small for a double (`1e-400`) is zero;
  - `str(n)`, with the round trip through `int()`.
- **CppTypes**: the C++ types, the `cpp_types` keyword table with its
  `string` shorthand, and each type's spelling.
- **ConfigErrors**: each exception the generator can raise, and the line
  `print(e)` writes for it.
- **Inference**:
  - the `py_types` table and `py_to_cpp`;
  - `Infer`, the reference definition of the inference;
  - `InferCppType`, the loop of `infer_cpp_type` with its early `break`,
    proved equal to `Infer`.
- **Identifiers**: `parse_identifier` as a function over `Split`.
- **Model**:
  - `Flag`, the quoting step `Wrap`, and the specification functions
    `AddEntry`, `SectionFlags`, `BuildFlags` and `Build`.
  - `parse_config` as three methods, each proved equal to its specification
    function. `ParseConfig` is the loop over sections and `ParseSection` the
    loop over one section's keys. `AddKey` is that loop's body: it keeps the
    `keys` set and quotes a string value in place.
  - The lemmas about the result: one flag per entry, in order; distinct
    identifiers within a module; the first error wins; and when a file
    builds.
- **Render**:
  - `option_desc`, `main_config_str`, `type_decl`, `default_decl`,
    `param_decl`, `assigned_val` and `module_config_str` as string
    functions;
  - lemmas that say where each flag's piece stands in the generated text and
    what it names.
- **Generate**:
  - the loop of `main` over the modules as a method, proved equal to
    `Headers`;
  - `Run`, the whole generator from the read sections to the files' text or
    the error line;
  - the lemmas that each header holds exactly its own section's flags and
    that no option is registered twice.
- **Examples**: worked cases. These include the zero quirk, typed and
  untyped keys, a duplicate identifier, quoting, and a two-section file built
  end to end.

Some behaviour of the code that is easy to miss, and that the model keeps:

- A negative integer value is typed `int32_t` and a positive one `uint64_t`.
- A value that is zero to Python is falsy, so it fails the `int` and `float`
  tests and is typed `std::string`. This covers `0`, `-0`, `0.0`, and a float
  literal that underflows to 0.0, such as `1e-400`.
- A typed key is never checked against its value (see
  `Identifiers.TypedKeyIgnoresValue`).
- An empty value under a bare key has no inferred type. `py_to_cpp[None]`
  raises `KeyError`, and the message printed is `None`.
- An empty value under a `string` key raises `IndexError` on `val[0]`.

## Model

| member | source | states |
|---|---|---|
| `Text.Split` | config.py:66 | every token `key.split()` returns is non-empty and holds no whitespace |
| `Text.SplitKeepsText` | config.py:66 | splitting loses only whitespace: the tokens concatenated are the key's non-space characters |
| `Text.SplitToken` | config.py:66-67 | a key without whitespace is one token, itself |
| `Text.SplitTwo` | config.py:66-71 | two tokens separated by whitespace split into exactly those two |
| `Text.IsIdentifier` | config.py:61 | the identifier pattern: a letter or underscore, then letters, digits and underscores |
| `Text.IdentifierIsToken` | config.py:61-68 | a string matching the identifier pattern is one token of itself |
| `Text.JoinAt` | config.py:111 | in `sep.join(xs)` each piece stands at its offset, followed by the separator when another piece follows |
| `Text.JoinLength` | config.py:111 | the joined text is as long as the pieces plus one separator between each two |
| `Text.ConcatAt` | config.py:162-193 | in a concatenation of parts each part stands at the sum of the lengths before it |
| `Text.Join` | config.py:111 | `sep.join(xs)`; its layout is stated by `Text.JoinAt` and `Text.JoinLength` |
| `Numbers.IntRoundTrip` | config.py:18 | `int(str(n))` is `n` for every integer `n` |
| `Numbers.IntIsFloat` | config.py:18-19 | every integer literal is a float literal of the same value |
| `Numbers.NotANumber` | config.py:18-19 | a value starting with neither a digit, a sign nor a point makes both `int` and `float` raise |
| `Numbers.ParseInt` | config.py:18 | `int(s)`: an optional sign and one or more digits, else `ValueError`; its properties are `Numbers.IntRoundTrip` and `Numbers.NotANumber` |
| `Numbers.ParseFloat` | config.py:19 | `float(s)`: optional sign, digits with an optional fraction and an optional exponent, else `ValueError`; the literal is kept exactly |
| `Numbers.Decimal.IsZero` | config.py:19 | whether `float(s)` is 0.0: the literal is at most half the smallest positive double, 2^-1075, which rounds to zero |
| `Numbers.ZeroOnlyWhenDigitsAre` | config.py:19 | down to ten to the minus 268 a float literal rounds to 0.0 exactly when its digits are all zeros |
| `Numbers.Underflow` | config.py:19 | a one in the 400th decimal place rounds to 0.0, although its digits are not all zeros |
| `CppTypes.KeywordType` | config.py:72-80 | `string` names `std::string`, and every other keyword of the table names the type spelt as it is |
| `CppTypes.Name` | config.py:24-34 | each C++ type spelt as in the `cpp_types` table; `CppTypes.NameRoundTrip` states that the table and the spellings agree |
| `CppTypes.NameRoundTrip` | config.py:24-34 | every C++ type is in the keyword table under its own spelling, and different types are spelt differently |
| `ConfigErrors.MessageNamesOffender` | config.py:64-101 | each `ValueError` message is `Config.ini: ` followed by the key, keyword or identifier at fault; a duplicate's message ends with its module |
| `ConfigErrors.Message` | config.py:69-95 | the text of each exception as `print(e)` writes it; `ConfigErrors.MessageNamesOffender` states what each names |
| `Inference.FirstAccepted` | config.py:44-51 | the row the loop stops at accepts the value, that is, its test returns a truthy value |
| `Inference.Test` | config.py:16-22 | the test of each `py_types` row: `int` and `float` raise on a non-number and are falsy on zero, the boolean test compares the lowered value, `str` is falsy on the empty value |
| `Inference.Infer` | config.py:36-58 | the inferred type is one of `int32_t`, `uint64_t`, `double`, `bool` and `std::string`, and the only failure is the `KeyError` |
| `Inference.InferInOrder` | config.py:43-58 | the tests are tried as int, float, bool, str and the first truthy one decides: an integer by its sign, then `double`, `bool`, `std::string`, and a `KeyError` when none accepts |
| `Inference.InferCppType` | config.py:43-58 | the loop with its early `break`, then the sign test and the `py_to_cpp` lookup, computes `Infer` |
| `Inference.IntegerInference` | config.py:53-57 | a nonzero integer literal gives `int32_t` when negative and `uint64_t` otherwise |
| `Inference.IntToStringInference` | config.py:53-57 | `str(n)` for every nonzero `n` is inferred by the sign of `n` |
| `Inference.ZeroIntegerIsString` | config.py:45-51 | an integer literal of value zero fails both number tests and is typed `std::string` |
| `Inference.ZeroFloatIsString` | config.py:45-51 | a float literal that is not an integer literal and that `float()` rounds to 0.0 is typed `std::string` |
| `Inference.BoolWordNotANumber` | config.py:18-20 | `true` and `false` in any case are neither `int` nor `float` literals |
| `Inference.FloatInference` | config.py:45-58 | a float literal that is not an integer literal and that `float()` does not round to 0.0 is typed `double` |
| `Inference.BoolInference` | config.py:20 | a value is typed `bool` exactly when it is `true` or `false` in any letter case |
| `Inference.InferenceFailsOnlyOnEmpty` | config.py:58 | inference fails on the empty value, with the `KeyError`, and on no other value |
| `Inference.StringInference` | config.py:21 | a value is typed `std::string` exactly when it is non-empty, no boolean word and no nonzero number |
| `Identifiers.ParseIdentifier` | config.py:64-82 | a key that resolves has one or two tokens, and its identifier is the last token and matches the identifier pattern |
| `Identifiers.UntypedKey` | config.py:67-70 | a key that is an identifier is kept unchanged and typed by inference; a failed inference is the key's error |
| `Identifiers.UntypedKeyInvalid` | config.py:67-69 | a single token that is no identifier is refused under the raw key |
| `Identifiers.TypedKey` | config.py:71-80 | for keyword, whitespace and name, the keyword is checked against the table first, then the name; `string` gives `std::string` and any other keyword its own type |
| `Identifiers.TypedKeyIgnoresValue` | config.py:71-80 | a two-token key resolves the same whatever its value |
| `Identifiers.TokenCount` | config.py:81-82 | a key is refused for too much whitespace exactly when it has no token or three or more |
| `Model.Wrap` | config.py:97-99 | only `std::string` values change; the empty string value fails; a value that does not start with a quote comes back as that value between two quotes, one that does comes back unchanged |
| `Model.WrapIdempotent` | config.py:97-99 | quoting a quoted value changes nothing, and a value written with or without its quotes gives the same literal |
| `Model.IdentifierSet` | config.py:90-96 | the `keys` set holds the identifier of every flag added so far, and nothing else |
| `Model.AddEntry` | config.py:93-100 | one step of the loop; its effect is stated by `Model.AddEntryAppends` and `Model.AddEntryResolves` |
| `Model.SectionFlags` | config.py:91-100 | the flags of one section, the first error stopping it; its properties are `Model.SectionFlagsSpec` and `Model.SectionFailurePersists` |
| `Model.BuildFlags` | config.py:89-100 | the flags of the whole file; its properties are `Model.BuildFlagsResolve` and `Model.BuildFlagsDistinct` |
| `Model.Build` | config.py:85-101 | on success the module list is the section names in file order and the flag list is `BuildFlags`; the build fails exactly when `BuildFlags` does, with its error |
| `Model.ParseConfig` | config.py:85-101 | the loop over sections returns what `Build` specifies, the first error included |
| `Model.ParseSection` | config.py:89-100 | the loop over a section's keys, with its `keys` set, returns that section's `SectionFlags` |
| `Model.AddKey` | config.py:92-100 | one key: resolve it, refuse an identifier already in `keys`, quote a string value, append; returns what `AddEntry` specifies and the new `keys` |
| `Model.AddEntryAppends` | config.py:93-100 | a key that resolves to a new identifier, with a value that quotes, appends exactly its flag |
| `Model.AddEntryResolves` | config.py:93-100 | a successful step keeps the earlier flags and appends one flag resolved from the entry |
| `Model.SectionStep` | config.py:91-100 | handling the next key of a section is one `AddEntry` step on the flags so far |
| `Model.SectionFailurePersists` | config.py:93-99 | an error at one key of a section is the section's error: later keys are never read |
| `Model.BuildFailurePersists` | config.py:89-99 | an error in one section is the whole build's error |
| `Model.BuildPrefixFailure` | config.py:89-99 | when the first sections already fail, the whole file fails with the same error |
| `Model.PairedAt` | config.py:91-100 | paired entries and flags match at every position |
| `Model.SectionFlagsResolve` | config.py:91-100 | a section's flags pair up one for one with its entries, in order |
| `Model.SectionFlagsSpec` | config.py:89-100 | a section gives one flag per entry in entry order, each resolved from its entry, with pairwise distinct identifiers |
| `Model.SectionFlagsDistinct` | config.py:90-96 | no two flags of a section share an identifier |
| `Model.SectionFlagsSucceed` | config.py:91-100 | a section builds when every entry resolves and no two entries share an identifier |
| `Model.EntriesShape` | config.py:89-91 | the entries of the file name their own section and come section by section |
| `Model.BuildFlagsResolve` | config.py:88-101 | the file gives one flag per entry, in file order, each resolved from its entry |
| `Model.BuildFlagsDistinct` | config.py:90-96 | flags from entries of the same section have distinct identifiers |
| `Model.UniqueWithinModule` | config.py:89-96 | no two flags of one module share an identifier |
| `Model.BuildFlagsSucceed` | config.py:89-100 | the file builds when every section does |
| `Model.BuildSucceeds` | config.py:85-101 | a file whose entries all resolve, with no identifier repeated within a section, builds without error |
| `Render.OptionDescNamesFlag` | config.py:104-107 | a registration starts with the option name and ends with the literal; the name is the bare identifier exactly for `root` |
| `Render.OptionNameRoundTrip` | config.py:104-107 | the registered name gives back the module and the identifier |
| `Render.OptionNameInjective` | config.py:104-107 | two flags registered under the same name have the same module and identifier |
| `Render.OptionDesc` | config.py:104-107 | the registration of one flag; what it holds is stated by `Render.OptionDescNamesFlag` |
| `Render.MainConfigStr` | config.py:110-136 | the text of `config.cpp`; its layout is stated by `Render.MainConfigLayout` |
| `Render.MainConfigLayout` | config.py:110-136 | `config.cpp` holds each flag's registration at its place in the option list, in order, and nothing else between the fixed head and tail |
| `Render.TypeDecl` | config.py:144-145 | the field declaration of a flag; see `Render.PiecesNameIdentifier` |
| `Render.DefaultDecl` | config.py:148-149 | the store initialiser of a flag; see `Render.PiecesNameIdentifier` and `Render.StoreKeyMatchesOption` |
| `Render.ParamDecl` | config.py:152-153 | the constructor parameter of a flag; see `Render.PiecesNameIdentifier` |
| `Render.AssignedVal` | config.py:156-159 | the member initialiser of a flag; see `Render.AssignedValMoves` |
| `Render.PiecesNameIdentifier` | config.py:144-159 | the field, the store initialiser, the parameter and the parameter initialiser of a flag each name its identifier |
| `Render.AssignedValMoves` | config.py:156-159 | the parameter is moved into the field exactly when the flag is a `std::string` |
| `Render.StoreKeyMatchesOption` | config.py:148-149 | the header reads a flag under the name the global file registers exactly when the module is not `root` |
| `Render.FrameParts` | config.py:162-193 | a module header is nine parts: fixed text around the four joined lists |
| `Render.JoinPartAt` | config.py:162-193 | a piece of a joined list that is a part of the header stands at the part's start plus its offset in the list |
| `Render.ModuleConfigStr` | config.py:162-193 | the text of a module header; its layout is stated by the four lemmas below |
| `Render.FieldInHeader` | config.py:162-193 | the field declaration of flag `i` stands in the header at the start of the field list plus its offset in that list |
| `Render.StoreInitInHeader` | config.py:162-193 | the store initialiser of flag `i` stands in the header at the start of the default constructor's list plus its offset |
| `Render.ParamInHeader` | config.py:162-193 | the constructor parameter of flag `i` stands in the header at the start of the parameter list plus its offset |
| `Render.MemberInitInHeader` | config.py:162-193 | the member initialiser of flag `i` stands in the header at the start of the full constructor's list plus its offset |
| `Generate.FlagsOf` | config.py:215 | the filtered list holds exactly the flags of the module, and no more than there were |
| `Generate.FlagsOfAppend` | config.py:215 | filtering a concatenation filters each part |
| `Generate.FlagsOfWhole` | config.py:215 | flags all of the module pass unchanged; flags none of which is of the module leave nothing |
| `Generate.NonRoot` | config.py:213-214 | the modules that get a header are exactly the sections other than `root` |
| `Generate.NonRootAppend` | config.py:213-214 | dropping `root` keeps the order of the other modules: it distributes over concatenation |
| `Generate.NonRootWithoutRoot` | config.py:213-214 | a module list without `root` is kept whole |
| `Generate.GenerateModuleConfigs` | config.py:213-215 | the loop over the modules writes exactly `Headers` |
| `Generate.BuildFlagsModules` | config.py:89-100 | every flag of a built file belongs to the section its entry came from and has a valid identifier |
| `Generate.BuildFlagsSections` | config.py:89-100 | a file builds only when each of its sections does |
| `Generate.SliceIsSection` | config.py:213-215 | with distinct section names, the flags filtered for a section's module are exactly that section's flags, in order |
| `Generate.EarlierSectionsOtherModules` | config.py:213-215 | no flag of the earlier sections belongs to the last section's module |
| `Generate.DistinctPrefix` | config.py:89 | the sections before the last have distinct names too |
| `Generate.OwnFlags` | config.py:213-215 | each non-root section gets a header, and it holds exactly that section's flags |
| `Generate.MainOptionsDistinct` | config.py:104-112 | no two registrations in `config.cpp` share an option name |
| `Generate.Run` | config.py:206-220 | a file that fails to build prints its error's message; one that builds gives `config.cpp` of all flags and the headers of `Headers` |
| `Examples.InferPort` | config.py:53-57 | `8080` is typed `uint64_t` |
| `Examples.InferNegative` | config.py:53-55 | `-1` is typed `int32_t` |
| `Examples.InferZero` | config.py:45-51 | `0` is typed `std::string` |
| `Examples.InferFraction` | config.py:45-58 | `1.5` is typed `double` |
| `Examples.InferUnderflow` | config.py:45-51 | `1e-400` is 0.0 to `float()`, so it is typed `std::string` |
| `Examples.InferBoolWord` | config.py:20 | `TRUE` is typed `bool` |
| `Examples.InferEmpty` | config.py:58 | the empty value has no type |
| `Examples.KeyPort` | config.py:67-70 | the bare key `port` with value `8080` is a `uint64_t` named `port` |
| `Examples.KeyTimeout` | config.py:67-70 | the bare key `timeout` with value `-1` is an `int32_t` named `timeout` |
| `Examples.KeyInvalid` | config.py:67-69 | the bare key `a-b` is refused as no identifier |
| `Examples.KeyTyped` | config.py:71-80 | `uint32_t count` is a `uint32_t` named `count` |
| `Examples.KeyString` | config.py:76-78 | `string name` is a `std::string` named `name` |
| `Examples.KeyUnknownType` | config.py:72-73 | `long x` is refused as an unsupported type |
| `Examples.KeyTooMany` | config.py:81-82 | `a b c` has too much whitespace |
| `Examples.RootSection` | config.py:89-100 | `[root]` with `port = 8080` gives one flag |
| `Examples.NetFirstEntry` | config.py:89-100 | `[net]` with `timeout = -1` gives one flag |
| `Examples.QuoteWorker` | config.py:98-99 | the string value `worker1` becomes the literal `"worker1"` |
| `Examples.NetSection` | config.py:89-100 | `[net]` with `timeout = -1` and `string name = worker1` gives two flags in order, the string quoted |
| `Examples.QuotedValueSameFlag` | config.py:98-99 | a string value written with its quotes gives the same flag as one without |
| `Examples.DuplicateInSection` | config.py:94-95 | a bare `x` and a typed `uint32_t x` in one section clash, and the error names the section |
| `Examples.ExampleBuild` | config.py:85-101 | a two-section file builds into its three flags in file order |
| `Examples.ExampleBuildFails` | config.py:89-95 | a file whose second section has a clash fails with that clash |
| `Examples.ExampleModules` | config.py:213-214 | of the modules `root` and `net`, only `net` gets a header |
| `Examples.ExampleSlice` | config.py:215 | the `net` header receives the two `net` flags |
| `Examples.ExampleOptionNames` | config.py:104-107 | `port` of `root` is registered bare and `timeout` of `net` as `net.timeout` |
| `Examples.ExampleMessage` | config.py:94-95 | the duplicate's printed line is `Config.ini: x is defined twice in module net` |

## Left out

- Reading the file with `configparser` (config.py:86-87, 89, 91-92) is not part of this model. The model starts from the sections as read: their names in file order, and each section's key/value pairs in order. The parser's own behaviour is therefore not modelled:
  - keys are lower-cased;
  - the keys of a `DEFAULT` section appear in every section;
  - surrounding whitespace is stripped;
  - `%` interpolation;
  - duplicate sections and duplicate keys are refused in strict mode.

  That section names are distinct is a hypothesis of the lemmas that need it (`DistinctNames`), not something the model checks.
- The freshness check `config_update` (config.py:202-203, 208-209) compares file modification times. It depends on the clock and the file system; `Run` models what follows once the check has passed.
- Writing the files (config.py:139-141, 196-199) and building their paths with `os.path.join` are left out. `Run` returns the text of `config.cpp` and, for each module, its name and the text of its `config.h`.
- `print(e)` and `sys.exit(1)` (config.py:218-220) become `Run`'s failure value, carrying the printed line. Exceptions other than the ones the core raises itself are not modelled, such as an I/O error while writing.
- `int()` and `float()` are modelled as ASCII decimal grammars: an optional sign, digits, an optional point and an optional exponent. These forms Python also accepts are not modelled:
  - underscores between digits;
  - surrounding whitespace;
  - `inf`, `infinity` and `nan`;
  - non-ASCII digits.

  So the model types `inf` as `std::string`, where Python types it `double`.
- `lower()` is modelled for ASCII letters only. Unicode case mapping is not modelled.
- The identifier pattern anchored with `$` also matches before one trailing newline in Python. The model's `IsIdentifier` refuses that newline. The INI reader strips keys, so such a key does not reach `parse_identifier`.
- Integer values are not range-checked or truncated, in the model as in the source. What the C++ compiler and Boost then do with an out-of-range literal is not modelled.
- The meaning of the generated C++ is not modelled: Boost's option parsing, and the compiler's checks of the literals and identifiers. Section names are not checked to be valid C++ namespace names, in the model as in the source.
- Numbers.ParseInt: does not model the limit on the length of the digit string that `int()` has from Python 3.11 on (4300 digits by default, configurable). Past it `int()` raises `ValueError`; such a value is then typed by `float()`, which makes it infinity and so `double`, where the model gives `uint64_t` or `int32_t`. The limit depends on the interpreter's version and settings.
- Numbers.ParseFloat: keeps the literal exactly rather than as a double. Only whether the double is zero is modelled (`Decimal.IsZero`), because that is all the truth test reads; the rounded value itself and overflow to infinity (which is truthy, so still `double`) are not.
