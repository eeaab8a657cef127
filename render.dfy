/** The renderers: pure string builders that turn flags into the text of the
    global option file (config.cpp) and of one module's header (config.h). */
module Render {
  import opened Text
  import opened CppTypes
  import opened Model

  /** The module whose flags are registered without a prefix. */
  const Root: string := "root"

  /** The name an option is registered under in the global option file. */
  function OptionName(f: Flag): string {
    if f.moduleName == Root then f.identifier else f.moduleName + "." + f.identifier
  }

  /** `option_desc`: one registration line of the option list. */
  function OptionDesc(f: Flag): string {
    "(\"" + OptionName(f) + "\", po::value<" + Name(f.cppType) + ">()->default_value(" + f.val + "))"
  }

  function OptionDescs(flags: seq<Flag>): (ds: seq<string>)
    ensures |ds| == |flags| && forall i :: 0 <= i < |flags| ==> ds[i] == OptionDesc(flags[i])
  {
    seq(|flags|, i requires 0 <= i < |flags| => OptionDesc(flags[i]))
  }

  const MainHead: string :=
    "\n//\n// TODO: explain where this is auto-generated from\n//\n#include \"config.h\"\n\n"
    + "#include <boost/program_options/parsers.hpp>\n"
    + "#include <boost/program_options/options_description.hpp>\n\n"
    + "namespace po = boost::program_options;\npo::variables_map FLAG_STORE;\n\n"
    + "void parse_args(int argc, char** argv) {\n"
    + "    po::options_description desc;\n    desc.add_options()\n    "

  const MainTail: string :=
    "\n    ;\n"
    + "    po::store(po::parse_command_line(argc, argv, desc), FLAG_STORE);\n"
    + "    po::notify(FLAG_STORE);\n\n"
    + "    po::store(po::parse_config_file(\"config.ini\", desc), FLAG_STORE);\n"
    + "    po::notify(FLAG_STORE);\n}\n    "

  const OptionSeparator: string := "\n    "

  /** `main_config_str`: the global option file. */
  function MainConfigStr(flags: seq<Flag>): string {
    MainHead + Join(OptionSeparator, OptionDescs(flags)) + MainTail
  }

  /** `type_decl`: the struct field of a flag. */
  function TypeDecl(f: Flag): string {
    "const " + Name(f.cppType) + " " + f.identifier + ";"
  }

  /** The key under which the module header reads a flag from the store. */
  function StoreKey(f: Flag): string {
    f.moduleName + "." + f.identifier
  }

  /** `default_decl`: the initialiser reading the flag from the store. */
  function DefaultDecl(f: Flag): string {
    f.identifier + "(FLAG_STORE[\"" + StoreKey(f) + "\"].as<" + Name(f.cppType) + ">())"
  }

  /** `param_decl`: the constructor parameter of a flag. */
  function ParamDecl(f: Flag): string {
    Name(f.cppType) + " " + f.identifier
  }

  /** `assigned_val`: the initialiser from the constructor parameter; strings are moved. */
  function AssignedVal(f: Flag): string {
    if f.cppType == StdString then f.identifier + "(std::move(" + f.identifier + "))"
    else f.identifier + "(" + f.identifier + ")"
  }

  function TypeDecls(flags: seq<Flag>): (ds: seq<string>)
    ensures |ds| == |flags| && forall i :: 0 <= i < |flags| ==> ds[i] == TypeDecl(flags[i])
  {
    seq(|flags|, i requires 0 <= i < |flags| => TypeDecl(flags[i]))
  }

  function DefaultDecls(flags: seq<Flag>): (ds: seq<string>)
    ensures |ds| == |flags| && forall i :: 0 <= i < |flags| ==> ds[i] == DefaultDecl(flags[i])
  {
    seq(|flags|, i requires 0 <= i < |flags| => DefaultDecl(flags[i]))
  }

  function ParamDecls(flags: seq<Flag>): (ds: seq<string>)
    ensures |ds| == |flags| && forall i :: 0 <= i < |flags| ==> ds[i] == ParamDecl(flags[i])
  {
    seq(|flags|, i requires 0 <= i < |flags| => ParamDecl(flags[i]))
  }

  function AssignedVals(flags: seq<Flag>): (ds: seq<string>)
    ensures |ds| == |flags| && forall i :: 0 <= i < |flags| ==> ds[i] == AssignedVal(flags[i])
  {
    seq(|flags|, i requires 0 <= i < |flags| => AssignedVal(flags[i]))
  }

  /** The fixed text of a module header: before the module name, between
      the name and the fields, before the store initialisers, before the
      parameters, before their initialisers, and after them. */
  datatype HeaderFrame = HeaderFrame(head: string, open: string, defaultCtor: string,
                                     fullCtor: string, fullInit: string, close: string)

  const Frame: HeaderFrame := HeaderFrame(
    "\n//\n// TODO: explain where this is auto-generated from\n//\n\n"
    + "#pragma once\n#include <cstdint>\n#include <boost/program_options/variables_map.hpp>\n\n"
    + "namespace po = boost::program_options;\nextern po::variables_map FLAG_STORE;\n\n"
    + "namespace ",
    " {\n    typedef struct config_t{\n        ",
    "\n\n        config_t()\n        : ",
    "\n        {}\n        \n        config_t(",
    ")\n        : ",
    "\n        {}\n    } config_t;\n}\n    ")

  const FieldSeparator: string := "\n        "
  const InitSeparator: string := "\n        , "
  const ParamSeparator: string := ", "

  /** Where the four joined lists stand among the parts of a module header. */
  const FieldsPart: nat := 1
  const DefaultsPart: nat := 3
  const ParamsPart: nat := 5
  const AssignsPart: nat := 7

  /** The nine parts of a module header in frame `fr`: fixed text around
      the fields, the store initialisers, the constructor parameters and
      their initialisers, each list joined by its separator. */
  function FrameParts(fr: HeaderFrame, moduleName: string, fields: seq<string>, defaults: seq<string>,
                      params: seq<string>, assigns: seq<string>): (ps: seq<string>)
    ensures |ps| == 9
    ensures ps[FieldsPart] == Join(FieldSeparator, fields) && ps[DefaultsPart] == Join(InitSeparator, defaults)
    ensures ps[ParamsPart] == Join(ParamSeparator, params) && ps[AssignsPart] == Join(InitSeparator, assigns)
  {
    [fr.head + moduleName + fr.open,
     Join(FieldSeparator, fields),
     fr.defaultCtor,
     Join(InitSeparator, defaults),
     fr.fullCtor,
     Join(ParamSeparator, params),
     fr.fullInit,
     Join(InitSeparator, assigns),
     fr.close]
  }

  /** The parts of the header of module `moduleName` holding `flags`. */
  function ModuleParts(moduleName: string, flags: seq<Flag>): (ps: seq<string>)
    ensures |ps| == 9
  {
    FrameParts(Frame, moduleName, TypeDecls(flags), DefaultDecls(flags), ParamDecls(flags), AssignedVals(flags))
  }

  /** `module_config_str`: the header of one module. */
  function ModuleConfigStr(moduleName: string, flags: seq<Flag>): string {
    Concat(ModuleParts(moduleName, flags))
  }

  // ---------------------------------------------------------------------------
  // Properties of the global option file

  /** The position of the last `.` in `s`, or -1 when there is none. */
  function LastDot(s: string): (k: int)
    ensures -1 <= k < |s|
    ensures k >= 0 ==> s[k] == '.'
    ensures forall j :: k < j < |s| ==> s[j] != '.'
  {
    if s == [] then -1 else if s[|s| - 1] == '.' then |s| - 1 else LastDot(s[..|s| - 1])
  }

  /** Reads a registered option name back as (module, identifier): no dot means
      the root module, otherwise the text around the last dot. */
  function ParseOptionName(s: string): (string, string) {
    var k := LastDot(s);
    if k < 0 then (Root, s) else (s[..k], s[k + 1..])
  }

  lemma {:induction false} LastDotAfter(m: string, id: string)
    requires forall j :: 0 <= j < |id| ==> id[j] != '.'
    ensures LastDot(m + "." + id) == |m|
    ensures LastDot(id) == -1
  {
    var s := m + "." + id;
    assert s[|m|] == '.';
    assert forall j :: |m| < j < |s| ==> s[j] == id[j - |m| - 1];
  }

  /** The registered name determines the module and the identifier, since an
      identifier never holds a dot. */
  lemma OptionNameRoundTrip(f: Flag)
    requires IsIdentifier(f.identifier)
    ensures ParseOptionName(OptionName(f)) == (f.moduleName, f.identifier)
  {
    assert forall j :: 0 <= j < |f.identifier| ==> f.identifier[j] != '.' by {
      forall j | 0 <= j < |f.identifier| ensures f.identifier[j] != '.' {
        if j > 0 { assert IsIdentPart(f.identifier[j]); }
      }
    }
    LastDotAfter(f.moduleName, f.identifier);
    if f.moduleName != Root {
      var s := f.moduleName + "." + f.identifier;
      assert s[..|f.moduleName|] == f.moduleName;
      assert s[|f.moduleName| + 1..] == f.identifier;
    }
  }

  lemma OptionNameInjective(f: Flag, g: Flag)
    requires IsIdentifier(f.identifier) && IsIdentifier(g.identifier)
    requires OptionName(f) == OptionName(g)
    ensures f.moduleName == g.moduleName && f.identifier == g.identifier
  {
    OptionNameRoundTrip(f);
    OptionNameRoundTrip(g);
  }

  /** A join framed by fixed text holds each piece at its offset after the head. */
  lemma {:induction false} FramedJoinAt(head: string, sep: string, ds: seq<string>, tail: string, i: nat)
    requires i < |ds|
    ensures |head| + Offset(sep, ds, i) + |ds[i]| <= |head + Join(sep, ds) + tail|
    ensures (head + Join(sep, ds) + tail)[|head| + Offset(sep, ds, i)..|head| + Offset(sep, ds, i) + |ds[i]|] == ds[i]
  {
    JoinAt(sep, ds, i);
    SuffixSlice(head, Join(sep, ds), Offset(sep, ds, i), Offset(sep, ds, i) + |ds[i]|);
    PrefixSlice(head + Join(sep, ds), tail, |head| + Offset(sep, ds, i), |head| + Offset(sep, ds, i) + |ds[i]|);
  }

  lemma {:induction false} FramedJoinLength(head: string, sep: string, ds: seq<string>, tail: string)
    requires |ds| > 0
    ensures |head + Join(sep, ds) + tail| + |sep| == |head| + Offset(sep, ds, |ds|) + |tail|
  {
    JoinLength(sep, ds);
  }

  /** The option list of the global file holds each flag's registration, in
      flag order, one separator between two, and nothing else. */
  lemma {:induction false} MainConfigLayout(flags: seq<Flag>, i: nat)
    requires i < |flags|
    ensures Occurs(OptionDesc(flags[i]), MainConfigStr(flags), |MainHead| + Offset(OptionSeparator, OptionDescs(flags), i))
    ensures |MainConfigStr(flags)| + |OptionSeparator|
      == |MainHead| + Offset(OptionSeparator, OptionDescs(flags), |flags|) + |MainTail|
  {
    FramedJoinAt(MainHead, OptionSeparator, OptionDescs(flags), MainTail, i);
    FramedJoinLength(MainHead, OptionSeparator, OptionDescs(flags), MainTail);
  }

  /** A root flag is registered under its bare identifier, any other under
      `module.identifier`; the registration carries the C++ type and the
      literal. */
  lemma OptionDescNamesFlag(f: Flag)
    ensures var d := OptionDesc(f);
      && d[..2] == "(\"" && d[2..2 + |OptionName(f)|] == OptionName(f)
      && d[|d| - |f.val| - 2..] == f.val + "))"
    ensures OptionName(f) == f.identifier <==> f.moduleName == Root
  {
    var d := OptionDesc(f);
    var tail := "\", po::value<" + Name(f.cppType) + ">()->default_value(" + f.val + "))";
    assert d == "(\"" + OptionName(f) + tail;
  }

  // ---------------------------------------------------------------------------
  // Properties of the module header

  /** Each of the four per-flag pieces names the flag's identifier: as the
      field, as the member initialised, as the parameter. So fields, both
      initialiser lists and parameters list the identifiers in one order. */
  lemma PiecesNameIdentifier(f: Flag)
    ensures var id := f.identifier;
      && TypeDecl(f)[|TypeDecl(f)| - |id| - 1..] == id + ";"
      && DefaultDecl(f)[..|id| + 1] == id + "("
      && ParamDecl(f)[|ParamDecl(f)| - |id|..] == id
      && AssignedVal(f)[..|id| + 1] == id + "("
  {
    var id := f.identifier;
    assert TypeDecl(f)[|TypeDecl(f)| - |id| - 1..] == id + ";" by {
      SuffixOf("const " + Name(f.cppType) + " ", id + ";");
    }
    assert DefaultDecl(f)[..|id| + 1] == id + "(" by {
      PrefixOf(id + "(", "FLAG_STORE[\"" + StoreKey(f) + "\"].as<" + Name(f.cppType) + ">())");
    }
    assert ParamDecl(f)[|ParamDecl(f)| - |id|..] == id by {
      SuffixOf(Name(f.cppType) + " ", id);
    }
    if f.cppType == StdString {
      PrefixOf(id + "(", "std::move(" + id + "))");
    } else {
      PrefixOf(id + "(", id + ")");
    }
  }

  lemma PrefixOf(a: string, b: string)
    ensures (a + b)[..|a|] == a
  {
  }

  lemma SuffixOf(a: string, b: string)
    ensures (a + b)[|a|..] == b
  {
  }

  /** The parameter is moved into the field exactly when the flag is a string. */
  lemma AssignedValMoves(f: Flag)
    ensures AssignedVal(f) == f.identifier + "(std::move(" + f.identifier + "))" <==> f.cppType == StdString
    ensures f.cppType != StdString ==> AssignedVal(f) == f.identifier + "(" + f.identifier + ")"
  {
    if f.cppType != StdString {
      assert |AssignedVal(f)| != |f.identifier + "(std::move(" + f.identifier + "))"|;
    }
  }

  /** The header reads a flag under the name the global file registered it,
      with the same type, exactly when the flag is not a root flag. */
  lemma StoreKeyMatchesOption(f: Flag)
    ensures StoreKey(f) == OptionName(f) <==> f.moduleName != Root
    ensures f.moduleName != Root ==>
      DefaultDecl(f) == f.identifier + "(FLAG_STORE[\"" + OptionName(f) + "\"].as<" + Name(f.cppType) + ">())"
  {
    if f.moduleName == Root {
      assert |StoreKey(f)| != |OptionName(f)|;
    }
  }

  /** Piece `i` of a join that is part `k` of a concatenation stands at the
      part's start plus the piece's offset in the join. */
  lemma {:induction false} JoinPartAt(ts: seq<string>, k: nat, sep: string, ds: seq<string>, i: nat)
    requires k < |ts| && ts[k] == Join(sep, ds) && i < |ds|
    ensures Occurs(ds[i], Concat(ts), Start(ts, k) + Offset(sep, ds, i))
  {
    JoinAt(sep, ds, i);
    ConcatAt(ts, k, Offset(sep, ds, i), Offset(sep, ds, i) + |ds[i]|);
  }

  // The header of a module, piece by piece: the declaration, the store
  // initialiser, the constructor parameter and the member initialiser of
  // flag `i` each stand in `ModuleConfigStr` at the start of their list plus
  // the offset of the `i`-th piece in it, so the four lists keep the flags'
  // order and each flag contributes exactly one piece to each.

  lemma FieldInHeader(m: string, flags: seq<Flag>, i: nat)
    requires i < |flags|
    ensures Occurs(TypeDecl(flags[i]), ModuleConfigStr(m, flags),
      Start(ModuleParts(m, flags), FieldsPart) + Offset(FieldSeparator, TypeDecls(flags), i))
  {
    PartPieceAt(m, flags, FieldsPart, FieldSeparator, TypeDecls(flags), i, TypeDecl(flags[i]));
  }

  lemma StoreInitInHeader(m: string, flags: seq<Flag>, i: nat)
    requires i < |flags|
    ensures Occurs(DefaultDecl(flags[i]), ModuleConfigStr(m, flags),
      Start(ModuleParts(m, flags), DefaultsPart) + Offset(InitSeparator, DefaultDecls(flags), i))
  {
    PartPieceAt(m, flags, DefaultsPart, InitSeparator, DefaultDecls(flags), i, DefaultDecl(flags[i]));
  }

  lemma ParamInHeader(m: string, flags: seq<Flag>, i: nat)
    requires i < |flags|
    ensures Occurs(ParamDecl(flags[i]), ModuleConfigStr(m, flags),
      Start(ModuleParts(m, flags), ParamsPart) + Offset(ParamSeparator, ParamDecls(flags), i))
  {
    PartPieceAt(m, flags, ParamsPart, ParamSeparator, ParamDecls(flags), i, ParamDecl(flags[i]));
  }

  lemma MemberInitInHeader(m: string, flags: seq<Flag>, i: nat)
    requires i < |flags|
    ensures Occurs(AssignedVal(flags[i]), ModuleConfigStr(m, flags),
      Start(ModuleParts(m, flags), AssignsPart) + Offset(InitSeparator, AssignedVals(flags), i))
  {
    PartPieceAt(m, flags, AssignsPart, InitSeparator, AssignedVals(flags), i, AssignedVal(flags[i]));
  }

  /** Piece `i` of the list joined into part `k` of a module header. */
  lemma PartPieceAt(m: string, flags: seq<Flag>, k: nat, sep: string, ds: seq<string>, i: nat, piece: string)
    requires k < 9 && ModuleParts(m, flags)[k] == Join(sep, ds) && i < |ds| && ds[i] == piece
    ensures Occurs(piece, ModuleConfigStr(m, flags), Start(ModuleParts(m, flags), k) + Offset(sep, ds, i))
  {
    JoinPartAt(ModuleParts(m, flags), k, sep, ds, i);
  }

  /** `piece` stands in `text` at position `at`. */
  predicate Occurs(piece: string, text: string, at: nat) {
    at + |piece| <= |text| && text[at..at + |piece|] == piece
  }

  lemma PrefixSlice(a: string, b: string, x: nat, y: nat)
    requires x <= y <= |a|
    ensures (a + b)[x..y] == a[x..y]
  {
  }

  lemma SuffixSlice(a: string, b: string, x: nat, y: nat)
    requires x <= y <= |b|
    ensures (a + b)[|a| + x..|a| + y] == b[x..y]
  {
  }
}
