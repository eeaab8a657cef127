/** The C++ types a flag can have: the closed set of the `cpp_types` table,
    with `string` a shorthand keyword for `std::string`. */
module CppTypes {

  datatype CppType = Bool | StdString | Float | Double | UInt64 | UInt32 | Int64 | Int32

  /** The type's C++ spelling, as it appears in generated code. */
  function Name(t: CppType): string {
    match t
    case Bool => "bool"
    case StdString => "std::string"
    case Float => "float"
    case Double => "double"
    case UInt64 => "uint64_t"
    case UInt32 => "uint32_t"
    case Int64 => "int64_t"
    case Int32 => "int32_t"
  }

  /** The type keywords a key may start with, in table order. */
  const Keywords: seq<string> :=
    ["bool", "std::string", "string", "float", "double", "uint64_t", "uint32_t", "int64_t", "int32_t"]

  /** The type a keyword names: `string` is `std::string`, and every other
      keyword names the type that is spelt as it is. */
  function KeywordType(k: string): (t: CppType)
    requires k in Keywords
    ensures k == "string" ==> t == StdString
    ensures k != "string" ==> Name(t) == k
  {
    if k == "bool" then Bool
    else if k == "std::string" || k == "string" then StdString
    else if k == "float" then Float
    else if k == "double" then Double
    else if k == "uint64_t" then UInt64
    else if k == "uint32_t" then UInt32
    else if k == "int64_t" then Int64
    else Int32
  }

  /** Every type is reachable from the keyword table under its own spelling,
      and different types are spelt differently. */
  lemma NameRoundTrip(t: CppType)
    ensures Name(t) in Keywords && Name(t) != "string"
    ensures KeywordType(Name(t)) == t
    ensures forall u :: Name(u) == Name(t) ==> u == t
  {
  }
}
