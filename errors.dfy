/** The exceptions the generator can raise while building its model, and the
    one line its entry point prints for each before exiting with status 1. */
module ConfigErrors {

  datatype Error =
    /** ValueError: a key, or the name after its type keyword, is not an identifier. */
    | InvalidIdentifier(name: string)
    /** ValueError: the first of two key tokens is not in the type table. */
    | UnsupportedType(keyword: string)
    /** ValueError: the key splits into no tokens, or into three or more. */
    | TooMuchWhiteSpace(key: string)
    /** ValueError: two keys of one section resolve to the same identifier. */
    | DefinedTwice(identifier: string, moduleName: string)
    /** KeyError: no type test accepted the value (the empty value), so the
        lookup of `None` in the Python-to-C++ table fails. */
    | NoTypeInferred
    /** IndexError: a `std::string` flag with an empty value has no first
        character to compare with a quote. */
    | EmptyStringValue

  const Prefix: string := "Config.ini: "

  /** What `print(e)` writes: the exception's message. */
  function Message(e: Error): string {
    match e
    case InvalidIdentifier(name) => Prefix + name + " is not a valid c++ identifier"
    case UnsupportedType(keyword) => Prefix + keyword + " is not a supported c++ type"
    case TooMuchWhiteSpace(key) => Prefix + key + " has too much white space to be a valid identifier"
    case DefinedTwice(identifier, moduleName) => Prefix + identifier + " is defined twice in module " + moduleName
    case NoTypeInferred => "None"
    case EmptyStringValue => "string index out of range"
  }

  /** The text naming the offending key, token or identifier, if any. */
  function Offender(e: Error): string {
    match e
    case InvalidIdentifier(name) => name
    case UnsupportedType(keyword) => keyword
    case TooMuchWhiteSpace(key) => key
    case DefinedTwice(identifier, _) => identifier
    case NoTypeInferred => []
    case EmptyStringValue => []
  }

  /** Each configuration error is reported on its own as `Config.ini: ` followed
      by the text at fault; the other two show Python's own message. */
  lemma MessageNamesOffender(e: Error)
    ensures !e.NoTypeInferred? && !e.EmptyStringValue? ==>
      |Prefix + Offender(e)| < |Message(e)| && Message(e)[..|Prefix + Offender(e)|] == Prefix + Offender(e)
    ensures e.DefinedTwice? ==> Message(e)[|Message(e)| - |e.moduleName|..] == e.moduleName
  {
    if !e.NoTypeInferred? && !e.EmptyStringValue? {
      var head := Prefix + Offender(e);
      assert Message(e) == head + Message(e)[|head|..];
    }
  }
}
