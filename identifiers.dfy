/** Identifier resolution: a key is either a bare identifier, whose type is
    inferred from its value, or a type keyword and an identifier separated by
    whitespace. */
module Identifiers {
  import opened Wrappers
  import opened Text
  import opened CppTypes
  import opened ConfigErrors
  import opened Inference

  /** `parse_identifier(key, val)`: the flag's type and identifier. The
      identifier is always valid and is the key's last token. */
  function ParseIdentifier(key: string, val: string): (r: Result<(CppType, string), Error>)
    ensures r.Success? ==> 1 <= |Split(key)| <= 2
    ensures r.Success? ==> IsIdentifier(r.value.1) && r.value.1 == Split(key)[|Split(key)| - 1]
  {
    var lhs := Split(key);
    if |lhs| == 1 then
      if !IsIdentifier(key) then Failure(InvalidIdentifier(key))
      else
        IdentifierIsToken(key);
        var t :- Infer(val);
        Success((t, key))
    else if |lhs| == 2 then
      if lhs[0] !in Keywords then Failure(UnsupportedType(lhs[0]))
      else if !IsIdentifier(lhs[1]) then Failure(InvalidIdentifier(lhs[1]))
      else if lhs[0] == "string" then Success((StdString, lhs[1]))
      else Success((KeywordType(lhs[0]), lhs[1]))
    else Failure(TooMuchWhiteSpace(key))
  }

  /** A key that is an identifier is kept unchanged and typed by inference. */
  lemma UntypedKey(key: string, val: string)
    requires IsIdentifier(key)
    ensures Infer(val).Success? ==> ParseIdentifier(key, val) == Success((Infer(val).value, key))
    ensures Infer(val).Failure? ==> ParseIdentifier(key, val) == Failure(Infer(val).error)
  {
    IdentifierIsToken(key);
  }

  /** A single token that is not an identifier is refused under its raw key,
      whitespace around it included. */
  lemma UntypedKeyInvalid(key: string, val: string)
    requires |Split(key)| == 1 && !IsIdentifier(key)
    ensures ParseIdentifier(key, val) == Failure(InvalidIdentifier(key))
  {
  }

  /** A keyword, whitespace and a name: the keyword is checked first, then the
      name; `string` becomes `std::string` and any other keyword names its own
      type. The value plays no part. */
  lemma TypedKey(kw: string, sep: string, name: string, val: string)
    requires IsToken(kw) && IsToken(name) && |sep| > 0 && AllSpace(sep)
    ensures ParseIdentifier(kw + sep + name, val) ==
      if kw !in Keywords then Failure(UnsupportedType(kw))
      else if !IsIdentifier(name) then Failure(InvalidIdentifier(name))
      else Success((KeywordType(kw), name))
    ensures kw in Keywords && kw != "string" && IsIdentifier(name) ==>
      Name(ParseIdentifier(kw + sep + name, val).value.0) == kw
  {
    SplitTwo(kw, sep, name);
  }

  /** A two-token key never looks at its value: no type-versus-value check is made. */
  lemma TypedKeyIgnoresValue(key: string, v1: string, v2: string)
    requires |Split(key)| == 2
    ensures ParseIdentifier(key, v1) == ParseIdentifier(key, v2)
  {
  }

  /** A key of no tokens, or of three or more, has too much white space. */
  lemma TokenCount(key: string, val: string)
    ensures (|Split(key)| == 0 || |Split(key)| >= 3) <==>
      ParseIdentifier(key, val) == Failure(TooMuchWhiteSpace(key))
  {
  }
}
