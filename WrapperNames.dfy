/**
 * The string helpers of the Java wrapper generator (CsJniNetWrapperGenerator): JVM type
 * and method signatures built from Java type names, package and class names split off a
 * type name, C# keyword mangling, and the names of implementation and API types.
 */
module WrapperNames {
  import opened Failures
  import opened Strings
  import opened Descriptors

  // ---- JVM signatures ----

  /** JVM_BUILT_IN_TYPE_SIGNATURES: the letter of each Java primitive type. */
  function BuiltInSignature(t: string): Option<string> {
    if t == "boolean" then Some("Z") else if t == "byte" then Some("B")
    else if t == "char" then Some("C") else if t == "double" then Some("D")
    else if t == "float" then Some("F") else if t == "int" then Some("I")
    else if t == "long" then Some("J") else if t == "short" then Some("S")
    else if t == "void" then Some("V") else None
  }

  /** isTypeArray: the name ends in "[]". */
  predicate IsTypeArray(t: string) {
    |t| >= 2 && t[|t| - 2..] == "[]"
  }

  /** getBaseType: the name without its last "[]". */
  function BaseTypeName(t: string): (r: string)
    requires IsTypeArray(t)
    ensures r + "[]" == t
  {
    t[..|t| - 2]
  }

  /**
   * getTypeSignature: a primitive's letter, or "L" + name + ";"; one trailing "[]"
   * becomes a leading '['; then every '.' becomes '/'.
   */
  function TypeSignature(t: string): string {
    var isArray := IsTypeArray(t);
    var base := ElementName(t);
    var ret := if BuiltInSignature(base).Some? then BuiltInSignature(base).value else "L" + base + ";";
    var ret := if isArray then "[" + ret else ret;
    Replace(ret, '.', '/')
  }

  /** parameterSignatures: the parameter types' signatures, one after another. */
  function ParameterSignatures(parameters: seq<string>): string {
    if parameters == [] then [] else TypeSignature(parameters[0]) + ParameterSignatures(parameters[1..])
  }

  /** getMethodSignature. */
  function MethodSignature(parameters: seq<string>, returnType: string): string {
    "(" + ParameterSignatures(parameters) + ")" + TypeSignature(returnType)
  }

  /** getCtorSignature: a constructor returns void. */
  function CtorSignature(parameters: seq<string>): string {
    "(" + ParameterSignatures(parameters) + ")V"
  }

  /**
   * The type a descriptor reader makes of a Java type name: the class-file reader's key
   * for a primitive ("boolean" is "bool" there), the slashed name of any other type, and
   * an array of that when the name ends in "[]".
   */
  function SigOfJavaType(t: string): Sig {
    var isArray := IsTypeArray(t);
    var base := ElementName(t);
    var leaf :=
      if BuiltInSignature(base).Some? then BasicSig(Some(if base == "boolean" then "bool" else base))
      else ObjectSig(Replace(base, '.', '/'));
    if isArray then ArraySig(leaf) else leaf
  }

  /** A Java type name a signature can carry: no ';' and no ')'. */
  predicate Spellable(t: string) {
    ';' !in t && ')' !in t
  }

  predicate AllSpellable(ts: seq<string>) {
    forall i :: 0 <= i < |ts| ==> Spellable(ts[i])
  }

  /** The base name getTypeSignature works on: the name with one trailing "[]" removed. */
  function ElementName(t: string): (r: string)
    ensures Spellable(t) ==> Spellable(r)
  {
    if IsTypeArray(t) then (assert BaseTypeName(t) <= t; BaseTypeName(t)) else t
  }

  lemma ObjectNameSignature(base: string)
    ensures Replace("L" + base + ";", '.', '/') == "L" + Replace(base, '.', '/') + ";"
    ensures Replace("[" + "L" + base + ";", '.', '/') == "[" + "L" + Replace(base, '.', '/') + ";"
  {
    ReplaceConcat("L" + base, ";", '.', '/');
    ReplaceConcat("L", base, '.', '/');
    ReplaceConcat("[", "L" + base + ";", '.', '/');
    assert "[" + ("L" + base + ";") == "[" + "L" + base + ";";
  }

  lemma ObjectTypeSignature(t: string)
    requires Spellable(t) && BuiltInSignature(ElementName(t)).None?
    ensures WellFormed(SigOfJavaType(t)) && Encode(SigOfJavaType(t)) == TypeSignature(t)
  {
    var base := ElementName(t);
    ObjectNameSignature(base);
    ReplaceRemoves(base, '.', '/', ';');
    ReplaceRemoves(base, '.', '/', ')');
  }

  lemma BuiltInTypeSignature(t: string)
    requires BuiltInSignature(ElementName(t)).Some?
    ensures WellFormed(SigOfJavaType(t)) && Encode(SigOfJavaType(t)) == TypeSignature(t)
  {
    var letter := BuiltInSignature(ElementName(t)).value;
    ReplaceAbsent("[" + letter, '.', '/');
    ReplaceAbsent(letter, '.', '/');
  }

  /** The signature of a type name is the descriptor of the type the reader makes of it. */
  lemma SignatureIsDescriptor(t: string)
    requires Spellable(t)
    ensures WellFormed(SigOfJavaType(t)) && Encode(SigOfJavaType(t)) == TypeSignature(t)
  {
    if BuiltInSignature(ElementName(t)).None? {
      ObjectTypeSignature(t);
    } else {
      BuiltInTypeSignature(t);
    }
  }

  function SigsOfJavaTypes(ts: seq<string>): (r: seq<Sig>)
    ensures |r| == |ts|
  {
    if ts == [] then [] else [SigOfJavaType(ts[0])] + SigsOfJavaTypes(ts[1..])
  }

  lemma {:induction false} ParameterSignaturesEncode(ts: seq<string>)
    requires AllSpellable(ts)
    ensures AllWellFormed(SigsOfJavaTypes(ts)) && EncodeAll(SigsOfJavaTypes(ts)) == ParameterSignatures(ts)
    decreases |ts|
  {
    if ts != [] {
      assert Spellable(ts[0]) && AllSpellable(ts[1..]);
      SignatureIsDescriptor(ts[0]);
      ParameterSignaturesEncode(ts[1..]);
      var head, tail := SigOfJavaType(ts[0]), SigsOfJavaTypes(ts[1..]);
      assert SigsOfJavaTypes(ts) == [head] + tail;
      AllWellFormedCons(head, tail);
      assert ([head] + tail)[1..] == tail;
    }
  }

  /**
   * The signatures the generator writes are read back by the class-file side as the
   * parameter and return types they were made from.
   */
  lemma MethodSignatureReadsBack(parameters: seq<string>, returnType: string)
    requires AllSpellable(parameters) && Spellable(returnType)
    ensures MethodSig(MethodSignature(parameters, returnType), SameName)
      == Ok((SigsOfJavaTypes(parameters), SigOfJavaType(returnType)))
  {
    ParameterSignaturesEncode(parameters);
    SignatureIsDescriptor(returnType);
    MethodSigOfEncoded(SigsOfJavaTypes(parameters), SigOfJavaType(returnType));
  }

  /** A constructor's signature reads back with a void return. */
  lemma CtorSignatureReadsBack(parameters: seq<string>)
    requires AllSpellable(parameters)
    ensures MethodSig(CtorSignature(parameters), SameName) == Ok((SigsOfJavaTypes(parameters), BasicSig(Some("void"))))
  {
    CtorIsVoidMethod(parameters);
    MethodSignatureReadsBack(parameters, "void");
  }

  /** getCtorSignature is getMethodSignature with a void return. */
  lemma CtorIsVoidMethod(parameters: seq<string>)
    ensures CtorSignature(parameters) == MethodSignature(parameters, "void")
    ensures SigOfJavaType("void") == BasicSig(Some("void")) && Spellable("void")
  {
    assert !IsTypeArray("void");
    assert TypeSignature("void") == "V" by { ReplaceAbsent("V", '.', '/'); }
    var p := ParameterSignatures(parameters);
    assert "(" + p + ")V" == "(" + p + ")" + "V";
  }

  // ---- Package and class names ----

  /** getPackageNameFromType: the text before the last '.', or null when there is none. */
  function PackageNameFromType(t: string): (r: Option<string>)
    ensures r.None? <==> '.' !in t
    ensures r.Some? ==> |r.value| < |t| && t[..|r.value|] == r.value && t[|r.value|] == '.' && '.' !in t[|r.value| + 1..]
  {
    var end := LastIndexOf(t, '.');
    if end == -1 then None else Some(t[..end])
  }

  /** getClassNameFromType: the text after the last '$', failing that after the last '.', failing that all of it. */
  function ClassNameFromType(t: string): (r: string)
    ensures |r| <= |t| && t[|t| - |r|..] == r
    ensures '$' !in r
    ensures '$' !in t ==> '.' !in r
    ensures r != t ==> t[|t| - |r| - 1] in "$."
    ensures '$' in t ==> r != t && t[|t| - |r| - 1] == '$'
  {
    var start := LastIndexOf(t, '$');
    var start := if start == -1 then LastIndexOf(t, '.') else start;
    t[start + 1..]
  }

  /** For a top-level class the package, a '.', and the class name give back the type name. */
  lemma PackageAndClassName(t: string)
    requires '.' in t && '$' !in t
    ensures PackageNameFromType(t).value + "." + ClassNameFromType(t) == t
  {
    var k := LastIndexOf(t, '.');
    assert t == t[..k] + [t[k]] + t[k + 1..];
  }

  // ---- C# keyword mangling ----

  /** KEYWORDS: the C# replacement of a token that is a C# keyword (or boolean/byte). */
  function KeywordReplacement(token: string): Option<string> {
    if token == "internal" then Some("internal_") else if token == "ref" then Some("ref_")
    else if token == "event" then Some("event_") else if token == "as" then Some("as_")
    else if token == "is" then Some("is_") else if token == "lock" then Some("lock_")
    else if token == "out" then Some("out_") else if token == "params" then Some("params_")
    else if token == "object" then Some("object_") else if token == "string" then Some("string_")
    else if token == "boolean" then Some("bool") else if token == "byte" then Some("sbyte")
    else None
  }

  function Mangle(token: string): string {
    if KeywordReplacement(token).Some? then KeywordReplacement(token).value else token
  }

  /** The pieces of s between its dots, empty ones included: one more than there are dots. */
  function Pieces(s: string): (r: seq<string>)
    ensures |r| >= 1
    decreases |s|
  {
    var k := IndexOf(s, '.');
    if k < 0 then [s] else [s[..k]] + Pieces(s[k + 1..])
  }

  /** Trailing empty strings, which String.split drops. */
  function DropTrailingEmpty(ts: seq<string>): (r: seq<string>)
    ensures r <= ts
    ensures r == [] || r[|r| - 1] != []
  {
    if ts != [] && ts[|ts| - 1] == [] then DropTrailingEmpty(ts[..|ts| - 1]) else ts
  }

  /** typeOrMethod.split("\\.") for a non-empty string. */
  function SplitDots(s: string): seq<string> {
    DropTrailingEmpty(Pieces(s))
  }

  /** What the token loop of normalize has built after i tokens: each token mangled, a '.' after all but the last. */
  function Emitted(tokens: seq<string>, i: nat): string
    requires i <= |tokens|
  {
    if i == 0 then [] else Emitted(tokens, i - 1) + Mangle(tokens[i - 1]) + (if i - 1 < |tokens| - 1 then "." else "")
  }

  /**
   * normalize: null stays null and "" stays ""; a name in mangledTypes takes its
   * entry; otherwise each dot-separated token is mangled, the dots kept, and '$' made '.'.
   */
  function Normalized(typeOrMethod: Option<string>, mangledTypes: map<string, string>): (r: Option<string>)
    ensures r.Some? <==> typeOrMethod.Some?
  {
    match typeOrMethod
      case None => None
      case Some(s) =>
        if s == [] then Some([])
        else if s in mangledTypes then Some(mangledTypes[s])
        else
          var tokens := SplitDots(s);
          Some(Replace(Emitted(tokens, |tokens|), '$', '.'))
  }

  /** The plain joining of pieces with '.', which splitting inverts. */
  function JoinDots(ts: seq<string>): string
    requires |ts| >= 1
  {
    if |ts| == 1 then ts[0] else ts[0] + "." + JoinDots(ts[1..])
  }

  lemma {:induction false} JoinPieces(s: string)
    ensures JoinDots(Pieces(s)) == s
    decreases |s|
  {
    var k := IndexOf(s, '.');
    if k >= 0 {
      var rest := Pieces(s[k + 1..]);
      JoinPieces(s[k + 1..]);
      var p := Pieces(s);
      assert p == [s[..k]] + rest;
      assert |p| > 1 && p[0] == s[..k] && p[1..] == rest;
      assert JoinDots(p) == s[..k] + "." + JoinDots(rest);
      assert [s[k]] == ".";
      assert s == s[..k] + [s[k]] + s[k + 1..];
    }
  }

  /** A name that does not end in '.' loses no piece to the split. */
  lemma PiecesEndWith(s: string)
    requires s != [] && s[|s| - 1] != '.'
    ensures var p := Pieces(s); p[|p| - 1] != [] && SplitDots(s) == p
    decreases |s|
  {
    var k := IndexOf(s, '.');
    if k >= 0 {
      PiecesEndWith(s[k + 1..]);
    }
  }

  /** Emitting tokens none of which is a keyword is joining them. */
  lemma {:induction false} EmittedPlain(tokens: seq<string>, i: nat)
    requires 1 <= i <= |tokens|
    requires forall j :: 0 <= j < |tokens| ==> KeywordReplacement(tokens[j]).None?
    ensures Emitted(tokens, i) == JoinDots(tokens[..i]) + (if i < |tokens| then "." else "")
  {
    if i == 1 {
      assert Emitted(tokens, 0) == [];
    } else {
      EmittedPlain(tokens, i - 1);
      JoinDotsSnoc(tokens[..i - 1], tokens[i - 1]);
      assert tokens[..i - 1] + [tokens[i - 1]] == tokens[..i];
    }
  }

  lemma {:induction false} JoinDotsSnoc(ts: seq<string>, t: string)
    requires |ts| >= 1
    ensures JoinDots(ts + [t]) == JoinDots(ts) + "." + t
    decreases |ts|
  {
    if |ts| > 1 {
      JoinDotsSnoc(ts[1..], t);
      assert (ts + [t])[1..] == ts[1..] + [t];
    }
  }

  /**
   * A name with no keyword token, no '$' and no trailing '.' that has no mangled entry
   * comes out of normalize unchanged.
   */
  lemma NormalizeKeepsPlainNames(s: string, mangledTypes: map<string, string>)
    requires s != [] && s[|s| - 1] != '.' && '$' !in s && s !in mangledTypes
    requires forall j :: 0 <= j < |Pieces(s)| ==> KeywordReplacement(Pieces(s)[j]).None?
    ensures Normalized(Some(s), mangledTypes) == Some(s)
  {
    var tokens := Pieces(s);
    PiecesEndWith(s);
    assert SplitDots(s) == tokens;
    EmittedPlain(tokens, |tokens|);
    assert tokens[..|tokens|] == tokens;
    JoinPieces(s);
    assert Emitted(tokens, |tokens|) == s + "";
    assert s + "" == s;
    ReplaceAbsent(s, '$', '.');
  }

  // ---- Implementation and API type names ----

  /** interfaceToImplClass: "JNIImpl" goes right before the first '[', or at the end. */
  function InterfaceToImplClass(t: string): (r: string)
    ensures var i := if '[' in t then IndexOf(t, '[') else |t|;
      && |r| == |t| + 7 && r[i..i + 7] == "JNIImpl"
      && r[..i] == t[..i] && r[i + 7..] == t[i..] && '[' !in r[..i]
  {
    var first := IndexOf(t, '[');
    if first == -1 then t + "JNIImpl" else t[..first] + "JNIImpl" + t[first..]
  }

  /** API_TYPES: the Caffeine JNI.NET name of a built-in C# type. */
  function ApiTypeName(t: string): Option<string> {
    if t == "bool" then Some("Boolean") else if t == "byte" then Some("Byte")
    else if t == "sbyte" then Some("Byte") else if t == "char" then Some("Char")
    else if t == "double" then Some("Double") else if t == "float" then Some("Float")
    else if t == "int" then Some("Int") else if t == "long" then Some("Long")
    else if t == "short" then Some("Short") else if t == "void" then Some("Void")
    else None
  }

  /** getApiType: the table entry of the type with one "[]" stripped, else "Object". */
  function ApiType(returnType: string): (r: string)
    ensures r == "Object" <==>
      ApiTypeName(if IsTypeArray(returnType) then BaseTypeName(returnType) else returnType).None?
  {
    var ret := if !IsTypeArray(returnType) then ApiTypeName(returnType) else ApiTypeName(BaseTypeName(returnType));
    if ret.None? then "Object" else ret.value
  }

  /** One array level does not change the API type; a second one makes it Object. */
  lemma ApiTypeOfArrays(t: string)
    requires !IsTypeArray(t)
    ensures ApiType(t + "[]") == ApiType(t)
    ensures ApiType(t + "[]" + "[]") == "Object"
  {
    assert IsTypeArray(t + "[]") && BaseTypeName(t + "[]") == t;
    var u := t + "[]" + "[]";
    assert IsTypeArray(u) && BaseTypeName(u) == t + "[]";
    assert ApiTypeName(t + "[]").None? by {
      assert (t + "[]")[|t| + 1] == ']';
    }
  }

  /**
   * The generator's mangle table, the state normalize reads. It is filled from the
   * API description by populateMangleMap, which is not part of this model: the
   * constructor takes the filled table.
   */
  class WrapperGenerator {
    var mangledTypes: map<string, string>

    constructor(mangled: map<string, string>)
      ensures mangledTypes == mangled
    {
      mangledTypes := mangled;
    }

    /** normalize, with its token loop. */
    method Normalize(typeOrMethod: Option<string>) returns (r: Option<string>)
      ensures r == Normalized(typeOrMethod, mangledTypes)
      ensures r.None? <==> typeOrMethod.None?
      ensures r.Some? && typeOrMethod.value !in mangledTypes ==> '$' !in r.value
    {
      if typeOrMethod.None? {
        return None;
      }
      var s := typeOrMethod.value;
      if |s| == 0 {
        return Some([]);
      }
      if s in mangledTypes {
        return Some(mangledTypes[s]);
      }
      var tokens := SplitDots(s);
      var nTokens := |tokens|;
      var normalizedType: string := [];
      var i := 0;
      while i < nTokens
        invariant 0 <= i <= nTokens
        invariant normalizedType == Emitted(tokens, i)
      {
        ghost var before := normalizedType;
        var replacement := KeywordReplacement(tokens[i]);
        if replacement.Some? {
          normalizedType := normalizedType + replacement.value;
        } else {
          normalizedType := normalizedType + tokens[i];
        }
        assert normalizedType == before + Mangle(tokens[i]);
        if i < nTokens - 1 {
          normalizedType := normalizedType + ".";
        }
        i := i + 1;
      }
      ReplaceRemoves(normalizedType, '$', '.', '$');
      return Some(Replace(normalizedType, '$', '.'));
    }

    /** getCLRType: only the part before the first '[' is normalized; the array suffix is kept as it is. */
    method CLRType(javaType: string) returns (r: string)
      ensures '[' !in javaType ==> Some(r) == Normalized(Some(javaType), mangledTypes)
      ensures '[' in javaType ==>
        var i := IndexOf(javaType, '[');
        r == Normalized(Some(javaType[..i]), mangledTypes).value + javaType[i..]
    {
      var literalLength := IndexOf(javaType, '[');
      var literal := javaType;
      var arrayLiteral := "";
      if literalLength != -1 {
        literal := javaType[..literalLength];
        arrayLiteral := javaType[literalLength..];
      }
      var normalized := Normalize(Some(literal));
      r := normalized.value + arrayLiteral;
      assert literalLength == -1 ==> r == normalized.value;
    }
  }
}
