/**
 * Field and method descriptors (sections 4.3.2 and 4.3.3 of The Java Virtual Machine
 * Specification) as ClassFile.ProcessDescriptor and ProcessMethodDescriptorString read
 * them. A descriptor parses to a Sig: the key under which the class factory is asked for
 * a basic type, the name of an object type, or an array of a component.
 */
module Descriptors {
  import opened Failures
  import opened Strings

  /** The two markers the baseTypes table holds besides the basic-type keywords. */
  const OBJECT_TYPE: string := "ObjectType"
  const ARRAY_TYPE: string := "ArrayType"

  /** The static baseTypes table, keyed by a descriptor's first character. */
  function BaseType(c: char): Option<string> {
    match c
      case 'B' => Some("byte")
      case 'C' => Some("char")
      case 'D' => Some("double")
      case 'F' => Some("float")
      case 'I' => Some("int")
      case 'J' => Some("long")
      case 'L' => Some(OBJECT_TYPE)
      case 'S' => Some("short")
      case 'Z' => Some("bool")
      case '[' => Some(ARRAY_TYPE)
      case 'V' => Some("void")
      case _ => None
  }

  /** GetTypeForDescriptor: "" for the empty descriptor, else the table entry (None when unmapped). */
  function TypeForDescriptor(descriptor: string): Option<string> {
    if descriptor == [] then Some([]) else BaseType(descriptor[0])
  }

  /**
   * The parse of a descriptor. BasicSig(None) is what an unmapped first character gives:
   * the factory is then asked for the null name and answers null.
   */
  datatype Sig = BasicSig(key: Option<string>) | ObjectSig(name: string) | ArraySig(component: Sig)

  function Rank(s: Sig): nat {
    if s.ArraySig? then 1 + Rank(s.component) else 0
  }

  /** The innermost component: the descriptor itself when it is no array. */
  function Leaf(s: Sig): (r: Sig)
    ensures !r.ArraySig?
  {
    if s.ArraySig? then Leaf(s.component) else s
  }

  /**
   * ProcessDescriptor's grammar: '[' wraps the parse of the rest; 'L' takes the text up
   * to the first ';' (String.Substring throws when there is none); anything else is a
   * basic type under its table entry, the empty descriptor included.
   */
  function ParseDescriptor(value: string): (r: Result<Sig>)
    ensures r.Err? ==> r.error == ArgumentOutOfRange
    ensures r.Ok? && value != [] && value[0] == 'L' ==>
      r.value.ObjectSig? && "L" + r.value.name + ";" <= value && ';' !in r.value.name
    decreases |value|
  {
    var t := TypeForDescriptor(value);
    if t == Some(ARRAY_TYPE) then
      match ParseDescriptor(value[1..])
      case Ok(c) => Ok(ArraySig(c))
      case Err(e) => Err(e)
    else if t == Some(OBJECT_TYPE) then
      var k := IndexOf(value, ';');
      if k < 0 then Err(ArgumentOutOfRange)
      else
        assert value[..k + 1] == "L" + value[1..k] + ";";
        Ok(ObjectSig(value[1..k]))
    else Ok(BasicSig(t))
  }

  /** The nine names the factory is seeded with. */
  predicate IsKeyword(k: string) {
    k in {"byte", "char", "double", "float", "int", "long", "short", "bool", "void"}
  }

  function LetterOf(k: string): (c: char)
    requires IsKeyword(k)
    ensures BaseType(c) == Some(k)
  {
    if k == "byte" then 'B' else if k == "char" then 'C' else if k == "double" then 'D'
    else if k == "float" then 'F' else if k == "int" then 'I' else if k == "long" then 'J'
    else if k == "short" then 'S' else if k == "bool" then 'Z' else 'V'
  }

  /** A Sig a descriptor can spell: keyword basic types and object names without ';' or ')'. */
  predicate WellFormed(s: Sig) {
    match s
      case BasicSig(k) => k.Some? && IsKeyword(k.value)
      case ObjectSig(n) => ';' !in n && ')' !in n
      case ArraySig(c) => WellFormed(c)
  }

  /** The descriptor text of a Sig. */
  function Encode(s: Sig): (r: string)
    requires WellFormed(s)
    ensures |r| >= 1 && ')' !in r
  {
    match s
      case BasicSig(k) => [LetterOf(k.value)]
      case ObjectSig(n) => "L" + n + ";"
      case ArraySig(c) => "[" + Encode(c)
  }

  lemma ParseObjectType(n: string, rest: string)
    requires ';' !in n
    ensures ParseDescriptor("L" + n + ";" + rest) == Ok(ObjectSig(n))
  {
    var v := "L" + n + ";" + rest;
    assert v == ("L" + n) + [';'] + rest;
    IndexOfAfterPrefix("L" + n, ';', rest);
    assert v[1..|n| + 1] == n;
  }

  lemma ParseArrayType(c: string, rest: string)
    ensures ParseDescriptor("[" + c + rest) ==
      (match ParseDescriptor(c + rest) case Ok(x) => Ok(ArraySig(x)) case Err(e) => Err(e))
  {
    assert ("[" + c + rest)[1..] == c + rest;
  }

  /** Parsing inverts encoding, whatever follows the descriptor. */
  lemma {:induction false} ParseEncoded(s: Sig, rest: string)
    requires WellFormed(s)
    ensures ParseDescriptor(Encode(s) + rest) == Ok(s)
  {
    match s
    case BasicSig(k) =>
      assert (Encode(s) + rest)[0] == LetterOf(k.value);
    case ObjectSig(n) =>
      ParseObjectType(n, rest);
    case ArraySig(c) =>
      ParseArrayType(Encode(c), rest);
      ParseEncoded(c, rest);
  }

  /**
   * How far ProcessMethodDescriptorString advances past an argument: one character per
   * '[' and per basic type, and for an object type the length of its class's
   * InternalName plus two. nameOf gives that InternalName for a name the factory was
   * asked for; a null one is a null dereference.
   */
  function Width(s: Sig, nameOf: string -> Option<string>): (r: Result<nat>)
    ensures r.Ok? ==> r.value >= 1
    ensures r.Err? <==> Leaf(s).ObjectSig? && nameOf(Leaf(s).name).None?
  {
    match s
      case BasicSig(_) => Ok(1)
      case ObjectSig(n) => if nameOf(n).None? then Err(NullReference) else Ok(|nameOf(n).value| + 2)
      case ArraySig(c) => match Width(c, nameOf) case Ok(w) => Ok(w + 1) case Err(e) => Err(e)
  }

  /** The names the descriptors themselves carry: what each class is called when nothing renamed it. */
  function SameName(n: string): Option<string> {
    Some(n)
  }

  /** With every class known by its own name the width is exactly the text the descriptor spans. */
  lemma {:induction false} WidthOfEncoded(s: Sig)
    requires WellFormed(s)
    ensures Width(s, SameName) == Ok(|Encode(s)|)
  {
    if s.ArraySig? {
      WidthOfEncoded(s.component);
    }
  }

  /** The argument list from position index on, split as ProcessMethodDescriptorString does. */
  function ArgsFrom(args: string, index: nat, nameOf: string -> Option<string>): (r: Result<seq<Sig>>)
    decreases |args| - index
  {
    if index >= |args| then Ok([])
    else match ParseDescriptor(args[index..])
      case Err(e) => Err(e)
      case Ok(s) =>
        match Width(s, nameOf)
        case Err(e) => Err(e)
        case Ok(w) =>
          match ArgsFrom(args, index + w, nameOf)
          case Err(e) => Err(e)
          case Ok(rest) => Ok([s] + rest)
  }

  /**
   * The arguments and return type of a method descriptor: the text up to the first ')'
   * split from just after its '(', then the text after the ')'.
   */
  function MethodSig(value: string, nameOf: string -> Option<string>): (r: Result<(seq<Sig>, Sig)>)
    ensures ')' !in value ==> r == Err(ArgumentOutOfRange)
  {
    var k := IndexOf(value, ')');
    if k < 1 then Err(ArgumentOutOfRange)
    else match ArgsFrom(value[..k], 1, nameOf)
      case Err(e) => Err(e)
      case Ok(args) =>
        match ParseDescriptor(value[k + 1..])
        case Err(e) => Err(e)
        case Ok(ret) => Ok((args, ret))
  }

  predicate AllWellFormed(sigs: seq<Sig>) {
    forall i :: 0 <= i < |sigs| ==> WellFormed(sigs[i])
  }

  lemma AllWellFormedCons(s: Sig, sigs: seq<Sig>)
    requires WellFormed(s) && AllWellFormed(sigs)
    ensures AllWellFormed([s] + sigs)
  {
    var all := [s] + sigs;
    forall i | 0 <= i < |all| ensures WellFormed(all[i]) {
      if i > 0 { assert all[i] == sigs[i - 1]; }
    }
  }

  function EncodeAll(sigs: seq<Sig>): (r: string)
    requires AllWellFormed(sigs)
    ensures ')' !in r
  {
    if sigs == [] then [] else Encode(sigs[0]) + EncodeAll(sigs[1..])
  }

  /** Splitting concatenated descriptors gives them back one by one. */
  lemma {:induction false} ArgsOfEncoded(pre: string, sigs: seq<Sig>)
    requires AllWellFormed(sigs)
    ensures ArgsFrom(pre + EncodeAll(sigs), |pre|, SameName) == Ok(sigs)
    decreases |sigs|
  {
    var args := pre + EncodeAll(sigs);
    if sigs != [] {
      var s, rest := sigs[0], EncodeAll(sigs[1..]);
      assert WellFormed(s) && AllWellFormed(sigs[1..]);
      assert args == (pre + Encode(s)) + rest;
      assert args[|pre|..] == Encode(s) + rest;
      ParseEncoded(s, rest);
      WidthOfEncoded(s);
      ArgsOfEncoded(pre + Encode(s), sigs[1..]);
      ArgsStep(args, |pre|, SameName, s, |Encode(s)|, sigs[1..]);
      assert [s] + sigs[1..] == sigs;
    }
  }

  /** One step of the splitter: the argument at index, then the rest from where it ends. */
  lemma ArgsStep(args: string, index: nat, nameOf: string -> Option<string>, s: Sig, w: nat, rest: seq<Sig>)
    requires index < |args| && ParseDescriptor(args[index..]) == Ok(s) && Width(s, nameOf) == Ok(w)
    requires ArgsFrom(args, index + w, nameOf) == Ok(rest)
    ensures ArgsFrom(args, index, nameOf) == Ok([s] + rest)
  {
  }

  function EncodeMethod(args: seq<Sig>, ret: Sig): string
    requires AllWellFormed(args)
    requires WellFormed(ret)
  {
    "(" + EncodeAll(args) + ")" + Encode(ret)
  }

  /** A method descriptor splits back into the argument and return types it was built from. */
  lemma MethodSigOfEncoded(args: seq<Sig>, ret: Sig)
    requires AllWellFormed(args)
    requires WellFormed(ret)
    ensures MethodSig(EncodeMethod(args, ret), SameName) == Ok((args, ret))
  {
    var body, tail := EncodeAll(args), Encode(ret);
    ParenthesisedParts(body, tail);
    IndexOfAfterPrefix("(" + body, ')', tail);
    ArgsOfEncoded("(", args);
    ParseEncoded(ret, []);
  }

  /**
   * The text between the parentheses of "(" + a + ")" + b, and what follows them, in the
   * shapes ArgsOfEncoded and ParseEncoded speak of.
   */
  lemma ParenthesisedParts(a: string, b: string)
    ensures var v := "(" + a + ")" + b;
      && v == "(" + a + [')'] + b && v[..|a| + 1] == "(" + a && v[|a| + 2..] == b + []
  {
    var v := "(" + a + ")" + b;
    forall i | 0 <= i < |a| + 1 ensures v[..|a| + 1][i] == ("(" + a)[i] {
    }
    forall i | 0 <= i < |b| ensures v[|a| + 2..][i] == (b + [])[i] {
      assert v[|a| + 2 + i] == b[i];
    }
  }

  /**
   * Descriptor.ToString over a parse: the InternalName of the element class followed by
   * one "[]" per array level; a missing class or name is a null dereference.
   */
  function Text(s: Sig, nameOf: string -> Option<string>): (r: Result<string>)
  {
    match s
      case BasicSig(k) => if k.None? || nameOf(k.value).None? then Err(NullReference) else Ok(nameOf(k.value).value)
      case ObjectSig(n) => if nameOf(n).None? then Err(NullReference) else Ok(nameOf(n).value)
      case ArraySig(c) => match Text(c, nameOf) case Ok(t) => Ok(t + "[]") case Err(e) => Err(e)
  }

  function Brackets(n: nat): string {
    if n == 0 then [] else Brackets(n - 1) + "[]"
  }

  /** The text is the element's text followed by as many "[]" as the rank. */
  lemma {:induction false} TextIsElementAndBrackets(s: Sig, nameOf: string -> Option<string>)
    ensures Text(s, nameOf).Ok? == Text(Leaf(s), nameOf).Ok?
    ensures Text(s, nameOf).Ok? ==> Text(s, nameOf).value == Text(Leaf(s), nameOf).value + Brackets(Rank(s))
  {
    if s.ArraySig? {
      TextIsElementAndBrackets(s.component, nameOf);
      if Text(s, nameOf).Ok? {
        assert Text(Leaf(s), nameOf).value + Brackets(Rank(s.component)) + "[]"
            == Text(Leaf(s), nameOf).value + (Brackets(Rank(s.component)) + "[]");
      }
    }
  }

  /** "[[I" is a two-dimensional int array. */
  lemma IntMatrix()
    ensures ParseDescriptor("[[I") == Ok(ArraySig(ArraySig(BasicSig(Some("int")))))
    ensures Rank(ParseDescriptor("[[I").value) == 2
  {
    assert "[[I"[1..] == "[I" && "[I"[1..] == "I";
  }

  /** "([I)I" takes one int array and returns an int. */
  lemma IntArrayToInt(nameOf: string -> Option<string>)
    ensures MethodSig("([I)I", nameOf) == Ok(([ArraySig(BasicSig(Some("int")))], BasicSig(Some("int"))))
  {
    var v := "([I)I";
    var intArray := ArraySig(BasicSig(Some("int")));
    assert IndexOf(v, ')') == 3 by { IndexOfAfterPrefix("([I", ')', "I"); }
    assert v[..3] == "([I" && v[4..] == "I";
    assert "([I"[1..] == "[I" && "[I"[1..] == "I";
    assert Width(intArray, nameOf) == Ok(2);
    assert ArgsFrom("([I", 3, nameOf) == Ok([]);
    ArgsStep("([I", 1, nameOf, intArray, 2, []);
    assert [intArray] + [] == [intArray];
    assert ArgsFrom(v[..3], 1, nameOf) == Ok([intArray]);
    assert ParseDescriptor(v[4..]) == Ok(BasicSig(Some("int")));
  }
}
