/**
 * How JMethod decides which JNI Call*Method entry point an invocation goes through: the
 * return type is read once from the method's signature and cached, and arrays always
 * go through the object call. The native calls themselves are not modelled; Invoke
 * answers which one it would make.
 */
module JniReturn {
  import opened Failures
  import opened Strings
  import opened Descriptors

  datatype ReturnType = INVALID | BOOL | BYTE | CHAR | SHORT | INT | LONG | FLOAT | DOUBLE | VOID | OBJECT

  /** The JNI entry point Invoke dispatches to. */
  datatype Call = CallBoolean | CallByte | CallChar | CallShort | CallInt | CallLong
                | CallFloat | CallDouble | CallVoid | CallObject

  /** The switch of DetermineReturnType: one return type per descriptor letter, None for any other. */
  function ReturnTypeOfLetter(c: char): Option<ReturnType> {
    match c
      case 'Z' => Some(BOOL)
      case 'B' => Some(BYTE)
      case 'C' => Some(CHAR)
      case 'S' => Some(SHORT)
      case 'I' => Some(INT)
      case 'J' => Some(LONG)
      case 'F' => Some(FLOAT)
      case 'D' => Some(DOUBLE)
      case 'V' => Some(VOID)
      case 'L' => Some(OBJECT)
      case _ => None
  }

  function LetterOfReturnType(t: ReturnType): (c: char)
    requires t != INVALID
    ensures ReturnTypeOfLetter(c) == Some(t)
  {
    match t
      case BOOL => 'Z' case BYTE => 'B' case CHAR => 'C' case SHORT => 'S' case INT => 'I'
      case LONG => 'J' case FLOAT => 'F' case DOUBLE => 'D' case VOID => 'V' case OBJECT => 'L'
  }

  /** The switch is one-to-one: a letter it accepts is the letter of the type it gives. */
  lemma LettersAreOneToOne(c: char)
    requires ReturnTypeOfLetter(c).Some?
    ensures ReturnTypeOfLetter(c).value != INVALID && LetterOfReturnType(ReturnTypeOfLetter(c).value) == c
  {
  }

  /** The text after the last ')'; with no ')' the whole signature (LastIndexOf gives -1). */
  function ReturnText(sig: string): (r: string)
    ensures |r| <= |sig| && sig[|sig| - |r|..] == r && ')' !in r
    ensures ')' !in sig ==> r == sig
  {
    sig[LastIndexOf(sig, ')') + 1..]
  }

  /**
   * DetermineReturnType as written, on the text after the last ')': isArray is whether
   * it starts with '['; the letter switched on is the second character for an array and
   * the first otherwise; a letter outside the switch, the second '[' of "[[I" included,
   * throws.
   */
  function TextKindAsWritten(ending: string): (r: Result<(bool, ReturnType)>)
    ensures r.Ok? ==> |ending| > 0 && r.value.1 != INVALID && r.value.0 == (ending[0] == '[')
  {
    if |ending| == 0 then Err(IndexOutOfRange)
    else
      var isArray := ending[0] == '[';
      if isArray && |ending| < 2 then Err(IndexOutOfRange)
      else
        var c := if isArray then ending[1] else ending[0];
        match ReturnTypeOfLetter(c)
        case None => Err(UnreachableReached)
        case Some(t) => Ok((isArray, t))
  }

  /**
   * DetermineReturnType as intended: an array whose elements are arrays is an array of
   * objects, so "[[I" gives OBJECT instead of throwing. Every other text is decoded as
   * written.
   */
  function TextKind(ending: string): (r: Result<(bool, ReturnType)>)
    ensures r.Ok? ==> |ending| > 0 && r.value.1 != INVALID && r.value.0 == (ending[0] == '[')
    ensures r.Ok? && !r.value.0 ==> ReturnTypeOfLetter(ending[0]) == Some(r.value.1)
    ensures r.Err? <==> TextKindAsWritten(ending).Err? && !(|ending| >= 2 && ending[..2] == "[[")
    ensures TextKindAsWritten(ending).Ok? ==> r == TextKindAsWritten(ending)
  {
    if |ending| >= 2 && ending[0] == '[' && ending[1] == '[' then Ok((true, OBJECT))
    else TextKindAsWritten(ending)
  }

  function ReturnKindAsWritten(sig: string): Result<(bool, ReturnType)> {
    TextKindAsWritten(ReturnText(sig))
  }

  function ReturnKind(sig: string): Result<(bool, ReturnType)> {
    TextKind(ReturnText(sig))
  }

  /**
   * A method returning int[][] cannot be invoked as written, whatever its parameters;
   * as intended it is an object call.
   */
  lemma MultiDimensionalArrayReturn(params: string)
    ensures ReturnKindAsWritten(params + [')', '[', '[', 'I']) == Err(UnreachableReached)
    ensures ReturnKind(params + [')', '[', '[', 'I']) == Ok((true, OBJECT))
  {
    var ending := ['[', '[', 'I'];
    assert params + [')', '[', '[', 'I'] == params + [')'] + ending;
    LastIndexOfBeforeSuffix(params, ')', ending);
  }

  /** The entry point for a decoded return type: every array goes through the object call. */
  function CallFor(isArray: bool, t: ReturnType): (r: Result<Call>)
    ensures isArray ==> r == Ok(CallObject)
    ensures r.Err? <==> !isArray && t == INVALID
  {
    if isArray then Ok(CallObject)
    else match t
      case BOOL => Ok(CallBoolean) case BYTE => Ok(CallByte) case CHAR => Ok(CallChar)
      case SHORT => Ok(CallShort) case INT => Ok(CallInt) case LONG => Ok(CallLong)
      case FLOAT => Ok(CallFloat) case DOUBLE => Ok(CallDouble) case VOID => Ok(CallVoid)
      case OBJECT => Ok(CallObject)
      case INVALID => Err(UnreachableReached)
  }

  /** The kind of a descriptor's return type, as the JNI side decodes it. */
  function KindOfSig(s: Sig): (bool, ReturnType)
    requires WellFormed(s)
  {
    if s.ArraySig? then (true, if s.component.ArraySig? then OBJECT else KindOfSig(s.component).1)
    else if s.ObjectSig? then (false, OBJECT)
    else (false, ReturnTypeOfLetter(LetterOf(s.key.value)).value)
  }

  lemma LetterOfKeywordIsReturnLetter(k: string)
    requires IsKeyword(k)
    ensures ReturnTypeOfLetter(LetterOf(k)).Some?
  {
  }

  /** The text of a descriptor decodes to its kind. */
  lemma TextKindOfEncoded(s: Sig)
    requires WellFormed(s)
    ensures TextKind(Encode(s)) == Ok(KindOfSig(s))
  {
    match s
    case BasicSig(k) =>
      LetterOfKeywordIsReturnLetter(k.value);
    case ObjectSig(n) =>
      assert Encode(s)[0] == 'L';
    case ArraySig(c) =>
      var e := Encode(s);
      assert e[0] == '[' && e[1..] == Encode(c);
      match c
      case BasicSig(k) =>
        LetterOfKeywordIsReturnLetter(k.value);
        assert e[1] == LetterOf(k.value);
      case ObjectSig(n) =>
        assert e[1] == 'L';
      case ArraySig(_) =>
        assert e[1] == '[';
  }

  /**
   * The JNI side decodes the return type of any method descriptor the class-file side
   * parses, arrays of arrays included.
   */
  lemma ReturnOfEncodedMethod(args: seq<Sig>, ret: Sig)
    requires AllWellFormed(args) && WellFormed(ret)
    ensures ReturnKind(EncodeMethod(args, ret)) == Ok(KindOfSig(ret))
  {
    var body := EncodeAll(args);
    var sig := EncodeMethod(args, ret);
    assert sig == ("(" + body) + [')'] + Encode(ret);
    LastIndexOfBeforeSuffix("(" + body, ')', Encode(ret));
    assert ReturnText(sig) == Encode(ret);
    TextKindOfEncoded(ret);
  }

  /** The part of JMethod that Invoke uses: the signature and the cached return type. */
  class JMethod {
    const sig: Option<string>
    var isArray: bool
    var rType: ReturnType

    constructor(sig: Option<string>)
      ensures this.sig == sig && rType == INVALID && !isArray
    {
      this.sig := sig;
      rType := INVALID;
      isArray := false;
    }

    /**
     * DetermineReturnType, decoding as written: "[[I" reaches the default and throws.
     * On a signature it cannot decode the
     * exception leaves rType as it was; isArray is already set when the failure is the
     * letter after '['.
     */
    method DetermineReturnType() returns (o: Outcome)
      requires sig.Some?
      modifies this
      ensures var k := ReturnKindAsWritten(sig.value);
        k.Ok? ==> o == Pass && isArray == k.value.0 && rType == k.value.1
      ensures var k := ReturnKindAsWritten(sig.value);
        k.Err? ==> o == Fail(k.error) && rType == old(rType)
      ensures var ending := ReturnText(sig.value);
        isArray == (if |ending| > 0 then ending[0] == '[' else old(isArray))
    {
      var ending := ReturnText(sig.value);
      if |ending| == 0 {
        return Fail(IndexOutOfRange);
      }
      isArray := ending[0] == '[';
      if isArray && |ending| < 2 {
        return Fail(IndexOutOfRange);
      }
      var c := if isArray then ending[1] else ending[0];
      var t := ReturnTypeOfLetter(c);
      if t.None? {
        assert TextKindAsWritten(ending) == Err(UnreachableReached);
        return Fail(UnreachableReached);
      }
      rType := t.value;
      return Pass;
    }

    /**
     * The dispatch of Invoke: the return type is decoded only while it is INVALID and
     * the signature is not null; then arrays go to the object call and everything else
     * by its return type. A method without signature never decodes and reaches the
     * "Unreachable reached" default.
     */
    method Invoke() returns (r: Result<Call>)
      modifies this
      ensures old(rType) != INVALID || sig.None? ==> rType == old(rType) && isArray == old(isArray)
      ensures old(rType) != INVALID || sig.None? ==> r == CallFor(old(isArray), old(rType))
      ensures old(rType) == INVALID && sig.Some? ==>
        var k := ReturnKindAsWritten(sig.value);
        (k.Ok? ==> r == CallFor(k.value.0, k.value.1) && isArray == k.value.0 && rType == k.value.1)
        && (k.Err? ==> r == Err(k.error) && rType == INVALID)
      ensures old(rType) == INVALID && sig.Some? ==>
        var ending := ReturnText(sig.value);
        isArray == (if |ending| > 0 then ending[0] == '[' else old(isArray))
      ensures r.Ok? ==> rType != INVALID || isArray
    {
      if sig.Some? && rType == INVALID {
        var o := DetermineReturnType();
        if o.Fail? {
          return Err(o.error);
        }
      }
      r := CallFor(isArray, rType);
    }
  }
}
