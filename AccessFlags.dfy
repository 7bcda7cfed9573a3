/**
 * The access_flags words of classes, fields and methods (tables 4.1, 4.4 and 4.5 of
 * The Java Virtual Machine Specification), the Is* predicates the front end reads off
 * them, and the .NET TypeAttributes and MethodAttributes words it derives from them.
 */
module AccessFlags {

  // ---- Class.AccessFlag ----

  const CLASS_PUBLIC: bv16 := 0x0001
  const CLASS_FINAL: bv16 := 0x0010
  const CLASS_INTERFACE: bv16 := 0x0200
  const CLASS_ABSTRACT: bv16 := 0x0400
  /** Every bit a Class predicate looks at. */
  const CLASS_BITS: bv16 := 0x0611

  /** What Class.IsPublic, IsFinal, IsInterface and IsAbstract report. */
  datatype ClassAccess = ClassAccess(isPublic: bool, isFinal: bool, isInterface: bool, isAbstract: bool)

  function ClassAccessOf(f: bv16): ClassAccess {
    ClassAccess(f & CLASS_PUBLIC != 0, f & CLASS_FINAL != 0, f & CLASS_INTERFACE != 0, f & CLASS_ABSTRACT != 0)
  }

  /** The flags word with exactly the given predicates true, and no other bit set. */
  function ClassFlags(a: ClassAccess): (f: bv16)
    ensures ClassAccessOf(f) == a
    ensures f & !CLASS_BITS == 0
  {
    (if a.isPublic then CLASS_PUBLIC else 0) | (if a.isFinal then CLASS_FINAL else 0)
    | (if a.isInterface then CLASS_INTERFACE else 0) | (if a.isAbstract then CLASS_ABSTRACT else 0)
  }

  /** Each Class predicate tests its own bit and nothing else: the other bits are ignored. */
  lemma ClassPredicatesReadOnlyTheirBits(f: bv16)
    ensures ClassAccessOf(f) == ClassAccessOf(f & CLASS_BITS)
    ensures ClassFlags(ClassAccessOf(f)) == f & CLASS_BITS
  {
  }

  // ---- Field.AccessFlag ----

  const ACC_PUBLIC: bv16 := 0x0001
  const ACC_PRIVATE: bv16 := 0x0002
  const ACC_PROTECTED: bv16 := 0x0004
  const ACC_STATIC: bv16 := 0x0008
  const ACC_FINAL: bv16 := 0x0010
  const FIELD_VOLATILE: bv16 := 0x0040
  const FIELD_TRANSIENT: bv16 := 0x0080
  const FIELD_BITS: bv16 := 0x00DF

  /** What Field.IsPublic … IsTransient report. */
  datatype FieldAccess = FieldAccess(
    isPublic: bool, isPrivate: bool, isProtected: bool, isStatic: bool,
    isFinal: bool, isVolatile: bool, isTransient: bool)

  function FieldAccessOf(f: bv16): FieldAccess {
    FieldAccess(f & ACC_PUBLIC != 0, f & ACC_PRIVATE != 0, f & ACC_PROTECTED != 0, f & ACC_STATIC != 0,
                f & ACC_FINAL != 0, f & FIELD_VOLATILE != 0, f & FIELD_TRANSIENT != 0)
  }

  /** The five bits fields and methods share. */
  function SharedFlags(isPublic: bool, isPrivate: bool, isProtected: bool, isStatic: bool, isFinal: bool): (f: bv16)
    ensures f & !0x1F == 0
    ensures (f & ACC_PUBLIC != 0) == isPublic && (f & ACC_PRIVATE != 0) == isPrivate
    ensures (f & ACC_PROTECTED != 0) == isProtected && (f & ACC_STATIC != 0) == isStatic
    ensures (f & ACC_FINAL != 0) == isFinal
  {
    (if isPublic then ACC_PUBLIC else 0) | (if isPrivate then ACC_PRIVATE else 0)
    | (if isProtected then ACC_PROTECTED else 0) | (if isStatic then ACC_STATIC else 0)
    | (if isFinal then ACC_FINAL else 0)
  }

  function FieldFlags(a: FieldAccess): (f: bv16)
    ensures FieldAccessOf(f) == a
    ensures f & !FIELD_BITS == 0
  {
    SharedFlags(a.isPublic, a.isPrivate, a.isProtected, a.isStatic, a.isFinal)
    | (if a.isVolatile then FIELD_VOLATILE else 0) | (if a.isTransient then FIELD_TRANSIENT else 0)
  }

  lemma FieldPredicatesReadOnlyTheirBits(f: bv16)
    ensures FieldAccessOf(f) == FieldAccessOf(f & FIELD_BITS)
    ensures FieldFlags(FieldAccessOf(f)) == f & FIELD_BITS
  {
  }

  // ---- Method.AccessFlag ----

  const METHOD_SYNCHRONIZED: bv16 := 0x0020
  const METHOD_NATIVE: bv16 := 0x0100
  const METHOD_ABSTRACT: bv16 := 0x0400
  const METHOD_STRICT: bv16 := 0x0800
  const METHOD_BITS: bv16 := 0x0D3F

  /** What Method.IsPublic … IsStrict report. */
  datatype MethodAccess = MethodAccess(
    isPublic: bool, isPrivate: bool, isProtected: bool, isStatic: bool, isFinal: bool,
    isSynchronized: bool, isNative: bool, isAbstract: bool, isStrict: bool)

  function MethodAccessOf(f: bv16): MethodAccess {
    MethodAccess(f & ACC_PUBLIC != 0, f & ACC_PRIVATE != 0, f & ACC_PROTECTED != 0, f & ACC_STATIC != 0,
                 f & ACC_FINAL != 0, f & METHOD_SYNCHRONIZED != 0, f & METHOD_NATIVE != 0,
                 f & METHOD_ABSTRACT != 0, f & METHOD_STRICT != 0)
  }

  function MethodFlags(a: MethodAccess): (f: bv16)
    ensures MethodAccessOf(f) == a
    ensures f & !METHOD_BITS == 0
  {
    SharedFlags(a.isPublic, a.isPrivate, a.isProtected, a.isStatic, a.isFinal)
    | MethodOnlyFlags(a.isSynchronized, a.isNative, a.isAbstract, a.isStrict)
  }

  /** The four bits only methods have. */
  function MethodOnlyFlags(isSynchronized: bool, isNative: bool, isAbstract: bool, isStrict: bool): (f: bv16)
    ensures f & !0x0D20 == 0
    ensures (f & METHOD_SYNCHRONIZED != 0) == isSynchronized && (f & METHOD_NATIVE != 0) == isNative
    ensures (f & METHOD_ABSTRACT != 0) == isAbstract && (f & METHOD_STRICT != 0) == isStrict
  {
    (if isSynchronized then METHOD_SYNCHRONIZED else 0) | (if isNative then METHOD_NATIVE else 0)
    | (if isAbstract then METHOD_ABSTRACT else 0) | (if isStrict then METHOD_STRICT else 0)
  }

  lemma MethodPredicatesReadOnlyTheirBits(f: bv16)
    ensures MethodAccessOf(f) == MethodAccessOf(f & METHOD_BITS)
    ensures MethodFlags(MethodAccessOf(f)) == f & METHOD_BITS
  {
  }

  // ---- System.Reflection.TypeAttributes ----

  const VISIBILITY_MASK: bv32 := 0x07
  const NOT_PUBLIC: bv32 := 0x00
  const PUBLIC: bv32 := 0x01
  const NESTED_PUBLIC: bv32 := 0x02
  const NESTED_PRIVATE: bv32 := 0x03
  const NESTED_FAMILY: bv32 := 0x04
  const INTERFACE: bv32 := 0x20
  const ABSTRACT: bv32 := 0x80
  const SEALED: bv32 := 0x100
  /** Every TypeAttributes bit Class.TypeAttributes can set. */
  const TYPE_BITS: bv32 := 0x1A7

  /** The visibility a type should get: NestedPublic or NestedFamily inside another class, else Public or NotPublic. */
  function TypeVisibility(isPublic: bool, nested: bool): bv32 {
    if nested then (if isPublic then NESTED_PUBLIC else NESTED_FAMILY)
    else if isPublic then PUBLIC else NOT_PUBLIC
  }

  /**
   * Class.TypeAttributes as written: Public or NotPublic, then Interface or Class (0),
   * Sealed if final, Abstract if abstract, and for a nested class NestedPublic or
   * NestedFamily ORed on top of the visibility already chosen.
   */
  function TypeAttributesAsWritten(a: ClassAccess, nested: bool): (r: bv32)
    ensures r & VISIBILITY_MASK == (if nested && a.isPublic then PUBLIC | NESTED_PUBLIC else TypeVisibility(a.isPublic, nested))
  {
    var r := if a.isPublic then PUBLIC else NOT_PUBLIC;
    var r := if a.isInterface then r | INTERFACE else r;
    var r := if a.isFinal then r | SEALED else r;
    var r := if a.isAbstract then r | ABSTRACT else r;
    if nested then (if a.isPublic then r | NESTED_PUBLIC else r | NESTED_FAMILY) else r
  }

  /**
   * Public | NestedPublic is 3, which .NET reads as NestedPrivate: a public inner class
   * such as java/util/Map$Entry comes out private.
   */
  lemma PublicNestedTypeComesOutPrivate()
    ensures TypeAttributesAsWritten(ClassAccessOf(CLASS_PUBLIC | CLASS_INTERFACE), true) & VISIBILITY_MASK == NESTED_PRIVATE
  {
  }

  /**
   * Class.TypeAttributes with the visibility chosen once: a nested class gets
   * NestedPublic or NestedFamily instead of Public or NotPublic. Every other bit is as
   * the written code sets it.
   */
  function TypeAttributesOf(a: ClassAccess, nested: bool): (r: bv32)
    ensures r & VISIBILITY_MASK == TypeVisibility(a.isPublic, nested)
    ensures (r & INTERFACE != 0) == a.isInterface
    ensures (r & SEALED != 0) == a.isFinal
    ensures (r & ABSTRACT != 0) == a.isAbstract
    ensures r & !TYPE_BITS == 0
  {
    var r := TypeVisibility(a.isPublic, nested);
    var r := if a.isInterface then r | INTERFACE else r;
    var r := if a.isFinal then r | SEALED else r;
    if a.isAbstract then r | ABSTRACT else r
  }

  /** The correction changes nothing but the visibility of public nested classes. */
  lemma TypeAttributesCorrectionIsLocal(a: ClassAccess, nested: bool)
    ensures TypeAttributesOf(a, nested) & !VISIBILITY_MASK == TypeAttributesAsWritten(a, nested) & !VISIBILITY_MASK
    ensures TypeAttributesOf(a, nested) == TypeAttributesAsWritten(a, nested) <==> !(nested && a.isPublic)
  {
  }

  // ---- System.Reflection.MethodAttributes ----

  const MEMBER_ACCESS_MASK: bv32 := 0x07
  const M_PRIVATE: bv32 := 0x01
  const M_ASSEMBLY: bv32 := 0x03
  const M_FAMILY: bv32 := 0x04
  const M_PUBLIC: bv32 := 0x06
  const M_STATIC: bv32 := 0x10
  const M_FINAL: bv32 := 0x20
  const M_VIRTUAL: bv32 := 0x40
  const M_ABSTRACT: bv32 := 0x400
  const METHOD_ATTRIBUTE_BITS: bv32 := 0x477

  /**
   * Method.MethodAttributes: the first of public, protected, private that holds picks
   * the access (a package-private method becomes Assembly); abstract adds Abstract; a
   * static method is Static and neither Final nor Virtual, any other is Final when
   * final and Virtual otherwise.
   */
  function MethodAttributesOf(a: MethodAccess): (r: bv32)
    ensures r & MEMBER_ACCESS_MASK ==
      (if a.isPublic then M_PUBLIC else if a.isProtected then M_FAMILY
       else if a.isPrivate then M_PRIVATE else M_ASSEMBLY)
    ensures (r & M_ABSTRACT != 0) == a.isAbstract
    ensures (r & M_STATIC != 0) == a.isStatic
    ensures (r & M_FINAL != 0) == (!a.isStatic && a.isFinal)
    ensures (r & M_VIRTUAL != 0) == (!a.isStatic && !a.isFinal)
    ensures r & !METHOD_ATTRIBUTE_BITS == 0
  {
    var attr := if a.isPublic then M_PUBLIC else if a.isProtected then M_FAMILY
                else if a.isPrivate then M_PRIVATE else M_ASSEMBLY;
    var attr := if a.isAbstract then attr | M_ABSTRACT else attr;
    if a.isStatic then attr | M_STATIC
    else if a.isFinal then attr | M_FINAL
    else attr | M_VIRTUAL
  }

  /** Exactly one of Static, Final and Virtual is set, whatever the flags. */
  lemma OneDispatchKind(f: bv16)
    ensures var r := MethodAttributesOf(MethodAccessOf(f));
      var kind := r & (M_STATIC | M_FINAL | M_VIRTUAL);
      kind == M_STATIC || kind == M_FINAL || kind == M_VIRTUAL
  {
  }
}
