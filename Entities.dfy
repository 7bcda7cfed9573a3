/**
 * The type graph the class factory builds: Class, Field, Method and Descriptor objects
 * that refer to one another. Their lists and caches are fields the methods update in
 * place, as the source's ArrayLists and lazily filled strings are.
 */
module Entities {
  import opened Failures
  import opened Strings
  import opened ClassNames
  import opened AccessFlags
  import opened Descriptors

  predicate NoDuplicates<T(==)>(s: seq<T>) {
    forall i, j :: 0 <= i < j < |s| ==> s[i] != s[j]
  }

  class Class {
    var declaringClass: Class?
    var internalName: Option<string>
    var name: Option<string>
    var fqn: Option<string>
    var ns: Option<string>
    var accessFlags: bv16
    var baseTypes: seq<Class>
    var fields: seq<Field>
    var methods: seq<Method>
    var innerClasses: seq<Class>

    /** The empty class the factory inserts as a stub. */
    constructor ()
      ensures declaringClass == null && internalName == None && name == None && fqn == None && ns == None
      ensures accessFlags == 0 && baseTypes == [] && fields == [] && methods == [] && innerClasses == []
    {
      declaringClass := null;
      internalName := None;
      name := None;
      fqn := None;
      ns := None;
      accessFlags := 0;
      baseTypes := [];
      fields := [];
      methods := [];
      innerClasses := [];
    }

    /** A class whose internal and fully qualified names are given, as for the basic types. */
    constructor Named(internalName: string, fqn: string, accessFlags: bv16)
      ensures declaringClass == null && this.internalName == Some(internalName) && this.fqn == Some(fqn)
      ensures name == None && ns == None && this.accessFlags == accessFlags
      ensures baseTypes == [] && fields == [] && methods == [] && innerClasses == []
    {
      declaringClass := null;
      this.internalName := Some(internalName);
      name := None;
      this.fqn := Some(fqn);
      ns := None;
      this.accessFlags := accessFlags;
      baseTypes := [];
      fields := [];
      methods := [];
      innerClasses := [];
    }

    /** What the FullyQualifiedName getter answers in the current state. */
    function FullyQualifiedName(): Result<string>
      reads this
    {
      if fqn.Some? then Ok(fqn.value)
      else if internalName.None? then Err(NullReference)
      else Ok(FullyQualifiedNameOf(internalName.value))
    }

    /** What the Name getter answers in the current state. */
    function ShortName(): Result<string>
      reads this
    {
      if name.Some? then Ok(name.value)
      else match FullyQualifiedName()
        case Err(e) => Err(e)
        case Ok(d) => Ok(ShortNameOf(d))
    }

    /** What the NameSpace getter answers in the current state. */
    function NameSpace(): Result<string>
      reads this
    {
      if ns.Some? then Ok(ns.value)
      else if internalName.None? then Err(NullReference)
      else Ok(NameSpaceOf(internalName.value))
    }

    /**
     * The FullyQualifiedName getter: derives the name from the internal name the first
     * time and caches it. Caching never changes what the getter answers.
     */
    method GetFullyQualifiedName() returns (r: Result<string>)
      modifies this`fqn
      ensures r == old(FullyQualifiedName()) && FullyQualifiedName() == old(FullyQualifiedName())
      ensures fqn == (if old(fqn).None? && r.Ok? then Some(r.value) else old(fqn))
    {
      if fqn.None? {
        if internalName.None? {
          return Err(NullReference);
        }
        fqn := Some(Replace(Replace(internalName.value, '/', '.'), '$', '+'));
      }
      return Ok(fqn.value);
    }

    /**
     * The Name getter: the text after the last '+' of the fully qualified name. It is
     * cached only when there is a '+'; the whole name is answered uncached otherwise.
     */
    method GetName() returns (r: Result<string>)
      modifies this`name, this`fqn
      ensures r == old(ShortName()) && ShortName() == old(ShortName())
      ensures FullyQualifiedName() == old(FullyQualifiedName())
      ensures old(name).Some? || r.Err? ==> name == old(name)
      ensures old(name).None? && r.Ok? ==>
        FullyQualifiedName().Ok? && name == (if '+' in FullyQualifiedName().value then Some(r.value) else None)
    {
      if name.None? {
        var dottified := GetFullyQualifiedName();
        if dottified.Err? {
          return dottified;
        }
        var index := LastIndexOf(dottified.value, '+');
        if index < 0 {
          return dottified;
        }
        name := Some(dottified.value[index + 1..]);
      }
      return Ok(name.value);
    }

    /**
     * The NameSpace getter: the internal name before its last '/', dotted. It is cached
     * only when there is a '/'; the empty string is answered uncached otherwise.
     */
    method GetNameSpace() returns (r: Result<string>)
      modifies this`ns
      ensures r == old(NameSpace()) && NameSpace() == old(NameSpace())
      ensures old(ns).Some? || r.Err? ==> ns == old(ns)
      ensures old(ns).None? && r.Ok? ==>
        internalName.Some? && ns == (if '/' in internalName.value then Some(r.value) else None)
    {
      if ns.None? {
        if internalName.None? {
          return Err(NullReference);
        }
        var index := LastIndexOf(internalName.value, '/');
        if index < 0 {
          return Ok([]);
        }
        ns := Some(Replace(internalName.value[..index], '/', '.'));
      }
      return Ok(ns.value);
    }

    /** AddBaseType: null is ignored, a type already listed is refused, any other is appended. */
    method AddBaseType(t: Class?) returns (o: Outcome)
      modifies this`baseTypes
      ensures t == null ==> o == Pass && baseTypes == old(baseTypes)
      ensures t != null && t in old(baseTypes) ==> o == Fail(DuplicateBaseType) && baseTypes == old(baseTypes)
      ensures t != null && t !in old(baseTypes) ==> o == Pass && baseTypes == old(baseTypes) + [t]
      ensures NoDuplicates(old(baseTypes)) ==> NoDuplicates(baseTypes)
    {
      if t == null {
        return Pass;
      }
      if t in baseTypes {
        return Fail(DuplicateBaseType);
      }
      baseTypes := baseTypes + [t];
      return Pass;
    }

    /**
     * AddInnerClass: a class already listed is left alone (so adding twice is adding
     * once); otherwise it is appended and its declaring class becomes this one.
     */
    method AddInnerClass(c: Class)
      modifies this`innerClasses, c`declaringClass
      ensures c in innerClasses
      ensures c in old(innerClasses) ==> innerClasses == old(innerClasses) && c.declaringClass == old(c.declaringClass)
      ensures c !in old(innerClasses) ==> innerClasses == old(innerClasses) + [c] && c.declaringClass == this
      ensures NoDuplicates(old(innerClasses)) ==> NoDuplicates(innerClasses)
    {
      if c in innerClasses {
        return;
      }
      innerClasses := innerClasses + [c];
      c.declaringClass := this;
    }

    /** AddField: the same Field object twice is refused; fields are compared by reference. */
    method AddField(f: Field) returns (o: Outcome)
      modifies this`fields
      ensures f in old(fields) ==> o == Fail(DuplicateField) && fields == old(fields)
      ensures f !in old(fields) ==> o == Pass && fields == old(fields) + [f]
      ensures NoDuplicates(old(fields)) ==> NoDuplicates(fields)
    {
      if f in fields {
        return Fail(DuplicateField);
      }
      fields := fields + [f];
      return Pass;
    }

    /** AddMethod: the same Method object twice is refused; methods are compared by reference. */
    method AddMethod(m: Method) returns (o: Outcome)
      modifies this`methods
      ensures m in old(methods) ==> o == Fail(DuplicateMethod) && methods == old(methods)
      ensures m !in old(methods) ==> o == Pass && methods == old(methods) + [m]
      ensures NoDuplicates(old(methods)) ==> NoDuplicates(methods)
    {
      if m in methods {
        return Fail(DuplicateMethod);
      }
      methods := methods + [m];
      return Pass;
    }

    /** IsPublic, IsFinal, IsInterface and IsAbstract. */
    function Access(): ClassAccess
      reads this
    {
      ClassAccessOf(accessFlags)
    }

    /**
     * The TypeAttributes getter as the program computes it: nested exactly when a
     * declaring class is set, and a public nested class comes out NestedPrivate. Every
     * bit but the visibility is the intended one.
     */
    function TypeAttributes(): (r: bv32)
      reads this
      ensures r & VISIBILITY_MASK
        == if declaringClass != null && Access().isPublic then NESTED_PRIVATE
           else TypeVisibility(Access().isPublic, declaringClass != null)
      ensures r & !VISIBILITY_MASK == TypeAttributesOf(Access(), declaringClass != null) & !VISIBILITY_MASK
    {
      TypeAttributesCorrectionIsLocal(Access(), declaringClass != null);
      TypeAttributesAsWritten(Access(), declaringClass != null)
    }
  }

  /**
   * A parsed type: a basic type or an object type naming its class, or an array of a
   * component. Repr holds the descriptor and its components; Classes the classes they
   * name, whose internal names ToString reads.
   */
  class Descriptor {
    const component: Descriptor?
    const cls: Class?
    const isBasicType: bool
    const isArrayType: bool
    const isObjectType: bool
    ghost const Repr: set<Descriptor>
    ghost const Classes: set<Class>

    ghost predicate Valid()
      decreases Repr
    {
      && this in Repr
      && (cls != null ==> cls in Classes)
      && (component == null ==> Repr == {this})
      && (component != null ==>
            && component in Repr && component.Repr <= Repr && this !in component.Repr
            && Repr == {this} + component.Repr && component.Classes <= Classes
            && component.Valid())
    }

    constructor ()
      ensures component == null && cls == null && !isBasicType && !isArrayType && !isObjectType
      ensures Valid() && Repr == {this} && Classes == {}
    {
      component := null;
      cls := null;
      isBasicType := false;
      isArrayType := false;
      isObjectType := false;
      Repr := {this};
      Classes := {};
    }

    /** An array of the given component, as ProcessDescriptor leaves it. */
    constructor ArrayOf(component: Descriptor)
      requires component.Valid()
      ensures this.component == component && cls == null && isArrayType && !isBasicType && !isObjectType
      ensures Valid() && Repr == {this} + component.Repr && Classes == component.Classes
    {
      this.component := component;
      cls := null;
      isBasicType := false;
      isArrayType := true;
      isObjectType := false;
      Repr := {this} + component.Repr;
      Classes := component.Classes;
    }

    /** An object type of the given class. */
    constructor ObjectOf(cls: Class)
      ensures component == null && this.cls == cls && isObjectType && !isBasicType && !isArrayType
      ensures Valid() && Repr == {this} && Classes == {cls}
    {
      component := null;
      this.cls := cls;
      isBasicType := false;
      isArrayType := false;
      isObjectType := true;
      Repr := {this};
      Classes := {cls};
    }

    /** A basic type of the given class, null when its letter names none. */
    constructor BasicOf(cls: Class?)
      ensures component == null && this.cls == cls && isBasicType && !isObjectType && !isArrayType
      ensures Valid() && Repr == {this} && Classes == (if cls == null then {} else {cls})
    {
      component := null;
      this.cls := cls;
      isBasicType := true;
      isArrayType := false;
      isObjectType := false;
      Repr := {this};
      Classes := if cls == null then {} else {cls};
    }

    /** The length of the component chain. */
    ghost function Depth(): nat
      requires Valid()
      decreases Repr
    {
      if component == null then 0 else 1 + component.Depth()
    }

    /** The class of the last descriptor of the component chain. */
    ghost function ElementClass(): Class?
      requires Valid()
      decreases Repr
    {
      if component == null then cls else component.ElementClass()
    }

    /** GetArrayRank: counts the components, walking the chain. */
    method GetArrayRank() returns (rank: nat)
      requires Valid()
      ensures rank == Depth()
    {
      rank := 0;
      var tmp := component;
      while tmp != null
        invariant tmp == null ==> rank == Depth()
        invariant tmp != null ==> tmp.Repr <= Repr && tmp.Valid() && rank + 1 + tmp.Depth() == Depth()
        decreases if tmp == null then {} else tmp.Repr
      {
        tmp := tmp.component;
        rank := rank + 1;
      }
    }

    /** GetElementType: the class of the innermost component, or the own class of a non-array. */
    method GetElementType() returns (r: Class?)
      requires Valid()
      ensures r == ElementClass()
    {
      r := cls;
      var tmp := component;
      while tmp != null
        invariant tmp == null ==> r == ElementClass()
        invariant tmp != null ==> tmp.Repr <= Repr && tmp.Valid() && tmp.ElementClass() == ElementClass()
        decreases if tmp == null then {} else tmp.Repr
      {
        r := tmp.cls;
        tmp := tmp.component;
      }
    }

    /**
     * ToString: the InternalName of the class for a non-array, the component's text and
     * "[]" for an array. A missing class, name or component is a null dereference.
     */
    function ToString(): Result<string>
      reads Classes
      requires Valid()
      decreases Repr
    {
      if !isArrayType then
        if cls == null || cls.internalName.None? then Err(NullReference) else Ok(cls.internalName.value)
      else if component == null then Err(NullReference)
      else match component.ToString()
        case Ok(t) => Ok(t + "[]")
        case Err(e) => Err(e)
    }
  }

  class Field {
    var accessFlags: bv16
    var name: Option<string>
    var signature: Option<string>
    const parent: Class?
    var descriptor: Descriptor?

    /** DeclaringType is fixed here: the field has no setter for it. */
    constructor (parent: Class?)
      ensures this.parent == parent && accessFlags == 0 && name == None && signature == None && descriptor == null
    {
      this.parent := parent;
      accessFlags := 0;
      name := None;
      signature := None;
      descriptor := null;
    }

    /** The Is* predicates. */
    function Access(): FieldAccess
      reads this
    {
      FieldAccessOf(accessFlags)
    }

    /** ToString: the descriptor's text, a space and the name; a null operand concatenates as "". */
    function ToString(): Result<string>
      reads this, (if descriptor == null then {} else descriptor.Classes)
      requires descriptor != null ==> descriptor.Valid()
    {
      var text := if descriptor == null then Ok([]) else descriptor.ToString();
      match text
        case Err(e) => Err(e)
        case Ok(t) => Ok(t + " " + (if name.None? then [] else name.value))
    }
  }

  class Method {
    var accessFlags: bv16
    var name: Option<string>
    var signature: Option<string>
    var parent: Class?
    var ret: Descriptor?
    var arguments: seq<Descriptor>

    constructor (parent: Class?)
      ensures this.parent == parent && accessFlags == 0 && name == None && signature == None
      ensures ret == null && arguments == []
    {
      this.parent := parent;
      accessFlags := 0;
      name := None;
      signature := None;
      ret := null;
      arguments := [];
    }

    /**
     * The Signature setter: null and a value not starting with '(' are refused (an
     * empty value fails on its first character); any other value is kept as given.
     */
    method SetSignature(value: Option<string>) returns (o: Outcome)
      modifies this`signature
      ensures o == Pass <==> value.Some? && |value.value| > 0 && value.value[0] == '('
      ensures o == Pass ==> signature == value
      ensures o != Pass ==> signature == old(signature)
      ensures value.None? ==> o == Fail(NullDescriptor)
      ensures value == Some([]) ==> o == Fail(IndexOutOfRange)
      ensures value.Some? && |value.value| > 0 && value.value[0] != '(' ==> o == Fail(WrongDescriptor)
    {
      if value.None? {
        return Fail(NullDescriptor);
      }
      if |value.value| == 0 {
        return Fail(IndexOutOfRange);
      }
      if value.value[0] != '(' {
        return Fail(WrongDescriptor);
      }
      signature := value;
      return Pass;
    }

    /** AddArgument: appends; Arguments lists the descriptors in the order they were added. */
    method AddArgument(d: Descriptor)
      modifies this`arguments
      ensures arguments == old(arguments) + [d]
    {
      arguments := arguments + [d];
    }

    /** The Is* predicates. */
    function Access(): MethodAccess
      reads this
    {
      MethodAccessOf(accessFlags)
    }

    /** The MethodAttributes getter. */
    function Attributes(): bv32
      reads this
    {
      MethodAttributesOf(Access())
    }
  }

  // ---- The classes a factory has loaded, seen from the descriptors ----

  /** The classes map only ever gains entries: what was cached stays cached. */
  ghost predicate Grows(before: map<string, Class>, after: map<string, Class>) {
    forall k :: k in before ==> k in after && after[k] == before[k]
  }

  /** names holds the InternalName of every cached class, by the name it is cached under. */
  ghost predicate Named(classes: map<string, Class>, names: map<string, Option<string>>)
    reads classes.Values`internalName
  {
    names.Keys == classes.Keys && forall k :: k in classes ==> classes[k].internalName == names[k]
  }

  /** A name lookup as the descriptor functions take it: an uncached name has no name. */
  function NameOf(names: map<string, Option<string>>): string -> Option<string> {
    k => if k in names then names[k] else None
  }

  ghost predicate Extends(before: map<string, Option<string>>, after: map<string, Option<string>>) {
    forall k :: k in before ==> k in after && after[k] == before[k]
  }

  /** The class a descriptor of this shape is given: the cached class under its name, or null. */
  ghost function ClassFor(s: Sig, classes: map<string, Class>): Class? {
    match s
      case BasicSig(k) => if k.Some? && k.value in classes then classes[k.value] else null
      case ObjectSig(n) => if n in classes then classes[n] else null
      case ArraySig(_) => null
  }

  /**
   * A descriptor built for the parse s: exactly one kind flag set, a component exactly
   * for arrays, and the class the factory caches under the basic type's key or the
   * object type's name.
   */
  ghost predicate Matches(d: Descriptor, s: Sig, classes: map<string, Class>)
    requires d.Valid()
    decreases s
  {
    match s
      case ArraySig(c) =>
        d.isArrayType && !d.isBasicType && !d.isObjectType && d.cls == null
        && d.component != null && Matches(d.component, c, classes)
      case ObjectSig(n) =>
        d.isObjectType && !d.isBasicType && !d.isArrayType && d.component == null
        && n in classes && d.cls == classes[n]
      case BasicSig(k) =>
        d.isBasicType && !d.isObjectType && !d.isArrayType && d.component == null
        && (k.Some? ==> k.value in classes) && d.cls == ClassFor(s, classes)
  }

  /** A descriptor keeps matching its parse as the factory caches more classes. */
  lemma {:induction false} MatchesGrows(d: Descriptor, s: Sig, before: map<string, Class>, after: map<string, Class>)
    requires d.Valid() && Matches(d, s, before) && Grows(before, after)
    ensures Matches(d, s, after)
    decreases s
  {
    if s.ArraySig? {
      MatchesGrows(d.component, s.component, before, after);
    }
  }

  /**
   * GetArrayRank of a descriptor built for a parse is the parse's rank, and
   * GetElementType is the class of its innermost component.
   */
  lemma {:induction false} RankAndElementOfMatched(d: Descriptor, s: Sig, classes: map<string, Class>)
    requires d.Valid() && Matches(d, s, classes)
    ensures d.Depth() == Rank(s)
    ensures d.ElementClass() == ClassFor(Leaf(s), classes)
    decreases s
  {
    if s.ArraySig? {
      RankAndElementOfMatched(d.component, s.component, classes);
    }
  }

  /** ToString of a descriptor built for a parse is the text of the parse under the cached names. */
  lemma {:induction false} TextOfMatched(d: Descriptor, s: Sig, classes: map<string, Class>, names: map<string, Option<string>>)
    requires d.Valid() && Matches(d, s, classes) && Named(classes, names)
    ensures d.ToString() == Text(s, NameOf(names))
    decreases s
  {
    if s.ArraySig? {
      TextOfMatched(d.component, s.component, classes, names);
    }
  }

  /** A field's text is its descriptor's text under the cached names, a space and its name. */
  lemma FieldTextOfMatched(f: Field, s: Sig, classes: map<string, Class>, names: map<string, Option<string>>)
    requires f.descriptor != null && f.descriptor.Valid() && Matches(f.descriptor, s, classes) && Named(classes, names)
    ensures Text(s, NameOf(names)).Err? ==> f.ToString() == Err(Text(s, NameOf(names)).error)
    ensures Text(s, NameOf(names)).Ok? ==>
      f.ToString() == Ok(Text(s, NameOf(names)).value + " " + (if f.name.None? then [] else f.name.value))
  {
    TextOfMatched(f.descriptor, s, classes, names);
  }
}
