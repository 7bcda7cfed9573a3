/**
 * What the class factory leaves behind: the shape of a class built from its class file
 * (flags, name, base types, fields, methods with their descriptors), the argument split
 * of a method descriptor, and how these facts survive the cache growing.
 */
module ClassLoading {
  import opened Failures
  import opened Strings
  import opened AccessFlags
  import opened Descriptors
  import opened ConstantPool
  import CF = ClassFile
  import opened Entities

  /** The class files not yet cached only lose members as the cache grows. */
  lemma MeasureGrows(files: set<string>, before: map<string, Class>, after: map<string, Class>)
    requires Grows(before, after)
    ensures files - after.Keys <= files - before.Keys
  {
  }

  /** Class files all cached stay all cached as the cache grows. */
  lemma CoveredGrows(files: set<string>, before: map<string, Class>, after: map<string, Class>)
    requires files <= before.Keys && Grows(before, after)
    ensures files <= after.Keys
  {
  }

  lemma GrowsTrans(a: map<string, Class>, b: map<string, Class>, c: map<string, Class>)
    requires Grows(a, b) && Grows(b, c)
    ensures Grows(a, c)
  {
  }

  lemma ExtendsTrans(a: map<string, Option<string>>, b: map<string, Option<string>>, c: map<string, Option<string>>)
    requires Extends(a, b) && Extends(b, c)
    ensures Extends(a, c)
  {
  }

  /**
   * The InternalName under every old name stays, except under the names that held the
   * class renamed.
   */
  ghost predicate Kept(classes: map<string, Class>, before: map<string, Option<string>>,
                       after: map<string, Option<string>>, renamed: Class)
  {
    forall k :: k in before && k in classes && classes[k] != renamed ==> k in after && after[k] == before[k]
  }

  /** A class no old name held renames nothing under the old names. */
  lemma KeptFresh(classes0: map<string, Class>, names0: map<string, Option<string>>,
                  classes1: map<string, Class>, names1: map<string, Option<string>>, c: Class)
    requires names0.Keys <= classes0.Keys && Grows(classes0, classes1) && Kept(classes1, names0, names1, c)
    requires forall k :: k in classes0 ==> classes0[k] != c
    ensures Extends(names0, names1)
  {
  }

  /** Names kept through a rename stay kept as later loading extends the names. */
  lemma KeptExtends(classes: map<string, Class>, names0: map<string, Option<string>>,
                    names1: map<string, Option<string>>, names2: map<string, Option<string>>, c: Class)
    requires Kept(classes, names0, names1, c) && Extends(names1, names2)
    ensures Kept(classes, names0, names2, c)
  {
  }

  /** The cache the factory starts with: each basic type under its keyword. */
  function BasicTypes(byteClass: Class, charClass: Class, doubleClass: Class, floatClass: Class, intClass: Class,
                            longClass: Class, shortClass: Class, boolClass: Class, voidClass: Class): map<string, Class>
  {
    map["byte" := byteClass, "char" := charClass, "double" := doubleClass, "float" := floatClass, "int" := intClass,
        "long" := longClass, "short" := shortClass, "bool" := boolClass, "void" := voidClass]
  }

  /** The InternalNames of the basic types, by keyword. */
  function BasicTypeNames(): map<string, Option<string>> {
    map["byte" := Some("B"), "char" := Some("C"), "double" := Some("D"), "float" := Some("F"), "int" := Some("I"),
        "long" := Some("J"), "short" := Some("S"), "bool" := Some("Z"), "void" := Some("V")]
  }

  /** The table entries of the nine basic types. */
  lemma BasicTypeLetters()
    ensures BaseType('B') == Some("byte") && BaseType('C') == Some("char") && BaseType('D') == Some("double")
    ensures BaseType('F') == Some("float") && BaseType('I') == Some("int") && BaseType('J') == Some("long")
    ensures BaseType('S') == Some("short") && BaseType('Z') == Some("bool") && BaseType('V') == Some("void")
  {
  }

  /** The nine basic types cached under their keywords have the letters as InternalNames. */
  lemma BasicTypesNamed(byteClass: Class, charClass: Class, doubleClass: Class, floatClass: Class, intClass: Class,
                        longClass: Class, shortClass: Class, boolClass: Class, voidClass: Class)
    requires byteClass.internalName == Some("B")
    requires charClass.internalName == Some("C")
    requires doubleClass.internalName == Some("D")
    requires floatClass.internalName == Some("F")
    requires intClass.internalName == Some("I")
    requires longClass.internalName == Some("J")
    requires shortClass.internalName == Some("S")
    requires boolClass.internalName == Some("Z")
    requires voidClass.internalName == Some("V")
    ensures BasicTypes(byteClass, charClass, doubleClass, floatClass, intClass, longClass, shortClass, boolClass, voidClass).Keys == {"byte", "char", "double", "float", "int", "long", "short", "bool", "void"}
    ensures Named(BasicTypes(byteClass, charClass, doubleClass, floatClass, intClass, longClass, shortClass, boolClass, voidClass), BasicTypeNames())
  {
  }

  /**
   * The nine basic types, each made with its descriptor letter and keyword and cached
   * under the keyword, make a seeded cache.
   */
  lemma BasicTypesSeeded(byteClass: Class, charClass: Class, doubleClass: Class, floatClass: Class, intClass: Class,
                         longClass: Class, shortClass: Class, boolClass: Class, voidClass: Class)
    requires byteClass.internalName == Some("B") && byteClass.fqn == Some("byte") && byteClass.accessFlags == CLASS_PUBLIC
    requires charClass.internalName == Some("C") && charClass.fqn == Some("char") && charClass.accessFlags == CLASS_PUBLIC
    requires doubleClass.internalName == Some("D") && doubleClass.fqn == Some("double") && doubleClass.accessFlags == CLASS_PUBLIC
    requires floatClass.internalName == Some("F") && floatClass.fqn == Some("float") && floatClass.accessFlags == CLASS_PUBLIC
    requires intClass.internalName == Some("I") && intClass.fqn == Some("int") && intClass.accessFlags == CLASS_PUBLIC
    requires longClass.internalName == Some("J") && longClass.fqn == Some("long") && longClass.accessFlags == CLASS_PUBLIC
    requires shortClass.internalName == Some("S") && shortClass.fqn == Some("short") && shortClass.accessFlags == CLASS_PUBLIC
    requires boolClass.internalName == Some("Z") && boolClass.fqn == Some("bool") && boolClass.accessFlags == CLASS_PUBLIC
    requires voidClass.internalName == Some("V") && voidClass.fqn == Some("void") && voidClass.accessFlags == CLASS_PUBLIC
    ensures Seeded(BasicTypes(byteClass, charClass, doubleClass, floatClass, intClass, longClass, shortClass, boolClass, voidClass))
  {
    BasicTypeLetters();
  }

  /** Caching a class that has a class file leaves one class file fewer to build. */
  lemma Shrinks(files: set<string>, before: map<string, Class>, n: string, c: Class)
    requires n in files && n !in before
    ensures files - before[n := c].Keys < files - before.Keys
  {
    assert n in files - before.Keys;
  }

  /** A class LoadClass made for a name without a class file: only its InternalName is set. */
  ghost predicate Stub(c: Class, name: string)
    reads c
  {
    && c.internalName == Some(name) && c.declaringClass == null && c.name == None && c.fqn == None
    && c.ns == None && c.accessFlags == 0 && c.baseTypes == [] && c.fields == [] && c.methods == []
    && c.innerClasses == []
  }

  /**
   * A seeded basic type: InternalName the one descriptor letter the type table maps to
   * the keyword, FullyQualifiedName the keyword, and public. The other fields, which the
   * constructor leaves empty, are not constrained here.
   */
  ghost predicate Basic(c: Class, k: string)
    reads c
  {
    && c.internalName.Some? && |c.internalName.value| == 1 && BaseType(c.internalName.value[0]) == Some(k)
    && c.fqn == Some(k) && c.accessFlags == CLASS_PUBLIC
  }

  /** Every name holds the basic type it names. */
  ghost predicate Seeded(classes: map<string, Class>)
    reads classes.Values
  {
    forall k :: k in classes ==> Basic(classes[k], k)
  }

  // ---- What building a class produces ----

  /** The names the entries at the given constant-pool indices point at, in order. */
  function NamesOf(pool: seq<Slot>, indices: seq<nat>): (r: Result<seq<Option<string>>>)
    ensures r.Ok? <==> forall i :: 0 <= i < |indices| ==> GetClassName(pool, indices[i]).Ok?
    ensures r.Ok? ==> |r.value| == |indices|
    ensures r.Ok? ==> forall i :: 0 <= i < |indices| ==> GetClassName(pool, indices[i]) == Ok(r.value[i])
  {
    NamesTo(pool, indices, |indices|)
  }

  /** The names at the first n indices, or the first lookup that fails. */
  function NamesTo(pool: seq<Slot>, indices: seq<nat>, n: nat): (r: Result<seq<Option<string>>>)
    requires n <= |indices|
    ensures r.Ok? <==> forall i :: 0 <= i < n ==> GetClassName(pool, indices[i]).Ok?
    ensures r.Ok? ==> |r.value| == n
    ensures r.Ok? ==> forall i :: 0 <= i < n ==> GetClassName(pool, indices[i]) == Ok(r.value[i])
    decreases n
  {
    if n == 0 then Ok([])
    else match NamesTo(pool, indices, n - 1)
      case Err(e) => Err(e)
      case Ok(front) =>
        match GetClassName(pool, indices[n - 1])
        case Err(e) => Err(e)
        case Ok(x) => Ok(front + [x])
  }

  /** The superclass followed by the interfaces, as BuildClass adds them. */
  function BaseIndices(cf: CF.ClassFile): seq<nat> {
    [cf.superClass] + cf.interfaces
  }

  ghost predicate AllCached(names: seq<Option<string>>, classes: map<string, Class>) {
    forall i :: 0 <= i < |names| && names[i].Some? ==> names[i].value in classes
  }

  /** The cached classes under the given names; a null name adds nothing (AddBaseType ignores null). */
  ghost function ClassesNamed(names: seq<Option<string>>, classes: map<string, Class>): (r: seq<Class>)
    requires AllCached(names, classes)
    ensures |r| <= |names|
    ensures forall x :: x in r ==> exists i :: 0 <= i < |names| && names[i].Some? && x == classes[names[i].value]
  {
    ClassesTo(names, |names|, classes)
  }

  /** The cached classes under the first n names. */
  ghost function ClassesTo(names: seq<Option<string>>, n: nat, classes: map<string, Class>): (r: seq<Class>)
    requires n <= |names| && AllCached(names, classes)
    ensures |r| <= n
    ensures forall x :: x in r ==> exists i :: 0 <= i < n && names[i].Some? && x == classes[names[i].value]
    decreases n
  {
    if n == 0 then []
    else ClassesTo(names, n - 1, classes) + (if names[n - 1].None? then [] else [classes[names[n - 1].value]])
  }

  /** The classes under the first n names depend on those names only. */
  lemma {:induction false} ClassesToPrefix(names: seq<Option<string>>, more: seq<Option<string>>, n: nat, classes: map<string, Class>)
    requires n <= |names| && n <= |more| && AllCached(names, classes) && AllCached(more, classes)
    requires forall i :: 0 <= i < n ==> names[i] == more[i]
    ensures ClassesTo(names, n, classes) == ClassesTo(more, n, classes)
    decreases n
  {
    if n > 0 {
      ClassesToPrefix(names, more, n - 1, classes);
    }
  }

  /** One more name adds its cached class, or nothing for a null name. */
  lemma ClassesNamedAppend(names: seq<Option<string>>, last: Option<string>, classes: map<string, Class>)
    requires AllCached(names, classes) && (last.Some? ==> last.value in classes)
    ensures AllCached(names + [last], classes)
    ensures ClassesNamed(names + [last], classes) == ClassesNamed(names, classes) + (if last.None? then [] else [classes[last.value]])
  {
    ClassesToPrefix(names, names + [last], |names|, classes);
  }

  /** Caching more classes changes none of the classes under cached names. */
  lemma {:induction false} ClassesToGrows(names: seq<Option<string>>, n: nat, before: map<string, Class>, after: map<string, Class>)
    requires n <= |names| && AllCached(names, before) && Grows(before, after)
    ensures AllCached(names, after) && ClassesTo(names, n, after) == ClassesTo(names, n, before)
    decreases n
  {
    if n > 0 {
      ClassesToGrows(names, n - 1, before, after);
    }
  }

  lemma ClassesNamedGrows(names: seq<Option<string>>, before: map<string, Class>, after: map<string, Class>)
    requires AllCached(names, before) && Grows(before, after)
    ensures AllCached(names, after) && ClassesNamed(names, after) == ClassesNamed(names, before)
  {
    ClassesToGrows(names, |names|, before, after);
  }

  /** The base types: the old list followed by the classes the superclass and interfaces name. */
  ghost predicate BasesBuilt(cf: CF.ClassFile, c: Class, classes: map<string, Class>, bases0: seq<Class>)
    reads c`baseTypes
  {
    && NamesOf(cf.constantPool, BaseIndices(cf)).Ok?
    && AllCached(NamesOf(cf.constantPool, BaseIndices(cf)).value, classes)
    && c.baseTypes == bases0 + ClassesNamed(NamesOf(cf.constantPool, BaseIndices(cf)).value, classes)
  }

  /** A field built from its field_info: flags, name and signature from the pool, and its descriptor. */
  ghost predicate FieldBuilt(f: Field, c: Class, info: CF.MemberInfo, pool: seq<Slot>, classes: map<string, Class>)
    reads f
  {
    && f.parent == c && f.accessFlags == info.accessFlags
    && GetUtf8(pool, info.nameIndex).Ok? && f.name == Some(GetUtf8(pool, info.nameIndex).value)
    && GetUtf8(pool, info.descriptorIndex).Ok?
    && f.signature == Some(GetUtf8(pool, info.descriptorIndex).value)
    && ParseDescriptor(GetUtf8(pool, info.descriptorIndex).value).Ok?
    && f.descriptor != null && f.descriptor.Valid()
    && Matches(f.descriptor, ParseDescriptor(GetUtf8(pool, info.descriptorIndex).value).value, classes)
  }

  /** The fields from position from on were built, in order, from the first n field_infos. */
  ghost predicate FieldsBuilt(c: Class, fs: seq<Field>, from: nat, infos: seq<CF.MemberInfo>, n: nat,
                              pool: seq<Slot>, classes: map<string, Class>)
    reads fs
  {
    from + n == |fs| && n <= |infos| && forall i :: 0 <= i < n ==> FieldBuilt(fs[from + i], c, infos[i], pool, classes)
  }

  // ---- The split of a method descriptor ----

  function Elems<T>(s: seq<T>): set<T> {
    set x | x in s
  }

  /**
   * The descriptors of a method built for its descriptor text: the arguments and the
   * return type the splitter finds under the InternalNames of the cached classes.
   */
  ghost predicate MethodShape(m: Method, value: string, classes: map<string, Class>, names: map<string, Option<string>>)
    reads m
  {
    SignatureShape(m.arguments, m.ret, value, classes, names)
  }

  /** Argument and return descriptors built for the parse of a method descriptor. */
  ghost predicate SignatureShape(arguments: seq<Descriptor>, ret: Descriptor?, value: string,
                                 classes: map<string, Class>, names: map<string, Option<string>>)
  {
    && MethodSig(value, NameOf(names)).Ok?
    && AllMatch(arguments, MethodSig(value, NameOf(names)).value.0, classes)
    && ret != null && ret.Valid() && Matches(ret, MethodSig(value, NameOf(names)).value.1, classes)
  }

  /** Each descriptor was built for the parse at the same position. */
  ghost predicate AllMatch(ds: seq<Descriptor>, sigs: seq<Sig>, classes: map<string, Class>)
  {
    |ds| == |sigs| && forall i :: 0 <= i < |ds| ==> ds[i].Valid() && Matches(ds[i], sigs[i], classes)
  }

  lemma AllMatchGrows(ds: seq<Descriptor>, sigs: seq<Sig>, before: map<string, Class>, after: map<string, Class>)
    requires AllMatch(ds, sigs, before) && Grows(before, after)
    ensures AllMatch(ds, sigs, after)
  {
    forall i | 0 <= i < |ds| ensures Matches(ds[i], sigs[i], after) {
      MatchesGrows(ds[i], sigs[i], before, after);
    }
  }

  /** A method built from its method_info: flags, name and signature from the pool, and its descriptors. */
  ghost predicate MethodBuilt(m: Method, c: Class, info: CF.MemberInfo, pool: seq<Slot>,
                              classes: map<string, Class>, names: map<string, Option<string>>)
    reads m
  {
    && m.parent == c && m.accessFlags == info.accessFlags
    && GetUtf8(pool, info.nameIndex).Ok? && m.name == Some(GetUtf8(pool, info.nameIndex).value)
    && GetUtf8(pool, info.descriptorIndex).Ok?
    && m.signature == Some(GetUtf8(pool, info.descriptorIndex).value)
    && |m.signature.value| > 0 && m.signature.value[0] == '('
    && MethodShape(m, m.signature.value, classes, names)
  }

  /** The methods from position from on were built, in order, from the first n method_infos. */
  ghost predicate MethodsBuilt(c: Class, ms: seq<Method>, from: nat, infos: seq<CF.MemberInfo>, n: nat, pool: seq<Slot>,
                               classes: map<string, Class>, names: map<string, Option<string>>)
    reads ms
  {
    from + n == |ms| && n <= |infos| && forall i :: 0 <= i < n ==> MethodBuilt(ms[from + i], c, infos[i], pool, classes, names)
  }

  /** The flags and the name of the class file, as BuildClass sets them first. */
  ghost predicate Headed(cf: CF.ClassFile, c: Class)
    reads c`accessFlags, c`internalName
  {
    && c.accessFlags == cf.accessFlags
    && GetClassName(cf.constantPool, cf.thisClass).Ok?
    && c.internalName == GetClassName(cf.constantPool, cf.thisClass).value
  }

  /** What BuildClass leaves in a class when it completes, given its lists before. */
  ghost predicate Built(cf: CF.ClassFile, c: Class, classes: map<string, Class>, names: map<string, Option<string>>,
                        bases0: seq<Class>, fields0: seq<Field>, methods0: seq<Method>)
    reads *
  {
    && Headed(cf, c)
    && BasesBuilt(cf, c, classes, bases0)
    && fields0 <= c.fields && FieldsBuilt(c, c.fields, |fields0|, cf.fields, |cf.fields|, cf.constantPool, classes)
    && methods0 <= c.methods && MethodsBuilt(c, c.methods, |methods0|, cf.methods, |cf.methods|, cf.constantPool, classes, names)
  }

  // ---- Stability of what was built as the cache grows ----

  lemma FieldsBuiltGrows(c: Class, fs: seq<Field>, from: nat, infos: seq<CF.MemberInfo>, n: nat, pool: seq<Slot>,
                         before: map<string, Class>, after: map<string, Class>)
    requires FieldsBuilt(c, fs, from, infos, n, pool, before) && Grows(before, after)
    ensures FieldsBuilt(c, fs, from, infos, n, pool, after)
  {
    forall i | 0 <= i < n ensures FieldBuilt(fs[from + i], c, infos[i], pool, after) {
      var s := ParseDescriptor(GetUtf8(pool, infos[i].descriptorIndex).value).value;
      MatchesGrows(fs[from + i].descriptor, s, before, after);
    }
  }

  /** One more field built from the next field_info extends what was built. */
  lemma FieldsBuiltStep(c: Class, fs0: seq<Field>, fs1: seq<Field>, from: nat, infos: seq<CF.MemberInfo>, n: nat,
                        pool: seq<Slot>, classes: map<string, Class>)
    requires FieldsBuilt(c, fs0, from, infos, n, pool, classes) && n < |infos|
    requires fs0 <= fs1 && |fs1| == |fs0| + 1 && FieldBuilt(fs1[|fs0|], c, infos[n], pool, classes)
    ensures FieldsBuilt(c, fs1, from, infos, n + 1, pool, classes)
  {
    forall i | 0 <= i < n + 1 ensures FieldBuilt(fs1[from + i], c, infos[i], pool, classes) {
      if i < n {
        assert fs1[from + i] == fs0[from + i];
      }
    }
  }

  /** One more method built from the next method_info extends what was built. */
  lemma MethodsBuiltStep(c: Class, ms0: seq<Method>, ms1: seq<Method>, from: nat, infos: seq<CF.MemberInfo>, n: nat,
                         pool: seq<Slot>, classes: map<string, Class>, names: map<string, Option<string>>)
    requires MethodsBuilt(c, ms0, from, infos, n, pool, classes, names) && n < |infos|
    requires ms0 <= ms1 && |ms1| == |ms0| + 1 && MethodBuilt(ms1[|ms0|], c, infos[n], pool, classes, names)
    ensures MethodsBuilt(c, ms1, from, infos, n + 1, pool, classes, names)
  {
    forall i | 0 <= i < n + 1 ensures MethodBuilt(ms1[from + i], c, infos[i], pool, classes, names) {
      if i < n {
        assert ms1[from + i] == ms0[from + i];
      }
    }
  }

  /** A width found under some names is the same under more names. */
  lemma {:induction false} WidthExtends(s: Sig, a: map<string, Option<string>>, b: map<string, Option<string>>)
    requires Extends(a, b) && Width(s, NameOf(a)).Ok?
    ensures Width(s, NameOf(b)) == Width(s, NameOf(a))
    decreases s
  {
    if s.ArraySig? {
      WidthExtends(s.component, a, b);
    }
  }

  lemma {:induction false} ArgsFromExtends(args: string, index: nat, a: map<string, Option<string>>, b: map<string, Option<string>>)
    requires Extends(a, b) && ArgsFrom(args, index, NameOf(a)).Ok?
    ensures ArgsFrom(args, index, NameOf(b)) == ArgsFrom(args, index, NameOf(a))
    decreases |args| - index
  {
    if index < |args| {
      var s := ParseDescriptor(args[index..]).value;
      WidthExtends(s, a, b);
      ArgsFromExtends(args, index + Width(s, NameOf(a)).value, a, b);
    }
  }

  /** A split that succeeds from index starts with an argument that parses and has a width, and succeeds again after it. */
  lemma ArgsHead(args: string, index: nat, nameOf: string -> Option<string>) returns (s: Sig, w: nat)
    requires index < |args| && ArgsFrom(args, index, nameOf).Ok?
    ensures ParseDescriptor(args[index..]) == Ok(s) && Width(s, nameOf) == Ok(w)
    ensures ArgsFrom(args, index + w, nameOf).Ok?
  {
    s := ParseDescriptor(args[index..]).value;
    w := Width(s, nameOf).value;
  }

  /** The next argument of a split that succeeds parses, and has a width under more names too. */
  lemma {:induction false} ArgsHeadExtends(args: string, index: nat, a: map<string, Option<string>>, b: map<string, Option<string>>)
    requires Extends(a, b) && index < |args| && ArgsFrom(args, index, NameOf(a)).Ok?
    ensures ParseDescriptor(args[index..]).Ok? && Width(ParseDescriptor(args[index..]).value, NameOf(b)).Ok?
  {
    var s, w := ArgsHead(args, index, NameOf(a));
    WidthExtends(s, a, b);
  }

  /**
   * Where an argument ends under more names, the split under fewer names goes on: the
   * width is the same under both.
   */
  lemma {:induction false} ArgsNext(args: string, index: nat, w: nat, a: map<string, Option<string>>, b: map<string, Option<string>>)
    requires Extends(a, b) && index < |args| && ArgsFrom(args, index, NameOf(a)).Ok?
    requires Width(ParseDescriptor(args[index..]).value, NameOf(b)) == Ok(w)
    ensures ArgsFrom(args, index + w, NameOf(a)).Ok?
  {
    var s, w0 := ArgsHead(args, index, NameOf(a));
    WidthExtends(s, a, b);
    assert w0 == w;
  }

  /**
   * Along steps that fit under more names, a split that succeeds under fewer names from
   * the first offset succeeds from every later one.
   */
  lemma {:induction false} ArgsAlong(args: string, sigs: seq<Sig>, offsets: seq<nat>,
                                     a: map<string, Option<string>>, b: map<string, Option<string>>, j: nat)
    requires StepsFit(args, sigs, offsets, NameOf(b)) && Extends(a, b) && j <= |sigs|
    requires ArgsFrom(args, offsets[0], NameOf(a)).Ok?
    ensures ArgsFrom(args, offsets[j], NameOf(a)).Ok?
  {
    if j > 0 {
      var i, s := j - 1, sigs[j - 1];
      var w := Width(s, NameOf(b)).value;
      assert offsets[i] < |args| && ParseDescriptor(args[offsets[i]..]) == Ok(s) && Width(s, NameOf(b)) == Ok(w);
      assert offsets[j] == offsets[i] + w;
      assert ArgsFrom(args, offsets[i], NameOf(a)).Ok? by {
        ArgsAlong(args, sigs, offsets, a, b, i);
      }
      ArgsNext(args, offsets[i], w, a, b);
    }
  }

  /** A split found once stays the split as more classes are named. */
  lemma MethodSigExtends(value: string, a: map<string, Option<string>>, b: map<string, Option<string>>)
    requires Extends(a, b) && MethodSig(value, NameOf(a)).Ok?
    ensures MethodSig(value, NameOf(b)) == MethodSig(value, NameOf(a))
  {
    ArgsFromExtends(value[..IndexOf(value, ')')], 1, a, b);
  }

  lemma MethodShapeGrows(m: Method, value: string, before: map<string, Class>, after: map<string, Class>,
                         a: map<string, Option<string>>, b: map<string, Option<string>>)
    requires MethodShape(m, value, before, a) && Grows(before, after) && Extends(a, b)
    ensures MethodShape(m, value, after, b)
  {
    MethodSigExtends(value, a, b);
    var (sigs, ret) := MethodSig(value, NameOf(a)).value;
    AllMatchGrows(m.arguments, sigs, before, after);
    MatchesGrows(m.ret, ret, before, after);
  }

  lemma MethodsBuiltGrows(c: Class, ms: seq<Method>, from: nat, infos: seq<CF.MemberInfo>, n: nat, pool: seq<Slot>,
                          before: map<string, Class>, after: map<string, Class>,
                          a: map<string, Option<string>>, b: map<string, Option<string>>)
    requires MethodsBuilt(c, ms, from, infos, n, pool, before, a) && Grows(before, after) && Extends(a, b)
    ensures MethodsBuilt(c, ms, from, infos, n, pool, after, b)
  {
    forall i | 0 <= i < n ensures MethodBuilt(ms[from + i], c, infos[i], pool, after, b) {
      assert MethodBuilt(ms[from + i], c, infos[i], pool, before, a);
      MethodShapeGrows(ms[from + i], ms[from + i].signature.value, before, after, a, b);
    }
  }

  // ---- How far ProcessMethodDescriptorString steps past one argument ----

  function Plus(n: nat, r: Result<nat>): Result<nat> {
    match r
      case Ok(w) => Ok(n + w)
      case Err(e) => Err(e)
  }

  /** The text an object descriptor spans: its class's InternalName and the 'L' and ';' around it. */
  function ObjectWidth(t: Descriptor): Result<nat>
    reads (if t.cls == null then {} else {t.cls})
  {
    if t.cls == null || t.cls.internalName.None? then Err(NullReference) else Ok(|t.cls.internalName.value| + 2)
  }

  /** The width from a component on: one per array level, then one for a basic type or the object width. */
  ghost function ChainWidth(t: Descriptor): Result<nat>
    reads t.Classes
    requires t.Valid()
    decreases t.Repr
  {
    if t.isArrayType then
      if t.component == null then Err(NullReference) else Plus(1, ChainWidth(t.component))
    else if t.isBasicType then Ok(1)
    else ObjectWidth(t)
  }

  /**
   * The width the argument loop adds for a descriptor: a basic type is checked first, an
   * object type next, and anything else is walked as an array.
   */
  ghost function DescriptorWidth(d: Descriptor): Result<nat>
    reads d.Classes
    requires d.Valid()
  {
    if d.isBasicType then Ok(1)
    else if d.isObjectType then ObjectWidth(d)
    else if d.component == null then Err(NullReference)
    else Plus(1, ChainWidth(d.component))
  }

  /** The width step of the argument loop, walking the component chain. */
  method ArgumentWidth(d: Descriptor) returns (r: Result<nat>)
    requires d.Valid()
    ensures r == DescriptorWidth(d)
  {
    if d.isBasicType {
      return Ok(1);
    }
    if d.isObjectType {
      return ObjectWidth(d);
    }
    var index: nat := 1;
    var componentType := d.component;
    if componentType == null {
      return Err(NullReference);
    }
    while componentType.isArrayType
      invariant componentType != null && componentType.Valid() && componentType.Repr <= d.Repr && componentType.Classes <= d.Classes
      invariant DescriptorWidth(d) == Plus(index, ChainWidth(componentType))
      decreases componentType.Repr
    {
      index := index + 1;
      componentType := componentType.component;
      if componentType == null {
        return Err(NullReference);
      }
    }
    if componentType.isBasicType {
      return Ok(index + 1);
    }
    var w := ObjectWidth(componentType);
    return Plus(index, w);
  }

  lemma {:induction false} ChainWidthOfMatched(t: Descriptor, s: Sig, classes: map<string, Class>, names: map<string, Option<string>>)
    requires t.Valid() && Matches(t, s, classes) && Named(classes, names)
    ensures ChainWidth(t) == Width(s, NameOf(names))
    decreases s
  {
    if s.ArraySig? {
      ChainWidthOfMatched(t.component, s.component, classes, names);
    }
  }

  /**
   * The loop steps past a descriptor built for a parse exactly the width of that parse
   * under the InternalNames of the cached classes.
   */
  lemma WidthOfMatched(d: Descriptor, s: Sig, classes: map<string, Class>, names: map<string, Option<string>>)
    requires d.Valid() && Matches(d, s, classes) && Named(classes, names)
    ensures DescriptorWidth(d) == Width(s, NameOf(names))
  {
    if s.ArraySig? {
      ChainWidthOfMatched(d.component, s.component, classes, names);
    }
  }

  /**
   * When each step is the width of its parse under a name lookup, the split is the one
   * ArgsFrom computes from the text alone.
   */
  ghost predicate StepsFit(args: string, sigs: seq<Sig>, offsets: seq<nat>, nameOf: string -> Option<string>) {
    && |offsets| == |sigs| + 1
    && forall i {:trigger sigs[i]} :: 0 <= i < |sigs| ==>
      offsets[i] < |args| && ParseDescriptor(args[offsets[i]..]) == Ok(sigs[i])
      && Width(sigs[i], nameOf).Ok? && offsets[i + 1] == offsets[i] + Width(sigs[i], nameOf).value
  }

  /** The steps found under some names are the steps under more names. */
  lemma StepsFitExtends(args: string, sigs: seq<Sig>, offsets: seq<nat>, a: map<string, Option<string>>, b: map<string, Option<string>>)
    requires StepsFit(args, sigs, offsets, NameOf(a)) && Extends(a, b)
    ensures StepsFit(args, sigs, offsets, NameOf(b))
  {
    var nb := NameOf(b);
    forall i | 0 <= i < |sigs|
      ensures offsets[i] < |args| && ParseDescriptor(args[offsets[i]..]) == Ok(sigs[i])
      ensures Width(sigs[i], nb).Ok? && offsets[i + 1] == offsets[i] + Width(sigs[i], nb).value
    {
      WidthExtends(sigs[i], a, b);
    }
  }

  lemma {:induction false} SplitIsArgsFrom(args: string, sigs: seq<Sig>, offsets: seq<nat>,
                                           nameOf: string -> Option<string>, j: nat)
    requires StepsFit(args, sigs, offsets, nameOf) && offsets[|sigs|] >= |args| && j <= |sigs|
    ensures ArgsFrom(args, offsets[j], nameOf) == Ok(sigs[j..])
    decreases |sigs| - j
  {
    if j < |sigs| {
      SplitIsArgsFrom(args, sigs, offsets, nameOf, j + 1);
      var s := sigs[j];
      SplitStep(args, offsets[j], offsets[j + 1], nameOf, sigs, j);
    } else {
      assert sigs[j..] == [];
    }
  }

  /** One step of the split: the argument at offset j, then the split after it. */
  lemma SplitStep(args: string, index: nat, next: nat, nameOf: string -> Option<string>, sigs: seq<Sig>, j: nat)
    requires j < |sigs| && index < |args| && ParseDescriptor(args[index..]) == Ok(sigs[j])
    requires Width(sigs[j], nameOf).Ok? && next == index + Width(sigs[j], nameOf).value
    requires ArgsFrom(args, next, nameOf) == Ok(sigs[j + 1..])
    ensures ArgsFrom(args, index, nameOf) == Ok(sigs[j..])
  {
    ArgsStep(args, index, nameOf, sigs[j], next - index, sigs[j + 1..]);
    SigsFrom(sigs, j);
  }

  lemma SigsFrom(sigs: seq<Sig>, j: nat)
    requires j < |sigs|
    ensures sigs[j..] == [sigs[j]] + sigs[j + 1..]
  {
  }

  /** The split of a method descriptor from the split of its arguments and the parse of its return type. */
  lemma MethodSigParts(value: string, close: int, nameOf: string -> Option<string>, sigs: seq<Sig>, ret: Sig)
    requires close == IndexOf(value, ')') && close >= 1
    requires ArgsFrom(value[..close], 1, nameOf) == Ok(sigs) && ParseDescriptor(value[close + 1..]) == Ok(ret)
    ensures MethodSig(value, nameOf) == Ok((sigs, ret))
  {
  }

  /** Steps that run to the end of the text are the split ArgsFrom computes from the first. */
  lemma SplitIsArgs(args: string, sigs: seq<Sig>, offsets: seq<nat>, nameOf: string -> Option<string>)
    requires StepsFit(args, sigs, offsets, nameOf) && offsets[|sigs|] >= |args|
    ensures ArgsFrom(args, offsets[0], nameOf) == Ok(sigs)
  {
    SplitIsArgsFrom(args, sigs, offsets, nameOf, 0);
    assert sigs[0..] == sigs;
  }

  /** One more argument parsed at the next offset, stepped over by its width, extends the steps. */
  lemma StepAppend(args: string, sigs: seq<Sig>, offsets: seq<nat>, s: Sig, next: nat, nameOf: string -> Option<string>)
    requires StepsFit(args, sigs, offsets, nameOf) && offsets[|sigs|] < |args|
    requires ParseDescriptor(args[offsets[|sigs|]..]) == Ok(s)
    requires Width(s, nameOf).Ok? && next == offsets[|sigs|] + Width(s, nameOf).value
    ensures StepsFit(args, sigs + [s], offsets + [next], nameOf)
  {
    var sigs', offsets' := sigs + [s], offsets + [next];
    forall i | 0 <= i < |sigs'|
      ensures 0 <= offsets'[i] < |args| && ParseDescriptor(args[offsets'[i]..]) == Ok(sigs'[i])
      ensures Width(sigs'[i], nameOf).Ok? && offsets'[i + 1] == offsets'[i] + Width(sigs'[i], nameOf).value
    {
      assert offsets'[i] == offsets[i];
      if i < |sigs| {
        assert sigs'[i] == sigs[i] && offsets'[i + 1] == offsets[i + 1];
      }
    }
  }

  /** One more descriptor matching its parse extends the matches. */
  lemma AllMatchAppend(ds: seq<Descriptor>, sigs: seq<Sig>, d: Descriptor, s: Sig, classes: map<string, Class>)
    requires AllMatch(ds, sigs, classes) && d.Valid() && Matches(d, s, classes)
    ensures AllMatch(ds + [d], sigs + [s], classes)
  {
    var ds', sigs' := ds + [d], sigs + [s];
    forall i | 0 <= i < |ds'| ensures ds'[i].Valid() && Matches(ds'[i], sigs'[i], classes) {
      if i < |ds| {
        assert ds'[i] == ds[i] && sigs'[i] == sigs[i];
      }
    }
  }

  // ---- The class factory ----

  /** Caching a class with its InternalName keeps the names in step with the classes. */
  lemma NamedInsert(classes: map<string, Class>, names: map<string, Option<string>>, n: string, c: Class)
    requires Named(classes, names)
    ensures Named(classes[n := c], names[n := c.internalName])
  {
  }

  /** The enclosing class's name of a nested class: the text before the last '$'. */
  function EnclosingName(className: string): (r: string)
    requires '$' in className
    ensures |r| < |className| && className[|r|] == '$' && '$' !in className[|r| + 1..]
  {
    className[..LastIndexOf(className, '$')]
  }

  /** The nine basic types the factory starts with, each public and under its keyword. */
  method NewBasicTypes() returns (classes: map<string, Class>)
    ensures classes.Keys == {"byte", "char", "double", "float", "int", "long", "short", "bool", "void"}
    ensures Named(classes, BasicTypeNames()) && Seeded(classes)
  {
    var flag := CLASS_PUBLIC;
    var byteClass := new Class.Named("B", "byte", flag);
    var charClass := new Class.Named("C", "char", flag);
    var doubleClass := new Class.Named("D", "double", flag);
    var floatClass := new Class.Named("F", "float", flag);
    var intClass := new Class.Named("I", "int", flag);
    var longClass := new Class.Named("J", "long", flag);
    var shortClass := new Class.Named("S", "short", flag);
    var boolClass := new Class.Named("Z", "bool", flag);
    var voidClass := new Class.Named("V", "void", flag);
    classes := BasicTypes(byteClass, charClass, doubleClass, floatClass, intClass,
                          longClass, shortClass, boolClass, voidClass);
    BasicTypesNamed(byteClass, charClass, doubleClass, floatClass, intClass,
                    longClass, shortClass, boolClass, voidClass);
    BasicTypesSeeded(byteClass, charClass, doubleClass, floatClass, intClass,
                     longClass, shortClass, boolClass, voidClass);
  }

  /** A nested class name whose enclosing class is cached. */
  ghost predicate Nested(classes: map<string, Class>, k: string) {
    '$' in k && EnclosingName(k) in classes
  }

  lemma UnionStep<T>(now: set<T>, before: set<T>, start: set<T>, done: set<T>, moreDone: set<T>, added: set<T>)
    requires now == before + added && before == start + done && moreDone == done + added
    ensures now == start + moreDone
  {
  }

  lemma AddPresent<T>(s: set<T>, x: T)
    requires x in s
    ensures s + {x} == s
  {
  }

  lemma PrefixAppend<T>(a: seq<T>, b: seq<T>, x: T)
    requires a <= b
    ensures a <= b + [x]
  {
  }

  lemma AppendAssoc<T>(a: seq<T>, b: seq<T>, c: seq<T>)
    ensures a + b + c == a + (b + c)
  {
  }

  lemma ElemsAppend<T>(s: seq<T>, x: T)
    ensures Elems(s + [x]) == Elems(s) + {x}
  {
    assert forall y :: y in s + [x] <==> y in s || y == x;
  }

  /**
   * What AddInnerClass's Contains guard gives an inner list: the classes appended after
   * the old list o are pairwise distinct and none of them was already in o.
   */
  ghost predicate FreshlyAppended<T>(o: seq<T>, s: seq<T>) {
    && |o| <= |s|
    && NoDuplicates(s[|o|..])
    && forall y :: y in s[|o|..] ==> y !in o
  }

  /** Appending a class the list does not hold keeps the appended part fresh. */
  lemma FreshlyAppendedStep<T>(o: seq<T>, s: seq<T>, y: T)
    requires o <= s && FreshlyAppended(o, s) && y !in s
    ensures FreshlyAppended(o, s + [y])
  {
    var t := s + [y];
    assert t[|o|..] == s[|o|..] + [y];
    assert y !in s[|o|..];
  }

  /** A duplicate-free list whose appended part is fresh stays duplicate-free. */
  lemma FreshlyAppendedNoDuplicates<T>(o: seq<T>, s: seq<T>)
    requires o <= s && FreshlyAppended(o, s) && NoDuplicates(o)
    ensures NoDuplicates(s)
  {
    forall i, j | 0 <= i < j < |s|
      ensures s[i] != s[j]
    {
      if j < |o| {
        assert s[i] == o[i] && s[j] == o[j];
      } else if i < |o| {
        assert s[j] == s[|o|..][j - |o|] && s[j] in s[|o|..];
        assert s[i] == o[i] && s[i] in o;
      } else {
        assert s[i] == s[|o|..][i - |o|] && s[j] == s[|o|..][j - |o|];
      }
    }
  }

  /**
   * The classes under the nested names outside todo whose enclosing name holds e: the
   * inner classes those names give e.
   */
  ghost function Enclosed(classes: map<string, Class>, e: Class, todo: set<string>): set<Class> {
    set k | k in classes && k !in todo && Nested(classes, k) && classes[EnclosingName(k)] == e :: classes[k]
  }

  /** The classes under the enclosing names of the nested names outside todo that hold x. */
  ghost function Enclosers(classes: map<string, Class>, x: Class, todo: set<string>): set<Class> {
    set k | k in classes && k !in todo && Nested(classes, k) && classes[k] == x :: classes[EnclosingName(k)]
  }

  /** Taking one more name out of todo adds at most its own class. */
  lemma EnclosedStep(classes: map<string, Class>, e: Class, todo: set<string>, c: string)
    requires c in todo && c in classes
    ensures Nested(classes, c) && classes[EnclosingName(c)] == e ==>
      Enclosed(classes, e, todo - {c}) == Enclosed(classes, e, todo) + {classes[c]}
    ensures !(Nested(classes, c) && classes[EnclosingName(c)] == e) ==>
      Enclosed(classes, e, todo - {c}) == Enclosed(classes, e, todo)
  {
  }

  /** Taking one more name out of todo adds at most its enclosing class. */
  lemma EnclosersStep(classes: map<string, Class>, x: Class, todo: set<string>, c: string)
    requires c in todo && c in classes
    ensures Nested(classes, c) && classes[c] == x ==>
      Enclosers(classes, x, todo - {c}) == Enclosers(classes, x, todo) + {classes[EnclosingName(c)]}
    ensures !(Nested(classes, c) && classes[c] == x) ==>
      Enclosers(classes, x, todo - {c}) == Enclosers(classes, x, todo)
  {
  }

  /**
   * What ResolveInnerClasses has done for the name k once the names outside todo are
   * processed, given the inner list and declaring class k's class now has and what each
   * class had at the start (inner0, decl0): its inner list grew by exactly the classes
   * enclosed under processed names; its declaring class is the one it started with or
   * one of its enclosers so far, and the latter for certain once k is processed and its
   * class was not already listed in the enclosing class.
   */
  ghost predicate ResolvedAt(classes: map<string, Class>, todo: set<string>, inner0: map<Class, seq<Class>>,
                             decl0: map<Class, Class?>, k: string, inner: seq<Class>, decl: Class?)
    requires k in classes && classes.Values <= inner0.Keys && classes.Values <= decl0.Keys
  {
    var x := classes[k];
    && inner0[x] <= inner
    && FreshlyAppended(inner0[x], inner)
    && Elems(inner) == Elems(inner0[x]) + Enclosed(classes, x, todo)
    && (decl == decl0[x] || decl in Enclosers(classes, x, todo))
    && (k !in todo && Nested(classes, k) && x !in inner0[classes[EnclosingName(k)]] ==>
          decl in Enclosers(classes, x, todo))
  }

  /**
   * Processing name c keeps ResolvedAt for every name k: when c is nested, the class x
   * under it is appended to the enclosing class e unless e already lists it (eInner),
   * and then x's declaring class becomes e; otherwise nothing changes.
   */
  lemma ResolvedAtStep(classes: map<string, Class>, todo: set<string>, inner0: map<Class, seq<Class>>,
                       decl0: map<Class, Class?>, c: string, eInner: seq<Class>,
                       k: string, inner: seq<Class>, decl: Class?, inner': seq<Class>, decl': Class?)
    requires c in todo && c in classes && k in classes
    requires classes.Values <= inner0.Keys && classes.Values <= decl0.Keys
    requires ResolvedAt(classes, todo, inner0, decl0, k, inner, decl)
    requires !Nested(classes, c) ==> inner' == inner && decl' == decl
    requires Nested(classes, c) && classes[k] == classes[EnclosingName(c)] ==> inner == eInner
    requires Nested(classes, c) ==>
      inner' == (if classes[k] == classes[EnclosingName(c)] && classes[c] !in eInner then inner + [classes[c]] else inner)
    requires Nested(classes, c) ==>
      decl' == (if classes[k] == classes[c] && classes[c] !in eInner then classes[EnclosingName(c)] else decl)
    requires (Nested(classes, c) && classes[k] == classes[c] && classes[c] in eInner &&
              classes[c] !in inner0[classes[EnclosingName(c)]]) ==> decl in Enclosers(classes, classes[c], todo)
    ensures ResolvedAt(classes, todo - {c}, inner0, decl0, k, inner', decl')
  {
    var x := classes[k];
    EnclosedStep(classes, x, todo, c);
    EnclosersStep(classes, x, todo, c);
    if Nested(classes, c) {
      var e, y := classes[EnclosingName(c)], classes[c];
      if x == e {
        if y !in eInner {
          ElemsAppend(inner, y);
          FreshlyAppendedStep(inner0[x], inner, y);
          PrefixAppend(inner0[x], inner, y);
          UnionStep(Elems(inner'), Elems(inner), Elems(inner0[x]), Enclosed(classes, x, todo),
                    Enclosed(classes, x, todo - {c}), {y});
        } else {
          AddPresent(Elems(inner), y);
          UnionStep(Elems(inner'), Elems(inner), Elems(inner0[x]), Enclosed(classes, x, todo),
                    Enclosed(classes, x, todo - {c}), {y});
        }
      }
    }
  }

  /**
   * ClassFactory: the cache from class names to the Class objects of one conversion run,
   * seeded with the basic types, and the class files it builds classes from.
   */
  class ClassFactory {
    /** The parsed class files by archive entry name: the classes to generate. */
    const classFiles: map<string, CF.ClassFile>
    /** The referenced assemblies, kept for the emitter and not read here. */
    const references: seq<string>
    /** Every class loaded so far, by the name it was asked for. */
    var classes: map<string, Class>
    /** The InternalName of every cached class, by the name it is cached under. */
    ghost var names: map<string, Option<string>>

    ghost predicate Valid()
      reads this, classes.Values`internalName
    {
      Named(classes, names)
    }

    /**
     * What loading does to the cache: names stay cached with the same class, and the
     * InternalName under every old name stays.
     */
    twostate predicate Extended()
      reads this, classes.Values`internalName
    {
      && Valid()
      && Grows(old(classes), classes)
      && Extends(old(names), names)
    }

    /** As Extended, except that the names holding the class renamed may take its new name. */
    twostate predicate ExtendedRenaming(renamed: Class)
      reads this, classes.Values`internalName
    {
      && Valid()
      && Grows(old(classes), classes)
      && Kept(old(classes), old(names), names, renamed)
    }

    /** The factory starts with the nine basic types, public, under their keywords. */
    constructor (classFiles: map<string, CF.ClassFile>, references: seq<string>)
      ensures this.classFiles == classFiles && this.references == references
      ensures Valid()
      ensures classes.Keys == {"byte", "char", "double", "float", "int", "long", "short", "bool", "void"}
      ensures Seeded(classes)
    {
      this.classFiles := classFiles;
      this.references := references;
      var basic := NewBasicTypes();
      classes := basic;
      new;
      names := BasicTypeNames();
    }

    /**
     * LoadClass: null gives null; a cached name gives its cached class; any other name
     * is cached with a new stub first, which is then built from its class file if
     * there is one, so that loading the same name while it is being built gives the stub.
     */
    method LoadClass(name: Option<string>) returns (r: Result<Class?>)
      requires Valid()
      modifies this
      decreases classFiles.Keys - classes.Keys, 0, 1
      ensures Extended()
      ensures name.None? ==> r == Ok(null) && classes == old(classes)
      ensures name.Some? && name.value in old(classes) ==>
        r.Ok? && r.value == old(classes)[name.value] && classes == old(classes)
      ensures name.Some? ==> name.value in classes && (r.Ok? ==> r.value == classes[name.value])
      ensures name.Some? && name.value !in old(classes) ==> fresh(classes[name.value])
      ensures name.Some? && name.value !in old(classes) && name.value !in classFiles ==>
        r.Ok? && classes == old(classes)[name.value := classes[name.value]] && Stub(classes[name.value], name.value)
      ensures name.Some? && name.value !in old(classes) && name.value in classFiles && r.Ok? ==>
        Built(classFiles[name.value], classes[name.value], classes, names, [], [], [])
    {
      if name.None? {
        return Ok(null);
      }
      var n := name.value;
      if n in classes {
        return Ok(classes[n]);
      }
      r := LoadNew(n);
    }

    /** The part of LoadClass for a name not cached yet: the stub is cached, then built if there is a class file. */
    method LoadNew(n: string) returns (r: Result<Class?>)
      requires Valid() && n !in classes
      modifies this
      decreases classFiles.Keys - classes.Keys, 0, 0
      ensures Extended()
      ensures n in classes && fresh(classes[n]) && (r.Ok? ==> r.value == classes[n])
      ensures n !in classFiles ==> r.Ok? && classes == old(classes)[n := classes[n]] && Stub(classes[n], n)
      ensures n in classFiles && r.Ok? ==> Built(classFiles[n], classes[n], classes, names, [], [], [])
    {
      ghost var classes0, names0 := classes, names;
      var c := CacheStub(n);
      if n in classFiles {
        Shrinks(classFiles.Keys, classes0, n, c);
        var built := BuildClass(classFiles[n], c, this);
        KeptFresh(classes0, names0, classes0[n := c], names, c);
        GrowsTrans(classes0, classes0[n := c], classes);
        if built.Fail? {
          return Err(built.error);
        }
      }
      return Ok(c);
    }

    /** A new class with only its InternalName set, cached under that name. */
    method CacheStub(n: string) returns (c: Class)
      requires Valid() && n !in classes
      modifies this
      ensures fresh(c) && Stub(c, n) && Valid()
      ensures classes == old(classes)[n := c] && names == old(names)[n := Some(n)]
    {
      c := new Class();
      c.internalName := Some(n);
      NamedInsert(classes, names, n, c);
      classes, names := classes[n := c], names[n := Some(n)];
    }

    /**
     * ResolveInnerClasses: every cached name with a '$' whose enclosing name is cached
     * becomes an inner class of the enclosing class; a missing enclosing class is
     * skipped. The cache is walked in no particular order.
     */
    method ResolveInnerClasses()
      modifies classes.Values`innerClasses, classes.Values`declaringClass
      ensures forall k :: k in classes ==> old(classes[k].innerClasses) <= classes[k].innerClasses
      ensures forall k :: k in classes ==> FreshlyAppended(old(classes[k].innerClasses), classes[k].innerClasses)
      ensures forall k :: k in classes && NoDuplicates(old(classes[k].innerClasses)) ==> NoDuplicates(classes[k].innerClasses)
      ensures forall k :: k in classes ==>
        Elems(classes[k].innerClasses) == Elems(old(classes[k].innerClasses)) + Enclosed(classes, classes[k], {})
      ensures forall k :: k in classes ==>
        classes[k].declaringClass == old(classes[k].declaringClass) ||
        classes[k].declaringClass in Enclosers(classes, classes[k], {})
      ensures forall k :: k in classes && Nested(classes, k) && classes[k] !in old(classes[EnclosingName(k)].innerClasses) ==>
        classes[k].declaringClass in Enclosers(classes, classes[k], {})
    {
      ghost var inner0 := map x | x in classes.Values :: x.innerClasses;
      ghost var decl0 := map x | x in classes.Values :: x.declaringClass;
      var todo := classes.Keys;
      forall k | k in classes
        ensures ResolvedAt(classes, todo, inner0, decl0, k, classes[k].innerClasses, classes[k].declaringClass)
      {
        assert classes[k] in classes.Values;
      }
      while todo != {}
        invariant todo <= classes.Keys
        invariant forall k :: k in classes ==>
          ResolvedAt(classes, todo, inner0, decl0, k, classes[k].innerClasses, classes[k].declaringClass)
        decreases todo
      {
        var className :| className in todo;
        ResolveInnerClass(className, todo, inner0, decl0);
        todo := todo - {className};
      }
      forall k | k in classes
        ensures old(classes[k].innerClasses) <= classes[k].innerClasses
        ensures FreshlyAppended(old(classes[k].innerClasses), classes[k].innerClasses)
        ensures NoDuplicates(old(classes[k].innerClasses)) ==> NoDuplicates(classes[k].innerClasses)
        ensures Elems(classes[k].innerClasses) == Elems(old(classes[k].innerClasses)) + Enclosed(classes, classes[k], {})
        ensures classes[k].declaringClass == old(classes[k].declaringClass) ||
                classes[k].declaringClass in Enclosers(classes, classes[k], {})
        ensures Nested(classes, k) && classes[k] !in old(classes[EnclosingName(k)].innerClasses) ==>
                classes[k].declaringClass in Enclosers(classes, classes[k], {})
      {
        assert classes[k] in classes.Values;
        if NoDuplicates(old(classes[k].innerClasses)) {
          FreshlyAppendedNoDuplicates(old(classes[k].innerClasses), classes[k].innerClasses);
        }
        if Nested(classes, k) {
          assert classes[EnclosingName(k)] in classes.Values;
        }
      }
    }

    /**
     * One pass of the ResolveInnerClasses loop: the name after its last '$' is split
     * off; when what precedes it is cached, the class under className becomes an inner
     * class of that enclosing class ("Class not found" otherwise, and nothing changes).
     */
    method ResolveInnerClass(className: string, ghost todo: set<string>, ghost inner0: map<Class, seq<Class>>,
                             ghost decl0: map<Class, Class?>)
      requires className in todo && todo <= classes.Keys
      requires classes.Values <= inner0.Keys && classes.Values <= decl0.Keys
      requires forall k :: k in classes ==>
        ResolvedAt(classes, todo, inner0, decl0, k, classes[k].innerClasses, classes[k].declaringClass)
      modifies classes.Values`innerClasses, classes.Values`declaringClass
      ensures forall k :: k in classes ==>
        ResolvedAt(classes, todo - {className}, inner0, decl0, k, classes[k].innerClasses, classes[k].declaringClass)
    {
      var index := LastIndexOf(className, '$');
      if index < 0 || className[..index] !in classes {
        // "Class not found (perhaps an incomplete Jar)" when the enclosing name is missing
        assert !Nested(classes, className);
        forall k | k in classes
          ensures ResolvedAt(classes, todo - {className}, inner0, decl0, k, classes[k].innerClasses, classes[k].declaringClass)
        {
          ResolvedAtStep(classes, todo, inner0, decl0, className, [], k, classes[k].innerClasses, classes[k].declaringClass,
                         classes[k].innerClasses, classes[k].declaringClass);
        }
        return;
      }
      var enclosingName := className[..index];
      assert Nested(classes, className) && EnclosingName(className) == enclosingName;
      var enclosing := classes[enclosingName];
      var enclosed := classes[className];
      if enclosed in enclosing.innerClasses && enclosed !in inner0[enclosing] {
        // listed under another name already processed, which set its declaring class
        assert ResolvedAt(classes, todo, inner0, decl0, enclosingName, enclosing.innerClasses, enclosing.declaringClass);
        assert enclosed in Elems(enclosing.innerClasses) && enclosed !in Elems(inner0[enclosing]);
        assert enclosed in Enclosed(classes, enclosing, todo);
        var other :| other in classes && other !in todo && Nested(classes, other)
                      && classes[EnclosingName(other)] == enclosing && classes[other] == enclosed;
        assert ResolvedAt(classes, todo, inner0, decl0, other, enclosed.innerClasses, enclosed.declaringClass);
      }
      ghost var eInner := enclosing.innerClasses;
      enclosing.AddInnerClass(enclosed);
      forall k | k in classes
        ensures ResolvedAt(classes, todo - {className}, inner0, decl0, k, classes[k].innerClasses, classes[k].declaringClass)
      {
        ResolvedAtStep(classes, todo, inner0, decl0, className, eInner, k,
                       old(classes[k].innerClasses), old(classes[k].declaringClass),
                       classes[k].innerClasses, classes[k].declaringClass);
      }
    }
  }

  /**
   * ProcessDescriptor: '[' makes an array of the rest's descriptor, 'L' an object type
   * of the class loaded under the name up to ';', anything else a basic type of the
   * class loaded under its table entry (none for an unmapped letter).
   */
  method ProcessDescriptor(value: string, factory: ClassFactory) returns (r: Result<Descriptor>)
    requires factory.Valid()
    modifies factory
    decreases factory.classFiles.Keys - factory.classes.Keys, 1, |value|
    ensures factory.Extended()
    ensures ParseDescriptor(value).Err? ==> r.Err?
    ensures r.Ok? ==>
      && ParseDescriptor(value).Ok? && r.value.Valid() && fresh(r.value.Repr)
      && Matches(r.value, ParseDescriptor(value).value, factory.classes)
    ensures value != [] && BaseType(value[0]).None? ==> r.Ok?
    ensures ParseDescriptor(value).Ok? && factory.classFiles.Keys <= old(factory.classes).Keys ==> r.Ok?
  {
    var t := TypeForDescriptor(value);
    if t == Some(ARRAY_TYPE) {
      var component := ProcessDescriptor(value[1..], factory);
      if component.Err? {
        return component;
      }
      var d := new Descriptor.ArrayOf(component.value);
      return Ok(d);
    } else if t == Some(OBJECT_TYPE) {
      var semicolon := IndexOf(value, ';');
      if semicolon < 0 {
        return Err(ArgumentOutOfRange);
      }
      var c := factory.LoadClass(Some(value[1..semicolon]));
      if c.Err? {
        return Err(c.error);
      }
      var d := new Descriptor.ObjectOf(c.value);
      return Ok(d);
    } else {
      var c := factory.LoadClass(t);
      if c.Err? {
        return Err(c.error);
      }
      var d := new Descriptor.BasicOf(c.value);
      return Ok(d);
    }
  }

  /**
   * The descriptor of one argument of ProcessMethodDescriptorString, built from the text
   * at index, and its width: how many characters on the next argument starts. It fails
   * only where the split fails or a class build fails.
   */
  method ProcessArgument(args: string, index: nat, factory: ClassFactory) returns (r: Result<(Descriptor, nat)>)
    requires factory.Valid() && index < |args|
    modifies factory
    decreases factory.classFiles.Keys - factory.classes.Keys, 2, 0
    ensures factory.Extended()
    ensures r.Ok? ==>
      && ParseDescriptor(args[index..]).Ok? && r.value.0.Valid() && fresh(r.value.0.Repr)
      && Matches(r.value.0, ParseDescriptor(args[index..]).value, factory.classes)
      && Width(ParseDescriptor(args[index..]).value, NameOf(factory.names)) == Ok(r.value.1)
    ensures
      && ParseDescriptor(args[index..]).Ok? && Width(ParseDescriptor(args[index..]).value, NameOf(old(factory.names))).Ok?
      && factory.classFiles.Keys <= old(factory.classes).Keys
      ==> r.Ok?
  {
    var d := ProcessDescriptor(args[index..], factory);
    if d.Err? {
      return Err(d.error);
    }
    ghost var s := ParseDescriptor(args[index..]).value;
    WidthOfMatched(d.value, s, factory.classes, factory.names);
    if Width(s, NameOf(old(factory.names))).Ok? {
      WidthExtends(s, old(factory.names), factory.names);
    }
    var width := ArgumentWidth(d.value);
    if width.Err? {
      return Err(width.error);
    }
    r := Ok((d.value, width.value));
  }

  /**
   * The argument loop of ProcessMethodDescriptorString: from start, each argument is
   * parsed where the previous one ended, until the end of the text.
   */
  method ProcessArguments(args: string, start: nat, m: Method, factory: ClassFactory) returns (o: Outcome, ghost sigs: seq<Sig>)
    requires factory.Valid() && m.arguments == []
    modifies factory, m`arguments
    decreases factory.classFiles.Keys - factory.classes.Keys, 2, 1
    ensures factory.Extended()
    ensures o.Pass? ==> ArgsFrom(args, start, NameOf(factory.names)) == Ok(sigs) && AllMatch(m.arguments, sigs, factory.classes)
    ensures ArgsFrom(args, start, NameOf(old(factory.names))).Ok? && factory.classFiles.Keys <= old(factory.classes).Keys ==>
      o.Pass?
  {
    var index := start;
    sigs := [];
    ghost var offsets: seq<nat> := [start];
    ghost var succeeds := ArgsFrom(args, start, NameOf(factory.names)).Ok? && factory.classFiles.Keys <= factory.classes.Keys;
    while index < |args|
      invariant factory.Extended()
      invariant StepsFit(args, sigs, offsets, NameOf(factory.names)) && offsets[0] == start && offsets[|sigs|] == index
      invariant AllMatch(m.arguments, sigs, factory.classes)
      decreases |args| - index
    {
      ghost var before, names0 := factory.classes, factory.names;
      MeasureGrows(factory.classFiles.Keys, old(factory.classes), factory.classes);
      if succeeds {
        ArgsAlong(args, sigs, offsets, old(factory.names), names0, |sigs|);
        ArgsHeadExtends(args, index, old(factory.names), names0);
        CoveredGrows(factory.classFiles.Keys, old(factory.classes), factory.classes);
      }
      var arg := ProcessArgument(args, index, factory);
      GrowsTrans(old(factory.classes), before, factory.classes);
      ExtendsTrans(old(factory.names), names0, factory.names);
      if arg.Err? {
        return Fail(arg.error), sigs;
      }
      var (d, width) := arg.value;
      ghost var s := ParseDescriptor(args[index..]).value;
      StepsFitExtends(args, sigs, offsets, names0, factory.names);
      AllMatchGrows(m.arguments, sigs, before, factory.classes);
      index := index + width;
      StepAppend(args, sigs, offsets, s, index, NameOf(factory.names));
      AllMatchAppend(m.arguments, sigs, d, s, factory.classes);
      m.AddArgument(d);
      sigs := sigs + [s];
      offsets := offsets + [index];
    }
    SplitIsArgs(args, sigs, offsets, NameOf(factory.names));
    return Pass, sigs;
  }

  /**
   * ProcessMethodDescriptorString: the arguments between '(' and the first ')' are
   * processed by ProcessArguments, and the text after the ')' is the return type. The
   * source walks the text strictly between the parentheses from position 0; here the
   * walk is over the text up to the ')' from position 1, the same characters one
   * position on.
   */
  method ProcessMethodDescriptorString(m: Method, value: string, factory: ClassFactory) returns (o: Outcome)
    requires factory.Valid() && m.arguments == []
    modifies factory, m`arguments, m`ret
    decreases factory.classFiles.Keys - factory.classes.Keys, 3, 0
    ensures factory.Extended()
    ensures MethodSig(value, NameOf(factory.names)).Err? ==> o.Fail?
    ensures o.Pass? ==> MethodShape(m, value, factory.classes, factory.names)
    ensures MethodSig(value, NameOf(old(factory.names))).Ok? && factory.classFiles.Keys <= old(factory.classes).Keys ==> o.Pass?
  {
    var close := IndexOf(value, ')');
    if close < 1 {
      // Substring(1, close - 1) with a negative length
      return Fail(ArgumentOutOfRange);
    }
    var args := value[..close];
    ghost var sigs;
    o, sigs := ProcessArguments(args, 1, m, factory);
    if o.Fail? {
      return;
    }
    ghost var before, names0 := factory.classes, factory.names;
    MeasureGrows(factory.classFiles.Keys, old(factory.classes), factory.classes);
    if factory.classFiles.Keys <= old(factory.classes).Keys {
      CoveredGrows(factory.classFiles.Keys, old(factory.classes), factory.classes);
    }
    var ret := ProcessDescriptor(value[close + 1..], factory);
    GrowsTrans(old(factory.classes), before, factory.classes);
    ExtendsTrans(old(factory.names), names0, factory.names);
    if ret.Err? {
      return Fail(ret.error);
    }
    ArgsFromExtends(args, 1, names0, factory.names);
    AllMatchGrows(m.arguments, sigs, before, factory.classes);
    MethodSigParts(value, close, NameOf(factory.names), sigs, ParseDescriptor(value[close + 1..]).value);
    assert SignatureShape(m.arguments, ret.value, value, factory.classes, factory.names);
    m.ret := ret.value;
    return Pass;
  }

  /**
   * BuildClass: the flags and name of the class file, then its superclass and each
   * interface loaded and added as base types, then a Field for each field_info and a
   * Method for each method_info, in table order.
   */
  method BuildClass(cf: CF.ClassFile, c: Class, factory: ClassFactory) returns (o: Outcome)
    requires factory.Valid()
    modifies factory, c`accessFlags, c`internalName, c`baseTypes, c`fields, c`methods
    decreases factory.classFiles.Keys - factory.classes.Keys, 7, 0
    ensures factory.ExtendedRenaming(c)
    ensures o.Pass? ==> Built(cf, c, factory.classes, factory.names, old(c.baseTypes), old(c.fields), old(c.methods))
  {
    var pool := cf.constantPool;
    c.accessFlags := cf.accessFlags;
    var thisName := GetClassName(pool, cf.thisClass);
    if thisName.Err? {
      return Fail(thisName.error);
    }
    c.internalName := thisName.value;
    factory.names := map k | k in factory.classes :: factory.classes[k].internalName;

    ghost var classes1, names1 := factory.classes, factory.names;
    MeasureGrows(factory.classFiles.Keys, old(factory.classes), factory.classes);
    o := AddMembers(cf, c, factory);
    GrowsTrans(old(factory.classes), classes1, factory.classes);
    KeptExtends(old(factory.classes), old(factory.names), names1, factory.names, c);
  }

  /** The rest of BuildClass: the base types, then the fields, then the methods. */
  method AddMembers(cf: CF.ClassFile, c: Class, factory: ClassFactory) returns (o: Outcome)
    requires factory.Valid()
    modifies factory, c`baseTypes, c`fields, c`methods
    decreases factory.classFiles.Keys - factory.classes.Keys, 6, 0
    ensures factory.Extended()
    ensures o.Pass? ==> BasesBuilt(cf, c, factory.classes, old(c.baseTypes))
    ensures o.Pass? ==> old(c.fields) <= c.fields
    ensures o.Pass? ==> FieldsBuilt(c, c.fields, |old(c.fields)|, cf.fields, |cf.fields|, cf.constantPool, factory.classes)
    ensures o.Pass? ==> old(c.methods) <= c.methods
    ensures o.Pass? ==> MethodsBuilt(c, c.methods, |old(c.methods)|, cf.methods, |cf.methods|, cf.constantPool, factory.classes, factory.names)
  {
    ghost var bases0, fields0 := c.baseTypes, c.fields;
    var pool := cf.constantPool;
    o := AddBases(cf, c, factory);
    if o.Fail? {
      return;
    }

    ghost var classes1, names1 := factory.classes, factory.names;
    MeasureGrows(factory.classFiles.Keys, old(factory.classes), factory.classes);
    o := AddFields(cf, c, factory);
    GrowsTrans(old(factory.classes), classes1, factory.classes);
    ExtendsTrans(old(factory.names), names1, factory.names);
    if o.Fail? {
      return;
    }
    ClassesNamedGrows(NamesOf(pool, BaseIndices(cf)).value, classes1, factory.classes);
    assert BasesBuilt(cf, c, factory.classes, bases0);

    ghost var classes2, names2 := factory.classes, factory.names;
    MeasureGrows(factory.classFiles.Keys, old(factory.classes), factory.classes);
    o := AddMethods(cf, c, factory);
    GrowsTrans(old(factory.classes), classes2, factory.classes);
    ExtendsTrans(old(factory.names), names2, factory.names);
    if o.Fail? {
      return;
    }
    ClassesNamedGrows(NamesOf(pool, BaseIndices(cf)).value, classes2, factory.classes);
    FieldsBuiltGrows(c, c.fields, |fields0|, cf.fields, |cf.fields|, pool, classes2, factory.classes);
  }

  /** The superclass, then each interface, loaded and added as base types of c. */
  method AddBases(cf: CF.ClassFile, c: Class, factory: ClassFactory) returns (o: Outcome)
    requires factory.Valid()
    modifies factory, c`baseTypes
    decreases factory.classFiles.Keys - factory.classes.Keys, 5, 0
    ensures factory.Extended()
    ensures o.Pass? ==> BasesBuilt(cf, c, factory.classes, old(c.baseTypes))
  {
    ghost var bases0 := c.baseTypes;
    var pool := cf.constantPool;
    var indices := [cf.superClass] + cf.interfaces;
    ghost var named: seq<Option<string>> := [];
    var i := 0;
    while i < |indices|
      invariant 0 <= i <= |indices|
      invariant factory.Extended()
      invariant NamesTo(pool, indices, i) == Ok(named)
      invariant AllCached(named, factory.classes)
      invariant c.baseTypes == bases0 + ClassesNamed(named, factory.classes)
    {
      ghost var before := factory.classes;
      MeasureGrows(factory.classFiles.Keys, old(factory.classes), factory.classes);
      o := AddBase(pool, indices[i], c, factory);
      if o.Fail? {
        return;
      }
      ghost var name := GetClassName(pool, indices[i]).value;
      ClassesNamedGrows(named, before, factory.classes);
      ClassesNamedAppend(named, name, factory.classes);
      AppendAssoc(bases0, ClassesNamed(named, factory.classes), if name.None? then [] else [factory.classes[name.value]]);
      named := named + [name];
      i := i + 1;
    }
    return Pass;
  }

  /** One base type: the class the pool entry names, loaded and added to c. */
  method AddBase(pool: seq<Slot>, index: nat, c: Class, factory: ClassFactory) returns (o: Outcome)
    requires factory.Valid()
    modifies factory, c`baseTypes
    decreases factory.classFiles.Keys - factory.classes.Keys, 4, 0
    ensures factory.Extended()
    ensures o.Pass? ==> GetClassName(pool, index).Ok?
    ensures o.Pass? && GetClassName(pool, index).value.None? ==> c.baseTypes == old(c.baseTypes)
    ensures o.Pass? && GetClassName(pool, index).value.Some? ==>
      && GetClassName(pool, index).value.value in factory.classes
      && c.baseTypes == old(c.baseTypes) + [factory.classes[GetClassName(pool, index).value.value]]
  {
    var name := GetClassName(pool, index);
    if name.Err? {
      return Fail(name.error);
    }
    var t := factory.LoadClass(name.value);
    if t.Err? {
      return Fail(t.error);
    }
    o := c.AddBaseType(t.value);
  }

  /** A Field for each field_info, its descriptor processed, added to c in order. */
  method AddFields(cf: CF.ClassFile, c: Class, factory: ClassFactory) returns (o: Outcome)
    requires factory.Valid()
    modifies factory, c`fields
    decreases factory.classFiles.Keys - factory.classes.Keys, 5, 0
    ensures factory.Extended()
    ensures o.Pass? ==> old(c.fields) <= c.fields
    ensures o.Pass? ==> FieldsBuilt(c, c.fields, |old(c.fields)|, cf.fields, |cf.fields|, cf.constantPool, factory.classes)
  {
    ghost var fields0 := c.fields;
    var pool := cf.constantPool;
    var i := 0;
    while i < |cf.fields|
      invariant 0 <= i <= |cf.fields|
      invariant factory.Extended()
      invariant fields0 <= c.fields
      invariant FieldsBuilt(c, c.fields, |fields0|, cf.fields, i, pool, factory.classes)
    {
      ghost var before, fs0 := factory.classes, c.fields;
      MeasureGrows(factory.classFiles.Keys, old(factory.classes), factory.classes);
      o := AddField(cf.fields[i], pool, c, factory);
      if o.Fail? {
        return;
      }
      FieldsBuiltGrows(c, fs0, |fields0|, cf.fields, i, pool, before, factory.classes);
      FieldsBuiltStep(c, fs0, c.fields, |fields0|, cf.fields, i, pool, factory.classes);
      i := i + 1;
    }
    return Pass;
  }

  /** One Field: flags, name and signature from the pool, its descriptor processed, then added to c. */
  method AddField(info: CF.MemberInfo, pool: seq<Slot>, c: Class, factory: ClassFactory) returns (o: Outcome)
    requires factory.Valid()
    modifies factory, c`fields
    decreases factory.classFiles.Keys - factory.classes.Keys, 4, 0
    ensures factory.Extended()
    ensures o.Pass? ==> old(c.fields) <= c.fields && |c.fields| == |old(c.fields)| + 1
    ensures o.Pass? ==> FieldBuilt(c.fields[|old(c.fields)|], c, info, pool, factory.classes)
  {
    var f := new Field(c);
    f.accessFlags := info.accessFlags;
    var name := GetUtf8(pool, info.nameIndex);
    if name.Err? {
      return Fail(name.error);
    }
    f.name := Some(name.value);
    var signature := GetUtf8(pool, info.descriptorIndex);
    if signature.Err? {
      return Fail(signature.error);
    }
    f.signature := Some(signature.value);
    var d := ProcessDescriptor(signature.value, factory);
    if d.Err? {
      return Fail(d.error);
    }
    f.descriptor := d.value;
    o := c.AddField(f);
  }

  /** A Method for each method_info, its signature checked and its descriptor string processed, added to c in order. */
  method AddMethods(cf: CF.ClassFile, c: Class, factory: ClassFactory) returns (o: Outcome)
    requires factory.Valid()
    modifies factory, c`methods
    decreases factory.classFiles.Keys - factory.classes.Keys, 5, 0
    ensures factory.Extended()
    ensures o.Pass? ==> old(c.methods) <= c.methods
    ensures o.Pass? ==> MethodsBuilt(c, c.methods, |old(c.methods)|, cf.methods, |cf.methods|, cf.constantPool, factory.classes, factory.names)
  {
    ghost var methods0 := c.methods;
    var pool := cf.constantPool;
    var i := 0;
    while i < |cf.methods|
      invariant 0 <= i <= |cf.methods|
      invariant factory.Extended()
      invariant methods0 <= c.methods
      invariant MethodsBuilt(c, c.methods, |methods0|, cf.methods, i, pool, factory.classes, factory.names)
    {
      ghost var before, names0, ms0 := factory.classes, factory.names, c.methods;
      MeasureGrows(factory.classFiles.Keys, old(factory.classes), factory.classes);
      o := AddMethod(cf.methods[i], pool, c, factory);
      if o.Fail? {
        return;
      }
      MethodsBuiltGrows(c, ms0, |methods0|, cf.methods, i, pool, before, factory.classes, names0, factory.names);
      MethodsBuiltStep(c, ms0, c.methods, |methods0|, cf.methods, i, pool, factory.classes, factory.names);
      i := i + 1;
    }
    return Pass;
  }

  /** One Method: flags, name and signature from the pool, its descriptor string processed, then added to c. */
  method AddMethod(info: CF.MemberInfo, pool: seq<Slot>, c: Class, factory: ClassFactory) returns (o: Outcome)
    requires factory.Valid()
    modifies factory, c`methods
    decreases factory.classFiles.Keys - factory.classes.Keys, 4, 0
    ensures factory.Extended()
    ensures o.Pass? ==> old(c.methods) <= c.methods && |c.methods| == |old(c.methods)| + 1
    ensures o.Pass? ==> MethodBuilt(c.methods[|old(c.methods)|], c, info, pool, factory.classes, factory.names)
  {
    var m := new Method(c);
    m.accessFlags := info.accessFlags;
    var name := GetUtf8(pool, info.nameIndex);
    if name.Err? {
      return Fail(name.error);
    }
    m.name := Some(name.value);
    var signature := GetUtf8(pool, info.descriptorIndex);
    if signature.Err? {
      return Fail(signature.error);
    }
    var accepted := m.SetSignature(Some(signature.value));
    if accepted.Fail? {
      return accepted;
    }
    var processed := ProcessMethodDescriptorString(m, m.signature.value, factory);
    if processed.Fail? {
      return processed;
    }
    o := c.AddMethod(m);
  }
}
