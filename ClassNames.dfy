/**
 * The names Class derives from a JVM internal name such as java/util/Map$Entry: the
 * fully qualified .NET name (java.util.Map+Entry), the short name (Entry) and the
 * namespace (java.util).
 */
module ClassNames {
  import opened Strings

  /** The FullyQualifiedName getter when no name was set: '/' becomes '.', '$' becomes '+'. */
  function FullyQualifiedNameOf(internalName: string): (r: string)
    ensures |r| == |internalName|
    ensures '/' !in r && '$' !in r
    ensures forall i :: 0 <= i < |r| && internalName[i] !in "/$" ==> r[i] == internalName[i]
  {
    var dotted := Replace(internalName, '/', '.');
    ReplaceRemoves(internalName, '/', '.', '/');
    ReplaceRemoves(dotted, '$', '+', '/');
    ReplaceRemoves(dotted, '$', '+', '$');
    Replace(dotted, '$', '+')
  }

  /**
   * The Name getter: what follows the last '+' of the fully qualified name, or the whole
   * fully qualified name when there is no '+'.
   */
  function ShortNameOf(fqn: string): (r: string)
    ensures '+' !in r
    ensures |r| <= |fqn| && fqn[|fqn| - |r|..] == r
    ensures r == fqn || fqn[|fqn| - |r| - 1] == '+'
  {
    var index := LastIndexOf(fqn, '+');
    if index < 0 then fqn else fqn[index + 1..]
  }

  /**
   * The NameSpace getter: the internal name up to its last '/', with '/' made '.', or
   * the empty string when there is no '/'.
   */
  function NameSpaceOf(internalName: string): (r: string)
    ensures '/' !in r
    ensures r == [] <==> LastIndexOf(internalName, '/') <= 0
    ensures '/' in internalName ==> |r| == LastIndexOf(internalName, '/') && internalName[|r|] == '/'
  {
    var index := LastIndexOf(internalName, '/');
    if index < 0 then []
    else
      ReplaceRemoves(internalName[..index], '/', '.', '/');
      Replace(internalName[..index], '/', '.')
  }

  lemma FullyQualifiedNameConcat(x: string, y: string)
    ensures FullyQualifiedNameOf(x + y) == FullyQualifiedNameOf(x) + FullyQualifiedNameOf(y)
  {
    ReplaceConcat(x, y, '/', '.');
    ReplaceConcat(Replace(x, '/', '.'), Replace(y, '/', '.'), '$', '+');
  }

  /** A separator between two parts is translated on its own. */
  lemma FullyQualifiedNameAround(x: string, c: char, y: string)
    ensures FullyQualifiedNameOf(x + [c] + y) == FullyQualifiedNameOf(x) + FullyQualifiedNameOf([c]) + FullyQualifiedNameOf(y)
  {
    FullyQualifiedNameConcat(x + [c], y);
    FullyQualifiedNameConcat(x, [c]);
  }

  /** The translation only ever writes '+' for '$'. */
  lemma NoPlusIntroduced(s: string)
    requires '+' !in s && '$' !in s
    ensures '+' !in FullyQualifiedNameOf(s)
  {
    var f := FullyQualifiedNameOf(s);
    forall i | 0 <= i < |f| ensures f[i] != '+' {
      assert s[i] != '+' && s[i] != '$';
    }
  }

  /**
   * For a nested class the short name is the part after the last '$', dotted; the fully
   * qualified name is the enclosing class's, a '+', and that short name.
   */
  lemma NameOfNestedClass(internalName: string)
    requires '+' !in internalName && '$' in internalName
    ensures var k := LastIndexOf(internalName, '$');
      && ShortNameOf(FullyQualifiedNameOf(internalName)) == FullyQualifiedNameOf(internalName[k + 1..])
      && FullyQualifiedNameOf(internalName)
         == FullyQualifiedNameOf(internalName[..k]) + "+" + ShortNameOf(FullyQualifiedNameOf(internalName))
  {
    var k := LastIndexOf(internalName, '$');
    var outer, inner := internalName[..k], internalName[k + 1..];
    assert internalName == outer + ['$'] + inner;
    assert FullyQualifiedNameOf("$") == "+";
    var fOuter, fInner := FullyQualifiedNameOf(outer), FullyQualifiedNameOf(inner);
    FullyQualifiedNameAround(outer, '$', inner);
    NoPlusIntroduced(inner);
    LastIndexOfBeforeSuffix(fOuter, '+', fInner);
    assert fOuter + "+" + fInner == fOuter + ['+'] + fInner;
    assert (fOuter + ['+'] + fInner)[|fOuter| + 1..] == fInner;
  }

  /** A top-level class has no '+' in its name, so its short name is the whole dotted name. */
  lemma NameOfTopLevelClass(internalName: string)
    requires '+' !in internalName && '$' !in internalName
    ensures ShortNameOf(FullyQualifiedNameOf(internalName)) == FullyQualifiedNameOf(internalName)
  {
    NoPlusIntroduced(internalName);
  }

  /**
   * When nothing before the last '/' is a '$', the fully qualified name is the namespace,
   * a '.', and the dotted remainder.
   */
  lemma NameSpaceIsQualifiedNamePrefix(internalName: string)
    requires '/' in internalName
    requires '$' !in internalName[..LastIndexOf(internalName, '/')]
    ensures var k := LastIndexOf(internalName, '/');
      FullyQualifiedNameOf(internalName)
        == NameSpaceOf(internalName) + "." + FullyQualifiedNameOf(internalName[k + 1..])
  {
    var k := LastIndexOf(internalName, '/');
    var package, rest := internalName[..k], internalName[k + 1..];
    assert internalName == package + ['/'] + rest;
    FullyQualifiedNameAround(package, '/', rest);
    assert FullyQualifiedNameOf("/") == ".";
    ReplaceRemoves(package, '/', '.', '$');
    ReplaceAbsent(Replace(package, '/', '.'), '$', '+');
  }

  /** A name with neither '/' nor '$' is its own fully qualified name. */
  lemma PlainName(s: string)
    requires '/' !in s && '$' !in s
    ensures FullyQualifiedNameOf(s) == s
  {
    ReplaceAbsent(s, '/', '.');
    ReplaceAbsent(s, '$', '+');
  }
}
