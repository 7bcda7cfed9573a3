/**
 * The ClassFile structure (section 4.1 of The Java Virtual Machine Specification) as
 * the front end reads it: magic, version, constant pool, access flags, this and super
 * class indices, interfaces, fields, methods and attributes. Attribute bodies are kept
 * as raw bytes; nothing inside them is interpreted.
 */
module ClassFile {
  import opened Failures
  import opened BigEndian
  import opened BinaryReader
  import opened ConstantPool

  const MAGIC: nat := 0xCAFE_BABE
  /** The class-file major versions the reader accepts: JDK 1.1 to 1.4. */
  const MIN_MAJOR: nat := 45
  const MAX_MAJOR: nat := 48

  datatype AttributeInfo = AttributeInfo(nameIndex: nat, bytes: seq<byte>)

  /** field_info and method_info have the same layout; FieldInfo and MethodInfo both become this. */
  datatype MemberInfo = MemberInfo(accessFlags: bv16, nameIndex: nat, descriptorIndex: nat, attributes: seq<AttributeInfo>)

  datatype ClassFile = ClassFile(
    constantPool: seq<Slot>,
    accessFlags: bv16,
    thisClass: nat,
    superClass: nat,
    interfaces: seq<nat>,
    fields: seq<MemberInfo>,
    methods: seq<MemberInfo>,
    attributes: seq<AttributeInfo>)

  // ---- The layout, as functions of the bytes ----

  /** attribute_info: a u2 name index, a u4 length and that many bytes. */
  function AttributeAt(d: seq<byte>, p: nat): (r: (AttributeInfo, nat))
    ensures r.1 == p + 6 + |r.0.bytes|
  {
    var len := U32At(d, p + 2);
    (AttributeInfo(U16At(d, p), BytesAt(d, p + 6, len)), p + 6 + len)
  }

  /** k attributes in a row from p, and where they end. */
  function AttributesFrom(d: seq<byte>, p: nat, k: nat): (r: (seq<AttributeInfo>, nat))
    ensures |r.0| == k && r.1 >= p
    decreases k
  {
    if k == 0 then ([], p)
    else
      var (a, q) := AttributeAt(d, p);
      var (rest, end) := AttributesFrom(d, q, k - 1);
      ([a] + rest, end)
  }

  /** Reading one more attribute extends the list read so far, from where it ended. */
  lemma {:induction false} AttributesSnoc(d: seq<byte>, p: nat, k: nat)
    ensures AttributesFrom(d, p, k + 1) ==
            (AttributesFrom(d, p, k).0 + [AttributeAt(d, AttributesFrom(d, p, k).1).0],
             AttributeAt(d, AttributesFrom(d, p, k).1).1)
    decreases k
  {
    var (x, q) := AttributeAt(d, p);
    if k == 0 {
      assert AttributesFrom(d, q, 0) == ([], q);
      assert [x] + [] == [] + [x];
    } else {
      var inner := AttributesFrom(d, q, k - 1);
      assert AttributesFrom(d, p, k) == ([x] + inner.0, inner.1);
      AttributesSnoc(d, q, k - 1);
      var last := AttributeAt(d, inner.1);
      assert AttributesFrom(d, q, k) == (inner.0 + [last.0], last.1);
      assert AttributesFrom(d, p, k + 1) == ([x] + (inner.0 + [last.0]), last.1);
      assert [x] + (inner.0 + [last.0]) == ([x] + inner.0) + [last.0];
    }
  }

  /** ReadAttributes: a u2 count and that many attributes. */
  function AttributesAt(d: seq<byte>, p: nat): (r: (seq<AttributeInfo>, nat))
    ensures |r.0| == U16At(d, p)
  {
    AttributesFrom(d, p + 2, U16At(d, p))
  }

  /** field_info / method_info: access flags, name index, descriptor index, attributes. */
  function MemberAt(d: seq<byte>, p: nat): (r: (MemberInfo, nat))
    ensures r.1 >= p + 8
  {
    var (attrs, end) := AttributesAt(d, p + 6);
    (MemberInfo(U16At(d, p) as bv16, U16At(d, p + 2), U16At(d, p + 4), attrs), end)
  }

  function MembersFrom(d: seq<byte>, p: nat, k: nat): (r: (seq<MemberInfo>, nat))
    ensures |r.0| == k && r.1 >= p
    decreases k
  {
    if k == 0 then ([], p)
    else
      var (m, q) := MemberAt(d, p);
      var (rest, end) := MembersFrom(d, q, k - 1);
      ([m] + rest, end)
  }

  lemma {:induction false} MembersSnoc(d: seq<byte>, p: nat, k: nat)
    ensures MembersFrom(d, p, k + 1) ==
            (MembersFrom(d, p, k).0 + [MemberAt(d, MembersFrom(d, p, k).1).0],
             MemberAt(d, MembersFrom(d, p, k).1).1)
    decreases k
  {
    var (x, q) := MemberAt(d, p);
    if k == 0 {
      assert MembersFrom(d, q, 0) == ([], q);
      assert [x] + [] == [] + [x];
    } else {
      var inner := MembersFrom(d, q, k - 1);
      assert MembersFrom(d, p, k) == ([x] + inner.0, inner.1);
      MembersSnoc(d, q, k - 1);
      var last := MemberAt(d, inner.1);
      assert MembersFrom(d, q, k) == (inner.0 + [last.0], last.1);
      assert MembersFrom(d, p, k + 1) == ([x] + (inner.0 + [last.0]), last.1);
      assert [x] + (inner.0 + [last.0]) == ([x] + inner.0) + [last.0];
    }
  }

  /** ReadFields and ReadMethods: a u2 count and that many members. */
  function MembersAt(d: seq<byte>, p: nat): (r: (seq<MemberInfo>, nat))
    ensures |r.0| == U16At(d, p)
  {
    MembersFrom(d, p + 2, U16At(d, p))
  }

  /** n u2 words in a row from p. */
  function U16sAt(d: seq<byte>, p: nat, n: nat): (r: seq<nat>)
    ensures |r| == n
  {
    seq(n, k requires 0 <= k < n => U16At(d, p + 2 * k))
  }

  lemma U16sCons(d: seq<byte>, p: nat, n: nat)
    ensures U16sAt(d, p, n + 1) == [U16At(d, p)] + U16sAt(d, p + 2, n)
  {
    var a, b := U16sAt(d, p, n + 1), [U16At(d, p)] + U16sAt(d, p + 2, n);
    forall k | 0 <= k < n + 1 ensures a[k] == b[k] {
      if k > 0 { assert b[k] == U16sAt(d, p + 2, n)[k - 1]; assert p + 2 * k == p + 2 + 2 * (k - 1); }
    }
  }

  /** ReadInterfaces: a u2 count and that many u2 class indices. */
  function InterfacesAt(d: seq<byte>, p: nat): (r: (seq<nat>, nat))
    ensures |r.0| == U16At(d, p) && r.1 == p + 2 + 2 * |r.0|
  {
    var count := U16At(d, p);
    (U16sAt(d, p + 2, count), p + 2 + 2 * count)
  }

  /** The verdict of the magic and version checks on the first eight bytes. */
  function HeaderCheck(d: seq<byte>): (r: Outcome)
    ensures r.Pass? <==> U32At(d, 0) == MAGIC && MIN_MAJOR <= U16At(d, 6) <= MAX_MAJOR
  {
    var magic := U32At(d, 0);
    var minor, major := U16At(d, 4), U16At(d, 6);
    if magic != MAGIC then Fail(BadMagic(magic))
    else if major < MIN_MAJOR || major > MAX_MAJOR then Fail(UnsupportedVersion(major, minor))
    else Pass
  }

  /**
   * The ClassFile constructor: checks the magic number and the version, reads the
   * constant pool (which may fail on an unknown tag) and then the rest, which reads
   * past the end as 0xFF bytes and so has no failure of its own here (an attribute
   * length too large to allocate is not modelled).
   */
  function ClassFileAt(d: seq<byte>): (r: Result<ClassFile>)
    ensures r.Ok? <==> HeaderCheck(d).Pass? && PoolAt(d, 8).Ok?
    ensures HeaderCheck(d).Fail? ==> r == Err(HeaderCheck(d).error)
    ensures HeaderCheck(d).Pass? && PoolAt(d, 8).Err? ==> r == Err(PoolAt(d, 8).error)
    ensures r.Ok? ==> r.value.constantPool == PoolAt(d, 8).value.0
  {
    match HeaderCheck(d)
    case Fail(e) => Err(e)
    case Pass =>
      match PoolAt(d, 8)
      case Err(e) => Err(e)
      case Ok((pool, p)) => Ok(BodyAt(d, pool, p))
  }

  /** What follows the constant pool at p: flags, this and super, interfaces, fields, methods, attributes. */
  function BodyAt(d: seq<byte>, pool: seq<Slot>, p: nat): (cf: ClassFile)
    ensures cf.constantPool == pool && cf.thisClass == U16At(d, p + 2) && cf.superClass == U16At(d, p + 4)
  {
    var (interfaces, p1) := InterfacesAt(d, p + 6);
    var (fields, p2) := MembersAt(d, p1);
    var (methods, p3) := MembersAt(d, p2);
    var (attributes, _) := AttributesAt(d, p3);
    ClassFile(pool, U16At(d, p) as bv16, U16At(d, p + 2), U16At(d, p + 4), interfaces, fields, methods, attributes)
  }

  /** ClassFile.Name: the name of the class entry this_class points at. */
  function Name(cf: ClassFile): (r: Result<Option<string>>)
    ensures r == GetClassName(cf.constantPool, cf.thisClass)
  {
    GetClassName(cf.constantPool, cf.thisClass)
  }

  // ---- Properties of the layout ----

  /** A file that does not start with CA FE BA BE is refused with its magic number, whatever follows. */
  lemma BadMagicRefused(d: seq<byte>)
    requires ByteAt(d, 0) != 0xCA
    ensures ClassFileAt(d) == Err(BadMagic(U32At(d, 0)))
  {
    FirstByteMostSignificant(d, 0);
  }

  /** The verdict on the header depends on the first eight bytes alone. */
  lemma {:induction false} HeaderCheckLocal(d1: seq<byte>, d2: seq<byte>)
    requires forall k :: 0 <= k < 8 ==> ByteAt(d1, k) == ByteAt(d2, k)
    ensures HeaderCheck(d1) == HeaderCheck(d2)
  {
    assert ByteAt(d1, 0) == ByteAt(d2, 0) && ByteAt(d1, 1) == ByteAt(d2, 1);
    assert ByteAt(d1, 2) == ByteAt(d2, 2) && ByteAt(d1, 3) == ByteAt(d2, 3);
    assert ByteAt(d1, 4) == ByteAt(d2, 4) && ByteAt(d1, 5) == ByteAt(d2, 5);
    assert ByteAt(d1, 6) == ByteAt(d2, 6) && ByteAt(d1, 7) == ByteAt(d2, 7);
  }

  /** An empty or truncated stream reads as 0xFF bytes, so its magic is 0xFFFFFFFF. */
  lemma EmptyStreamRefused()
    ensures ClassFileAt([]) == Err(BadMagic(0xFFFF_FFFF))
  {
    PastEndReadsOnes([], 0);
  }

  // ---- Encoding, and the round trip of each part ----

  predicate AttributeEncodable(a: AttributeInfo) {
    a.nameIndex < 0x1_0000 && |a.bytes| < 0x1_0000_0000
  }

  function EncodeAttribute(a: AttributeInfo): (bs: seq<byte>)
    requires AttributeEncodable(a)
    ensures |bs| == 6 + |a.bytes|
  {
    EncodeU16(a.nameIndex) + EncodeU32(|a.bytes|) + a.bytes
  }

  function EncodeAttributeList(attrs: seq<AttributeInfo>): seq<byte>
    requires forall k :: 0 <= k < |attrs| ==> AttributeEncodable(attrs[k])
  {
    if attrs == [] then [] else EncodeAttribute(attrs[0]) + EncodeAttributeList(attrs[1..])
  }

  lemma {:induction false} AttributeRoundTrip(pre: seq<byte>, a: AttributeInfo, post: seq<byte>)
    requires AttributeEncodable(a)
    ensures AttributeAt(pre + EncodeAttribute(a) + post, |pre|) == (a, |pre| + |EncodeAttribute(a)|)
  {
    var n, len := EncodeU16(a.nameIndex), EncodeU32(|a.bytes|);
    var d := pre + EncodeAttribute(a) + post;
    assert d == pre + n + (len + a.bytes + post);
    U16RoundTrip(pre, a.nameIndex, len + a.bytes + post);
    assert d == (pre + n) + len + (a.bytes + post);
    U32RoundTrip(pre + n, |a.bytes|, a.bytes + post);
    assert d == (pre + n + len) + a.bytes + post;
    BytesAtSplice(pre + n + len, a.bytes, post);
  }

  /** k encoded attributes parse back as themselves, ending right after the last. */
  lemma {:induction false} AttributesRoundTrip(pre: seq<byte>, attrs: seq<AttributeInfo>, post: seq<byte>)
    requires forall k :: 0 <= k < |attrs| ==> AttributeEncodable(attrs[k])
    ensures AttributesFrom(pre + EncodeAttributeList(attrs) + post, |pre|, |attrs|) ==
            (attrs, |pre| + |EncodeAttributeList(attrs)|)
    decreases |attrs|
  {
    if attrs != [] {
      var a, rest := attrs[0], attrs[1..];
      forall k | 0 <= k < |rest| ensures AttributeEncodable(rest[k]) { assert rest[k] == attrs[k + 1]; }
      var enc, tail := EncodeAttribute(a), EncodeAttributeList(rest);
      assert EncodeAttributeList(attrs) == enc + tail;
      Regroup(pre, enc, tail, post);
      AttributeRoundTrip(pre, a, tail + post);
      AttributesRoundTrip(pre + enc, rest, post);
      assert attrs == [a] + rest;
    }
  }

  /** ReadAttributes reads back a counted attribute table. */
  lemma AttributeTableRoundTrip(pre: seq<byte>, attrs: seq<AttributeInfo>, post: seq<byte>)
    requires forall k :: 0 <= k < |attrs| ==> AttributeEncodable(attrs[k])
    requires |attrs| < 0x1_0000
    ensures AttributesAt(pre + EncodeU16(|attrs|) + EncodeAttributeList(attrs) + post, |pre|) ==
            (attrs, |pre| + 2 + |EncodeAttributeList(attrs)|)
  {
    var c, body := EncodeU16(|attrs|), EncodeAttributeList(attrs);
    var d := pre + c + body + post;
    assert d == pre + c + (body + post);
    U16RoundTrip(pre, |attrs|, body + post);
    AttributesRoundTrip(pre + c, attrs, post);
  }

  predicate MemberEncodable(m: MemberInfo) {
    && m.nameIndex < 0x1_0000 && m.descriptorIndex < 0x1_0000 && |m.attributes| < 0x1_0000
    && forall k :: 0 <= k < |m.attributes| ==> AttributeEncodable(m.attributes[k])
  }

  /** field_info / method_info: three u2 words, then a counted attribute table. */
  function EncodeMember(m: MemberInfo): (bs: seq<byte>)
    requires MemberEncodable(m)
    ensures |bs| >= 8
  {
    EncodeU16(m.accessFlags as nat) + EncodeU16(m.nameIndex) + EncodeU16(m.descriptorIndex)
      + (EncodeU16(|m.attributes|) + EncodeAttributeList(m.attributes))
  }

  function EncodeMemberList(ms: seq<MemberInfo>): seq<byte>
    requires forall k :: 0 <= k < |ms| ==> MemberEncodable(ms[k])
  {
    if ms == [] then [] else EncodeMember(ms[0]) + EncodeMemberList(ms[1..])
  }

  /** A member whose three words and attribute table are each in place reads as itself. */
  lemma MemberAtParts(d: seq<byte>, p: nat, m: MemberInfo, e: nat)
    requires U16At(d, p) == m.accessFlags as nat
    requires U16At(d, p + 2) == m.nameIndex && U16At(d, p + 4) == m.descriptorIndex
    requires AttributesAt(d, p + 6) == (m.attributes, e)
    ensures MemberAt(d, p) == (m, e)
  {
    assert (m.accessFlags as nat) as bv16 == m.accessFlags;
  }

  /** An encoded field_info or method_info reads back as itself, ending right after it. */
  lemma MemberRoundTrip(pre: seq<byte>, m: MemberInfo, post: seq<byte>)
    requires MemberEncodable(m)
    ensures MemberAt(pre + EncodeMember(m) + post, |pre|) == (m, |pre| + |EncodeMember(m)|)
  {
    var f, n, t := EncodeU16(m.accessFlags as nat), EncodeU16(m.nameIndex), EncodeU16(m.descriptorIndex);
    var c, body := EncodeU16(|m.attributes|), EncodeAttributeList(m.attributes);
    RegroupRecord(pre, f, n, t, c, body, post);
    U16RoundTrip(pre, m.accessFlags as nat, n + (t + (c + (body + post))));
    U16RoundTrip(pre + f, m.nameIndex, t + (c + (body + post)));
    U16RoundTrip(pre + f + n, m.descriptorIndex, c + (body + post));
    AttributeTableRoundTrip(pre + f + n + t, m.attributes, post);
    MemberAtParts(pre + EncodeMember(m) + post, |pre|, m, |pre| + |EncodeMember(m)|);
  }

  /** ms[i] is the member that MemberAt reads at ps[i], and it ends at ps[i + 1]. */
  ghost predicate MembersLaidOut(d: seq<byte>, ps: seq<nat>, ms: seq<MemberInfo>) {
    && |ps| == |ms| + 1
    && forall i {:trigger MemberAt(d, ps[i])} :: 0 <= i < |ms| ==> MemberAt(d, ps[i]) == (ms[i], ps[i + 1])
  }

  /** Members laid out one after another are what MembersFrom reads. */
  lemma {:induction false} MembersFromLaidOut(d: seq<byte>, ps: seq<nat>, ms: seq<MemberInfo>)
    requires MembersLaidOut(d, ps, ms)
    ensures MembersFrom(d, ps[0], |ms|) == (ms, ps[|ms|])
    decreases |ms|
  {
    if ms != [] {
      assert MemberAt(d, ps[0]) == (ms[0], ps[1]);
      assert MembersLaidOut(d, ps[1..], ms[1..]) by {
        forall i | 0 <= i < |ms[1..]| ensures MemberAt(d, ps[1..][i]) == (ms[1..][i], ps[1..][i + 1]) {
          assert MemberAt(d, ps[i + 1]) == (ms[i + 1], ps[i + 2]);
        }
      }
      MembersFromLaidOut(d, ps[1..], ms[1..]);
      assert ms == [ms[0]] + ms[1..];
    }
  }

  /** One member laid out from p, then a list laid out from where it ends. */
  lemma MembersLaidOutCons(d: seq<byte>, p: nat, q: nat, m: MemberInfo, ps: seq<nat>, ms: seq<MemberInfo>)
    requires MembersLaidOut(d, [p, q], [m]) && MembersLaidOut(d, ps, ms) && ps[0] == q
    ensures MembersLaidOut(d, [p] + ps, [m] + ms)
  {
    assert MemberAt(d, [p, q][0]) == ([m][0], [p, q][1]);
    forall i | 0 <= i < |[m] + ms| ensures MemberAt(d, ([p] + ps)[i]) == (([m] + ms)[i], ([p] + ps)[i + 1]) {
      if i > 0 {
        assert MemberAt(d, ps[i - 1]) == (ms[i - 1], ps[i]);
      }
    }
  }

  /** MemberRoundTrip, for the bytes from p of any byte string. */
  lemma MemberLaidOutAt(d: seq<byte>, p: nat, m: MemberInfo, r: seq<byte>)
    requires MemberEncodable(m) && p <= |d| && d[p..] == EncodeMember(m) + r
    ensures MembersLaidOut(d, [p, p + |EncodeMember(m)|], [m])
  {
    SplitAt(d, p);
    Reassociate(d[..p], EncodeMember(m), r);
    MemberRoundTrip(d[..p], m, r);
    assert MemberAt(d, [p, p + |EncodeMember(m)|][0]) == ([m][0], [p, p + |EncodeMember(m)|][1]);
  }

  lemma MembersEncodableTail(ms: seq<MemberInfo>)
    requires ms != [] && forall k :: 0 <= k < |ms| ==> MemberEncodable(ms[k])
    ensures forall k :: 0 <= k < |ms[1..]| ==> MemberEncodable(ms[1..][k])
  {
    forall k | 0 <= k < |ms[1..]| ensures MemberEncodable(ms[1..][k]) { assert ms[1..][k] == ms[k + 1]; }
  }

  /** The first member of an encoded list at p, and where the encoding of the rest begins. */
  lemma MembersHeadAt(d: seq<byte>, p: nat, ms: seq<MemberInfo>, r: seq<byte>) returns (q: nat)
    requires ms != [] && forall k :: 0 <= k < |ms| ==> MemberEncodable(ms[k])
    requires p <= |d| && d[p..] == EncodeMemberList(ms) + r
    ensures forall k :: 0 <= k < |ms[1..]| ==> MemberEncodable(ms[1..][k])
    ensures MembersLaidOut(d, [p, q], [ms[0]])
    ensures q <= |d| && d[q..] == EncodeMemberList(ms[1..]) + r
    ensures q + |EncodeMemberList(ms[1..])| == p + |EncodeMemberList(ms)|
  {
    MembersEncodableTail(ms);
    var enc, tail := EncodeMember(ms[0]), EncodeMemberList(ms[1..]);
    SuffixAfter(d, p, enc, tail, r);
    MemberLaidOutAt(d, p, ms[0], tail + r);
    q := p + |enc|;
  }

  /** An encoded member list at p is laid out member by member, ending right after the last. */
  lemma {:induction false} MembersLaidOutAt(d: seq<byte>, p: nat, ms: seq<MemberInfo>, r: seq<byte>)
      returns (ps: seq<nat>)
    requires forall k :: 0 <= k < |ms| ==> MemberEncodable(ms[k])
    requires p <= |d| && d[p..] == EncodeMemberList(ms) + r
    ensures MembersLaidOut(d, ps, ms) && ps[0] == p && ps[|ms|] == p + |EncodeMemberList(ms)|
    decreases |ms|
  {
    if ms == [] {
      ps := [p];
    } else {
      var q := MembersHeadAt(d, p, ms, r);
      var rest := MembersLaidOutAt(d, q, ms[1..], r);
      MembersLaidOutCons(d, p, q, ms[0], rest, ms[1..]);
      assert [ms[0]] + ms[1..] == ms;
      ps := [p] + rest;
    }
  }

  /** k encoded members parse back as themselves, ending right after the last. */
  lemma MembersRoundTrip(pre: seq<byte>, ms: seq<MemberInfo>, post: seq<byte>)
    requires forall k :: 0 <= k < |ms| ==> MemberEncodable(ms[k])
    ensures MembersFrom(pre + EncodeMemberList(ms) + post, |pre|, |ms|) == (ms, |pre| + |EncodeMemberList(ms)|)
  {
    var d := pre + EncodeMemberList(ms) + post;
    DropPrefix(pre, EncodeMemberList(ms), post);
    var ps := MembersLaidOutAt(d, |pre|, ms, post);
    MembersFromLaidOut(d, ps, ms);
  }

  /** ReadFields and ReadMethods read back a counted member table. */
  lemma MemberTableRoundTrip(pre: seq<byte>, ms: seq<MemberInfo>, post: seq<byte>)
    requires forall k :: 0 <= k < |ms| ==> MemberEncodable(ms[k])
    requires |ms| < 0x1_0000
    ensures MembersAt(pre + EncodeU16(|ms|) + EncodeMemberList(ms) + post, |pre|) ==
            (ms, |pre| + 2 + |EncodeMemberList(ms)|)
  {
    var c, body := EncodeU16(|ms|), EncodeMemberList(ms);
    var d := pre + c + body + post;
    assert d == pre + c + (body + post);
    U16RoundTrip(pre, |ms|, body + post);
    MembersRoundTrip(pre + c, ms, post);
  }

  /** A list of u2 values, as the interfaces table lays out its class indices. */
  function EncodeU16List(xs: seq<nat>): (bs: seq<byte>)
    requires forall k :: 0 <= k < |xs| ==> xs[k] < 0x1_0000
    ensures |bs| == 2 * |xs|
  {
    if xs == [] then [] else EncodeU16(xs[0]) + EncodeU16List(xs[1..])
  }

  lemma {:induction false} U16ListRoundTrip(pre: seq<byte>, xs: seq<nat>, post: seq<byte>)
    requires forall k :: 0 <= k < |xs| ==> xs[k] < 0x1_0000
    ensures U16sAt(pre + EncodeU16List(xs) + post, |pre|, |xs|) == xs
    decreases |xs|
  {
    if xs != [] {
      var rest := xs[1..];
      var w := EncodeU16(xs[0]);
      var d := pre + EncodeU16List(xs) + post;
      assert EncodeU16List(xs) == w + EncodeU16List(rest);
      assert U16At(d, |pre|) == xs[0] by {
        Regroup(pre, w, EncodeU16List(rest), post);
        U16RoundTrip(pre, xs[0], EncodeU16List(rest) + post);
      }
      assert U16sAt(d, |pre| + 2, |rest|) == rest by {
        Regroup(pre, w, EncodeU16List(rest), post);
        U16ListRoundTrip(pre + w, rest, post);
      }
      U16sCons(d, |pre|, |rest|);
      assert xs == [xs[0]] + rest;
    }
  }

  lemma InterfacesAtCount(d: seq<byte>, p: nat, n: nat)
    requires U16At(d, p) == n
    ensures InterfacesAt(d, p) == (U16sAt(d, p + 2, n), p + 2 + 2 * n)
  {
  }

  /** ReadInterfaces reads back a counted list of class indices. */
  lemma {:induction false} InterfaceTableRoundTrip(pre: seq<byte>, xs: seq<nat>, post: seq<byte>)
    requires forall k :: 0 <= k < |xs| ==> xs[k] < 0x1_0000
    requires |xs| < 0x1_0000
    ensures InterfacesAt(pre + EncodeU16(|xs|) + EncodeU16List(xs) + post, |pre|) == (xs, |pre| + 2 + 2 * |xs|)
  {
    var c, body := EncodeU16(|xs|), EncodeU16List(xs);
    var d := pre + c + body + post;
    assert d == pre + c + (body + post);
    U16RoundTrip(pre, |xs|, body + post);
    U16ListRoundTrip(pre + c, xs, post);
    InterfacesAtCount(d, |pre|, |xs|);
  }

  // ---- The reader itself ----

  /** One attribute_info: the body of the loop in ReadAttributes. */
  method ReadAttribute(r: Reader) returns (a: AttributeInfo)
    modifies r
    ensures AttributeAt(r.data, old(r.pos)) == (a, r.pos)
  {
    var nameIndex := r.ReadUInt16();
    var length := r.ReadUInt32();
    var bytes := r.ReadBytes(length);
    a := AttributeInfo(nameIndex, bytes);
  }

  /** ReadAttributes, in place on the stream. */
  method ReadAttributes(r: Reader) returns (attrs: seq<AttributeInfo>)
    modifies r
    ensures AttributesAt(r.data, old(r.pos)) == (attrs, r.pos)
  {
    ghost var d, p0 := r.data, r.pos;
    var count := r.ReadUInt16();
    var table := new AttributeInfo[count](_ => AttributeInfo(0, []));
    if count == 0 {
      return table[..];
    }
    var i := 0;
    while i < count
      invariant r.data == d && 0 <= i <= count
      invariant AttributesFrom(d, p0 + 2, i) == (table[..i], r.pos)
    {
      AttributesSnoc(d, p0 + 2, i);
      var a := ReadAttribute(r);
      table[i] := a;
      assert table[..i + 1] == table[..i] + [a];
      i := i + 1;
    }
    attrs := table[..];
    assert table[..i] == attrs;
  }

  /** One field_info or method_info. */
  method ReadMember(r: Reader) returns (m: MemberInfo)
    modifies r
    ensures MemberAt(r.data, old(r.pos)) == (m, r.pos)
  {
    var flags := r.ReadUInt16();
    var nameIndex := r.ReadUInt16();
    var descriptorIndex := r.ReadUInt16();
    var attrs := ReadAttributes(r);
    m := MemberInfo(flags as bv16, nameIndex, descriptorIndex, attrs);
  }

  /** ReadFields and ReadMethods, which share one layout. */
  method ReadMembers(r: Reader) returns (members: seq<MemberInfo>)
    modifies r
    ensures MembersAt(r.data, old(r.pos)) == (members, r.pos)
  {
    ghost var d, p0 := r.data, r.pos;
    var count := r.ReadUInt16();
    var table := new MemberInfo[count](_ => MemberInfo(0, 0, 0, []));
    if count == 0 {
      return table[..];
    }
    var i := 0;
    while i < count
      invariant r.data == d && 0 <= i <= count
      invariant MembersFrom(d, p0 + 2, i) == (table[..i], r.pos)
    {
      MembersSnoc(d, p0 + 2, i);
      var m := ReadMember(r);
      table[i] := m;
      assert table[..i + 1] == table[..i] + [m];
      i := i + 1;
    }
    members := table[..];
    assert table[..i] == members;
  }

  method ReadInterfaces(r: Reader) returns (interfaces: seq<nat>)
    modifies r
    ensures InterfacesAt(r.data, old(r.pos)) == (interfaces, r.pos)
  {
    ghost var d, p0 := r.data, r.pos;
    var count := r.ReadUInt16();
    var table := new nat[count];
    if count == 0 {
      return table[..];
    }
    var i := 0;
    while i < count
      invariant r.data == d && 0 <= i <= count && r.pos == p0 + 2 + 2 * i
      invariant forall k :: 0 <= k < i ==> table[k] == U16At(d, p0 + 2 + 2 * k)
    {
      table[i] := r.ReadUInt16();
      i := i + 1;
    }
    interfaces := table[..];
    assert interfaces == U16sAt(d, p0 + 2, count);
  }

  /** The ClassFile constructor over a stream holding the given bytes. */
  method ReadClassFile(data: seq<byte>) returns (res: Result<ClassFile>)
    ensures res == ClassFileAt(data)
  {
    var r := new Reader(data);
    var magic := r.ReadUInt32();
    if magic != MAGIC {
      return Err(BadMagic(magic));
    }
    var minorVersion := r.ReadUInt16();
    var majorVersion := r.ReadUInt16();
    if majorVersion < MIN_MAJOR || majorVersion > MAX_MAJOR {
      return Err(UnsupportedVersion(majorVersion, minorVersion));
    }
    var pool := ReadConstantPool(r);
    if pool.Err? {
      return Err(pool.error);
    }
    var cf := ReadBody(r, pool.value);
    res := Ok(cf);
  }

  /** The body read part by part is the body at p. */
  lemma BodyParts(d: seq<byte>, pool: seq<Slot>, p: nat, interfaces: seq<nat>, p1: nat, fields: seq<MemberInfo>, p2: nat,
                  methods: seq<MemberInfo>, p3: nat, attributes: seq<AttributeInfo>)
    requires InterfacesAt(d, p + 6) == (interfaces, p1) && MembersAt(d, p1) == (fields, p2)
    requires MembersAt(d, p2) == (methods, p3) && AttributesAt(d, p3).0 == attributes
    ensures BodyAt(d, pool, p) == ClassFile(pool, U16At(d, p) as bv16, U16At(d, p + 2), U16At(d, p + 4), interfaces, fields, methods, attributes)
  {
  }

  /** The fields of the ClassFile constructor after the constant pool. */
  method ReadBody(r: Reader, pool: seq<Slot>) returns (cf: ClassFile)
    modifies r
    ensures cf == BodyAt(r.data, pool, old(r.pos))
  {
    ghost var p := r.pos;
    var accessFlags := r.ReadUInt16();
    var thisClass := r.ReadUInt16();
    var superClass := r.ReadUInt16();
    var interfaces := ReadInterfaces(r);
    ghost var p1 := r.pos;
    var fields := ReadMembers(r);
    ghost var p2 := r.pos;
    var methods := ReadMembers(r);
    ghost var p3 := r.pos;
    var attributes := ReadAttributes(r);
    BodyParts(r.data, pool, p, interfaces, p1, fields, p2, methods, p3, attributes);
    cf := ClassFile(pool, accessFlags as bv16, thisClass, superClass, interfaces, fields, methods, attributes);
  }
}
