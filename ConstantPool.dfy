/**
 * The constant pool of a class file (section 4.4 of The Java Virtual Machine
 * Specification): a table indexed from 1 whose count is one more than the number of
 * slots it holds. A CONSTANT_Long or CONSTANT_Double entry takes two slots (section
 * 4.4.5): the slot after it stays empty and the next tag is read into the slot after that.
 */
module ConstantPool {
  import opened Failures
  import opened BigEndian
  import opened BinaryReader

  // The tag byte of each entry kind.
  const CONSTANT_Utf8: byte := 1
  const CONSTANT_Integer: byte := 3
  const CONSTANT_Float: byte := 4
  const CONSTANT_Long: byte := 5
  const CONSTANT_Double: byte := 6
  const CONSTANT_Class: byte := 7
  const CONSTANT_String: byte := 8
  const CONSTANT_Fieldref: byte := 9
  const CONSTANT_Methodref: byte := 10
  const CONSTANT_InterfaceMethodref: byte := 11
  const CONSTANT_NameAndType: byte := 12

  /**
   * One entry, holding only the fields of its kind. Float keeps its raw IEEE bits;
   * Long and Double keep their two words (high word first) rather than a number.
   */
  datatype CpEntry =
    | ClassRef(nameIndex: nat)
    | Fieldref(classIndex: nat, nameAndTypeIndex: nat)
    | Methodref(classIndex: nat, nameAndTypeIndex: nat)
    | InterfaceMethodref(classIndex: nat, nameAndTypeIndex: nat)
    | StringRef(stringIndex: nat)
    | IntegerConst(value: int)
    | FloatConst(bits: nat)
    | LongConst(highBytes: nat, lowBytes: nat)
    | DoubleConst(highBytes: nat, lowBytes: nat)
    | NameAndType(nameIndex: nat, descriptorIndex: nat)
    | Utf8(text: string)

  /** An empty slot (the C# null) is None. */
  type Slot = Option<CpEntry>

  function TagOf(e: CpEntry): byte {
    match e
    case ClassRef(_) => CONSTANT_Class
    case Fieldref(_, _) => CONSTANT_Fieldref
    case Methodref(_, _) => CONSTANT_Methodref
    case InterfaceMethodref(_, _) => CONSTANT_InterfaceMethodref
    case StringRef(_) => CONSTANT_String
    case IntegerConst(_) => CONSTANT_Integer
    case FloatConst(_) => CONSTANT_Float
    case LongConst(_, _) => CONSTANT_Long
    case DoubleConst(_, _) => CONSTANT_Double
    case NameAndType(_, _) => CONSTANT_NameAndType
    case Utf8(_) => CONSTANT_Utf8
  }

  predicate IsKnownTag(t: byte) {
    t in {CONSTANT_Utf8, CONSTANT_Integer, CONSTANT_Float, CONSTANT_Long, CONSTANT_Double, CONSTANT_Class,
          CONSTANT_String, CONSTANT_Fieldref, CONSTANT_Methodref, CONSTANT_InterfaceMethodref, CONSTANT_NameAndType}
  }

  /** An 8-byte constant, which takes two slots. */
  predicate IsWide(e: CpEntry) {
    e.LongConst? || e.DoubleConst?
  }

  /** How many slots an entry takes. */
  function SlotWidth(e: CpEntry): nat {
    if IsWide(e) then 2 else 1
  }

  /**
   * The entry whose tag is at p and where the next one starts. Indices are u2 words,
   * Integer is a signed u4, Float a u4 of raw bits, Long and Double two u4 words,
   * Utf8 a u2 length and that many bytes decoded as ASCII. An unknown tag is an error.
   */
  function EntryAt(d: seq<byte>, p: nat): (r: Result<(CpEntry, nat)>)
    ensures r.Err? <==> !IsKnownTag(ByteAt(d, p))
    ensures r.Err? ==> r.error == WrongConstantType(ByteAt(d, p) as int)
    ensures r.Ok? ==> TagOf(r.value.0) == ByteAt(d, p) && r.value.1 > p
  {
    var tag, q := ByteAt(d, p), p + 1;
    if tag == CONSTANT_Class then Ok((ClassRef(U16At(d, q)), q + 2))
    else if tag == CONSTANT_Fieldref then Ok((Fieldref(U16At(d, q), U16At(d, q + 2)), q + 4))
    else if tag == CONSTANT_Methodref then Ok((Methodref(U16At(d, q), U16At(d, q + 2)), q + 4))
    else if tag == CONSTANT_InterfaceMethodref then Ok((InterfaceMethodref(U16At(d, q), U16At(d, q + 2)), q + 4))
    else if tag == CONSTANT_String then Ok((StringRef(U16At(d, q)), q + 2))
    else if tag == CONSTANT_Integer then Ok((IntegerConst(I32At(d, q)), q + 4))
    else if tag == CONSTANT_Float then Ok((FloatConst(U32At(d, q)), q + 4))
    else if tag == CONSTANT_Long then Ok((LongConst(U32At(d, q), U32At(d, q + 4)), q + 8))
    else if tag == CONSTANT_Double then Ok((DoubleConst(U32At(d, q), U32At(d, q + 4)), q + 8))
    else if tag == CONSTANT_NameAndType then Ok((NameAndType(U16At(d, q), U16At(d, q + 2)), q + 4))
    else if tag == CONSTANT_Utf8 then
      var n := U16At(d, q);
      Ok((Utf8(AsciiDecode(BytesAt(d, q + 2, n))), q + 2 + n))
    else Err(WrongConstantType(tag as int))
  }

  /** The slot index that follows an entry at slot i: one more, or two more for a wide entry. */
  function NextSlot(i: nat, wide: bool): (j: nat)
    ensures j > i
  {
    if wide then i + 2 else i + 1
  }

  /** Adds slots in front of a parse result. */
  function Prepend(prefix: seq<Slot>, r: Result<(seq<Slot>, nat)>): Result<(seq<Slot>, nat)> {
    match r
    case Ok((s, q)) => Ok((prefix + s, q))
    case Err(e) => Err(e)
  }

  /**
   * Slots as the parser fills them: the first holds an entry, and a slot is empty
   * exactly when the one before it holds a Long or Double.
   */
  predicate WellSpaced(s: seq<Slot>) {
    (|s| > 0 ==> s[0].Some?) &&
    forall j :: 0 < j < |s| ==> (s[j].None? <==> s[j - 1].Some? && IsWide(s[j - 1].value))
  }

  /**
   * Slots i .. count-1 of the pool, read from position p, and the position after them.
   * The slot after a wide entry stays empty; every other slot holds the entry read
   * into it, in stream order.
   */
  function SlotsFrom(d: seq<byte>, p: nat, i: nat, count: nat): (r: Result<(seq<Slot>, nat)>)
    decreases count - i
    ensures r.Ok? ==> |r.value.0| == (if i < count then count - i else 0)
    ensures r.Ok? ==> WellSpaced(r.value.0)
  {
    if i >= count then Ok(([], p))
    else match EntryAt(d, p)
      case Err(e) => Err(e)
      case Ok((e, q)) =>
        var gap := if IsWide(e) && i + 1 < count then [None] else [];
        Prepend([Some(e)] + gap, SlotsFrom(d, q, NextSlot(i, IsWide(e)), count))
  }

  /**
   * ReadConstantPool: a u2 count, then slots 1 .. count-1; slot 0 is never written.
   * A count of 0 gives an empty table (no slot 0 at all).
   */
  function PoolAt(d: seq<byte>, p: nat): (r: Result<(seq<Slot>, nat)>) {
    var count := U16At(d, p);
    if count == 0 then Ok(([], p + 2))
    else Prepend([None], SlotsFrom(d, p + 2, 1, count))
  }

  /** The shape of every pool the parser accepts. */
  lemma PoolShape(d: seq<byte>, p: nat)
    requires PoolAt(d, p).Ok?
    ensures var pool := PoolAt(d, p).value.0;
      |pool| == U16At(d, p) &&
      (|pool| > 0 ==> pool[0].None?) &&
      (|pool| > 1 ==> pool[1].Some?) &&
      forall j :: 1 < j < |pool| ==> (pool[j].None? <==> pool[j - 1].Some? && IsWide(pool[j - 1].value))
  {
    var count := U16At(d, p);
    if count > 0 {
      var slots := SlotsFrom(d, p + 2, 1, count).value.0;
      var pool := PoolAt(d, p).value.0;
      assert pool == [None] + slots;
      assert WellSpaced(slots);
      forall j | 1 < j < |pool|
        ensures pool[j].None? <==> pool[j - 1].Some? && IsWide(pool[j - 1].value)
      {
        assert pool[j] == slots[j - 1] && pool[j - 1] == slots[j - 2];
      }
    }
  }

  // ---- Slot accounting ----

  function CountEmpty(s: seq<Slot>): nat {
    if s == [] then 0 else (if s[0].None? then 1 else 0) + CountEmpty(s[1..])
  }

  function CountWide(s: seq<Slot>): nat {
    if s == [] then 0 else (if s[0].Some? && IsWide(s[0].value) then 1 else 0) + CountWide(s[1..])
  }

  predicate EndsWide(s: seq<Slot>) {
    |s| > 0 && s[|s| - 1].Some? && IsWide(s[|s| - 1].value)
  }

  /**
   * Every empty slot follows a wide entry and every wide entry but a last one is followed
   * by an empty slot, so the k wide entries of a pool cost exactly k extra slots (k - 1
   * when the last slot holds a wide entry, whose second slot lies past the table).
   */
  lemma {:induction false} SlotAccounting(s: seq<Slot>)
    requires WellSpaced(s)
    ensures CountEmpty(s) + (if EndsWide(s) then 1 else 0) == CountWide(s)
  {
    if |s| > 1 {
      var t := s[1..];
      forall j | 0 < j < |t| ensures t[j].None? <==> t[j - 1].Some? && IsWide(t[j - 1].value) {
        assert t[j] == s[j + 1] && t[j - 1] == s[j];
      }
      if t[0].None? {
        // s[0] is wide; the empty s[1] is not counted as wide, and s[2..] starts with an entry
        var u := s[2..];
        forall j | 0 < j < |u| ensures u[j].None? <==> u[j - 1].Some? && IsWide(u[j - 1].value) {
          assert u[j] == s[j + 2] && u[j - 1] == s[j + 1];
        }
        if |u| > 0 {
          assert u[0] == s[2];
          assert s[2].Some?;
        }
        SlotAccounting(u);
        assert t[1..] == u;
        assert EndsWide(s) == EndsWide(u);
      } else {
        SlotAccounting(t);
        assert EndsWide(s) == EndsWide(t);
      }
    }
  }

  /** The accounting, for a parsed pool: entries plus wide entries fill count - 1 slots, or count when the last is wide. */
  lemma PoolSlotAccounting(d: seq<byte>, p: nat)
    requires PoolAt(d, p).Ok? && U16At(d, p) > 0
    ensures var slots := PoolAt(d, p).value.0[1..];
      CountEmpty(slots) + (if EndsWide(slots) then 1 else 0) == CountWide(slots)
  {
    PoolShape(d, p);
    var pool := PoolAt(d, p).value.0;
    var slots := pool[1..];
    forall j | 0 < j < |slots| ensures slots[j].None? <==> slots[j - 1].Some? && IsWide(slots[j - 1].value) {
      assert slots[j] == pool[j + 1] && slots[j - 1] == pool[j];
    }
    SlotAccounting(slots);
  }

  // ---- Lookups (ClassFile.GetUtf8 and ClassFile.GetClassName) ----

  /**
   * GetUtf8: the text of a Utf8 entry. An index past the table throws, an empty slot is
   * a null dereference, and any other kind of entry is a format error.
   */
  function GetUtf8(pool: seq<Slot>, index: nat): (r: Result<string>)
    ensures r.Ok? <==> index < |pool| && pool[index].Some? && pool[index].value.Utf8?
    ensures r.Ok? ==> r.value == pool[index].value.text
  {
    if index >= |pool| then Err(IndexOutOfRange)
    else match pool[index]
      case None => Err(NullReference)
      case Some(Utf8(s)) => Ok(s)
      case Some(_) => Err(WrongClassFormat)
  }

  /**
   * GetClassName: the name a Class entry points at. An empty slot gives no name (the
   * superclass of java/lang/Object); an entry of another kind is a format error.
   */
  function GetClassName(pool: seq<Slot>, index: nat): (r: Result<Option<string>>)
    ensures r == Ok(None) <==> index < |pool| && pool[index].None?
    ensures r.Ok? && r.value.Some? <==>
      index < |pool| && pool[index].Some? && pool[index].value.ClassRef? && GetUtf8(pool, pool[index].value.nameIndex).Ok?
    ensures r.Ok? && r.value.Some? ==> r.value.value == GetUtf8(pool, pool[index].value.nameIndex).value
  {
    if index >= |pool| then Err(IndexOutOfRange)
    else match pool[index]
      case None => Ok(None)
      case Some(ClassRef(n)) =>
        (match GetUtf8(pool, n) case Ok(s) => Ok(Some(s)) case Err(e) => Err(e))
      case Some(_) => Err(WrongClassFormat)
  }

  /**
   * The unusable slot after a wide entry: naming a class through it gives no name at
   * all (as for java/lang/Object's superclass), and reading text from it dereferences null.
   */
  lemma ReservedSlotLookups(d: seq<byte>, p: nat, n: nat)
    requires PoolAt(d, p).Ok?
    requires var pool := PoolAt(d, p).value.0;
      1 <= n && n + 1 < |pool| && pool[n].Some? && IsWide(pool[n].value)
    ensures var pool := PoolAt(d, p).value.0;
      GetClassName(pool, n + 1) == Ok(None) && GetUtf8(pool, n + 1) == Err(NullReference)
  {
    PoolShape(d, p);
  }

  // ---- The value of an 8-byte constant ----

  /** The signed 64-bit value of a Long (or the raw bits of a Double), high word first. */
  function Bits64(e: CpEntry): (v: int)
    requires e.LongConst? || e.DoubleConst?
    requires e.highBytes < 0x1_0000_0000 && e.lowBytes < 0x1_0000_0000
    ensures -0x8000_0000_0000_0000 <= v < 0x8000_0000_0000_0000
    ensures v >= 0 <==> e.highBytes < 0x8000_0000
  {
    var u := e.highBytes * 0x1_0000_0000 + e.lowBytes;
    if u < 0x8000_0000_0000_0000 then u else u - 0x1_0000_0000_0000_0000
  }

  /** The value ReadInt64 stores for the same entry: the sum of its two words. */
  function Bits64AsWritten(e: CpEntry): (v: int)
    requires e.LongConst? || e.DoubleConst?
    requires e.highBytes < 0x1_0000_0000 && e.lowBytes < 0x1_0000_0000
    ensures 0 <= v < 0x2_0000_0000
  {
    e.highBytes % 0x1_0000_0000 + e.lowBytes
  }

  /**
   * The words of a parsed 8-byte entry are the ones in the stream: Bits64 is the
   * standard reading of them and Bits64AsWritten is what ReadInt64 computes.
   */
  lemma EightByteEntryValue(d: seq<byte>, p: nat)
    requires EntryAt(d, p).Ok? && (EntryAt(d, p).value.0.LongConst? || EntryAt(d, p).value.0.DoubleConst?)
    ensures var e := EntryAt(d, p).value.0;
      e.highBytes < 0x1_0000_0000 && e.lowBytes < 0x1_0000_0000 &&
      Bits64(e) == Int64At(d, p + 1) && Bits64AsWritten(e) == Int64AsWritten(d, p + 1)
  {
  }

  // ---- Encoding: what a class-file writer emits for an entry ----

  function AsciiEncode(s: string): (bs: seq<byte>)
    requires forall i :: 0 <= i < |s| ==> s[i] as int < 0x80
    ensures |bs| == |s|
  {
    seq(|s|, i requires 0 <= i < |s| => (s[i] as int) as byte)
  }

  lemma AsciiRoundTrip(s: string)
    requires forall i :: 0 <= i < |s| ==> s[i] as int < 0x80
    ensures AsciiDecode(AsciiEncode(s)) == s
  {
    var bs := AsciiEncode(s);
    forall i | 0 <= i < |s| ensures AsciiDecode(bs)[i] == s[i] {
      assert bs[i] as int == s[i] as int;
    }
  }

  /** Entries whose fields fit their u2/u4 layout, with 7-bit text. */
  predicate Encodable(e: CpEntry) {
    match e
    case ClassRef(n) => n < 0x1_0000
    case Fieldref(c, nt) => c < 0x1_0000 && nt < 0x1_0000
    case Methodref(c, nt) => c < 0x1_0000 && nt < 0x1_0000
    case InterfaceMethodref(c, nt) => c < 0x1_0000 && nt < 0x1_0000
    case StringRef(n) => n < 0x1_0000
    case IntegerConst(v) => -0x8000_0000 <= v < 0x8000_0000
    case FloatConst(b) => b < 0x1_0000_0000
    case LongConst(h, l) => h < 0x1_0000_0000 && l < 0x1_0000_0000
    case DoubleConst(h, l) => h < 0x1_0000_0000 && l < 0x1_0000_0000
    case NameAndType(n, t) => n < 0x1_0000 && t < 0x1_0000
    case Utf8(s) => |s| < 0x1_0000 && forall i :: 0 <= i < |s| ==> s[i] as int < 0x80
  }

  function EncodeEntry(e: CpEntry): (bs: seq<byte>)
    requires Encodable(e)
    ensures |bs| > 0 && bs[0] == TagOf(e)
  {
    [TagOf(e)] +
    match e
    case ClassRef(n) => EncodeU16(n)
    case Fieldref(c, nt) => EncodeU16(c) + EncodeU16(nt)
    case Methodref(c, nt) => EncodeU16(c) + EncodeU16(nt)
    case InterfaceMethodref(c, nt) => EncodeU16(c) + EncodeU16(nt)
    case StringRef(n) => EncodeU16(n)
    case IntegerConst(v) => EncodeI32(v)
    case FloatConst(b) => EncodeU32(b)
    case LongConst(h, l) => EncodeU32(h) + EncodeU32(l)
    case DoubleConst(h, l) => EncodeU32(h) + EncodeU32(l)
    case NameAndType(n, t) => EncodeU16(n) + EncodeU16(t)
    case Utf8(s) => EncodeU16(|s|) + AsciiEncode(s)
  }

  /** Two encoded words read back, wherever they sit. */
  lemma TwoU16RoundTrip(pre: seq<byte>, a: nat, b: nat, post: seq<byte>)
    requires a < 0x1_0000 && b < 0x1_0000
    ensures U16At(pre + (EncodeU16(a) + EncodeU16(b)) + post, |pre|) == a
    ensures U16At(pre + (EncodeU16(a) + EncodeU16(b)) + post, |pre| + 2) == b
  {
    var ea, eb := EncodeU16(a), EncodeU16(b);
    assert pre + (ea + eb) + post == pre + ea + (eb + post);
    assert pre + (ea + eb) + post == (pre + ea) + eb + post;
    U16RoundTrip(pre, a, eb + post);
    U16RoundTrip(pre + ea, b, post);
  }

  lemma TwoU32RoundTrip(pre: seq<byte>, a: nat, b: nat, post: seq<byte>)
    requires a < 0x1_0000_0000 && b < 0x1_0000_0000
    ensures U32At(pre + (EncodeU32(a) + EncodeU32(b)) + post, |pre|) == a
    ensures U32At(pre + (EncodeU32(a) + EncodeU32(b)) + post, |pre| + 4) == b
  {
    var ea, eb := EncodeU32(a), EncodeU32(b);
    assert pre + (ea + eb) + post == pre + ea + (eb + post);
    assert pre + (ea + eb) + post == (pre + ea) + eb + post;
    U32RoundTrip(pre, a, eb + post);
    U32RoundTrip(pre + ea, b, post);
  }

  lemma BytesAtSplice(pre: seq<byte>, mid: seq<byte>, post: seq<byte>)
    ensures BytesAt(pre + mid + post, |pre|, |mid|) == mid
  {
    forall k | 0 <= k < |mid| ensures BytesAt(pre + mid + post, |pre|, |mid|)[k] == mid[k] {
      ByteAtSplice(pre, mid, post, k);
    }
  }

  /** Parsing an encoded entry gives back the entry, tag, indices and literal alike, and stops right after it. */
  lemma {:induction false} EntryRoundTrip(pre: seq<byte>, e: CpEntry, post: seq<byte>)
    requires Encodable(e)
    ensures EntryAt(pre + EncodeEntry(e) + post, |pre|) == Ok((e, |pre| + |EncodeEntry(e)|))
  {
    var body := EncodeEntry(e)[1..];
    var pre' := pre + [TagOf(e)];
    assert pre + EncodeEntry(e) + post == pre' + body + post;
    ByteAtSplice(pre, EncodeEntry(e), post, 0);
    var d := pre' + body + post;
    var q := |pre'|;
    match e
    case ClassRef(n) => U16RoundTrip(pre', n, post);
    case Fieldref(c, nt) => TwoU16RoundTrip(pre', c, nt, post);
    case Methodref(c, nt) => TwoU16RoundTrip(pre', c, nt, post);
    case InterfaceMethodref(c, nt) => TwoU16RoundTrip(pre', c, nt, post);
    case StringRef(n) => U16RoundTrip(pre', n, post);
    case IntegerConst(v) => I32RoundTrip(pre', v, post);
    case FloatConst(b) => U32RoundTrip(pre', b, post);
    case LongConst(h, l) => TwoU32RoundTrip(pre', h, l, post);
    case DoubleConst(h, l) => TwoU32RoundTrip(pre', h, l, post);
    case NameAndType(n, t) => TwoU16RoundTrip(pre', n, t, post);
    case Utf8(s) =>
      var len, text := EncodeU16(|s|), AsciiEncode(s);
      assert d == pre' + len + (text + post);
      U16RoundTrip(pre', |s|, text + post);
      assert d == (pre' + len) + text + post;
      BytesAtSplice(pre' + len, text, post);
      AsciiRoundTrip(s);
  }

  // ---- The pool as a whole: layout of an entry list and its encoding ----

  /** Where a list of entries lands in n slots: each entry in the next free slot, an empty slot after each wide one. */
  function Layout(entries: seq<CpEntry>, n: nat): seq<Slot>
    decreases |entries|
  {
    if entries == [] || n == 0 then []
    else
      var e := entries[0];
      var gap := if IsWide(e) && n > 1 then [None] else [];
      var rest := if n >= SlotWidth(e) then n - SlotWidth(e) else 0;
      [Some(e)] + gap + Layout(entries[1..], rest)
  }

  /** The entries exactly fill n slots (a last wide entry may end one past them). */
  predicate Fits(entries: seq<CpEntry>, n: nat)
    decreases |entries|
  {
    if entries == [] then n == 0
    else n > 0 && (if SlotWidth(entries[0]) > n then entries[1..] == [] else Fits(entries[1..], n - SlotWidth(entries[0])))
  }

  /** The entries of a pool, in slot order. */
  function Entries(slots: seq<Slot>): seq<CpEntry> {
    if slots == [] then [] else (if slots[0].Some? then [slots[0].value] else []) + Entries(slots[1..])
  }

  function EncodeAll(entries: seq<CpEntry>): seq<byte>
    requires forall k :: 0 <= k < |entries| ==> Encodable(entries[k])
  {
    if entries == [] then [] else EncodeEntry(entries[0]) + EncodeAll(entries[1..])
  }

  /** A laid-out list of entries gives back exactly those entries, in order. */
  lemma {:induction false} LayoutKeepsOrder(entries: seq<CpEntry>, n: nat)
    requires Fits(entries, n)
    ensures Entries(Layout(entries, n)) == entries
    decreases |entries|
  {
    if entries != [] {
      var e := entries[0];
      var gap: seq<Slot> := if IsWide(e) && n > 1 then [None] else [];
      var rest := if n >= SlotWidth(e) then n - SlotWidth(e) else 0;
      var tail := Layout(entries[1..], rest);
      LayoutKeepsOrder(entries[1..], rest);
      var s := [Some(e)] + gap + tail;
      assert s[1..] == gap + tail;
      if gap != [] {
        assert (gap + tail)[1..] == tail;
      } else {
        assert gap + tail == tail;
      }
    }
  }

  lemma PrependAssoc(a: seq<Slot>, b: seq<Slot>, r: Result<(seq<Slot>, nat)>)
    ensures Prepend(a, Prepend(b, r)) == Prepend(a + b, r)
  {
    if r.Ok? {
      assert a + (b + r.value.0) == a + b + r.value.0;
    }
  }

  lemma SlotsFromUnfold(d: seq<byte>, p: nat, i: nat, count: nat, e: CpEntry, q: nat)
    requires i < count && EntryAt(d, p) == Ok((e, q))
    ensures SlotsFrom(d, p, i, count) ==
            Prepend([Some(e)] + (if IsWide(e) && i + 1 < count then [None] else []), SlotsFrom(d, q, NextSlot(i, IsWide(e)), count))
  {
  }

  /** The loop of ReadConstantPool takes one step: the entry read joins the slots read so far. */
  lemma PoolStep(d: seq<byte>, start: nat, count: nat, acc: seq<Slot>, p: nat, i: nat, e: CpEntry, q: nat)
    requires i < count && EntryAt(d, p) == Ok((e, q))
    requires SlotsFrom(d, start, 1, count) == Prepend(acc, SlotsFrom(d, p, i, count))
    ensures SlotsFrom(d, start, 1, count) ==
            Prepend(acc + ([Some(e)] + (if IsWide(e) && i + 1 < count then [None] else [])), SlotsFrom(d, q, NextSlot(i, IsWide(e)), count))
  {
    var gap: seq<Slot> := if IsWide(e) && i + 1 < count then [None] else [];
    SlotsFromUnfold(d, p, i, count, e, q);
    PrependAssoc(acc, [Some(e)] + gap, SlotsFrom(d, q, NextSlot(i, IsWide(e)), count));
  }

  /** One step of SlotsFrom when the entry at p is the given one and the slots after it are known. */
  lemma SlotsFromStep(d: seq<byte>, p: nat, i: nat, count: nat, e: CpEntry, q: nat, later: seq<Slot>, end: nat)
    requires i < count && EntryAt(d, p) == Ok((e, q))
    requires SlotsFrom(d, q, NextSlot(i, IsWide(e)), count) == Ok((later, end))
    ensures SlotsFrom(d, p, i, count) == Ok(([Some(e)] + (if IsWide(e) && i + 1 < count then [None] else []) + later, end))
  {
  }

  /** The bytes from p to end parse, entry by entry, as the given entries. */
  predicate ParsesAs(d: seq<byte>, p: nat, entries: seq<CpEntry>, end: nat)
    decreases |entries|
  {
    if entries == [] then p == end
    else EntryAt(d, p).Ok? && EntryAt(d, p).value.0 == entries[0] && ParsesAs(d, EntryAt(d, p).value.1, entries[1..], end)
  }

  /** Entries that parse in a row and fill n slots are read into their layout. */
  lemma {:induction false} SlotsOfParsed(d: seq<byte>, p: nat, entries: seq<CpEntry>, end: nat, i: nat, n: nat)
    requires ParsesAs(d, p, entries, end) && Fits(entries, n)
    ensures SlotsFrom(d, p, i, i + n) == Ok((Layout(entries, n), end))
    decreases |entries|
  {
    if entries != [] {
      var e := entries[0];
      var q := EntryAt(d, p).value.1;
      var next := NextSlot(i, IsWide(e));
      if SlotWidth(e) > n {
        assert n == 1 && entries[1..] == [] && q == end;
        assert SlotsFrom(d, q, next, i + n) == Ok(([], q));
        SlotsFromStep(d, p, i, i + n, e, q, [], q);
        assert Layout(entries, n) == [Some(e)] + [] + Layout(entries[1..], 0);
      } else {
        var m := n - SlotWidth(e);
        SlotsOfParsed(d, q, entries[1..], end, next, m);
        assert next + m == i + n;
        SlotsFromStep(d, p, i, i + n, e, q, Layout(entries[1..], m), end);
      }
    }
  }

  /** Entries parse in a row when the first does and the rest parse after it. */
  lemma ParsesAsCons(d: seq<byte>, p: nat, entries: seq<CpEntry>, end: nat, q: nat)
    requires entries != [] && EntryAt(d, p) == Ok((entries[0], q)) && ParsesAs(d, q, entries[1..], end)
    ensures ParsesAs(d, p, entries, end)
  {
  }

  /** The bytes of d from p on are the given ones. */
  ghost predicate EncodedAt(d: seq<byte>, p: nat, bytes: seq<byte>) {
    p + |bytes| <= |d| && forall k :: 0 <= k < |bytes| ==> d[p + k] == bytes[k]
  }

  /** An encoded entry found anywhere in the data reads back as that entry. */
  lemma EntryAtEncoded(d: seq<byte>, p: nat, e: CpEntry)
    requires Encodable(e) && EncodedAt(d, p, EncodeEntry(e))
    ensures EntryAt(d, p) == Ok((e, p + |EncodeEntry(e)|))
  {
    var enc := EncodeEntry(e);
    var pre, post := d[..p], d[p + |enc|..];
    assert d == pre + enc + post by {
      forall k | 0 <= k < |d| ensures d[k] == (pre + enc + post)[k] {
        if p <= k < p + |enc| {
          assert d[p + (k - p)] == enc[k - p];
        }
      }
    }
    EntryRoundTrip(pre, e, post);
  }

  /** The bytes of a + b found at p are those of a at p, then those of b. */
  lemma EncodedSplit(d: seq<byte>, p: nat, a: seq<byte>, b: seq<byte>)
    requires EncodedAt(d, p, a + b)
    ensures EncodedAt(d, p, a) && EncodedAt(d, p + |a|, b)
  {
    forall k | 0 <= k < |a| ensures d[p + k] == a[k] { assert (a + b)[k] == a[k]; }
    forall k | 0 <= k < |b| ensures d[p + |a| + k] == b[k] { assert d[p + (|a| + k)] == (a + b)[|a| + k]; }
  }

  /** An encoded entry followed by bytes that parse as more entries parses with them. */
  lemma EncodedEntryThen(d: seq<byte>, p: nat, entries: seq<CpEntry>, end: nat)
    requires entries != [] && Encodable(entries[0]) && EncodedAt(d, p, EncodeEntry(entries[0]))
    requires ParsesAs(d, p + |EncodeEntry(entries[0])|, entries[1..], end)
    ensures ParsesAs(d, p, entries, end)
  {
    EntryAtEncoded(d, p, entries[0]);
  }

  /** The encoding of a list of entries found in the data parses as that list, up to its last byte. */
  lemma {:induction false} EncodingParsesAt(d: seq<byte>, p: nat, entries: seq<CpEntry>)
    requires forall k :: 0 <= k < |entries| ==> Encodable(entries[k])
    requires EncodedAt(d, p, EncodeAll(entries))
    ensures ParsesAs(d, p, entries, p + |EncodeAll(entries)|)
    decreases |entries|
  {
    if entries != [] {
      var e := entries[0];
      var rest := entries[1..];
      forall k | 0 <= k < |rest| ensures Encodable(rest[k]) { assert rest[k] == entries[k + 1]; }
      var enc := EncodeEntry(e);
      var tail := EncodeAll(rest);
      assert EncodeAll(entries) == enc + tail;
      EncodedSplit(d, p, enc, tail);
      EncodingParsesAt(d, p + |enc|, rest);
      EncodedEntryThen(d, p, entries, p + |enc| + |tail|);
      assert |EncodeAll(entries)| == |enc| + |tail|;
    } else {
      assert EncodeAll(entries) == [];
    }
  }

  /** The encoding of a list of entries parses as that list, up to its last byte. */
  lemma EncodingParses(pre: seq<byte>, entries: seq<CpEntry>, post: seq<byte>)
    requires forall k :: 0 <= k < |entries| ==> Encodable(entries[k])
    ensures ParsesAs(pre + EncodeAll(entries) + post, |pre|, entries, |pre| + |EncodeAll(entries)|)
  {
    var enc := EncodeAll(entries);
    var d := pre + enc + post;
    forall k | 0 <= k < |enc| ensures d[|pre| + k] == enc[k] {}
    EncodingParsesAt(d, |pre|, entries);
  }

  /**
   * Parsing the encoding of entries that fill slots i .. i+n-1 gives back their layout
   * and consumes exactly their bytes: the constant pool round-trips.
   */
  lemma SlotsRoundTrip(pre: seq<byte>, entries: seq<CpEntry>, post: seq<byte>, i: nat, n: nat)
    requires forall k :: 0 <= k < |entries| ==> Encodable(entries[k])
    requires Fits(entries, n)
    ensures SlotsFrom(pre + EncodeAll(entries) + post, |pre|, i, i + n) == Ok((Layout(entries, n), |pre| + |EncodeAll(entries)|))
  {
    EncodingParses(pre, entries, post);
    SlotsOfParsed(pre + EncodeAll(entries) + post, |pre|, entries, |pre| + |EncodeAll(entries)|, i, n);
  }

  /**
   * A whole constant pool: a count word followed by entries that parse in a row and fill
   * slots 1 .. count-1 reads back as slot 0 empty, then the entries laid out with their
   * gaps, so the entries themselves come back in order. With EncodingParses this is the
   * round trip of an encoded pool.
   */
  lemma PoolOfParsed(d: seq<byte>, p: nat, entries: seq<CpEntry>, end: nat)
    requires U16At(d, p) > 0 && ParsesAs(d, p + 2, entries, end) && Fits(entries, U16At(d, p) - 1)
    ensures PoolAt(d, p) == Ok(([None] + Layout(entries, U16At(d, p) - 1), end))
    ensures Entries(PoolAt(d, p).value.0) == entries
  {
    var n := U16At(d, p) - 1;
    SlotsOfParsed(d, p + 2, entries, end, 1, n);
    LayoutKeepsOrder(entries, n);
    assert ([None] + Layout(entries, n))[1..] == Layout(entries, n);
  }

  // ---- ReadConstantPool ----

  /** One entry, read in place from the stream: the body of the switch in ReadConstantPool. */
  method ReadEntry(r: Reader) returns (res: Result<CpEntry>)
    modifies r
    ensures EntryAt(r.data, old(r.pos)).Ok? <==> res.Ok?
    ensures res.Ok? ==> EntryAt(r.data, old(r.pos)) == Ok((res.value, r.pos))
    ensures res.Err? ==> res.error == EntryAt(r.data, old(r.pos)).error
  {
    var tag := r.ReadByte();
    if tag == CONSTANT_Class {
      var n := r.ReadUInt16();
      res := Ok(ClassRef(n));
    } else if tag == CONSTANT_Fieldref {
      var c := r.ReadUInt16();
      var nt := r.ReadUInt16();
      res := Ok(Fieldref(c, nt));
    } else if tag == CONSTANT_Methodref {
      var c := r.ReadUInt16();
      var nt := r.ReadUInt16();
      res := Ok(Methodref(c, nt));
    } else if tag == CONSTANT_InterfaceMethodref {
      var c := r.ReadUInt16();
      var nt := r.ReadUInt16();
      res := Ok(InterfaceMethodref(c, nt));
    } else if tag == CONSTANT_String {
      var n := r.ReadUInt16();
      res := Ok(StringRef(n));
    } else if tag == CONSTANT_Integer {
      var v := r.ReadInt32();
      res := Ok(IntegerConst(v));
    } else if tag == CONSTANT_Float {
      var bits := r.ReadUInt32();
      res := Ok(FloatConst(bits));
    } else if tag == CONSTANT_Long {
      var high := r.ReadUInt32();
      var low := r.ReadUInt32();
      res := Ok(LongConst(high, low));
    } else if tag == CONSTANT_Double {
      var high := r.ReadUInt32();
      var low := r.ReadUInt32();
      res := Ok(DoubleConst(high, low));
    } else if tag == CONSTANT_NameAndType {
      var n := r.ReadUInt16();
      var t := r.ReadUInt16();
      res := Ok(NameAndType(n, t));
    } else if tag == CONSTANT_Utf8 {
      var len := r.ReadUInt16();
      var s := r.ReadString(len);
      res := Ok(Utf8(s));
    } else {
      res := Err(WrongConstantType(tag as int));
    }
  }

  /** The pool array as the loop leaves it: slot 0 empty, then the slots read so far, then empty slots. */
  ghost function Filled(acc: seq<Slot>, n: nat): (s: seq<Slot>)
    ensures |s| == n
    ensures forall j :: 0 <= j < n ==> s[j] == (if 1 <= j <= |acc| then acc[j - 1] else None)
  {
    seq(n, j requires 0 <= j < n => if 1 <= j <= |acc| then acc[j - 1] else None)
  }

  /** Writing the next entry into the array is filling one more slot, and its gap if it has one. */
  lemma FilledStep(acc: seq<Slot>, n: nat, e: CpEntry, gap: seq<Slot>)
    requires |acc| + 1 < n && (gap == [] || gap == [None])
    ensures Filled(acc, n)[|acc| + 1 := Some(e)] == Filled(acc + ([Some(e)] + gap), n)
  {
    var a, b := Filled(acc, n)[|acc| + 1 := Some(e)], Filled(acc + ([Some(e)] + gap), n);
    forall j | 0 <= j < n ensures a[j] == b[j] {
      if j == |acc| + 2 && gap != [] {
        assert (acc + ([Some(e)] + gap))[j - 1] == None;
      }
    }
  }

  /** Once every slot after the first is filled the array is the empty slot 0, then the slots read. */
  lemma FilledFull(acc: seq<Slot>, n: nat)
    requires n > 0 && |acc| == n - 1
    ensures Filled(acc, n) == [None] + acc
  {
    forall j | 0 <= j < n ensures Filled(acc, n)[j] == ([None] + acc)[j] {}
  }

  /** One pass of the ReadConstantPool loop: the entry at the reader's position is read into slot i. */
  method ReadSlot(r: Reader, pool: array<Slot>, i: nat, ghost d: seq<byte>, ghost start: nat, ghost acc: seq<Slot>)
    returns (res: Result<CpEntry>)
    requires r.data == d && i < pool.Length
    requires SlotsFrom(d, start, 1, pool.Length) == Prepend(acc, SlotsFrom(d, r.pos, i, pool.Length))
    modifies r, pool
    ensures r.data == d
    ensures res.Err? ==> SlotsFrom(d, start, 1, pool.Length) == Err(res.error)
    ensures res.Ok? ==> pool[..] == old(pool[..])[i := Some(res.value)]
    ensures res.Ok? ==>
      SlotsFrom(d, start, 1, pool.Length) ==
        Prepend(acc + ([Some(res.value)] + (if IsWide(res.value) && i + 1 < pool.Length then [None] else [])),
                SlotsFrom(d, r.pos, NextSlot(i, IsWide(res.value)), pool.Length))
  {
    ghost var p := r.pos;
    res := ReadEntry(r);
    if res.Ok? {
      PoolStep(d, start, pool.Length, acc, p, i, res.value, r.pos);
      pool[i] := Some(res.value);
    }
  }

  /**
   * ReadConstantPool: allocates count slots and fills 1 .. count-1 in stream order,
   * skipping one extra slot after each Long or Double.
   */
  method ReadConstantPool(r: Reader) returns (res: Result<seq<Slot>>)
    modifies r
    ensures PoolAt(r.data, old(r.pos)).Ok? <==> res.Ok?
    ensures res.Ok? ==> PoolAt(r.data, old(r.pos)) == Ok((res.value, r.pos))
    ensures res.Err? ==> res.error == PoolAt(r.data, old(r.pos)).error
  {
    ghost var d, p0 := r.data, r.pos;
    var count := r.ReadUInt16();
    var pool := new Slot[count](_ => None);
    var i := 1;
    ghost var acc: seq<Slot> := [];
    assert Prepend(acc, SlotsFrom(d, r.pos, i, count)) == SlotsFrom(d, r.pos, i, count) by {
      var s := SlotsFrom(d, r.pos, i, count);
      if s.Ok? { assert acc + s.value.0 == s.value.0; }
    }
    assert pool[..] == Filled(acc, count);
    while i < count
      invariant r.data == d && 1 <= i
      invariant i <= count + 1
      invariant count > 0 ==> |acc| == (if i < count then i else count) - 1
      invariant pool[..] == Filled(acc, count)
      invariant SlotsFrom(d, p0 + 2, 1, count) == Prepend(acc, SlotsFrom(d, r.pos, i, count))
      decreases count + 1 - i
    {
      var item := ReadSlot(r, pool, i, d, p0 + 2, acc);
      if item.Err? {
        return Err(item.error);
      }
      var e := item.value;
      ghost var gap: seq<Slot> := if IsWide(e) && i + 1 < count then [None] else [];
      FilledStep(acc, count, e, gap);
      acc := acc + ([Some(e)] + gap);
      if IsWide(e) {
        // the slot after a Long or Double is not usable
        i := i + 1;
      }
      i := i + 1;
    }
    res := Ok(pool[..]);
    assert SlotsFrom(d, r.pos, i, count) == Ok(([], r.pos));
    if count > 0 {
      assert acc + [] == acc;
      FilledFull(acc, count);
    }
  }
}
