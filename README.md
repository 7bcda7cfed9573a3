# Caffeinator core, modelled in Dafny

Caffeinator turns a set of Java class files into .NET type definitions. This project models the
part that reads and organises those class files:

- the big-endian stream reader and the class-file decoder: header, constant pool, interfaces,
  fields, methods and attribute tables (`BigEndian`, `BinaryReader`, `ConstantPool`, `ClassFile`);
- the field and method descriptor grammar, and how far the argument walk steps past each
  argument (`Descriptors`);
- the object graph the converter builds: `Class`, `Descriptor`, `Field` and `Method`, with their
  access-flag predicates, name derivations and .NET attribute mappings (`Entities`,
  `AccessFlags`, `ClassNames`, `Strings`);
- the class factory: the basic-type seeds, `LoadClass` with its stub-before-build cache, building
  a class from its class file, and `ResolveInnerClasses` (`ClassLoading`);
- the JNI bridge's return-type decoder in `JMethod` (`JniReturn`);
- the name and signature helpers of the Java wrapper generator (`WrapperNames`).

Pure code (parsers, lookups, name functions) is written as functions with contracts, plus
round-trip lemmas against an independent encoder. Code that changes objects or walks a stream is
written as classes and methods:

- `Reader` holds a cursor;
- `Class`, `Descriptor`, `Field`, `Method`, `ClassFactory`, `JMethod` and `WrapperGenerator`
  hold the fields the source mutates;
- the constant pool is filled into an `array`.

Each such method is proved against the function that specifies it.

Exceptions become `Result`/`Outcome` values whose error names the .NET or Java exception. A read
past the end of the stream returns `0xFF`, because the source casts the `-1` from
`Stream.ReadByte` to a byte. Access flags are `bv16` and .NET attribute sets are `bv32`.

## Model

| member | source | states |
|---|---|---|
| BigEndian.U16At | src/Caffeine.Caffeinator/ClassFile.cs:577-583 | an unsigned 16-bit value read from two bytes |
| BigEndian.U32At | src/Caffeine.Caffeinator/ClassFile.cs:567-575 | an unsigned 32-bit value read from four bytes |
| BigEndian.I32At | src/Caffeine.Caffeinator/ClassFile.cs:597-605 | a signed 32-bit value; non-negative exactly when the first byte is below 0x80 |
| BigEndian.Int64At | src/Caffeine.Caffeinator/ClassFile.cs:413-422 | the intended signed 64-bit reading of a high word followed by a low word, within the long range |
| BigEndian.Int64AsWritten | src/Caffeine.Caffeinator/ClassFile.cs:585-590 | the reading as written: the sum of the two words, always in [0, 2^33) |
| BigEndian.U16RoundTrip | src/Caffeine.Caffeinator/ClassFile.cs:577-583 | any 16-bit value encoded big-endian anywhere in a stream reads back unchanged |
| BigEndian.U32RoundTrip | src/Caffeine.Caffeinator/ClassFile.cs:567-575 | any 32-bit value encoded big-endian reads back unchanged |
| BigEndian.I32RoundTrip | src/Caffeine.Caffeinator/ClassFile.cs:597-605 | any signed 32-bit value encoded in two's complement reads back unchanged |
| BigEndian.Int64RoundTrip | src/Caffeine.Caffeinator/ClassFile.cs:413-422 | any long encoded as two big-endian words reads back unchanged under the intended reading |
| BigEndian.U16Encodes | src/Caffeine.Caffeinator/ClassFile.cs:577-583 | the other direction: re-encoding a 16-bit reading gives back the two bytes read |
| BigEndian.U32Encodes | src/Caffeine.Caffeinator/ClassFile.cs:567-575 | re-encoding a 32-bit reading gives back the four bytes read |
| BigEndian.FirstByteMostSignificant | src/Caffeine.Caffeinator/ClassFile.cs:567-583 | the first byte in the stream is the most significant one |
| BigEndian.PastEndReadsOnes | src/Caffeine.Caffeinator/ClassFile.cs:617-620 | past the end, reads give 0xFFFF, 0xFFFFFFFF and -1 |
| BigEndian.Int64AsWrittenDiffers | src/Caffeine.Caffeinator/ClassFile.cs:585-590 | on the words 1, 0 the as-written reading gives 1, where the intended one gives 2^32 |
| BigEndian.Int64AsWrittenLosesSign | src/Caffeine.Caffeinator/ClassFile.cs:585-590 | the encoding of -1 reads as 0x1FFFFFFFE as written |
| BigEndian.Int64AsWrittenIgnoresWordOrder | src/Caffeine.Caffeinator/ClassFile.cs:585-590 | as written, swapping the two words does not change the result |
| BinaryReader.AsciiDecode | src/Caffeine.Caffeinator/ClassFile.cs:631-637 | one character per byte |
| BinaryReader.AsciiDecodeIsSevenBit | src/Caffeine.Caffeinator/ClassFile.cs:631-637 | every decoded character is 7-bit; bytes of 0x80 and above become '?' |
| BinaryReader.Reader.constructor | src/Caffeine.Caffeinator/ClassFile.cs:562-565 | the reader starts at position 0 of its stream |
| BinaryReader.Reader.ReadByte | src/Caffeine.Caffeinator/ClassFile.cs:617-620 | the byte at the cursor, or 0xFF past the end; the cursor advances by one |
| BinaryReader.Reader.ReadUInt16 | src/Caffeine.Caffeinator/ClassFile.cs:577-583 | returns U16At at the cursor and advances by two |
| BinaryReader.Reader.ReadUInt32 | src/Caffeine.Caffeinator/ClassFile.cs:567-575 | returns U32At at the cursor and advances by four |
| BinaryReader.Reader.ReadInt32 | src/Caffeine.Caffeinator/ClassFile.cs:597-605 | returns I32At at the cursor and advances by four |
| BinaryReader.Reader.ReadInt64 | src/Caffeine.Caffeinator/ClassFile.cs:585-590 | returns Int64AsWritten at the cursor, as the program computes it, and advances by eight |
| BinaryReader.Reader.ReadBytes | src/Caffeine.Caffeinator/ClassFile.cs:622-629 | the next length bytes, 0xFF-padded past the end; advances by length |
| BinaryReader.Reader.ReadString | src/Caffeine.Caffeinator/ClassFile.cs:631-637 | the ASCII decoding of the next length bytes; advances by length |
| ConstantPool.EntryAt | src/Caffeine.Caffeinator/ClassFile.cs:333-483 | a known tag gives an entry of that tag ending after its start; any other tag fails with WrongConstantType carrying the tag |
| ConstantPool.SlotsFrom | src/Caffeine.Caffeinator/ClassFile.cs:332-484 | the slots from index i up to the count, one per index, with an empty slot after each Long or Double |
| ConstantPool.PoolShape | src/Caffeine.Caffeinator/ClassFile.cs:321-336 | the pool has count slots; slot 0 is empty and slot 1 is not; any later slot is empty exactly when it follows a Long or Double |
| ConstantPool.SlotAccounting | src/Caffeine.Caffeinator/ClassFile.cs:413-456 | empty slots equal eight-byte entries, minus one when the last entry is eight-byte |
| ConstantPool.PoolSlotAccounting | src/Caffeine.Caffeinator/ClassFile.cs:321-485 | the slot accounting holds for every pool that parses |
| ConstantPool.GetUtf8 | src/Caffeine.Caffeinator/ClassFile.cs:218-225 | succeeds exactly for an index in range holding a Utf8 entry, and then gives its text |
| ConstantPool.GetClassName | src/Caffeine.Caffeinator/ClassFile.cs:206-216 | null exactly for an empty slot; a name exactly for a Class entry whose name index holds a Utf8 entry; otherwise an error |
| ConstantPool.ReservedSlotLookups | src/Caffeine.Caffeinator/ClassFile.cs:206-225 | the slot after a Long or Double gives null as a class name, and a null dereference when read as Utf8 |
| ConstantPool.Bits64 | src/Caffeine.Caffeinator/ClassFile.cs:413-434 | the intended 64-bit value of a Long or Double entry; negative exactly when the top bit of the high word is set |
| ConstantPool.Bits64AsWritten | src/Caffeine.Caffeinator/ClassFile.cs:585-590 | the value the program computes: never negative, and below 2^33 |
| ConstantPool.EightByteEntryValue | src/Caffeine.Caffeinator/ClassFile.cs:413-456 | a parsed Long or Double holds two 32-bit words; its intended value is the long read at its position, and the program's value is the as-written reading there |
| ConstantPool.AsciiRoundTrip | src/Caffeine.Caffeinator/ClassFile.cs:631-637 | any 7-bit text survives encoding and the reader's ASCII decoding |
| ConstantPool.EntryRoundTrip | src/Caffeine.Caffeinator/ClassFile.cs:333-483 | any entry of any of the eleven kinds encoded at any position parses back to itself and ends after its bytes |
| ConstantPool.LayoutKeepsOrder | src/Caffeine.Caffeinator/ClassFile.cs:332-484 | laying entries out into slots keeps them in order |
| ConstantPool.PoolStep | src/Caffeine.Caffeinator/ClassFile.cs:332-484 | one pass of the loop extends the prefix read so far by the entry and its gap |
| ConstantPool.SlotsOfParsed | src/Caffeine.Caffeinator/ClassFile.cs:332-484 | a stream that parses as a list of entries gives their slot layout |
| ConstantPool.EncodingParsesAt | src/Caffeine.Caffeinator/ClassFile.cs:332-484 | the encoding of a list of entries parses as that list |
| ConstantPool.EncodingParses | src/Caffeine.Caffeinator/ClassFile.cs:332-484 | the same, with any bytes before and after |
| ConstantPool.SlotsRoundTrip | src/Caffeine.Caffeinator/ClassFile.cs:332-484 | encoded entries read back as their slot layout, ending after their bytes |
| ConstantPool.PoolOfParsed | src/Caffeine.Caffeinator/ClassFile.cs:321-485 | the pool is the empty slot 0 followed by the layout, and its entries are exactly those parsed |
| ConstantPool.ReadEntry | src/Caffeine.Caffeinator/ClassFile.cs:333-483 | the reader's entry is EntryAt's, including its error, and the cursor ends where EntryAt ends |
| ConstantPool.ReadSlot | src/Caffeine.Caffeinator/ClassFile.cs:332-484 | one pass of the loop stores the entry in slot i, or fails with the pool's error |
| ConstantPool.ReadConstantPool | src/Caffeine.Caffeinator/ClassFile.cs:321-486 | the array filled in place is PoolAt's pool, or fails with PoolAt's error, and the cursor ends after the pool |
| ClassFile.AttributeAt | src/Caffeine.Caffeinator/ClassFile.cs:313-316 | an attribute takes six header bytes plus its length |
| ClassFile.AttributesFrom | src/Caffeine.Caffeinator/ClassFile.cs:305-317 | k attributes read in sequence |
| ClassFile.AttributesSnoc | src/Caffeine.Caffeinator/ClassFile.cs:305-317 | reading k+1 attributes is reading k and then one more |
| ClassFile.AttributesAt | src/Caffeine.Caffeinator/ClassFile.cs:294-319 | as many attributes as the count in front of them |
| ClassFile.MemberAt | src/Caffeine.Caffeinator/ClassFile.cs:284-289 | a field_info or method_info: its three u16 values, then its attributes |
| ClassFile.MembersFrom | src/Caffeine.Caffeinator/ClassFile.cs:267-292 | k members read in sequence |
| ClassFile.MembersSnoc | src/Caffeine.Caffeinator/ClassFile.cs:267-292 | reading k+1 members is reading k and then one more |
| ClassFile.MembersAt | src/Caffeine.Caffeinator/ClassFile.cs:267-292 | as many members as the count in front of them |
| ClassFile.U16sAt | src/Caffeine.Caffeinator/ClassFile.cs:234-236 | n u16 values read in sequence |
| ClassFile.U16sCons | src/Caffeine.Caffeinator/ClassFile.cs:234-236 | reading n+1 values is the first value followed by the next n |
| ClassFile.InterfacesAt | src/Caffeine.Caffeinator/ClassFile.cs:227-238 | a count then that many indices, ending two bytes per index after the count |
| ClassFile.HeaderCheck | src/Caffeine.Caffeinator/ClassFile.cs:66-76 | passes exactly when the magic is 0xCAFEBABE and the major version is 45 to 48 |
| ClassFile.ClassFileAt | src/Caffeine.Caffeinator/ClassFile.cs:42-85 | succeeds exactly when the header passes and the pool parses; otherwise fails with the first error; the pool kept is the one parsed |
| ClassFile.BodyAt | src/Caffeine.Caffeinator/ClassFile.cs:78-84 | flags, this_class and super_class come from the three u16 values after the pool |
| ClassFile.Name | src/Caffeine.Caffeinator/ClassFile.cs:87-91 | the class name of this_class |
| ClassFile.BadMagicRefused | src/Caffeine.Caffeinator/ClassFile.cs:66-70 | a stream that does not start with 0xCA is refused with its magic |
| ClassFile.HeaderCheckLocal | src/Caffeine.Caffeinator/ClassFile.cs:66-76 | the header check depends on the first eight bytes only |
| ClassFile.EmptyStreamRefused | src/Caffeine.Caffeinator/ClassFile.cs:66-70 | an empty stream is refused with magic 0xFFFFFFFF |
| ClassFile.AttributeRoundTrip | src/Caffeine.Caffeinator/ClassFile.cs:313-316 | any encoded attribute reads back unchanged |
| ClassFile.AttributesRoundTrip | src/Caffeine.Caffeinator/ClassFile.cs:305-317 | any encoded attribute list reads back unchanged |
| ClassFile.AttributeTableRoundTrip | src/Caffeine.Caffeinator/ClassFile.cs:294-319 | a count-prefixed attribute table reads back unchanged |
| ClassFile.U16ListRoundTrip | src/Caffeine.Caffeinator/ClassFile.cs:234-236 | any list of u16 values reads back unchanged |
| ClassFile.MemberRoundTrip | src/Caffeine.Caffeinator/ClassFile.cs:284-289 | an encoded field_info or method_info (three u16 values, then a counted attribute table) reads back as the same member, ending right after it |
| ClassFile.MembersRoundTrip | src/Caffeine.Caffeinator/ClassFile.cs:274-290 | any encoded list of members reads back unchanged, in order, ending right after the last |
| ClassFile.MemberTableRoundTrip | src/Caffeine.Caffeinator/ClassFile.cs:267-292 | a count-prefixed field or method table reads back unchanged, ending right after its last member |
| ClassFile.InterfaceTableRoundTrip | src/Caffeine.Caffeinator/ClassFile.cs:227-238 | a count followed by that many two-byte class indices reads back as those indices, ending two bytes per index after the count |
| ClassFile.ReadAttribute | src/Caffeine.Caffeinator/ClassFile.cs:313-316 | the reader's attribute and end position are AttributeAt's |
| ClassFile.ReadAttributes | src/Caffeine.Caffeinator/ClassFile.cs:294-319 | the reader's attributes and end position are AttributesAt's |
| ClassFile.ReadMember | src/Caffeine.Caffeinator/ClassFile.cs:284-289 | the reader's member is MemberAt's |
| ClassFile.ReadMembers | src/Caffeine.Caffeinator/ClassFile.cs:267-292 | the reader's members are MembersAt's |
| ClassFile.ReadInterfaces | src/Caffeine.Caffeinator/ClassFile.cs:227-238 | the reader's interfaces are InterfacesAt's |
| ClassFile.ReadClassFile | src/Caffeine.Caffeinator/ClassFile.cs:42-85 | the constructor's result is ClassFileAt of the stream |
| ClassFile.ReadBody | src/Caffeine.Caffeinator/ClassFile.cs:78-84 | the reader's body is BodyAt's |
| Descriptors.ParseDescriptor | src/Caffeine.Caffeinator/ClassFile.cs:174-204 | '[' wraps the parse of the rest; 'L' names the text before the first ';'; an 'L' with no ';' fails with ArgumentOutOfRange; any other letter is basic |
| Descriptors.LetterOf | src/Caffeine.Caffeinator/ClassFile.cs:158-172 | each C# keyword in the table has a letter that maps back to it |
| Descriptors.ParseObjectType | src/Caffeine.Caffeinator/ClassFile.cs:182-198 | "L" n ";" parses as the object type n whatever follows |
| Descriptors.ParseArrayType | src/Caffeine.Caffeinator/ClassFile.cs:192-194 | '[' gives an array of the component's parse |
| Descriptors.ParseEncoded | src/Caffeine.Caffeinator/ClassFile.cs:188-204 | every well-formed descriptor encoded, followed by anything, parses back to itself |
| Descriptors.Width | src/Caffeine.Caffeinator/ClassFile.cs:132-146 | the argument walk's step is at least one; it fails exactly when the innermost object type has no cached name |
| Descriptors.WidthOfEncoded | src/Caffeine.Caffeinator/ClassFile.cs:132-146 | when names read back as themselves, the step is the encoded length |
| Descriptors.MethodSig | src/Caffeine.Caffeinator/ClassFile.cs:125-151 | a method descriptor with no ')' fails with ArgumentOutOfRange |
| Descriptors.ArgsOfEncoded | src/Caffeine.Caffeinator/ClassFile.cs:127-149 | the argument walk over encoded arguments gives back those arguments |
| Descriptors.MethodSigOfEncoded | src/Caffeine.Caffeinator/ClassFile.cs:125-151 | an encoded method descriptor splits back into its arguments and return type |
| Descriptors.ParenthesisedParts | src/Caffeine.Caffeinator/ClassFile.cs:127-150 | for "(" a ")" b with no ')' in a, the arguments are a and the return text is b |
| Descriptors.TextIsElementAndBrackets | src/Caffeine.Caffeinator/Descriptor.cs:108-115 | a descriptor's text is its element's text followed by one "[]" per rank |
| Descriptors.IntMatrix | src/Caffeine.Caffeinator/ClassFile.cs:188-194 | "[[I" is a rank-2 array of int |
| Descriptors.IntArrayToInt | src/Caffeine.Caffeinator/ClassFile.cs:125-151 | "([I)I" splits into one int[] argument and an int return |
| Entities.Class.constructor | src/Caffeine.Caffeinator/Class.cs:44-50 | a new class has nothing set and empty lists |
| Entities.Class.Named | src/Caffeine.Caffeinator/Class.cs:52-57 | sets the internal name, the qualified name and the flags only |
| Entities.Class.GetFullyQualifiedName | src/Caffeine.Caffeinator/Class.cs:77-88 | the derived name, cached on first success, and never changed afterwards |
| Entities.Class.GetName | src/Caffeine.Caffeinator/Class.cs:90-106 | the short name; cached on first success, leaving the qualified name as it was |
| Entities.Class.GetNameSpace | src/Caffeine.Caffeinator/Class.cs:108-123 | the namespace; cached on first success |
| Entities.Class.AddBaseType | src/Caffeine.Caffeinator/Class.cs:158-168 | null is ignored; a duplicate fails and leaves the list; otherwise appends; the list stays free of duplicates |
| Entities.Class.AddInnerClass | src/Caffeine.Caffeinator/Class.cs:170-179 | a new inner class is appended and gets this as its declaring class; a listed one changes nothing |
| Entities.Class.AddField | src/Caffeine.Caffeinator/Class.cs:181-187 | a duplicate fails; otherwise appends; the list stays free of duplicates |
| Entities.Class.AddMethod | src/Caffeine.Caffeinator/Class.cs:189-195 | a duplicate fails; otherwise appends; the list stays free of duplicates |
| Entities.Class.TypeAttributes | src/Caffeine.Caffeinator/Class.cs:221-257 | the visibility the program computes, including public and nested together; every other bit as intended |
| Entities.Descriptor.constructor | src/Caffeine.Caffeinator/Descriptor.cs:37-39 | a new descriptor has no kind, no component and no class |
| Entities.Descriptor.ArrayOf | src/Caffeine.Caffeinator/ClassFile.cs:192-194 | an array descriptor over its component |
| Entities.Descriptor.ObjectOf | src/Caffeine.Caffeinator/ClassFile.cs:195-198 | an object descriptor for its class |
| Entities.Descriptor.BasicOf | src/Caffeine.Caffeinator/ClassFile.cs:199-202 | a basic descriptor for its class, which may be null |
| Entities.Descriptor.GetArrayRank | src/Caffeine.Caffeinator/Descriptor.cs:86-95 | the loop returns the depth of the component chain |
| Entities.Descriptor.GetElementType | src/Caffeine.Caffeinator/Descriptor.cs:97-106 | the loop returns the class at the end of the component chain |
| Entities.Field.constructor | src/Caffeine.Caffeinator/Field.cs:36-39 | a new field has its declaring class and nothing else |
| Entities.Method.constructor | src/Caffeine.Caffeinator/Method.cs:39-43 | a new method has its declaring class and no arguments |
| Entities.Method.SetSignature | src/Caffeine.Caffeinator/Method.cs:63-76 | accepted exactly when the text starts with '('; null, "" and any other start fail with their own errors and leave the signature |
| Entities.Method.AddArgument | src/Caffeine.Caffeinator/Method.cs:96-105 | appends the argument |
| Entities.MatchesGrows | src/Caffeine.Caffeinator/ClassFile.cs:188-204 | a descriptor built for a parse still matches it as the cache grows |
| Entities.RankAndElementOfMatched | src/Caffeine.Caffeinator/Descriptor.cs:86-106 | a built descriptor's rank and element class are the parse's rank and the class cached for its leaf |
| Entities.TextOfMatched | src/Caffeine.Caffeinator/Descriptor.cs:108-115 | a built descriptor's text is the parse's text under the cached internal names |
| Entities.FieldTextOfMatched | src/Caffeine.Caffeinator/Field.cs:136-139 | a field's text is its descriptor's text, then its name |
| AccessFlags.ClassFlags | src/Caffeine.Caffeinator/Class.cs:197-219 | for any combination of the class predicates there is a flag word, using only class bits, that has exactly those predicates |
| AccessFlags.ClassPredicatesReadOnlyTheirBits | src/Caffeine.Caffeinator/Class.cs:197-219 | the class predicates depend only on their own bits and recover them |
| AccessFlags.SharedFlags | src/Caffeine.Caffeinator/Method.cs:107-135 | the five flags methods and fields share are the low five bits, each read by its own predicate |
| AccessFlags.MethodOnlyFlags | src/Caffeine.Caffeinator/Method.cs:137-159 | synchronized, native, abstract and strict each read their own bit |
| AccessFlags.MethodFlags | src/Caffeine.Caffeinator/Method.cs:107-159 | every combination of method predicates has a flag word |
| AccessFlags.MethodPredicatesReadOnlyTheirBits | src/Caffeine.Caffeinator/Method.cs:107-159 | the method predicates depend only on their bits and recover them |
| AccessFlags.FieldFlags | src/Caffeine.Caffeinator/Field.cs:83-123 | every combination of field predicates has a flag word |
| AccessFlags.FieldPredicatesReadOnlyTheirBits | src/Caffeine.Caffeinator/Field.cs:83-123 | the field predicates depend only on their bits and recover them |
| AccessFlags.TypeAttributesAsWritten | src/Caffeine.Caffeinator/Class.cs:221-257 | a public nested class gets Public and NestedPublic together; every other visibility as intended |
| AccessFlags.PublicNestedTypeComesOutPrivate | src/Caffeine.Caffeinator/Class.cs:245-250 | for a public nested interface that visibility is NestedPrivate |
| AccessFlags.TypeAttributesOf | src/Caffeine.Caffeinator/Class.cs:221-257 | intended: one visibility (NestedPublic for a public nested class), with Interface, Sealed and Abstract exactly when the class has them |
| AccessFlags.TypeAttributesCorrectionIsLocal | src/Caffeine.Caffeinator/Class.cs:245-250 | the two mappings differ only in visibility, and only for a public nested class |
| AccessFlags.MethodAttributesOf | src/Caffeine.Caffeinator/Method.cs:161-190 | access taken in the order public, protected, private, then Assembly; Abstract and Static as flagged; Final only when non-static and final; Virtual only when non-static and non-final |
| AccessFlags.OneDispatchKind | src/Caffeine.Caffeinator/Method.cs:179-187 | exactly one of Static, Final and Virtual is set |
| ClassNames.FullyQualifiedNameOf | src/Caffeine.Caffeinator/Class.cs:77-88 | same length, '/' and '$' replaced, every other character kept |
| ClassNames.ShortNameOf | src/Caffeine.Caffeinator/Class.cs:90-106 | a '+'-free suffix: the whole name or the part after the last '+' |
| ClassNames.NameSpaceOf | src/Caffeine.Caffeinator/Class.cs:108-123 | the text before the last '/', empty when there is none or it is first |
| ClassNames.FullyQualifiedNameConcat | src/Caffeine.Caffeinator/Class.cs:81 | the renaming works character by character |
| ClassNames.NameOfNestedClass | src/Caffeine.Caffeinator/Class.cs:90-106 | a nested class's short name is the renamed text after its last '$' |
| ClassNames.NameOfTopLevelClass | src/Caffeine.Caffeinator/Class.cs:94-98 | a top-level class's short name is its whole qualified name |
| ClassNames.NameSpaceIsQualifiedNamePrefix | src/Caffeine.Caffeinator/Class.cs:108-123 | the namespace is the qualified name up to the last '.', renamed |
| ClassNames.PlainName | src/Caffeine.Caffeinator/Class.cs:77-88 | a name without '/' and '$' is its own qualified name |
| Strings.IndexOf | src/Caffeine.Caffeinator/ClassFile.cs:185 | -1 exactly when the character is absent; otherwise its first position |
| Strings.LastIndexOf | src/Caffeine.Caffeinator/ClassFactory.cs:87 | -1 exactly when absent; otherwise its last position |
| Strings.Replace | src/Caffeine.Caffeinator/Class.cs:81 | every occurrence is replaced and nothing else changes |
| ClassLoading.BasicTypeLetters | src/Caffeine.Caffeinator/ClassFile.cs:158-172 | the table maps B C D F I J S Z V to byte char double float int long short bool void |
| ClassLoading.BasicTypesNamed | src/Caffeine.Caffeinator/ClassFactory.cs:46-55 | the nine seeds, under their keywords, have the letters as internal names |
| ClassLoading.BasicTypesSeeded | src/Caffeine.Caffeinator/ClassFactory.cs:46-55 | each seed is public and named after its keyword |
| ClassLoading.NamesOf | src/Caffeine.Caffeinator/ClassFile.cs:98-104 | succeeds exactly when every index names a class, and gives each name in order |
| ClassLoading.ClassesNamed | src/Caffeine.Caffeinator/ClassFile.cs:100-104 | the base types added: the cached class for each non-null name |
| ClassLoading.ClassesNamedAppend | src/Caffeine.Caffeinator/ClassFile.cs:102-104 | one more name adds its class, or nothing when it is null |
| ClassLoading.ClassesNamedGrows | src/Caffeine.Caffeinator/ClassFactory.cs:63-68 | loading more classes changes none of the classes under names already cached |
| ClassLoading.FieldsBuiltStep | src/Caffeine.Caffeinator/ClassFile.cs:106-113 | one more field built from the next field_info extends the fields built so far |
| ClassLoading.MethodsBuiltStep | src/Caffeine.Caffeinator/ClassFile.cs:115-122 | one more method built from the next method_info extends the methods built so far |
| ClassLoading.MethodsBuiltGrows | src/Caffeine.Caffeinator/ClassFactory.cs:63-68 | methods built earlier stay as built while the cache grows |
| ClassLoading.MethodSigExtends | src/Caffeine.Caffeinator/ClassFile.cs:125-151 | a split found under some cached names is unchanged as more classes are named |
| ClassLoading.ArgumentWidth | src/Caffeine.Caffeinator/ClassFile.cs:132-146 | the inner loop steps exactly the descriptor's width, or fails on a null class |
| ClassLoading.WidthOfMatched | src/Caffeine.Caffeinator/ClassFile.cs:132-146 | the width stepped for a descriptor built for a parse is that parse's width under the cached internal names |
| ClassLoading.SplitIsArgs | src/Caffeine.Caffeinator/ClassFile.cs:129-149 | the loop's steps that run to the end are the argument split the text defines |
| ClassLoading.StepAppend | src/Caffeine.Caffeinator/ClassFile.cs:129-149 | one more argument parsed where the last ended, stepped by its width, extends the steps |
| ClassLoading.NamedInsert | src/Caffeine.Caffeinator/ClassFactory.cs:66-68 | caching a class keeps the names map in step with the classes |
| ClassLoading.EnclosingName | src/Caffeine.Caffeinator/ClassFactory.cs:87-91 | the enclosing name is the text before the last '$' |
| ClassLoading.NewBasicTypes | src/Caffeine.Caffeinator/ClassFactory.cs:46-55 | exactly the nine keywords, each seeded |
| ClassLoading.EnclosedStep | src/Caffeine.Caffeinator/ClassFactory.cs:85-99 | processing one more name adds at most its own class to its enclosing class's inner classes |
| ClassLoading.EnclosersStep | src/Caffeine.Caffeinator/ClassFactory.cs:85-99 | processing one more name adds at most its enclosing class to the candidates for its declaring class |
| ClassLoading.ResolvedAtStep | src/Caffeine.Caffeinator/ClassFactory.cs:85-99 | processing one name keeps the loop invariant for every cached name |
| ClassLoading.ClassFactory.constructor | src/Caffeine.Caffeinator/ClassFactory.cs:39-56 | the cache starts with exactly the nine basic types, public, under their keywords |
| ClassLoading.ClassFactory.LoadClass | src/Caffeine.Caffeinator/ClassFactory.cs:58-81 | null gives null; a cached name gives its class; a new name is cached as a fresh stub, built from its class file if any; cached names never change |
| ClassLoading.ClassFactory.LoadNew | src/Caffeine.Caffeinator/ClassFactory.cs:66-80 | a name without a class file stays a stub; with one, the class is built |
| ClassLoading.ClassFactory.CacheStub | src/Caffeine.Caffeinator/ClassFactory.cs:66-68 | a fresh class with only its internal name, cached under the name |
| ClassLoading.ClassFactory.ResolveInnerClasses | src/Caffeine.Caffeinator/ClassFactory.cs:83-100 | each class's inner list grows by exactly the cached nested classes it encloses, each appended once and none already listed, so a duplicate-free list stays duplicate-free; a declaring class is set, to an enclosing class, for each nested class not already listed |
| ClassLoading.ClassFactory.ResolveInnerClass | src/Caffeine.Caffeinator/ClassFactory.cs:86-98 | one pass of the loop keeps the invariant: a missing enclosing class changes nothing |
| ClassLoading.ProcessDescriptor | src/Caffeine.Caffeinator/ClassFile.cs:188-204 | fails when the text does not parse; otherwise a fresh descriptor built for its parse, loading the classes it names. It succeeds for a first letter that is not a descriptor letter (a basic type with no class), and for any text that parses when every class file is already cached |
| ClassLoading.ProcessArgument | src/Caffeine.Caffeinator/ClassFile.cs:130-147 | on success, a fresh descriptor matching the parse of the text at index, and a step equal to that parse's width under the cached names. It succeeds whenever the text there parses with a width under the names cached at the call and every class file is already cached |
| ClassLoading.ProcessArguments | src/Caffeine.Caffeinator/ClassFile.cs:129-149 | on success, the descriptors added match the split the text defines under the cached names. It succeeds whenever that split succeeds under the names cached at the start and every class file is already cached |
| ClassLoading.ProcessMethodDescriptorString | src/Caffeine.Caffeinator/ClassFile.cs:125-151 | fails when the split fails; otherwise the arguments and return type match the split. It succeeds whenever the split succeeds under the names cached at the start and every class file is already cached |
| ClassLoading.BuildClass | src/Caffeine.Caffeinator/ClassFile.cs:93-123 | flags and name are set; the superclass and interfaces are added as base types; one field per field_info and one method per method_info, in order |
| ClassLoading.AddMembers | src/Caffeine.Caffeinator/ClassFile.cs:100-122 | bases, then fields, then methods, as BuildClass adds them |
| ClassLoading.AddBases | src/Caffeine.Caffeinator/ClassFile.cs:100-104 | the base types become the old list followed by the classes the superclass and interfaces name |
| ClassLoading.AddBase | src/Caffeine.Caffeinator/ClassFile.cs:103 | one named class is loaded and appended; a null name adds nothing |
| ClassLoading.AddFields | src/Caffeine.Caffeinator/ClassFile.cs:106-113 | one field per field_info, in order |
| ClassLoading.AddField | src/Caffeine.Caffeinator/ClassFile.cs:107-112 | a field with the info's flags, name, signature and processed descriptor is appended |
| ClassLoading.AddMethods | src/Caffeine.Caffeinator/ClassFile.cs:115-122 | one method per method_info, in order |
| ClassLoading.AddMethod | src/Caffeine.Caffeinator/ClassFile.cs:116-121 | a method with the info's flags, name, checked signature and processed descriptors is appended |
| JniReturn.LetterOfReturnType | src/Caffeine.Jni/JMethod.cs:123-153 | every return type has a letter that decodes to it |
| JniReturn.LettersAreOneToOne | src/Caffeine.Jni/JMethod.cs:123-153 | each decoding letter is the letter of the type it decodes to |
| JniReturn.ReturnText | src/Caffeine.Jni/JMethod.cs:115-120 | the ')'-free suffix after the last ')', or the whole signature when there is none |
| JniReturn.TextKindAsWritten | src/Caffeine.Jni/JMethod.cs:120-156 | a decoded return has a valid type, and is an array exactly when the text starts with '[' |
| JniReturn.TextKind | src/Caffeine.Jni/JMethod.cs:120-156 | intended: agrees with the program wherever the program succeeds, and also decodes "[[" as an object array |
| JniReturn.MultiDimensionalArrayReturn | src/Caffeine.Jni/JMethod.cs:122-156 | a method returning int[][] fails with Unreachable reached as written, and is an object array as intended |
| JniReturn.CallFor | src/Caffeine.Jni/JMethod.cs:80-110 | an array return is an object call; only a non-array invalid type fails |
| JniReturn.TextKindOfEncoded | src/Caffeine.Jni/JMethod.cs:121-153 | the intended decoder reads any encoded return type correctly |
| JniReturn.ReturnOfEncodedMethod | src/Caffeine.Jni/JMethod.cs:113-156 | the intended decoder reads the return type of any encoded method descriptor |
| JniReturn.JMethod.constructor | src/Caffeine.Jni/JMethod.cs:40-52 | the return type starts invalid and not an array |
| JniReturn.JMethod.DetermineReturnType | src/Caffeine.Jni/JMethod.cs:113-157 | the fields get the program's decoding; on failure the type stays, and the array flag is set from the first letter before the switch |
| JniReturn.JMethod.Invoke | src/Caffeine.Jni/JMethod.cs:74-111 | decodes once, lazily, setting rType and isArray from the decoded return; the call kind follows the decoded type, and later calls reuse it; a failed decoding fails again on every call |
| WrapperNames.BaseTypeName | src/java/com/olympum/tools/CsJniNetWrapperGenerator.java:100-102 | the array type less its "[]" |
| WrapperNames.ObjectTypeSignature | src/java/com/olympum/tools/CsJniNetWrapperGenerator.java:104-117 | a class type's signature is the descriptor encoding of its type |
| WrapperNames.BuiltInTypeSignature | src/java/com/olympum/tools/CsJniNetWrapperGenerator.java:104-117 | a primitive type's signature is the descriptor encoding of its type |
| WrapperNames.SignatureIsDescriptor | src/java/com/olympum/tools/CsJniNetWrapperGenerator.java:104-117 | every spellable type's signature is a well-formed descriptor |
| WrapperNames.ParameterSignaturesEncode | src/java/com/olympum/tools/CsJniNetWrapperGenerator.java:119-129 | the parameter text is the encodings of the parameters in order |
| WrapperNames.MethodSignatureReadsBack | src/java/com/olympum/tools/CsJniNetWrapperGenerator.java:137-140 | the class-file descriptor parser reads a generated method signature back as its parameters and return type |
| WrapperNames.CtorSignatureReadsBack | src/java/com/olympum/tools/CsJniNetWrapperGenerator.java:142-144 | a constructor signature reads back with a void return |
| WrapperNames.CtorIsVoidMethod | src/java/com/olympum/tools/CsJniNetWrapperGenerator.java:137-144 | a constructor's signature is that of a void method |
| WrapperNames.PackageNameFromType | src/java/com/olympum/tools/CsJniNetWrapperGenerator.java:578-583 | null exactly without a '.'; otherwise the text before the last '.' |
| WrapperNames.ClassNameFromType | src/java/com/olympum/tools/CsJniNetWrapperGenerator.java:585-590 | the suffix after the last '$' when there is one, else after the last '.' |
| WrapperNames.PackageAndClassName | src/java/com/olympum/tools/CsJniNetWrapperGenerator.java:578-590 | package, '.' and class name give the type back |
| WrapperNames.Normalized | src/java/com/olympum/tools/CsJniNetWrapperGenerator.java:608-633 | null exactly for null |
| WrapperNames.JoinPieces | src/java/com/olympum/tools/CsJniNetWrapperGenerator.java:619 | splitting on '.' and joining with '.' gives the text back |
| WrapperNames.PiecesEndWith | src/java/com/olympum/tools/CsJniNetWrapperGenerator.java:619 | for text not ending in '.', Java's split drops nothing |
| WrapperNames.EmittedPlain | src/java/com/olympum/tools/CsJniNetWrapperGenerator.java:622-630 | without keywords the loop emits the tokens joined by '.' |
| WrapperNames.NormalizeKeepsPlainNames | src/java/com/olympum/tools/CsJniNetWrapperGenerator.java:608-633 | a name with no keyword, '$' or mapping normalizes to itself |
| WrapperNames.InterfaceToImplClass | src/java/com/olympum/tools/CsJniNetWrapperGenerator.java:367-380 | "JNIImpl" is inserted before the first '[', or appended |
| WrapperNames.ApiType | src/java/com/olympum/tools/CsJniNetWrapperGenerator.java:355-365 | "Object" exactly for the unmapped types and for arrays of arrays |
| WrapperNames.ApiTypeOfArrays | src/java/com/olympum/tools/CsJniNetWrapperGenerator.java:355-365 | one "[]" is stripped; two give "Object" |
| WrapperNames.WrapperGenerator.constructor | src/java/com/olympum/tools/CsJniNetWrapperGenerator.java:849 | the generator holds the given mangled-type map |
| WrapperNames.WrapperGenerator.Normalize | src/java/com/olympum/tools/CsJniNetWrapperGenerator.java:608-633 | the loop computes Normalized; null exactly for null; no '$' is left in an unmapped name |
| WrapperNames.WrapperGenerator.CLRType | src/java/com/olympum/tools/CsJniNetWrapperGenerator.java:40-51 | only the text before the first '[' is normalized, and the array suffix is kept |

## Left out

- ConstantPool.ReadConstantPool: the pool index is an unbounded integer, not a 16-bit one. In the program it can wrap only when constant_pool_count is 0xFFFF and a Long or Double sits at index 0xFFFE. Section 4.4.5 of the Java Virtual Machine Specification makes such a file invalid: the slot after an eight-byte entry must itself be a valid index below the count. The model ends the pool there, where the program wraps to index 0 and reads on.
- ClassFile.AttributeAt and BinaryReader.Reader.ReadBytes: allocating the byte array of an attribute cannot fail in the model. The program fails for a length of 2^31 or more, or for one too large to allocate.
- BinaryReader.Reader: the program reverses `BitConverter` bytes and so reads big-endian only on a little-endian host. The model always reads big-endian.
- ConstantPool.EntryAt: Float and Double entries keep their raw bits; no floating-point value is formed.
- BinaryReader.AsciiDecode: Utf8 entries are decoded one byte per character as ASCII, as the program does. Modified UTF-8 is not decoded.
- ClassLoading.ClassFactory.ResolveInnerClasses: the Hashtable enumeration order is not modelled; each step takes an arbitrary unprocessed name. Its contract holds for every order.
- ClassLoading.ClassFactory.ResolveInnerClass: the "Class not found" console message is not modelled; only the skip is.
- WrapperNames.WrapperGenerator.constructor: the mangled-type map is given to the constructor. Filling it by walking the API XML (`populateMangleMap`, `mangleType`) is not modelled. Neither is the rest of the generator, which only writes C# text.
- ClassLoading.Basic: a seeded basic type is described by its internal name, qualified name and flags only. Its other fields, which `Class.Named` leaves empty, are not constrained by the factory's contract.
- Entities.Descriptor: the kind flags and component are set by the constructors only, since nothing else in the core changes them.
- ClassLoading.ClassFactory.LoadNew, CacheStub, ConstantPool.ReadSlot and ConstantPool.ReadEntry are parts of one source method each, split out to keep proofs small.
- ClassLoading.ProcessMethodDescriptorString: the argument walk runs over the text up to ')' from position 1 instead of over the text inside the parentheses from position 0. These are the same characters shifted by one.
- JniReturn.JMethod.Invoke: the JNI calls themselves (`CallObjectMethod` and the rest), `JavaVM`, `JClass`, `JObject` and the array wrappers are not part of this model. Invoke returns which call it would make.
- The emitter (`PEemitter.cs`), the jar reader (`JarFile.cs`), the command line (`Main.cs`), the XML API generator and `glue/jvm.c` are outside this model. They do I/O or drive .NET reflection emit.
- Exceptions are `Result` and `Outcome` values. A failure deep inside BuildClass stops the build, as the exception does, but the stack trace is not modelled.

## Findings

| source | as written | input that shows it | evidently intended | confidence | as-written member | corrected member |
|---|---|---|---|---|---|---|
| src/Caffeine.Caffeinator/ClassFile.cs:585-590 | ReadInt64 shifts a `uint` left by 32, and C# masks that shift count to 0, so the result is high word + low word. ReadDouble (ClassFile.cs:592-595) goes through ReadInt64, so Double entries get the same word sum as Long entries; ConstantPool.EightByteEntryValue and ConstantPool.Bits64AsWritten state this for both | the words 0x00000001 then 0x00000000 read as 1; the encoding of -1 reads as 0x1FFFFFFFE | a signed 64-bit value, high word first | not executed | BigEndian.Int64AsWrittenDiffers | BigEndian.Int64RoundTrip |
| src/Caffeine.Caffeinator/Class.cs:245-250 | a public nested class gets `Public` or-ed with `NestedPublic`, which is 3, `NestedPrivate` | a public interface whose declaring class is set | `NestedPublic` alone | not executed | AccessFlags.PublicNestedTypeComesOutPrivate | AccessFlags.TypeAttributesCorrectionIsLocal |
| src/Caffeine.Jni/JMethod.cs:122-156 | after a leading '[' the switch reads the next letter, and a second '[' falls to `default` and throws | the signature "()[[I" | any array return, including an array of arrays, is an object return | not executed | JniReturn.MultiDimensionalArrayReturn | JniReturn.ReturnOfEncodedMethod |
