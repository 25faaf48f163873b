# java-object-deserializer in Dafny

A model of the decoder in `Loader/Loader` of slawyn/java-object-deserializer:
a C# reader for the Java Object Serialization Stream Protocol (Java Object
Serialization Specification, chapter 6; grammar in section 6.4.1, constants
in section 6.4.2). The decoder checks the 4-byte stream header, then reads
content elements until the buffer is exhausted: class descriptors, objects
with their class data, arrays, strings and nulls. It registers every new
class, object, array, string and string value under a handle taken from one
counter that starts at `0x7E0000`, and it collects the top-level objects.

The model keeps the source's form, file by file:

| file | module | what it holds |
|---|---|---|
| `failures.dfy` | `Failures` | `Option`, `Result` and the named `Error` that replaces each exception the decoder can raise |
| `helper.dfy` | `Helper` | the byte-slice conversions of `Helper.cs`, as functions, plus the hex loop as a method |
| `rendering.dfy` | `Rendering` | the `ToString()` texts the decoder stores: decimal integers and `True`/`False` |
| `data_container.dfy` | `Cursor` | the forward-only byte reader `DataContainer`, a class over an immutable `seq<byte>` with an `offset` field |
| `application.dfy` | `Application` | `JavaClass`, `JavaObject` and `JavaArray` as classes updated in place; field descriptors and child values as datatypes |
| `slw_application.dfy` | `Registry` | the handle registry `SlwApplication`: class, variable and string tables as `map` fields, and the object list |
| `loader.dfy` | `Loader` | the recursive-descent decoder as methods of a `Loader` object whose field `currentHandle` is the C# static counter |

Every exception of the C# code is an `Err` of a `Result`. A failing step
aborts the whole decode, as an uncaught exception does; a method's
postconditions about the new state are stated for the success case and for
the failure cases the source handles explicitly. A child value of an object
or array is `Null`, an `Inline` primitive (the `JavaPrimitive` values of
`ReadField` get no handle), or a `Ref` to the handle under which the registry
holds the variable, so a back-reference is a table lookup rather than an
aliased pointer.

Recursion terminates because every recursive call follows at least one
popped byte: each recursive method decreases the pair (unread byte count,
rank of the method).

Where the specification of the protocol and the code differ, the model
follows the code:

- An annotation (`Loader.cs:513-530`) pops a second byte as a content tag when
  the first is not `TC_ENDBLOCKDATA`, drops the first, decodes one content
  element and looks for no terminator. Only an empty block agrees with the
  grammar's `contents endBlockData`.
- `ConvertToShort` (`Helper.cs:61-67`) reverses a copy but reads the
  un-reversed bytes, so a short is read with its two bytes swapped.
  `ConvertToFloat` and `ConvertToDouble` discard their reversed copy in the
  same way.
- `ReadField` reads a 2-byte length for `TC_LONGSTRING` as for `TC_STRING`
  (`Loader.cs:346-349`); `ParseNewString` reads 8 bytes (`Loader.cs:491-493`).
- `ConvertToLong` is `ConvertToUint64`: longs are unsigned.
- At the top level, `TC_CLASS`, `TC_ENUM`, `TC_REFERENCE`, `TC_EXCEPTION`,
  `TC_RESET`, `TC_BLOCKDATA` and `TC_BLOCKDATALONG` consume only their tag,
  and `TC_NULL` pops two more bytes (`Loader.cs:543-547`). Field-level and
  class-descriptor nulls consume nothing after the tag.
- `PopAlotOfBytes` casts a count below `2^63` to `int` unchecked: the low 32
  bits read as a signed int, so a large count can become negative and fail.
- Class data holds the sections of `jc.GetSuperClasses()` (`Loader.cs:395`)
  and then jc's own. That list holds only the direct superclass that jc's
  descriptor names (`Loader.cs:291-294`), not the whole chain of ancestors
  whose sections the protocol's `classdata` carries, so an object whose class
  has a grandparent with serializable fields is read short
  (`ClassDataLayout`).
- The decoder is not stateless: the handle counter is static
  (`Loader.cs:62`) and is set to `0x7E0000` only when the header matches.

## Model

| member | source | states |
|---|---|---|
| Helper.ConvertToUint16 | Loader/Loader/Helper.cs:18-21 | the result is below 2^16 and is the big-endian value of the first two bytes |
| Helper.ConvertToUint32 | Loader/Loader/Helper.cs:23-26 | the result is below 2^32 and is the big-endian value of the first four bytes |
| Helper.ConvertToUint64 | Loader/Loader/Helper.cs:28-31 | the result is below 2^64 and is the big-endian value of the first eight bytes |
| Helper.BigEndianOfToBigEndian | Loader/Loader/Helper.cs:18-31 | reading back the n-byte big-endian encoding of any v below 256^n gives v |
| Helper.ToBigEndianOfBigEndian | Loader/Loader/Helper.cs:18-31 | encoding the big-endian value of any byte sequence on its own length gives the sequence back, so the reading is injective |
| Helper.LittleEndianOfReversed | Loader/Loader/Helper.cs:48-53 | a host-order (little-endian) read of a reversed copy equals the big-endian read of the original |
| Helper.ConvertToInt | Loader/Loader/Helper.cs:48-54 | the result is a 32-bit signed value, and for a 4-byte slice it is the two's-complement reading of the big-endian value |
| Helper.ConvertToLong | Loader/Loader/Helper.cs:55-59 | a long is unsigned: below 2^64 and equal to the big-endian value of the first eight bytes |
| Helper.ConvertToShort | Loader/Loader/Helper.cs:61-67 | the result is a 16-bit signed value read from the first two bytes in swapped order |
| Helper.ConvertToBoolean | Loader/Loader/Helper.cs:69-75 | true exactly when the first byte is non-zero |
| Helper.ConvertToFloat | Loader/Loader/Helper.cs:33-39 | the single-precision text of the first four bytes taken un-reversed |
| Helper.ConvertToDouble | Loader/Loader/Helper.cs:41-46 | the double-precision text of the first eight bytes taken un-reversed |
| Helper.HexText | Loader/Loader/Helper.cs:77-83 | the hex text of n bytes has length 2n |
| Helper.ConvertToHexByte | Loader/Loader/Helper.cs:77-83 | the loop appends two digits per byte and ends with the hex text of the whole slice |
| Helper.HexRoundTrip | Loader/Loader/Helper.cs:77-83 | decoding the hex text two digits at a time gives the bytes back, so each byte is rendered as its own two upper-case digits in input order |
| Helper.ConvertToChar | Loader/Loader/Helper.cs:85-88 | the character's code is the byte, hence below 256 |
| Helper.ConvertToUTF | Loader/Loader/Helper.cs:90-95 | an empty slice gives the empty text and never fails; any other slice gives the library's UTF-8 decoding |
| Helper.UncheckedToInt32 | Loader/Loader/DataContainer.cs:63 | the cast yields the 32-bit signed value congruent to the count modulo 2^32, which is the count itself whenever the count is below 2^31 |
| Rendering.DecimalText | Loader/Loader/Loader.cs:324-325 | the text of a natural number is non-empty and made of decimal digits only |
| Rendering.DecimalRoundTrip | Loader/Loader/Loader.cs:324-325 | parsing the decimal text of n gives n |
| Rendering.DecimalTextInjective | Loader/Loader/Loader.cs:463 | distinct array indices give distinct keys |
| Rendering.IntText | Loader/Loader/Loader.cs:321-329 | the text is non-empty and starts with '-' exactly when the value is negative |
| Rendering.IntRoundTrip | Loader/Loader/Loader.cs:321-329 | parsing the text of any integer gives it back |
| Rendering.BoolText | Loader/Loader/Loader.cs:330-331 | the text is "True" exactly when the value is true, "False" otherwise |
| Cursor.DataContainer.constructor | Loader/Loader/DataContainer.cs:20-24 | the reader holds the given bytes at offset 0 |
| Cursor.DataContainer.GetAvailable | Loader/Loader/DataContainer.cs:26-31 | the unread count while the offset is inside the buffer, 0 otherwise; never negative, never above the length |
| Cursor.DataContainer.PopByte | Loader/Loader/DataContainer.cs:33-38 | the byte at the offset, and the offset advances by exactly one; at the end it fails with the offset unchanged |
| Cursor.DataContainer.PopNextControl | Loader/Loader/DataContainer.cs:40-42 | the same read as PopByte |
| Cursor.DataContainer.PeekByte | Loader/Loader/DataContainer.cs:45-48 | the byte at the offset, without moving; at the end it fails |
| Cursor.DataContainer.PeekBytes | Loader/Loader/DataContainer.cs:50-54 | the next count bytes, without moving; a negative or too large count fails |
| Cursor.DataContainer.PopBytes | Loader/Loader/DataContainer.cs:66-71 | exactly the bytes from the offset to offset + n, and the offset advances by n; an out-of-range n fails before the offset changes |
| Cursor.DataContainer.PopAlotOfBytes | Loader/Loader/DataContainer.cs:56-64 | a count of 2^63 or more gives an empty slice without moving; a smaller count is cast unchecked to 32 bits and popped as by PopBytes |
| Application.Names | Loader/Loader/Application/JavaClass.cs:20 | the field names in declaration order, one per field |
| Application.AppendKeepsUnique | Loader/Loader/Application/JavaClass.cs:33-38 | appending a field whose name is new keeps all names distinct |
| Application.JavaClass.constructor | Loader/Loader/Application/JavaClass.cs:24-31 | the class has the given name and serial UID, flags 0, no fields and no superclass |
| Application.JavaClass.AddField | Loader/Loader/Application/JavaClass.cs:33-38 | a new name is appended with its type after all earlier fields; a repeated name fails and leaves the fields unchanged; unique names stay unique |
| Application.JavaClass.AddSuperClass | Loader/Loader/Application/JavaClass.cs:41-47 | null is ignored; a class is appended at the end |
| Application.JavaClass.SetClassDescFlags | Loader/Loader/Application/JavaClass.cs:49-57 | afterwards GetClassDescFlags returns the value set, and nothing else changes |
| Application.JavaObject.constructor | Loader/Loader/Application/JavaObject.cs:17-21 | the object records its base class and has no values |
| Application.JavaObject.AddValue | Loader/Loader/Application/JavaObject.cs:23-26 | a new name gets its value (null allowed) and every other entry is kept; a name already present fails and changes nothing |
| Application.JavaArray.constructor | Loader/Loader/Application/JavaArray.cs:18-22 | the array records its class and has no elements |
| Application.JavaArray.AddValue | Loader/Loader/Application/JavaArray.cs:24-27 | a new key gets its element (null allowed) and every other element is kept; a key already present fails and changes nothing |
| Registry.SlwApplication.constructor | Loader/Loader/Application/SlwApplication.cs:24-31 | all three tables and the object list are empty, and the registry invariant holds for every counter value |
| Registry.SlwApplication.AddJavaObject | Loader/Loader/Application/SlwApplication.cs:43-49 | a non-null object is appended at the end; null is ignored |
| Registry.SlwApplication.CreateStringReference | Loader/Loader/Application/SlwApplication.cs:52-55 | a new handle maps to the string; a handle already present fails and changes nothing; a handle at the counter keeps every key below the next counter value |
| Registry.SlwApplication.GetStringByHandle | Loader/Loader/Application/SlwApplication.cs:57-62 | the stored string when the handle is present, None (null) otherwise, never a failure |
| Registry.SlwApplication.GetClassByHandle | Loader/Loader/Application/SlwApplication.cs:64-74 | the stored class, or a failure naming the absent handle |
| Registry.SlwApplication.GetVariableByHandle | Loader/Loader/Application/SlwApplication.cs:76-86 | the stored variable, or a failure naming the absent handle |
| Registry.SlwApplication.CreateObject | Loader/Loader/Application/SlwApplication.cs:88-101 | on a fresh handle exactly that entry is added and the returned object is the one stored; a handle in use fails and changes nothing; the registry invariant is kept |
| Registry.SlwApplication.CreateArray | Loader/Loader/Application/SlwApplication.cs:102-115 | on a fresh handle exactly that entry is added and the returned array is the one stored; a handle in use fails and changes nothing; the registry invariant is kept |
| Registry.SlwApplication.CreatePrimitive | Loader/Loader/Application/SlwApplication.cs:117-130 | on a fresh handle exactly that entry is added and returned; a handle in use fails and changes nothing; the registry invariant is kept |
| Registry.SlwApplication.CreateClass | Loader/Loader/Application/SlwApplication.cs:134-150 | on a fresh handle the class goes into the class table and its name into the string table; a class handle in use fails and changes nothing; a handle only in the string table fails after the class is stored; the registry invariant (bounded, disjoint tables, class name under the class handle) is kept |
| Loader.SuperLayoutSteps | Loader/Loader/Loader.cs:395-417 | each superclass appends its serializable fields, in declaration order, after those of the superclasses before it |
| Loader.LongLength | Loader/Loader/DataContainer.cs:56-64 | the length PopAlotOfBytes pops for an 8-byte count: the count itself below 2^31, nothing at 2^63 or above |
| Loader.ReadStep | Loader/Loader/Loader.cs:400-409 | one more field value of the field's type, read right after the previous ones, extends the reads of the field prefix by one and stores the value under the field's name |
| Loader.ElementStep | Loader/Loader/Loader.cs:458-464 | one more array element of the element type, read right after the previous ones, is keyed by the decimal text of its index and stored under it |
| Loader.ChainedSpans | Loader/Loader/Loader.cs:395-438 | reads that follow each other back to back lie in order, without overlap, inside the span they cover |
| Loader.SpansConcat | Loader/Loader/Loader.cs:395-438 | reads inside one span followed by reads inside the next span lie, in order and without overlap, inside both together |
| Loader.StoreConcat | Loader/Loader/Loader.cs:395-438 | storing two batches of values one after the other is storing their concatenation |
| Loader.ReadsOfConcat | Loader/Loader/Loader.cs:395-438 | the reads of a superclass section followed by the reads of the next section are the reads of the two field lists concatenated |
| Loader.AppendSection | Loader/Loader/Loader.cs:395-438 | one more section read after the earlier ones extends the reads to the concatenated layout, inside the whole span, with its values stored after the earlier ones |
| Loader.SectionStep | Loader/Loader/Loader.cs:395-438 | one more section starting where the earlier ones end extends the sections to the next class's flags, and its values follow theirs |
| Loader.SectionAppend | Loader/Loader/Loader.cs:395-438 | the section of the next class, read where the class data so far ends, extends the class data to that class's fields and flags, with its values stored after the earlier ones |
| Loader.ChainedConcat | Loader/Loader/Loader.cs:395-438 | back-to-back values followed by back-to-back values are back to back over both spans |
| Loader.SectionsChained | Loader/Loader/Loader.cs:395-438 | when no class's flags call for an object annotation, class data is its values back to back, with no byte between or after them |
| Loader.ClassDataFramed | Loader/Loader/Loader.cs:387-395 | reading class data changes neither the class-data layout nor the flags of its classes |
| Loader.StoreKeys | Loader/Loader/Loader.cs:403-408 | after storing values keyed by a list of names, the keys are the old keys and exactly those names |
| Loader.StoreFieldKeys | Loader/Loader/Loader.cs:403-408 | after storing the values of a field list, the keys are the old keys and exactly the field names |
| Loader.ContentsStep | Loader/Loader/Loader.cs:128-134 | one more top-level content read after the others extends the contents read, and adds its object to the object list exactly when it yields one |
| Loader.RegisteredValues | Loader/Loader/Loader.cs:128-134 | every object registered under a recorded handle is among the variables |
| Loader.Loader.constructor | Loader/Loader/Loader.cs:62 | the counter starts at 0, the default of the static field |
| Loader.Loader.Load | Loader/Loader/Loader.cs:115-150 | a short header fails; a wrong magic or version reads only the 4 header bytes and returns an empty registry with the counter untouched; a matching header with nothing after it returns empty tables and no objects with the counter at 0x7E0000; otherwise a successful decode consumes every byte, reads contents at increasing offsets starting just after the header, keeps every key below the counter, advances the counter by at most the number of bytes read, and its object list is exactly the objects of the contents at those offsets that are TC_OBJECT with a class, in stream order, each registered as a variable |
| Loader.Loader.LoadContents | Loader/Loader/Loader.cs:128-135 | the loop reads contents at increasing offsets, the first at the offset on entry, until no byte is left; the i-th content yields an object exactly when it is TC_OBJECT with a class, and the object list is those objects in order, each registered as a variable; with no bytes left nothing changes |
| Loader.Loader.LoadContent | Loader/Loader/Loader.cs:131-133 | one tag and its content are read, moving the offset forward; the content yields an object exactly when it is TC_OBJECT with a class, and that object is appended to the object list and registered as a variable |
| Loader.Loader.GenerateNewHandle | Loader/Loader/Loader.cs:105-108 | returns the counter and increments it by one |
| Loader.Loader.NewClass | Loader/Loader/Loader.cs:235 | a fresh class under the next handle, also registered as that handle's string; the registration cannot fail because the counter is above every key |
| Loader.Loader.NewObject | Loader/Loader/Loader.cs:394 | a fresh object under the next handle, which cannot be in use |
| Loader.Loader.NewArray | Loader/Loader/Loader.cs:457 | a fresh array under the next handle, which cannot be in use |
| Loader.Loader.NewString | Loader/Loader/Loader.cs:489-494 | the string under the next handle, which cannot be in use |
| Loader.Loader.NewPrimitive | Loader/Loader/Loader.cs:351 | the string primitive under the next handle, which cannot be in use |
| Loader.Loader.ParseNull | Loader/Loader/Loader.cs:543-547 | two bytes are popped and dropped; fewer than two fail |
| Loader.Loader.ReadNewString | Loader/Loader/Loader.cs:486-490 | a 2-byte length and that many bytes of UTF-8 text, registered under the next handle; the cursor ends just after the text; missing bytes fail |
| Loader.Loader.ReadLongLength | Loader/Loader/Loader.cs:491-493 | the 8-byte big-endian length, below 2^64, and the cursor moves past it; fewer than 8 bytes fail |
| Loader.Loader.ReadNewLongString | Loader/Loader/Loader.cs:491-495 | an 8-byte length, cast as PopAlotOfBytes casts it, and that many bytes of text, registered under the next handle; missing bytes fail |
| Loader.Loader.ParseNewString | Loader/Loader/Loader.cs:478-504 | TC_STRING reads a 2-byte length and TC_LONGSTRING an 8-byte length, each followed by that many bytes whose UTF-8 text is the result and is registered under the next handle; for these two tags the read succeeds exactly when the length and the text fit in the buffer, and fails with OutOfData otherwise; TC_REFERENCE reads a 4-byte handle and looks it up without failing and without allocating; other tags fail |
| Loader.Loader.ParseContent | Loader/Loader/Loader.cs:156-209 | only TC_OBJECT yields an object, newly registered in the variable table, and it yields one exactly when its class descriptor tag is neither TC_NULL nor TC_PROXYCLASSDESC; TC_ARRAY registers a new array variable whose class is null exactly when its descriptor tag is TC_NULL or TC_PROXYCLASSDESC; TC_STRING and TC_LONGSTRING succeed exactly when the string fits, registering its text, read as ParseNewString reads it, under the next handle; TC_CLASSDESC registers under the next handle a class that the descriptor's bytes describe; TC_PROXYCLASSDESC succeeds without reading or changing anything, as do the unsupported tags succeed without reading or changing anything; TC_NULL pops two bytes; any other byte fails; every success keeps the invariant, moves forward and loses no class or variable; it succeeds, reading exactly that many bytes, on an array whose descriptor tag is TC_NULL or TC_PROXYCLASSDESC and whose count is 0 (5 bytes), and fails with a null reference when that count is positive; it yields an object on a bare object (a new class descriptor with no field, no class annotation and no superclass, followed by empty class data) and ends where that object ends; it succeeds and ends where the descriptor ends on a bare class descriptor |
| Loader.Loader.ParseObject | Loader/Loader/Loader.cs:555-574 | the result is null exactly when the class descriptor tag is TC_NULL or TC_PROXYCLASSDESC, and then only that tag is read; otherwise the new object is registered under a new handle, its class is a registered class, its values are read in the order of its class-data layout, each of its field's type, from disjoint spans in stream order; the class data after the descriptor is one section per class of the layout, back to back up to the end of the object, each section its values back to back with an annotation after them exactly when the class's flags call for one; its keys are exactly the layout's field names; other tags fail; on a bare object (a new class descriptor with no field, no class annotation and no superclass, then class data that is empty or a lone TC_ENDBLOCKDATA when the flags call for an annotation) it yields an object and ends where that object ends |
| Loader.Loader.ReadObjectClass | Loader/Loader/Loader.cs:564 | the object's class descriptor, tag included: no class exactly for TC_NULL or TC_PROXYCLASSDESC, and then only the tag is read; a returned class is registered; at least 1 byte is read per handle allocated; on a bare object it yields a class with no field and no superclass whose flags and end position make the empty class data that follows readable |
| Loader.Loader.ParseNewClassDesc | Loader/Loader/Loader.cs:216-253 | TC_CLASSDESC registers a new class under the handle current before its class info, with the name, UID, flags byte and field count read from the stream; TC_REFERENCE reads a 4-byte handle and resolves it through the class table or fails; TC_NULL and TC_PROXYCLASSDESC yield no class and read nothing, and only they yield none; other tags fail; on a bare new descriptor (its header fits, a zero field count, TC_ENDBLOCKDATA, then TC_NULL or TC_PROXYCLASSDESC) it succeeds, ending 15 bytes after the name, with a class that has no field and no superclass and the flags byte read |
| Loader.Loader.ReadClassHeader | Loader/Loader/Loader.cs:232-234 | a 2-byte length, the UTF-8 name and the 8-byte UID, read at the offset; missing bytes fail |
| Loader.Loader.ReadClassDesc | Loader/Loader/Loader.cs:231-239 | the class is registered under the handle current on entry and carries the name and UID of its header and the flags byte and field count of the class info that follows; on a bare descriptor it succeeds, ending 15 bytes after the name, with no field and no superclass |
| Loader.Loader.ParseClassDescInfo | Loader/Loader/Loader.cs:261-295 | the flags are the first byte, exactly the 2-byte field count of fields are appended after the existing ones, names stay unique, and the superclass is appended exactly when its descriptor tag is neither TC_NULL nor TC_PROXYCLASSDESC, as a registered class; with a zero field count, TC_ENDBLOCKDATA and TC_NULL or TC_PROXYCLASSDESC it succeeds after exactly 5 bytes, leaving fields and superclasses as they were |
| Loader.Loader.ReadFieldDescs | Loader/Loader/Loader.cs:270-288 | exactly count fields are appended after the existing ones, and unique names stay unique; a count of 0 succeeds without reading |
| Loader.Loader.ReadFieldHeader | Loader/Loader/Loader.cs:273-275 | the type code byte, a 2-byte length and that many bytes of UTF-8 name; missing bytes fail |
| Loader.Loader.ReadFieldDesc | Loader/Loader/Loader.cs:272-287 | one field is appended with the name read from the stream; for '[' or 'L' its type is the text of the string content that follows (decoded for TC_STRING and TC_LONGSTRING, looked up for TC_REFERENCE), otherwise the type code character with nothing more read; a repeated name fails |
| Loader.Loader.ReadFieldSignature | Loader/Loader/Loader.cs:281 | a content tag, then the string content it announces, read as ParseNewString reads it; for TC_STRING and TC_LONGSTRING it succeeds exactly when the string fits in the buffer |
| Loader.Loader.ReadClassDescTail | Loader/Loader/Loader.cs:291-294 | the superclass descriptor is read after the class annotation, right after its tag when that tag is TC_ENDBLOCKDATA and further on otherwise; the superclass is appended exactly when that descriptor's tag is neither TC_NULL nor TC_PROXYCLASSDESC, and is a registered class; TC_ENDBLOCKDATA followed by TC_NULL or TC_PROXYCLASSDESC succeeds after exactly those 2 bytes with no superclass |
| Loader.Loader.ReadField | Loader/Loader/Loader.cs:303-380 | a null type fails as a null dereference and an empty one as an index error; a primitive code consumes its width (B/C/Z 1, S 2, I/F 4, J/D 8) and yields its text without touching the registry; '[' and 'L' read one content element as a field value; an unknown code fails; a reference child always names a registered variable |
| Loader.Loader.ReadPrimitive | Loader/Loader/Loader.cs:309-332 | exactly the code's width in bytes is consumed and rendered: a byte as two hex digits, a char by its code, an int as big-endian two's complement, a long unsigned, a short byte-swapped, a boolean as non-zero |
| Loader.Loader.ReadObjectField | Loader/Loader/Loader.cs:333-376 | TC_NULL yields null after the tag; a string tag reads a 2-byte length and text and stores it as a primitive under the next handle; TC_REFERENCE reads a 4-byte handle that must be a variable's; an array yields a reference to an array variable; an object yields null exactly when its class descriptor tag is TC_NULL or TC_PROXYCLASSDESC, reading only that tag after TC_OBJECT, and a reference to an object variable otherwise; any other tag fails |
| Loader.Loader.ReadArrayField | Loader/Loader/Loader.cs:358-363 | a new array, referred to by the handle of its array variable |
| Loader.Loader.ReadNestedObjectField | Loader/Loader/Loader.cs:368-371 | a new object, referred to by the handle of its object variable, or null exactly when its class descriptor tag is TC_NULL or TC_PROXYCLASSDESC, in which case only that tag is read |
| Loader.Loader.ReadStringField | Loader/Loader/Loader.cs:346-352 | a 2-byte length and that many bytes of text, stored as a primitive under the next handle, which is returned |
| Loader.Loader.ReadReferenceField | Loader/Loader/Loader.cs:353-357 | a 4-byte handle that resolves through the variable table, or a failure naming it |
| Loader.Loader.ParseClassData | Loader/Loader/Loader.cs:387-439 | the object is registered under the handle current on entry, before any field is read; its values are read in the order of the class-data layout (superclasses first, only serializable classes, declaration order), each of its field's type and stored under its name, from disjoint spans in stream order; the bytes read are the sections of the superclass and of the class, back to back, each its values back to back followed by an annotation exactly when that class's flags call for one; every reference it holds resolves; for a class with no field and no superclass it succeeds when the class data is empty, or a lone TC_ENDBLOCKDATA where the flags call for an annotation, and ends right after it |
| Loader.Loader.ReadObjectData | Loader/Loader/Loader.cs:567 | the class data of a new object as ParseClassData reads it, and its keys are exactly the field names of the class-data layout; it succeeds on the empty class data of a class with no field and no superclass, as ParseClassData |
| Loader.Loader.ReadClassData | Loader/Loader/Loader.cs:395-438 | the superclass sections, then the class's own, read the values of the class-data layout in that order and store them under the field names; the sections cover the bytes read back to back, and each holds its values back to back, followed by an annotation exactly when its class's flags call for one; the stored keys are the layout's field names; for a class with no field and no superclass it succeeds on empty class data, or a lone TC_ENDBLOCKDATA where the flags call for an annotation |
| Loader.Loader.ReadSuperSections | Loader/Loader/Loader.cs:395-417 | the superclass sections, back to back over the bytes read, read the values of the superclasses' serializable fields in order and store them under the field names; each section holds its values back to back, followed by an annotation exactly when that superclass's flags call for one; with no superclass it succeeds |
| Loader.Loader.ReadClassSection | Loader/Loader/Loader.cs:397-416 | a class's field values are read back to back from the start, only when it is serializable; an object annotation follows them exactly when its flags call for one, and nothing follows otherwise; a class with no field succeeds on an empty section, or a lone TC_ENDBLOCKDATA where its flags call for an annotation, and ends right after it |
| Loader.Loader.ReadSectionFields | Loader/Loader/Loader.cs:400-409 | one value per field in declaration order, each of the field's type, read back to back and stored under the field's name; every reference resolves; no field succeeds without reading |
| Loader.Loader.ReadSectionField | Loader/Loader/Loader.cs:403-408 | the value ReadField reads for the field's type, from the bytes just consumed, is stored under the field's name and nothing else changes in the object; a name the object already holds fails |
| Loader.Loader.ParseNewArray | Loader/Loader/Loader.cs:447-470 | the class descriptor and a 4-byte count come first, the array is null-classed exactly when the descriptor tag is TC_NULL or TC_PROXYCLASSDESC, and then the array is registered under a new handle; exactly count elements follow back to back, each of the type named by the class name after its first character, keyed by the decimal texts of 0 .. count-1; every reference resolves; other tags fail; with a TC_NULL or TC_PROXYCLASSDESC descriptor tag and 5 bytes present it succeeds after exactly those 5 bytes when the count is 0, and fails with a null reference when the count is positive |
| Loader.Loader.ReadArray | Loader/Loader/Loader.cs:457-464 | the array is registered under the handle current on entry, then exactly size elements of the class's element type are read back to back, keyed by their indices; a size of 0 succeeds without reading, and a null class with a positive size fails with a null reference |
| Loader.Loader.ReadArrayHeader | Loader/Loader/Loader.cs:453-456 | the array's class descriptor, null exactly for TC_NULL or TC_PROXYCLASSDESC, then the count as the big-endian value of the last 4 bytes read; at least 5 bytes are read per handle allocated; a TC_NULL or TC_PROXYCLASSDESC tag with 4 more bytes present yields no class and the big-endian count of those 4 bytes, after exactly 5 bytes |
| Loader.Loader.ReadArrayElements | Loader/Loader/Loader.cs:458-464 | exactly size elements of the type named by the class name after its first character, read back to back and keyed by the decimal texts of 0 .. size-1; every reference resolves; a null class fails as a null dereference and an empty class name as a substring error once there is an element to read; a size of 0 succeeds without reading |
| Loader.Loader.ReadArrayElement | Loader/Loader/Loader.cs:460-463 | the element ReadField reads for the element type, from the bytes just consumed, is stored under the decimal text of its index |
| Loader.Loader.ParseClassAnnotation | Loader/Loader/Loader.cs:513-521 | TC_ENDBLOCKDATA reads and changes nothing; any other tag is dropped and the next byte is decoded as one content element, so at least one byte is read |
| Loader.Loader.ParseObjectAnnotation | Loader/Loader/Loader.cs:523-530 | read exactly as a class annotation |
| Loader.Loader.ParseSuperClassDesc | Loader/Loader/Loader.cs:537-541 | a class descriptor: it yields no superclass exactly for TC_NULL or TC_PROXYCLASSDESC, a class returned is registered, other tags fail; TC_NULL and TC_PROXYCLASSDESC yield no superclass without reading or changing anything |

## Left out

- `Main` (`Loader.cs:70-97`): file reading, argument handling and exception reporting.
- `Logger.cs` and every `Logger.Log` call: console output. Each call is a no-op here.
- `PrintClasses` (`SlwApplication.cs:33-41`) and its call in `Load`: console output.
- The internals of `Encoding.UTF8.GetString`, `BitConverter.ToSingle`/`ToDouble` and the floating-point `ToString()`: they are the uninterpreted functions of a `Runtime` value.
- Helper.ConvertToFloat: stated only as the library's text of the four un-reversed bytes, because floating point is not modelled.
- Helper.ConvertToDouble: stated only as the library's text of the eight un-reversed bytes, because floating point is not modelled.
- `BitConverter` host order: the host is taken to be little-endian.
- The commented-out array-depth code (`Loader.cs:336-344`) and the `TC_PROXYCLASSDESC` branch (`Loader.cs:225-228`), which only logs and yields no class.
- The getters `GetClassDescFlags`, `GetSuperClasses`, `GetFields` and `GetClassName` return their field and carry no contract of their own.
- Enumeration order of `Dictionary` and `SortedDictionary`: tables are maps. Field declarations keep their order as a sequence.
- The handle counter is an unbounded `nat`. `Load` proves it stays at most `0x7E0000` plus the stream length, so it cannot wrap for any buffer .NET can allocate.
- Loader.Loader.ParseObject: the object's class data is a map, so the insertion order of the `Dictionary` is stated through the ghost trace of reads rather than on the map itself.
- Loader.Loader.ReadField: a value that is a new object, array or string is stated by its tag, its span's bounds, whether it is null and the kind of variable it refers to; what the nested content holds is stated by the contracts of ParseObject, ParseNewArray and ReadStringField, not carried into the enclosing object's or array's contract.
- Loader.Loader.ParseClassDescInfo: the fields appended are counted and kept in order, and their names stay unique; each field's bytes and type are stated by ReadFieldDesc, not repeated over the loop in ReadFieldDescs.
- Loader.Loader.ParseClassAnnotation: the content element decoded is described only by ParseContent's contract; the exact bytes read are stated only when its tag is one of the skipped tags.
- Loader.Loader.ParseObjectAnnotation: as ParseClassAnnotation.
- Loader.Loader.ParseContent: for TC_OBJECT, TC_ARRAY and TC_CLASSDESC it states what is registered and the facts listed in its row, but where the content ends only for the cases its row names, and not the object's class data or the array's elements; those are stated only by ParseObject and ParseNewArray.
- Loader.Loader.ParseContent: success on TC_OBJECT, TC_ARRAY and TC_CLASSDESC is stated only for the bare object, the bare class descriptor and the empty null-class array; for other such contents the contract states what holds if decoding succeeds (partial correctness), so a decoder that failed on them would meet it.
- Loader.Loader.ParseObject: success is stated only for a descriptor tag of TC_NULL or TC_PROXYCLASSDESC and for the bare object; for other objects the contract states what holds if decoding succeeds (partial correctness), so a decoder that failed on them would meet it.
- Loader.Loader.ParseNewArray: success is stated only for the empty array with a TC_NULL or TC_PROXYCLASSDESC descriptor tag; for other arrays the contract states what holds if decoding succeeds (partial correctness), so a decoder that failed on them would meet it.
- Loader.Loader.ParseNewClassDesc: success on TC_CLASSDESC is stated only for the bare descriptor (no field, no class annotation, no superclass); for other descriptors the contract states what holds if decoding succeeds (partial correctness), so a decoder that failed on them would meet it.
- Loader.Loader.Load: a failure inside the loop is an error result, where C# propagates the exception to `Main`; what each content holds beyond yielding an object is left to ParseContent's contract.
- Loader.Loader.Load: the contents are stated at increasing offsets, but a content's offset is not tied to where the previous one ended, because where a content ends is not stated for every tag (ParseContent); the object list is therefore stated only for the offsets the loop visited, and a decoder that skipped bytes between contents would meet the same contract.
- Loader.Loader.LoadContents: as Load, the contents are stated at increasing offsets, not back to back.
- Loader.Loader.LoadContent: the bytes the content occupies are bounded only from below (the offset moves forward), for the reason given for Load.
- Loader.Loader.ReadClassDesc: the class handle is the one current on entry, and every later allocation uses a higher counter value, but "below every handle allocated in its class info" is not restated as a postcondition over the tables.
- Table disjointness and the class-name/string-table agreement (`Registry.SlwApplication.Valid`) are proved for each creation step; the decoder's own invariant carries only the bound on keys (`Bounded`).
- Loader.Loader.ReadClassDescTail: where a non-empty annotation ends is stated only as lying after its first byte, because the annotation's length is that of the content element ParseContent decodes.
- Rendering.IntText: `Int16.ToString()` and `Int32.ToString()` use the current culture's `NegativeSign`; the model assumes the invariant culture's '-'.
