/**
 * The recursive-descent stream decoder (Loader/Loader/Loader.cs) for the
 * Java Object Serialization Stream Protocol (Java Object Serialization
 * Specification, chapter 6: grammar in section 6.4.1, constants in section
 * 6.4.2).
 *
 * The C# class is static, with one static handle counter; here the counter
 * is the field `currentHandle` of a `Loader` object, and the .NET library
 * calls the conversions make are its `rt` field. Logging is left out: every
 * `Logger.Log` call is a no-op.
 */
module Loader {
  import opened Failures
  import opened Helper
  import opened Rendering
  import opened Cursor
  import opened Application
  import opened Registry

  const STREAM_MAGIC: nat := 0xACED
  const STREAM_VERSION: nat := 5

  const TC_NULL: byte := 0x70
  const TC_REFERENCE: byte := 0x71
  const TC_CLASSDESC: byte := 0x72
  const TC_OBJECT: byte := 0x73
  const TC_STRING: byte := 0x74
  const TC_ARRAY: byte := 0x75
  const TC_CLASS: byte := 0x76
  const TC_BLOCKDATA: byte := 0x77
  const TC_ENDBLOCKDATA: byte := 0x78
  const TC_RESET: byte := 0x79
  const TC_BLOCKDATALONG: byte := 0x7A
  const TC_EXCEPTION: byte := 0x7B
  const TC_LONGSTRING: byte := 0x7C
  const TC_PROXYCLASSDESC: byte := 0x7D
  const TC_ENUM: byte := 0x7E

  const SC_WRITE_METHOD: bv8 := 0x01
  const SC_SERIALIZABLE: bv8 := 0x02
  const SC_EXTERNALIZABLE: bv8 := 0x04
  const SC_BLOCK_DATA: bv8 := 0x08
  const SC_ENUM: bv8 := 0x10

  const BASE_WIRE_HANDLE: nat := 0x7E0000

  /** Content tags the top-level dispatch accepts and skips without reading anything more. */
  predicate IsUnsupportedTag(tag: byte)
  {
    tag in {TC_CLASS, TC_ENUM, TC_REFERENCE, TC_EXCEPTION, TC_RESET, TC_BLOCKDATA, TC_BLOCKDATALONG}
  }

  /** Content tags the top-level dispatch accepts at all (every tag from 0x70 to 0x7E but TC_ENDBLOCKDATA). */
  predicate IsContentTag(tag: byte)
  {
    IsUnsupportedTag(tag) ||
    tag in {TC_OBJECT, TC_ARRAY, TC_STRING, TC_LONGSTRING, TC_PROXYCLASSDESC, TC_CLASSDESC, TC_NULL}
  }

  /** `(flags & flag) == flag`. */
  predicate HasFlag(flags: byte, flag: bv8)
  {
    (flags as bv8) & flag == flag
  }

  /** Class data holds field values only for a serializable class. */
  predicate IsSerializable(flags: byte)
  {
    HasFlag(flags, SC_SERIALIZABLE)
  }

  /** Class data ends with an object annotation for a class written by writeObject or in block-data mode. */
  predicate HasObjectAnnotation(flags: byte)
  {
    (HasFlag(flags, SC_SERIALIZABLE) && HasFlag(flags, SC_WRITE_METHOD))
    || (HasFlag(flags, SC_EXTERNALIZABLE) && HasFlag(flags, SC_BLOCK_DATA))
  }

  /** The primitive field type codes. */
  predicate IsPrimitiveCode(code: char)
  {
    code in "BCDFIJSZ"
  }

  /** How many bytes a primitive field value occupies on the wire. */
  function PrimitiveWidth(code: char): (n: nat)
    requires IsPrimitiveCode(code)
    ensures 1 <= n <= 8
  {
    match code
    case 'B' => 1
    case 'C' => 1
    case 'Z' => 1
    case 'S' => 2
    case 'I' => 4
    case 'F' => 4
    case 'J' => 8
    case 'D' => 8
  }

  /**
   * The text the decoder stores for a primitive field value read from the
   * bytes w, stated with the reference readings of the wire: a byte as two
   * upper-case hex digits, a char by its code, an int as the big-endian
   * two's-complement value, a long as the unsigned big-endian value, a
   * short from its two bytes taken in swapped order, a boolean as "True"
   * exactly when the byte is non-zero.
   */
  ghost function PrimitiveText(rt: Runtime, code: char, w: seq<byte>): string
    requires IsPrimitiveCode(code) && |w| == PrimitiveWidth(code)
  {
    match code
    case 'B' => [HexDigit(w[0] / 16), HexDigit(w[0] % 16)]
    case 'C' => [w[0] as char]
    case 'Z' => if w[0] != 0 then "True" else "False"
    case 'S' => IntText(Signed16(BigEndian([w[1], w[0]])))
    case 'I' => IntText(Signed32(ConvertToUint32(w)))
    case 'F' => rt.singleText(w)
    case 'J' => DecimalText(BigEndian(w))
    case 'D' => rt.doubleText(w)
  }

  /** The keys of an array with n elements: the decimal texts of 0 .. n-1. */
  ghost function IndexKeys(n: nat): set<string>
  {
    set i | 0 <= i < n :: DecimalText(i)
  }

  /** Every handle a child refers to is in the variable table. */
  ghost predicate Resolves(children: map<string, Child>, variables: map<Handle, Variable>)
  {
    forall k :: k in children && children[k].Ref? ==> children[k].handle in variables
  }

  /** The names occurring in a sequence of names. */
  ghost function Elements(names: seq<string>): set<string>
  {
    set name | name in names
  }

  /** The fields a class contributes to class data: its fields when it is serializable. */
  ghost function SerialFields(c: JavaClass): seq<FieldDesc>
    reads c
  {
    if IsSerializable(c.classDescFlags) then c.fields else []
  }

  /** The fields the superclasses contribute, outermost first. */
  ghost function SuperLayout(supers: seq<JavaClass>): seq<FieldDesc>
    reads supers
  {
    if supers == [] then []
    else SuperLayout(supers[..|supers| - 1]) + SerialFields(supers[|supers| - 1])
  }

  /** Each further superclass appends its serial fields to those of the prefix before it. */
  lemma SuperLayoutSteps(supers: seq<JavaClass>)
    ensures forall i :: 0 <= i < |supers| ==>
      SuperLayout(supers[..i + 1]) == SuperLayout(supers[..i]) + SerialFields(supers[i])
  {
    forall i | 0 <= i < |supers|
      ensures SuperLayout(supers[..i + 1]) == SuperLayout(supers[..i]) + SerialFields(supers[i])
    {
      assert supers[..i + 1][..i] == supers[..i];
    }
  }

  /** The fields whose values class data for jc holds, in the order they are read: superclasses' first, then jc's own. */
  ghost function ClassDataLayout(jc: JavaClass): seq<FieldDesc>
    reads jc, jc.superClasses
  {
    SuperLayout(jc.superClasses) + SerialFields(jc)
  }

  /** A class descriptor tag that yields no class. */
  predicate NoClass(tag: byte)
  {
    tag == TC_NULL || tag == TC_PROXYCLASSDESC
  }

  /**
   * One value read for class data or for an array: the key it is stored
   * under, the value, and the span bytes[start..end] it was read from.
   */
  datatype FieldRead = FieldRead(key: string, value: Child, start: nat, end: nat)

  /** The map m after storing each read's value under its key, in order. */
  ghost function Store(m: map<string, Child>, trace: seq<FieldRead>): map<string, Child>
  {
    if trace == [] then m
    else Store(m, trace[..|trace| - 1])[trace[|trace| - 1].key := trace[|trace| - 1].value]
  }

  /** The reads cover bytes[from..to] back to back, in order. */
  ghost predicate Chained(trace: seq<FieldRead>, from: nat, to: nat)
  {
    if trace == [] then from == to
    else
      var last := trace[|trace| - 1];
      Chained(trace[..|trace| - 1], from, last.start) && last.start < last.end == to
  }

  /** The reads lie inside bytes[from..to], in order and without overlapping. */
  ghost predicate Spans(trace: seq<FieldRead>, from: nat, to: nat)
  {
    if trace == [] then from <= to
    else
      var last := trace[|trace| - 1];
      Spans(trace[..|trace| - 1], from, last.start) && last.start < last.end <= to
  }

  /**
   * A content element read as the value of an object or array field from
   * bytes[start..end]: null; a reference to the 4-byte handle that
   * follows; a new string whose 2-byte length follows (TC_LONGSTRING
   * too); a new array; or an object, null exactly when its class
   * descriptor yields no class, in which case that tag is all it takes.
   */
  ghost predicate ObjectValueAt(bytes: seq<byte>, value: Child, start: nat, end: nat)
  {
    && start < end <= |bytes|
    && var tag := bytes[start];
    && tag in {TC_NULL, TC_REFERENCE, TC_STRING, TC_LONGSTRING, TC_ARRAY, TC_OBJECT}
    && (tag == TC_NULL ==> value == Null && end == start + 1)
    && (tag == TC_REFERENCE ==> end == start + 5 && value == Ref(BigEndian(bytes[start + 1..end])))
    && (tag == TC_STRING || tag == TC_LONGSTRING ==>
          && start + 3 <= end
          && end == start + 3 + BigEndian(bytes[start + 1..start + 3])
          && value.Ref?)
    && (tag == TC_ARRAY ==> value.Ref?)
    && (tag == TC_OBJECT ==>
          && start + 1 < end && (value.Null? <==> NoClass(bytes[start + 1]))
          && (NoClass(bytes[start + 1]) ==> end == start + 2))
  }

  /**
   * A value of type signature typ read from bytes[start..end]: a primitive
   * code takes PrimitiveWidth bytes, rendered as PrimitiveText; an object
   * or array code takes one content element (ObjectValueAt).
   */
  ghost predicate ValueAt(rt: Runtime, typ: Option<string>, bytes: seq<byte>, value: Child, start: nat, end: nat)
  {
    && start < end <= |bytes|
    && typ.Some? && typ.value != ""
    && var code := typ.value[0];
    if IsPrimitiveCode(code) then
      end == start + PrimitiveWidth(code) && value == Inline(PrimitiveText(rt, code, bytes[start..end]))
    else
      (code == '[' || code == 'L') && ObjectValueAt(bytes, value, start, end)
  }

  /** Each read is a value of the corresponding field's type, keyed by the field's name. */
  ghost predicate ReadsOf(rt: Runtime, bytes: seq<byte>, fields: seq<FieldDesc>, trace: seq<FieldRead>)
  {
    && |trace| == |fields|
    && forall k :: 0 <= k < |trace| ==>
         trace[k].key == fields[k].name && ValueAt(rt, fields[k].typ, bytes, trace[k].value, trace[k].start, trace[k].end)
  }

  /** Each read is an element of type signature typ, keyed by the decimal text of its index. */
  ghost predicate ElementsOf(rt: Runtime, bytes: seq<byte>, typ: Option<string>, trace: seq<FieldRead>)
  {
    forall k :: 0 <= k < |trace| ==>
      trace[k].key == DecimalText(k) && ValueAt(rt, typ, bytes, trace[k].value, trace[k].start, trace[k].end)
  }

  /** One more field value read right after the previous ones. */
  lemma ReadStep(rt: Runtime, bytes: seq<byte>, m: map<string, Child>, fields: seq<FieldDesc>, j: nat, trace: seq<FieldRead>,
                 from: nat, read: FieldRead)
    requires j < |fields| && ReadsOf(rt, bytes, fields[..j], trace) && Chained(trace, from, read.start)
    requires read.key == fields[j].name && ValueAt(rt, fields[j].typ, bytes, read.value, read.start, read.end)
    ensures ReadsOf(rt, bytes, fields[..j + 1], trace + [read])
    ensures Chained(trace + [read], from, read.end)
    ensures Store(m, trace + [read]) == Store(m, trace)[read.key := read.value]
  {
    assert fields[..j + 1] == fields[..j] + [fields[j]];
    assert (trace + [read])[..|trace|] == trace;
  }

  /** One more array element read right after the previous ones. */
  lemma ElementStep(rt: Runtime, bytes: seq<byte>, m: map<string, Child>, typ: Option<string>, trace: seq<FieldRead>,
                    from: nat, read: FieldRead)
    requires ElementsOf(rt, bytes, typ, trace) && Chained(trace, from, read.start)
    requires read.key == DecimalText(|trace|) && ValueAt(rt, typ, bytes, read.value, read.start, read.end)
    ensures ElementsOf(rt, bytes, typ, trace + [read])
    ensures Chained(trace + [read], from, read.end)
    ensures Store(m, trace + [read]) == Store(m, trace)[read.key := read.value]
  {
    assert (trace + [read])[..|trace|] == trace;
  }

  /** Back-to-back reads lie inside the span they cover. */
  lemma {:induction false} ChainedSpans(trace: seq<FieldRead>, from: nat, to: nat)
    requires Chained(trace, from, to)
    ensures Spans(trace, from, to)
  {
    if trace != [] {
      ChainedSpans(trace[..|trace| - 1], from, trace[|trace| - 1].start);
    }
  }

  /** Reads inside one span followed by reads inside the next lie inside both. */
  lemma {:induction false} SpansConcat(a: seq<FieldRead>, b: seq<FieldRead>, from: nat, mid: nat, to: nat)
    requires Spans(a, from, mid) && Spans(b, mid, to)
    ensures Spans(a + b, from, to)
  {
    if b == [] {
      assert a + b == a;
      if a != [] {
        assert Spans(a[..|a| - 1], from, a[|a| - 1].start);
      }
    } else {
      var last := b[|b| - 1];
      SpansConcat(a, b[..|b| - 1], from, mid, last.start);
      assert (a + b)[..|a + b| - 1] == a + b[..|b| - 1];
    }
  }

  /** Storing two batches of reads is storing their concatenation. */
  lemma {:induction false} StoreConcat(m: map<string, Child>, a: seq<FieldRead>, b: seq<FieldRead>)
    ensures Store(m, a + b) == Store(Store(m, a), b)
  {
    if b == [] {
      assert a + b == a;
    } else {
      StoreConcat(m, a, b[..|b| - 1]);
      assert (a + b)[..|a + b| - 1] == a + b[..|b| - 1];
    }
  }

  /** The keys after storing reads keyed by the given names: the old keys and the names. */
  lemma {:induction false} StoreKeys(m: map<string, Child>, trace: seq<FieldRead>, names: seq<string>)
    requires |trace| == |names| && forall k :: 0 <= k < |trace| ==> trace[k].key == names[k]
    ensures Store(m, trace).Keys == m.Keys + Elements(names)
  {
    if trace != [] {
      var n := |trace| - 1;
      StoreKeys(m, trace[..n], names[..n]);
      assert names == names[..n] + [names[n]];
      assert Elements(names) == Elements(names[..n]) + {names[n]};
    }
  }

  /** The keys after storing reads of the given fields: the old keys and the field names. */
  lemma StoreFieldKeys(rt: Runtime, bytes: seq<byte>, m: map<string, Child>, fields: seq<FieldDesc>, trace: seq<FieldRead>)
    requires ReadsOf(rt, bytes, fields, trace)
    ensures Store(m, trace).Keys == m.Keys + Elements(Names(fields))
  {
    StoreKeys(m, trace, Names(fields));
  }

  /**
   * A section of back-to-back reads appended after reads lying inside
   * bytes[from..mid]: together they are reads of the two field lists,
   * in order, inside bytes[from..to].
   */
  lemma AppendSection(rt: Runtime, bytes: seq<byte>, m: map<string, Child>,
                      before: seq<FieldDesc>, trace: seq<FieldRead>, fields: seq<FieldDesc>, section: seq<FieldRead>,
                      from: nat, mid: nat, end: nat, to: nat)
    requires ReadsOf(rt, bytes, before, trace) && Spans(trace, from, mid)
    requires ReadsOf(rt, bytes, fields, section) && Chained(section, mid, end) && end <= to
    ensures ReadsOf(rt, bytes, before + fields, trace + section)
    ensures Spans(trace + section, from, to)
    ensures Store(m, trace + section) == Store(Store(m, trace), section)
  {
    ReadsOfConcat(rt, bytes, before, trace, fields, section);
    ChainedSpans(section, mid, end);
    SpansWiden(section, mid, end, to);
    SpansConcat(trace, section, from, mid, to);
    StoreConcat(m, trace, section);
  }

  /** Reads of two field lists, one after the other, are reads of their concatenation. */
  lemma ReadsOfConcat(rt: Runtime, bytes: seq<byte>, f1: seq<FieldDesc>, t1: seq<FieldRead>, f2: seq<FieldDesc>, t2: seq<FieldRead>)
    requires ReadsOf(rt, bytes, f1, t1) && ReadsOf(rt, bytes, f2, t2)
    ensures ReadsOf(rt, bytes, f1 + f2, t1 + t2)
  {
    forall k | |t1| <= k < |t1 + t2|
      ensures (t1 + t2)[k] == t2[k - |t1|] && (f1 + f2)[k] == f2[k - |t1|]
    {
    }
  }

  /** Reads inside a span lie inside any span that reaches further. */
  lemma SpansWiden(trace: seq<FieldRead>, from: nat, to: nat, further: nat)
    requires Spans(trace, from, to) && to <= further
    ensures Spans(trace, from, further)
  {
  }

  /** Reads inside a span lie inside any span that starts earlier. */
  lemma {:induction false} SpansFrom(trace: seq<FieldRead>, earlier: nat, from: nat, to: nat)
    requires Spans(trace, from, to) && earlier <= from
    ensures Spans(trace, earlier, to)
  {
    if trace != [] {
      SpansFrom(trace[..|trace| - 1], earlier, from, trace[|trace| - 1].start);
    }
  }

  /**
   * One class's section of class data, read from bytes[start..end]: the
   * values read for its fields end at fieldsEnd, and its object
   * annotation, if any, takes the rest.
   */
  datatype Section = Section(values: seq<FieldRead>, start: nat, fieldsEnd: nat, end: nat)

  /** The classes' flag bytes, in order. */
  ghost function Flags(classes: seq<JavaClass>): (flags: seq<byte>)
    reads classes
    ensures |flags| == |classes|
    ensures forall k :: 0 <= k < |classes| ==> flags[k] == classes[k].classDescFlags
  {
    if classes == [] then []
    else Flags(classes[..|classes| - 1]) + [classes[|classes| - 1].classDescFlags]
  }

  /** Class data's layout and flags depend only on the classes, which a step that leaves them unchanged keeps. */
  twostate lemma ClassDataFramed(jc: JavaClass)
    requires unchanged(jc) && unchanged(jc.superClasses)
    ensures ClassDataLayout(jc) == old(ClassDataLayout(jc)) && ClassDataFlags(jc) == old(ClassDataFlags(jc))
  {
  }

  /** The flags of the classes whose sections class data for jc holds, in order: superclasses' first, then jc's. */
  ghost function ClassDataFlags(jc: JavaClass): seq<byte>
    reads jc, jc.superClasses
  {
    Flags(jc.superClasses + [jc])
  }

  /**
   * A section for a class with these flags: its field values back to back
   * from its start, then something more exactly when the flags call for
   * an object annotation.
   */
  ghost predicate SectionAt(flags: byte, s: Section)
  {
    Chained(s.values, s.start, s.fieldsEnd) && s.fieldsEnd <= s.end
    && (HasObjectAnnotation(flags) <==> s.fieldsEnd < s.end)
  }

  /** One section per flags byte, each starting where the previous one ends, covering bytes[from..to]. */
  ghost predicate SectionsAt(flags: seq<byte>, sections: seq<Section>, from: nat, to: nat)
  {
    && |sections| == |flags|
    && if sections == [] then from == to
       else
         var n := |sections| - 1;
         && SectionsAt(flags[..n], sections[..n], from, sections[n].start)
         && SectionAt(flags[n], sections[n]) && sections[n].end == to
  }

  /** The reads of the sections, in order. */
  ghost function ReadsIn(sections: seq<Section>): seq<FieldRead>
  {
    if sections == [] then [] else ReadsIn(sections[..|sections| - 1]) + sections[|sections| - 1].values
  }

  /** One more section, starting where the previous ones end. */
  lemma SectionStep(flags: seq<byte>, sections: seq<Section>, from: nat, flag: byte, s: Section)
    requires SectionsAt(flags, sections, from, s.start) && SectionAt(flag, s)
    ensures SectionsAt(flags + [flag], sections + [s], from, s.end)
    ensures ReadsIn(sections + [s]) == ReadsIn(sections) + s.values
  {
    assert (flags + [flag])[..|flags|] == flags;
    assert (sections + [s])[..|sections|] == sections;
  }

  /**
   * Class data read from bytes[from..to]: the values are reads of the
   * fields of layout, in order, and they are the values of the sections,
   * one per flags byte, that cover the span back to back.
   */
  ghost predicate SectionsRead(rt: Runtime, bytes: seq<byte>, layout: seq<FieldDesc>, flags: seq<byte>,
                               trace: seq<FieldRead>, sections: seq<Section>, from: nat, to: nat)
  {
    && ReadsOf(rt, bytes, layout, trace)
    && Spans(trace, from, to)
    && SectionsAt(flags, sections, from, to)
    && trace == ReadsIn(sections)
  }

  /** The section of the i-th class after the class data of the classes before it. */
  lemma SectionAppend(rt: Runtime, bytes: seq<byte>, m: map<string, Child>, layout: seq<FieldDesc>, flags: seq<byte>, i: nat,
                      trace: seq<FieldRead>, sections: seq<Section>, from: nat, fields: seq<FieldDesc>, s: Section)
    requires i < |flags| && SectionsRead(rt, bytes, layout, flags[..i], trace, sections, from, s.start)
    requires ReadsOf(rt, bytes, fields, s.values) && SectionAt(flags[i], s)
    ensures SectionsRead(rt, bytes, layout + fields, flags[..i + 1], trace + s.values, sections + [s], from, s.end)
    ensures Store(m, trace + s.values) == Store(Store(m, trace), s.values)
  {
    AppendSection(rt, bytes, m, layout, trace, fields, s.values, from, s.start, s.fieldsEnd, s.end);
    SectionStep(flags[..i], sections, from, flags[i], s);
    assert flags[..i] + [flags[i]] == flags[..i + 1];
  }

  /** Back-to-back reads followed by back-to-back reads are back to back. */
  lemma {:induction false} ChainedConcat(a: seq<FieldRead>, b: seq<FieldRead>, from: nat, mid: nat, to: nat)
    requires Chained(a, from, mid) && Chained(b, mid, to)
    ensures Chained(a + b, from, to)
  {
    if b == [] {
      assert a + b == a;
    } else {
      ChainedConcat(a, b[..|b| - 1], from, mid, b[|b| - 1].start);
      assert (a + b)[..|a + b| - 1] == a + b[..|b| - 1];
    }
  }

  /**
   * When no class calls for an object annotation, class data is its field
   * values back to back, with nothing between or after them.
   */
  lemma {:induction false} SectionsChained(flags: seq<byte>, sections: seq<Section>, from: nat, to: nat)
    requires SectionsAt(flags, sections, from, to)
    requires forall k :: 0 <= k < |flags| ==> !HasObjectAnnotation(flags[k])
    ensures Chained(ReadsIn(sections), from, to)
  {
    if sections != [] {
      var n := |sections| - 1;
      SectionsChained(flags[..n], sections[..n], from, sections[n].start);
      ChainedConcat(ReadsIn(sections[..n]), sections[n].values, from, sections[n].start, to);
    }
  }

  /**
   * The flags byte and the 2-byte big-endian field count of the class
   * descriptor info at offset p: the class's flags and number of fields.
   */
  ghost predicate ClassInfoAt(bytes: seq<byte>, p: nat, jc: JavaClass)
    reads jc
  {
    p + 3 <= |bytes| && jc.classDescFlags == bytes[p] && |jc.fields| == BigEndian(bytes[p + 1..p + 3])
  }

  /**
   * A new class descriptor at offset o (after its tag) describes jc: its
   * header (ClassHeaderAt), then its flags and field count (ClassInfoAt).
   */
  ghost predicate ClassDescAt(rt: Runtime, bytes: seq<byte>, o: nat, jc: JavaClass)
    reads jc
  {
    && ClassHeaderAt(rt, bytes, o, jc.className, jc.serialVersionUID)
    && ClassInfoAt(bytes, o + 10 + BigEndian(bytes[o..o + 2]), jc)
  }

  /**
   * A new class descriptor at offset o (after its tag) whose header fits
   * and whose descriptor info declares no field, no class annotation and no
   * superclass: a flags byte, a zero field count, TC_ENDBLOCKDATA, then
   * TC_NULL or TC_PROXYCLASSDESC. It ends 15 bytes after its name.
   */
  ghost predicate BareClassDescAt(bytes: seq<byte>, o: nat)
  {
    && o + 2 <= |bytes|
    && var p := o + 10 + BigEndian(bytes[o..o + 2]);
    && p + 5 <= |bytes|
    && BigEndian(bytes[p + 1..p + 3]) == 0 && bytes[p + 3] == TC_ENDBLOCKDATA && NoClass(bytes[p + 4])
  }

  /**
   * The class data at offset p of an object whose class has no field and
   * no superclass can be read: it is empty, or, when the flags call for an
   * annotation, a lone TC_ENDBLOCKDATA.
   */
  ghost predicate EmptyDataAt(flags: byte, bytes: seq<byte>, p: nat)
  {
    HasObjectAnnotation(flags) ==> p < |bytes| && bytes[p] == TC_ENDBLOCKDATA
  }

  /** Where that class data ends. */
  function EmptyDataEnd(flags: byte, p: nat): nat
  {
    if HasObjectAnnotation(flags) then p + 1 else p
  }

  /**
   * The content at offset o (after its TC_OBJECT tag) is a new object of a
   * bare new class (BareClassDescAt) whose class data is empty (EmptyDataAt).
   */
  ghost predicate BareObjectAt(bytes: seq<byte>, o: nat)
  {
    && o < |bytes| && bytes[o] == TC_CLASSDESC && BareClassDescAt(bytes, o + 1)
    && var p := o + 16 + BigEndian(bytes[o + 1..o + 3]);
    EmptyDataAt(bytes[p - 5], bytes, p)
  }

  /** Where that object ends. */
  ghost function BareObjectEnd(bytes: seq<byte>, o: nat): nat
    requires BareObjectAt(bytes, o)
  {
    var p := o + 16 + BigEndian(bytes[o + 1..o + 3]);
    EmptyDataEnd(bytes[p - 5], p)
  }

  /** The 32-bit length the decoder takes from an 8-byte TC_LONGSTRING length. */
  function LongLength(length: nat): (n: int)
    ensures length < TWO_31 ==> n == length
    ensures length >= TWO_63 ==> n == 0
  {
    if length >= TWO_63 then 0 else UncheckedToInt32(length)
  }

  /**
   * A string content after its tag, read from bytes[p..end], and the text
   * it yields: TC_STRING has a 2-byte length and TC_LONGSTRING an 8-byte
   * length (LongLength), each followed by that many bytes of UTF-8 text;
   * TC_REFERENCE has a 4-byte handle, looked up in the string table.
   */
  ghost predicate StringRead(rt: Runtime, tag: byte, bytes: seq<byte>, p: nat, end: nat,
                             strings: map<Handle, string>, text: Option<string>)
  {
    if tag == TC_STRING then
      && p + 2 <= |bytes|
      && end == p + 2 + BigEndian(bytes[p..p + 2]) && end <= |bytes|
      && text == Some(ConvertToUTF(rt, bytes[p + 2..end]))
    else if tag == TC_LONGSTRING then
      && p + 8 <= |bytes|
      && var n := LongLength(BigEndian(bytes[p..p + 8]));
      && 0 <= n && end == p + 8 + n && end <= |bytes|
      && text == Some(ConvertToUTF(rt, bytes[p + 8..end]))
    else
      && tag == TC_REFERENCE
      && end == p + 4 && end <= |bytes|
      && var h := BigEndian(bytes[p..end]);
      && text == (if h in strings then Some(strings[h]) else None)
  }

  /**
   * The bytes from p on hold a whole TC_STRING (2-byte length) or
   * TC_LONGSTRING (8-byte length, cast by LongLength) string after its tag.
   */
  ghost predicate StringFits(tag: byte, bytes: seq<byte>, p: nat)
  {
    if tag == TC_STRING then
      p + 2 <= |bytes| && p + 2 + BigEndian(bytes[p..p + 2]) <= |bytes|
    else
      && tag == TC_LONGSTRING && p + 8 <= |bytes|
      && var n := LongLength(BigEndian(bytes[p..p + 8]));
      0 <= n && p + 8 + n <= |bytes|
  }

  /** A top-level content at offset p that yields an object: TC_OBJECT with a class descriptor that yields a class. */
  predicate ObjectAt(bytes: seq<byte>, p: nat)
  {
    p + 1 < |bytes| && bytes[p] == TC_OBJECT && !NoClass(bytes[p + 1])
  }

  /** The objects among the results, in order. */
  function NonNull(results: seq<JavaObject?>): (objects: seq<JavaObject>)
    ensures |objects| <= |results|
  {
    if results == [] then []
    else if results[|results| - 1] == null then NonNull(results[..|results| - 1])
    else NonNull(results[..|results| - 1]) + [results[|results| - 1]]
  }

  /**
   * The contents read so far from offset o up to p: they start at the
   * increasing offsets `starts`, the first at o, and the i-th yielded an
   * object exactly when it is an object with a class. Where a content ends
   * is not stated, so a start is not tied to the end of the one before.
   */
  ghost predicate ContentsAt(bytes: seq<byte>, o: nat, p: nat, starts: seq<nat>, results: seq<JavaObject?>)
  {
    && |starts| == |results|
    && (|starts| > 0 <==> o < p)
    && (|starts| > 0 ==> starts[0] == o)
    && (forall i :: 0 <= i < |starts| ==> o <= starts[i] < p)
    && (forall i :: 0 <= i < |starts| - 1 ==> starts[i] < starts[i + 1])
    && (forall i :: 0 <= i < |results| ==> (results[i] != null <==> ObjectAt(bytes, starts[i])))
  }

  /** One more content, from p to q, extends the contents read. */
  lemma ContentsStep(bytes: seq<byte>, o: nat, p: nat, q: nat, starts: seq<nat>, results: seq<JavaObject?>, jo: JavaObject?)
    requires ContentsAt(bytes, o, p, starts, results) && o <= p < q
    requires jo != null <==> ObjectAt(bytes, p)
    ensures ContentsAt(bytes, o, q, starts + [p], results + [jo])
    ensures NonNull(results + [jo]) == NonNull(results) + (if jo == null then [] else [jo])
  {
    assert (results + [jo])[..|results|] == results;
  }

  /** The i-th object is registered as a variable under handles[i]. */
  ghost predicate Registered(variables: map<Handle, Variable>, objects: seq<JavaObject>, handles: seq<Handle>)
  {
    |handles| == |objects| && forall k :: 0 <= k < |handles| ==> handles[k] in variables && variables[handles[k]] == ObjectVar(objects[k])
  }

  /** Registration survives new variables and takes in one more object. */
  lemma RegisteredStep(v: map<Handle, Variable>, v': map<Handle, Variable>, objects: seq<JavaObject>, handles: seq<Handle>, jo: JavaObject?, handle: Handle)
    requires Registered(v, objects, handles)
    requires forall h :: h in v ==> h in v' && v'[h] == v[h]
    requires jo != null ==> handle in v' && v'[handle] == ObjectVar(jo)
    ensures Registered(v', objects + (if jo == null then [] else [jo]), handles + (if jo == null then [] else [handle]))
  {
  }

  /** Every registered object is among the variables. */
  lemma RegisteredValues(variables: map<Handle, Variable>, objects: seq<JavaObject>, handles: seq<Handle>)
    requires Registered(variables, objects, handles)
    ensures forall k :: 0 <= k < |objects| ==> ObjectVar(objects[k]) in variables.Values
  {
    forall k | 0 <= k < |objects|
      ensures ObjectVar(objects[k]) in variables.Values
    {
      assert variables[handles[k]] == ObjectVar(objects[k]);
    }
  }

  /**
   * A new class descriptor at offset o of the stream carries this class
   * name and serial version UID: a 2-byte big-endian length, that many
   * bytes of UTF-8 name, then the 8-byte big-endian UID.
   */
  ghost predicate ClassHeaderAt(rt: Runtime, bytes: seq<byte>, o: nat, className: string, uid: nat)
  {
    && o + 2 <= |bytes|
    && var length := BigEndian(bytes[o..o + 2]);
    && o + 10 + length <= |bytes|
    && className == ConvertToUTF(rt, bytes[o + 2..o + 2 + length])
    && uid == BigEndian(bytes[o + 2 + length..o + 10 + length])
  }

  /**
   * A field descriptor at offset o of the stream opens with this type code
   * and name: the code byte, a 2-byte big-endian length, that many bytes of
   * UTF-8 name.
   */
  ghost predicate FieldHeaderAt(rt: Runtime, bytes: seq<byte>, o: nat, code: byte, name: string)
  {
    && o + 3 <= |bytes|
    && var length := BigEndian(bytes[o + 1..o + 3]);
    && o + 3 + length <= |bytes|
    && code == bytes[o]
    && name == ConvertToUTF(rt, bytes[o + 3..o + 3 + length])
  }

  class Loader {
    const rt: Runtime
    var currentHandle: Handle

    constructor (runtime: Runtime)
      ensures rt == runtime && currentHandle == 0
    {
      rt := runtime;
      currentHandle := 0;
    }

    /**
     * Decodes a whole stream: the 2-byte magic and the 2-byte version, both
     * big-endian, then, only when both match, contents at increasing offsets
     * until no byte is left, each top-level object appended to the registry's
     * object list. The counter restarts at BASE_WIRE_HANDLE only when the header
     * matches. A header mismatch yields an empty registry; a short header or
     * any failure while decoding is an error. The ghost `starts` are the
     * offsets of the top-level contents and `results` what each yielded.
     */
    method Load(container: DataContainer) returns (r: Result<SlwApplication>, ghost starts: seq<nat>, ghost results: seq<JavaObject?>)
      requires container.Valid()
      modifies this, container
      ensures var o, bytes := old(container.offset), container.bytes;
        && (o + 4 > |bytes| ==> r == Err(OutOfData))
        && (o + 4 <= |bytes|
            && (BigEndian(bytes[o..o + 2]) != STREAM_MAGIC || BigEndian(bytes[o + 2..o + 4]) != STREAM_VERSION) ==>
              && r.Ok? && fresh(r.value)
              && r.value.classes == map[] && r.value.variables == map[] && r.value.strings == map[]
              && r.value.javaObjects == []
              && container.offset == o + 4 && currentHandle == old(currentHandle))
      ensures var o, bytes := old(container.offset), container.bytes;
        o + 4 == |bytes| && BigEndian(bytes[o..o + 2]) == STREAM_MAGIC && BigEndian(bytes[o + 2..o + 4]) == STREAM_VERSION ==>
          && r.Ok? && fresh(r.value)
          && r.value.classes == map[] && r.value.variables == map[] && r.value.strings == map[]
          && r.value.javaObjects == [] && currentHandle == BASE_WIRE_HANDLE
      ensures var o, bytes := old(container.offset), container.bytes;
        o + 4 <= |bytes| && BigEndian(bytes[o..o + 2]) == STREAM_MAGIC && BigEndian(bytes[o + 2..o + 4]) == STREAM_VERSION
        && r.Ok? ==>
          && fresh(r.value) && container.offset == |bytes|
          && r.value.Bounded(currentHandle)
          && BASE_WIRE_HANDLE <= currentHandle <= BASE_WIRE_HANDLE + |bytes| - (o + 4)
          && |starts| == |results|
          && (|starts| > 0 <==> o + 4 < |bytes|)
          && (|starts| > 0 ==> starts[0] == o + 4)
          && (forall i :: 0 <= i < |starts| ==> o + 4 <= starts[i] < |bytes|)
          && (forall i :: 0 <= i < |starts| - 1 ==> starts[i] < starts[i + 1])
          && (forall i :: 0 <= i < |results| ==> (results[i] != null <==> ObjectAt(bytes, starts[i])))
          && r.value.javaObjects == NonNull(results)
          && (forall k :: 0 <= k < |r.value.javaObjects| ==> ObjectVar(r.value.javaObjects[k]) in r.value.variables.Values)
    {
      starts, results := [], [];
      var magicBytes :- container.PopBytes(2);
      var versionBytes :- container.PopBytes(2);
      assert magicBytes[..2] == magicBytes && versionBytes[..2] == versionBytes;
      var streamMagic := ConvertToUint16(magicBytes);
      var streamVersion := ConvertToUint16(versionBytes);
      var app := new SlwApplication();
      if streamMagic == STREAM_MAGIC && streamVersion == STREAM_VERSION {
        currentHandle := BASE_WIRE_HANDLE;
        var _, contentStarts, contentResults :- LoadContents(app, container);
        starts, results := contentStarts, contentResults;
      }
      r := Ok(app);
    }

    /**
     * The contents of a stream after its header, at increasing offsets until
     * no byte is left (LoadContent), into the empty registry app. The ghost
     * `starts` are the offsets of the contents and `results` what each
     * yielded.
     */
    method LoadContents(app: SlwApplication, container: DataContainer)
      returns (r: Result<()>, ghost starts: seq<nat>, ghost results: seq<JavaObject?>)
      requires Inv(app, container) && currentHandle == BASE_WIRE_HANDLE
      requires app.classes == map[] && app.variables == map[] && app.strings == map[] && app.javaObjects == []
      modifies this, app`classes, app`variables, app`strings, app`javaObjects, container
      ensures var o, bytes := old(container.offset), container.bytes;
        o == |bytes| ==> r.Ok? && unchanged(app) && currentHandle == BASE_WIRE_HANDLE
      ensures var o, bytes := old(container.offset), container.bytes;
        r.Ok? ==>
          && container.offset == |bytes|
          && app.Bounded(currentHandle)
          && BASE_WIRE_HANDLE <= currentHandle <= BASE_WIRE_HANDLE + |bytes| - o
          && |starts| == |results|
          && (|starts| > 0 <==> o < |bytes|)
          && (|starts| > 0 ==> starts[0] == o)
          && (forall i :: 0 <= i < |starts| ==> o <= starts[i] < |bytes|)
          && (forall i :: 0 <= i < |starts| - 1 ==> starts[i] < starts[i + 1])
          && (forall i :: 0 <= i < |results| ==> (results[i] != null <==> ObjectAt(bytes, starts[i])))
          && app.javaObjects == NonNull(results)
          && (forall k :: 0 <= k < |app.javaObjects| ==> ObjectVar(app.javaObjects[k]) in app.variables.Values)
    {
      starts, results := [], [];
      if container.GetAvailable() == 0 {
        return Ok(()), starts, results;
      }
      ghost var o := container.offset;
      ghost var handles: seq<Handle> := [];
      while container.GetAvailable() > 0
        invariant Inv(app, container)
        invariant o <= container.offset
        invariant BASE_WIRE_HANDLE <= currentHandle <= BASE_WIRE_HANDLE + container.offset - o
        invariant ContentsAt(container.bytes, o, container.offset, starts, results)
        invariant app.javaObjects == NonNull(results)
        invariant Registered(app.variables, app.javaObjects, handles)
        decreases container.GetAvailable()
      {
        ghost var at := container.offset;
        ghost var variables := app.variables;
        var jo, handle :- LoadContent(app, container);
        ContentsStep(container.bytes, o, at, container.offset, starts, results, jo);
        RegisteredStep(variables, app.variables, NonNull(results), handles, jo, handle);
        handles := handles + (if jo == null then [] else [handle]);
        starts, results := starts + [at], results + [jo];
      }
      RegisteredValues(app.variables, app.javaObjects, handles);
      r := Ok(());
    }

    /**
     * One top-level content of Load: its tag, the content (ParseContent),
     * and the object it yields, if any, appended to the object list.
     */
    method LoadContent(app: SlwApplication, container: DataContainer) returns (r: Result<JavaObject?>, ghost handle: Handle)
      requires Inv(app, container) && container.offset < |container.bytes|
      modifies this, app`classes, app`variables, app`strings, app`javaObjects, container
      ensures r.Ok? ==> Inv(app, container) && Progress(app, container, 0) && old(container.offset) < container.offset
      ensures r.Ok? ==>
        && (r.value != null <==> ObjectAt(container.bytes, old(container.offset)))
        && app.javaObjects == old(app.javaObjects) + (if r.value == null then [] else [r.value])
      ensures r.Ok? && r.value != null ==> handle in app.variables && app.variables[handle] == ObjectVar(r.value)
    {
      var popped := container.PopNextControl();
      assert popped.Ok?;
      var tag := popped.value;
      var jo;
      jo, handle :- ParseContent(tag, app, container);
      app.AddJavaObject(jo);
      r := Ok(jo);
    }

    /** The decoder's invariant: the cursor is valid and every registered handle is below the counter. */
    ghost predicate Inv(app: SlwApplication, container: DataContainer)
      reads this, app, container
    {
      container.Valid() && app.Bounded(currentHandle)
    }

    /**
     * What every decoding step guarantees: the cursor and the counter only
     * move forward, the counter moves at most as far as the cursor (plus
     * `slack`), and every class and variable entry survives unchanged.
     */
    twostate predicate Progress(app: SlwApplication, container: DataContainer, slack: nat)
      reads this, app, container
    {
      && old(container.offset) <= container.offset
      && old(currentHandle) <= currentHandle
      && currentHandle - old(currentHandle) <= container.offset - old(container.offset) + slack
      && (forall h :: h in old(app.classes) ==> h in app.classes && app.classes[h] == old(app.classes[h]))
      && (forall h :: h in old(app.variables) ==> h in app.variables && app.variables[h] == old(app.variables[h]))
    }

    /** A step that read nothing and changed nothing. */
    twostate predicate Untouched(app: SlwApplication, container: DataContainer)
      reads this, app, container
    {
      container.offset == old(container.offset) && currentHandle == old(currentHandle) && unchanged(app)
    }

    /** Returns the counter, then increments it. */
    method GenerateNewHandle() returns (handle: Handle)
      modifies this`currentHandle
      ensures handle == old(currentHandle) && currentHandle == handle + 1
    {
      handle := currentHandle;
      currentHandle := currentHandle + 1;
    }

    /**
     * A new class under the next handle (GenerateNewHandle, then
     * CreateClass). The counter is above every registered handle, so the
     * registration cannot fail.
     */
    method NewClass(classname: string, serialversion: nat, app: SlwApplication) returns (jc: JavaClass)
      requires app.Bounded(currentHandle)
      modifies this`currentHandle, app`classes, app`strings
      ensures currentHandle == old(currentHandle) + 1 && app.Bounded(currentHandle)
      ensures fresh(jc) && jc.className == classname && jc.serialVersionUID == serialversion
      ensures jc.classDescFlags == 0 && jc.fields == [] && jc.superClasses == []
      ensures app.classes == old(app.classes)[old(currentHandle) := jc]
      ensures app.strings == old(app.strings)[old(currentHandle) := classname]
    {
      var handle := GenerateNewHandle();
      var created := app.CreateClass(handle, classname, serialversion);
      assert created.Ok?;
      jc := created.value;
    }

    /** A new object of class jc under the next handle (GenerateNewHandle, then CreateObject), which cannot fail. */
    method NewObject(jc: JavaClass?, app: SlwApplication) returns (jo: JavaObject, handle: Handle)
      requires app.Bounded(currentHandle)
      modifies this`currentHandle, app`variables
      ensures handle == old(currentHandle) && currentHandle == handle + 1 && app.Bounded(currentHandle)
      ensures fresh(jo) && jo.baseClass == jc && jo.classData == map[]
      ensures app.variables == old(app.variables)[handle := ObjectVar(jo)]
    {
      handle := GenerateNewHandle();
      var created := app.CreateObject(handle, jc);
      assert created.Ok?;
      jo := created.value;
    }

    /** A new array of class jc under the next handle (GenerateNewHandle, then CreateArray), which cannot fail. */
    method NewArray(jc: JavaClass?, app: SlwApplication) returns (ja: JavaArray, handle: Handle)
      requires app.Bounded(currentHandle)
      modifies this`currentHandle, app`variables
      ensures handle == old(currentHandle) && currentHandle == handle + 1 && app.Bounded(currentHandle)
      ensures fresh(ja) && ja.baseClass == jc && ja.classData == map[]
      ensures app.variables == old(app.variables)[handle := ArrayVar(ja)]
    {
      handle := GenerateNewHandle();
      var created := app.CreateArray(handle, jc);
      assert created.Ok?;
      ja := created.value;
    }

    /** A string under the next handle (GenerateNewHandle, then CreateStringReference), which cannot fail. */
    method NewString(text: string, app: SlwApplication)
      requires app.Bounded(currentHandle)
      modifies this`currentHandle, app`strings
      ensures currentHandle == old(currentHandle) + 1 && app.Bounded(currentHandle)
      ensures app.strings == old(app.strings)[old(currentHandle) := text]
    {
      var handle := GenerateNewHandle();
      var registered := app.CreateStringReference(handle, text);
      assert registered.Ok?;
    }

    /** A string primitive under the next handle (GenerateNewHandle, then CreatePrimitive), which cannot fail. */
    method NewPrimitive(text: string, app: SlwApplication) returns (handle: Handle)
      requires app.Bounded(currentHandle)
      modifies this`currentHandle, app`variables
      ensures handle == old(currentHandle) && currentHandle == handle + 1 && app.Bounded(currentHandle)
      ensures app.variables == old(app.variables)[handle := Primitive(text)]
    {
      handle := GenerateNewHandle();
      var created := app.CreatePrimitive(handle, text);
      assert created.Ok?;
    }

    /** A top-level TC_NULL: two more bytes are popped and dropped. */
    method ParseNull(container: DataContainer) returns (r: Result<()>)
      requires container.Valid()
      modifies container
      ensures container.Valid()
      ensures old(container.offset) + 2 <= |container.bytes| ==>
        r == Ok(()) && container.offset == old(container.offset) + 2
      ensures old(container.offset) + 2 > |container.bytes| ==>
        r == Err(OutOfData) && container.offset >= old(container.offset)
    {
      var first :- container.PopByte();
      var second :- container.PopByte();
      r := Ok(());
    }

    /** The rest of a TC_STRING: a 2-byte length, the UTF-8 text, registered under a new string handle. */
    method ReadNewString(app: SlwApplication, container: DataContainer) returns (r: Result<string>)
      requires Inv(app, container)
      modifies this`currentHandle, app`strings, container
      ensures r.Ok? ==> Inv(app, container) && Progress(app, container, 0)
      ensures var o, bytes := old(container.offset), container.bytes;
        if o + 2 <= |bytes| && o + 2 + BigEndian(bytes[o..o + 2]) <= |bytes| then
          var text := ConvertToUTF(rt, bytes[o + 2..o + 2 + BigEndian(bytes[o..o + 2])]);
          && r == Ok(text)
          && container.offset == o + 2 + BigEndian(bytes[o..o + 2])
          && app.strings == old(app.strings)[old(currentHandle) := text]
        else
          r == Err(OutOfData)
    {
      var lengthBytes :- container.PopBytes(2);
      var elementNameLength := ConvertToUint16(lengthBytes);
      assert lengthBytes[..2] == lengthBytes;
      var nameBytes :- container.PopBytes(elementNameLength);
      var elementName := ConvertToUTF(rt, nameBytes);
      NewString(elementName, app);
      r := Ok(elementName);
    }

    /** The 8-byte big-endian length of a TC_LONGSTRING (PopAlotOfBytes(8), then ConvertToUint64). */
    method ReadLongLength(container: DataContainer) returns (r: Result<nat>)
      requires container.Valid()
      modifies container
      ensures container.Valid()
      ensures var o, bytes := old(container.offset), container.bytes;
        if o + 8 <= |bytes| then
          r == Ok(BigEndian(bytes[o..o + 8])) && r.value < TWO_64 && container.offset == o + 8
        else
          r == Err(OutOfData)
    {
      var lengthBytes :- container.PopAlotOfBytes(8);
      assert lengthBytes[..8] == lengthBytes;
      r := Ok(ConvertToUint64(lengthBytes));
    }

    /**
     * The rest of a TC_LONGSTRING: an 8-byte length, the UTF-8 text,
     * registered under a new string handle. A length with the high bit set
     * reads as the empty text; any other is cast unchecked to 32 bits.
     */
    method ReadNewLongString(app: SlwApplication, container: DataContainer) returns (r: Result<string>)
      requires Inv(app, container)
      modifies this`currentHandle, app`strings, container
      ensures r.Ok? ==> Inv(app, container) && Progress(app, container, 0)
      ensures var o, bytes := old(container.offset), container.bytes;
        if o + 8 > |bytes| then r == Err(OutOfData)
        else
          var length := BigEndian(bytes[o..o + 8]);
          var n := if length >= TWO_63 then 0 else UncheckedToInt32(length);
          if 0 <= n && o + 8 + n <= |bytes| then
            var text := ConvertToUTF(rt, bytes[o + 8..o + 8 + n]);
            && r == Ok(text)
            && container.offset == o + 8 + n
            && app.strings == old(app.strings)[old(currentHandle) := text]
          else
            r == Err(OutOfData)
    {
      var elementNameLength :- ReadLongLength(container);
      var nameBytes :- container.PopAlotOfBytes(elementNameLength);
      var elementName := ConvertToUTF(rt, nameBytes);
      NewString(elementName, app);
      r := Ok(elementName);
    }

    /**
     * A string content: TC_STRING and TC_LONGSTRING register a new string;
     * TC_REFERENCE looks a handle up in the string table and yields None,
     * not a failure, when it is absent. Other tags fail.
     */
    method ParseNewString(streamcontrol: byte, app: SlwApplication, container: DataContainer)
      returns (r: Result<Option<string>>)
      requires Inv(app, container)
      modifies this`currentHandle, app`strings, container
      ensures r.Ok? ==> Inv(app, container) && Progress(app, container, 0)
      ensures r.Ok? ==>
        StringRead(rt, streamcontrol, container.bytes, old(container.offset), container.offset, old(app.strings), r.value)
      ensures (streamcontrol == TC_STRING || streamcontrol == TC_LONGSTRING) && r.Ok? ==>
        r.value.Some? && app.strings == old(app.strings)[old(currentHandle) := r.value.value]
      ensures streamcontrol == TC_STRING || streamcontrol == TC_LONGSTRING ==>
        && (r.Ok? <==> StringFits(streamcontrol, container.bytes, old(container.offset)))
        && (r.Err? ==> r == Err(OutOfData))
      ensures streamcontrol == TC_REFERENCE ==>
        var o, bytes := old(container.offset), container.bytes;
        && currentHandle == old(currentHandle) && app.strings == old(app.strings)
        && (o + 4 <= |bytes| ==>
              r == Ok(app.GetStringByHandle(BigEndian(bytes[o..o + 4]))) && container.offset == o + 4)
        && (o + 4 > |bytes| ==> r == Err(OutOfData))
      ensures streamcontrol !in {TC_STRING, TC_LONGSTRING, TC_REFERENCE} ==>
        && r == Err(UnknownTag(streamcontrol)) && container.offset == old(container.offset)
        && currentHandle == old(currentHandle) && app.strings == old(app.strings)
    {
      if streamcontrol == TC_STRING {
        var elementName :- ReadNewString(app, container);
        r := Ok(Some(elementName));
      } else if streamcontrol == TC_LONGSTRING {
        var elementName :- ReadNewLongString(app, container);
        r := Ok(Some(elementName));
      } else if streamcontrol == TC_REFERENCE {
        var handleBytes :- container.PopBytes(4);
        var handle := ConvertToUint32(handleBytes);
        assert handleBytes[..4] == handleBytes;
        r := Ok(app.GetStringByHandle(handle));
      } else {
        r := Err(UnknownTag(streamcontrol));
      }
    }

    /**
     * One content element at the top level or inside an annotation. Objects,
     * arrays, strings, class descriptors and null are decoded; the other
     * tags of the protocol are skipped without reading anything more; any
     * other byte (TC_ENDBLOCKDATA among them) fails. Only TC_OBJECT can
     * yield an object, which is then registered under the ghost `handle`.
     */
    method ParseContent(streamcontrol: byte, app: SlwApplication, container: DataContainer)
      returns (r: Result<JavaObject?>, ghost handle: Handle)
      requires Inv(app, container)
      modifies this, app`classes, app`variables, app`strings, container
      decreases container.GetAvailable(), 4
      ensures r.Ok? ==> Inv(app, container) && Progress(app, container, 0)
      ensures r.Ok? && r.value != null ==>
        && streamcontrol == TC_OBJECT
        && handle in app.variables && handle !in old(app.variables)
        && app.variables[handle] == ObjectVar(r.value)
      ensures streamcontrol == TC_OBJECT && r.Ok? ==>
        old(container.offset) < |container.bytes| && (r.value == null <==> NoClass(container.bytes[old(container.offset)]))
      ensures var o, bytes := old(container.offset), container.bytes;
        streamcontrol == TC_OBJECT && BareObjectAt(bytes, o) ==>
          r.Ok? && r.value != null && container.offset == BareObjectEnd(bytes, o)
      ensures streamcontrol == TC_ARRAY && r.Ok? ==>
        && r.value == null && handle in app.variables && handle !in old(app.variables)
        && app.variables[handle].ArrayVar?
        && old(container.offset) < |container.bytes|
        && (app.variables[handle].arr.baseClass == null <==> NoClass(container.bytes[old(container.offset)]))
      ensures var o, bytes := old(container.offset), container.bytes;
        streamcontrol == TC_ARRAY && o + 5 <= |bytes| && NoClass(bytes[o]) ==>
          && (BigEndian(bytes[o + 1..o + 5]) == 0 ==> r == Ok(null) && container.offset == o + 5)
          && (BigEndian(bytes[o + 1..o + 5]) > 0 ==> r == Err(NullReference))
      ensures streamcontrol == TC_STRING || streamcontrol == TC_LONGSTRING ==>
        var o, bytes := old(container.offset), container.bytes;
        && (r.Ok? <==> StringFits(streamcontrol, bytes, o))
        && (r.Err? ==> r == Err(OutOfData))
        && (r.Ok? ==>
              && r.value == null && old(currentHandle) in app.strings
              && app.strings == old(app.strings)[old(currentHandle) := app.strings[old(currentHandle)]]
              && StringRead(rt, streamcontrol, bytes, o, container.offset, old(app.strings), Some(app.strings[old(currentHandle)])))
      ensures streamcontrol == TC_CLASSDESC && r.Ok? ==>
        && r.value == null && old(currentHandle) in app.classes
        && ClassDescAt(rt, container.bytes, old(container.offset), app.classes[old(currentHandle)])
      ensures var o, bytes := old(container.offset), container.bytes;
        streamcontrol == TC_CLASSDESC && BareClassDescAt(bytes, o) ==>
          r == Ok(null) && container.offset == o + 15 + BigEndian(bytes[o..o + 2])
      ensures streamcontrol == TC_PROXYCLASSDESC ==> r == Ok(null) && Untouched(app, container)
      ensures IsUnsupportedTag(streamcontrol) ==> r == Ok(null) && Untouched(app, container)
      ensures !IsContentTag(streamcontrol) ==> r == Err(UnknownTag(streamcontrol)) && Untouched(app, container)
      ensures streamcontrol == TC_NULL ==>
        && currentHandle == old(currentHandle) && unchanged(app)
        && (old(container.offset) + 2 <= |container.bytes| ==>
              r == Ok(null) && container.offset == old(container.offset) + 2)
        && (old(container.offset) + 2 > |container.bytes| ==> r == Err(OutOfData))
    {
      handle := 0;
      if streamcontrol == TC_OBJECT {
        var parsed, _, _, _ :- ParseObject(streamcontrol, app, container);
        if parsed.Some? {
          handle := parsed.value.1;
          r := Ok(parsed.value.0);
        } else {
          r := Ok(null);
        }
      } else if streamcontrol == TC_ARRAY {
        var parsed, _, _, _ :- ParseNewArray(streamcontrol, app, container);
        handle := parsed.1;
        r := Ok(null);
      } else if streamcontrol == TC_STRING || streamcontrol == TC_LONGSTRING {
        var _ :- ParseNewString(streamcontrol, app, container);
        r := Ok(null);
      } else if streamcontrol == TC_PROXYCLASSDESC || streamcontrol == TC_CLASSDESC {
        var _ :- ParseNewClassDesc(streamcontrol, app, container);
        r := Ok(null);
      } else if streamcontrol == TC_NULL {
        var _ :- ParseNull(container);
        r := Ok(null);
      } else if IsUnsupportedTag(streamcontrol) {
        r := Ok(null);
      } else {
        r := Err(UnknownTag(streamcontrol));
      }
    }

    /**
     * TC_OBJECT classDesc newHandle classdata: a class descriptor, then, when
     * it names a class, the class data of a new object of that class. A class
     * descriptor that yields no class yields no object. Other tags fail. The
     * ghost `trace` lists the field values read, and `sections` the class
     * data sections, which run from `dataStart` to the end of the object.
     */
    method ParseObject(streamcontrol: byte, app: SlwApplication, container: DataContainer)
      returns (r: Result<Option<(JavaObject, Handle)>>, ghost trace: seq<FieldRead>,
               ghost dataStart: nat, ghost sections: seq<Section>)
      requires Inv(app, container)
      modifies this, app`classes, app`variables, app`strings, container
      decreases container.GetAvailable(), 2
      ensures r.Ok? ==> Inv(app, container) && Progress(app, container, 0)
      ensures streamcontrol != TC_OBJECT ==> r == Err(UnknownTag(streamcontrol)) && Untouched(app, container)
      ensures r.Ok? ==>
        var o, bytes := old(container.offset), container.bytes;
        o < container.offset && o < |bytes| && (r.value.None? <==> NoClass(bytes[o]))
      ensures var o, bytes := old(container.offset), container.bytes;
        streamcontrol == TC_OBJECT && o < |bytes| && NoClass(bytes[o]) ==>
          r == Ok(None) && container.offset == o + 1
      ensures var o, bytes := old(container.offset), container.bytes;
        streamcontrol == TC_OBJECT && BareObjectAt(bytes, o) ==>
          r.Ok? && r.value.Some? && container.offset == BareObjectEnd(bytes, o)
      ensures r.Ok? && r.value.Some? ==>
        var (jo, h) := r.value.value;
        && h in app.variables && h !in old(app.variables)
        && app.variables[h] == ObjectVar(jo)
        && jo.baseClass != null && jo.baseClass in app.classes.Values
        && Resolves(jo.classData, app.variables)
        && ReadsOf(rt, container.bytes, ClassDataLayout(jo.baseClass), trace)
        && Spans(trace, old(container.offset), container.offset)
        && old(container.offset) < dataStart
        && SectionsAt(ClassDataFlags(jo.baseClass), sections, dataStart, container.offset)
        && trace == ReadsIn(sections)
        && jo.classData == Store(map[], trace)
        && jo.classData.Keys == Elements(Names(ClassDataLayout(jo.baseClass)))
    {
      trace, dataStart, sections := [], 0, [];
      if streamcontrol != TC_OBJECT {
        return Err(UnknownTag(streamcontrol)), trace, dataStart, sections;
      }
      var jc :- ReadObjectClass(app, container);
      if jc == null {
        return Ok(None), trace, dataStart, sections;
      }
      dataStart := container.offset;
      var data, read, parts :- ReadObjectData(jc, app, container);
      SpansFrom(read, old(container.offset), dataStart, container.offset);
      trace, sections := read, parts;
      r := Ok(Some(data));
    }

    /**
     * The class descriptor of an object, tag included (ParseNewClassDesc):
     * none for TC_NULL and TC_PROXYCLASSDESC, a class with no field and no
     * superclass for a bare new descriptor.
     */
    method ReadObjectClass(app: SlwApplication, container: DataContainer) returns (r: Result<JavaClass?>)
      requires Inv(app, container)
      modifies this, app`classes, app`variables, app`strings, container
      decreases container.GetAvailable(), 1
      ensures r.Ok? ==> Inv(app, container) && Progress(app, container, 0)
      ensures r.Ok? ==> currentHandle - old(currentHandle) + 1 <= container.offset - old(container.offset)
      ensures r.Ok? ==>
        var o, bytes := old(container.offset), container.bytes;
        o < |bytes| && (r.value == null <==> NoClass(bytes[o]))
      ensures r.Ok? && r.value != null ==> r.value in app.classes.Values
      ensures var o, bytes := old(container.offset), container.bytes;
        o < |bytes| && NoClass(bytes[o]) ==> r == Ok(null) && container.offset == o + 1
      ensures var o, bytes := old(container.offset), container.bytes;
        BareObjectAt(bytes, o) ==>
          && r.Ok? && r.value != null && r.value.fields == [] && r.value.superClasses == []
          && EmptyDataAt(r.value.classDescFlags, bytes, container.offset)
          && BareObjectEnd(bytes, o) == EmptyDataEnd(r.value.classDescFlags, container.offset)
    {
      var classTag :- container.PopNextControl();
      r := ParseNewClassDesc(classTag, app, container);
    }

    /**
     * A class descriptor. TC_CLASSDESC is a new class (ReadClassDesc).
     * TC_REFERENCE looks a 4-byte handle up in the class table. TC_NULL and
     * TC_PROXYCLASSDESC yield no class. Other tags fail.
     */
    method ParseNewClassDesc(streamcontrol: byte, app: SlwApplication, container: DataContainer)
      returns (r: Result<JavaClass?>)
      requires Inv(app, container)
      modifies this, app`classes, app`variables, app`strings, container
      decreases container.GetAvailable(), 2
      ensures r.Ok? ==> Inv(app, container) && Progress(app, container, 0)
      ensures r.Ok? ==> (r.value == null <==> NoClass(streamcontrol))
      ensures r.Ok? && r.value != null ==> r.value in app.classes.Values
      ensures NoClass(streamcontrol) ==> r == Ok(null) && Untouched(app, container)
      ensures streamcontrol == TC_REFERENCE ==>
        var o, bytes := old(container.offset), container.bytes;
        && currentHandle == old(currentHandle) && unchanged(app)
        && (o + 4 <= |bytes| ==>
              && container.offset == o + 4
              && var h := BigEndian(bytes[o..o + 4]);
              r == if h in app.classes then Ok(app.classes[h]) else Err(UnknownClassHandle(h)))
        && (o + 4 > |bytes| ==> r == Err(OutOfData))
      ensures streamcontrol == TC_CLASSDESC && r.Ok? ==>
        && r.value != null
        && old(currentHandle) in app.classes && app.classes[old(currentHandle)] == r.value
        && ClassDescAt(rt, container.bytes, old(container.offset), r.value)
      ensures var o, bytes := old(container.offset), container.bytes;
        streamcontrol == TC_CLASSDESC && BareClassDescAt(bytes, o) ==>
          && r.Ok? && container.offset == o + 15 + BigEndian(bytes[o..o + 2])
          && r.value != null && r.value.fields == [] && r.value.superClasses == []
          && r.value.classDescFlags == bytes[o + 10 + BigEndian(bytes[o..o + 2])]
      ensures streamcontrol !in {TC_PROXYCLASSDESC, TC_CLASSDESC, TC_REFERENCE, TC_NULL} ==>
        r == Err(UnknownTag(streamcontrol)) && Untouched(app, container)
    {
      if streamcontrol == TC_PROXYCLASSDESC {
        r := Ok(null);
      } else if streamcontrol == TC_CLASSDESC {
        var jc :- ReadClassDesc(app, container);
        r := Ok(jc);
      } else if streamcontrol == TC_REFERENCE {
        var handleBytes :- container.PopBytes(4);
        var handle := ConvertToUint32(handleBytes);
        assert handleBytes[..4] == handleBytes;
        var jc :- app.GetClassByHandle(handle);
        r := Ok(jc);
      } else if streamcontrol == TC_NULL {
        r := Ok(null);
      } else {
        r := Err(UnknownTag(streamcontrol));
      }
    }

    /** The class name (2-byte length, UTF-8 text) and the 8-byte serial version UID of a new class descriptor. */
    method ReadClassHeader(container: DataContainer) returns (r: Result<(string, nat)>)
      requires container.Valid()
      modifies container
      ensures container.Valid() && old(container.offset) <= container.offset
      ensures var o, bytes := old(container.offset), container.bytes;
        if o + 2 <= |bytes| && o + 10 + BigEndian(bytes[o..o + 2]) <= |bytes| then
          && r.Ok? && ClassHeaderAt(rt, bytes, o, r.value.0, r.value.1)
          && container.offset == o + 10 + BigEndian(bytes[o..o + 2])
        else
          r == Err(OutOfData)
    {
      var lengthBytes :- container.PopBytes(2);
      var classNameLength := ConvertToUint16(lengthBytes);
      assert lengthBytes[..2] == lengthBytes;
      var nameBytes :- container.PopBytes(classNameLength);
      var className := ConvertToUTF(rt, nameBytes);
      var uidBytes :- container.PopBytes(8);
      var serialVersionUID := ConvertToUint64(uidBytes);
      assert uidBytes[..8] == uidBytes;
      r := Ok((className, serialVersionUID));
    }

    /**
     * TC_CLASSDESC className serialVersionUID newHandle classDescInfo: a
     * new class, registered under a new handle before its descriptor info
     * is read.
     */
    method ReadClassDesc(app: SlwApplication, container: DataContainer) returns (r: Result<JavaClass>)
      requires Inv(app, container)
      modifies this, app`classes, app`variables, app`strings, container
      decreases container.GetAvailable(), 0
      ensures r.Ok? ==> Inv(app, container) && Progress(app, container, 0)
      ensures r.Ok? ==>
        && old(currentHandle) in app.classes && app.classes[old(currentHandle)] == r.value
        && ClassDescAt(rt, container.bytes, old(container.offset), r.value)
      ensures var o, bytes := old(container.offset), container.bytes;
        BareClassDescAt(bytes, o) ==>
          && r.Ok? && container.offset == o + 15 + BigEndian(bytes[o..o + 2])
          && r.value.fields == [] && r.value.superClasses == []
    {
      var header :- ReadClassHeader(container);
      var jc := NewClass(header.0, header.1, app);
      var _, _, _ :- ParseClassDescInfo(jc, app, container);
      r := Ok(jc);
    }

    /**
     * classDescInfo: the flags byte, a 2-byte field count and that many
     * field descriptors (ReadFieldDescs), then the class annotation and the
     * superclass descriptor (ReadClassDescTail), whose tag is at the ghost
     * offset `superAt`. The ghost `superClass` is the superclass read, if any.
     */
    method ParseClassDescInfo(jc: JavaClass, app: SlwApplication, container: DataContainer)
      returns (r: Result<()>, ghost superClass: JavaClass?, ghost superAt: nat)
      requires Inv(app, container)
      modifies this, app`classes, app`variables, app`strings, container, jc`classDescFlags, jc`fields, jc`superClasses
      decreases container.GetAvailable(), 0
      ensures r.Ok? ==> Inv(app, container) && Progress(app, container, 0)
      ensures UniqueNames(old(jc.fields)) ==> UniqueNames(jc.fields)
      ensures r.Ok? ==>
        var o, bytes := old(container.offset), container.bytes;
        && o + 3 <= |bytes|
        && jc.classDescFlags == bytes[o]
        && |jc.fields| == |old(jc.fields)| + BigEndian(bytes[o + 1..o + 3])
        && jc.fields[..|old(jc.fields)|] == old(jc.fields)
        && o + 3 < superAt < container.offset && superAt < |bytes|
        && (superClass == null <==> NoClass(bytes[superAt]))
        && jc.superClasses == old(jc.superClasses) + (if superClass == null then [] else [superClass])
        && (superClass != null ==> superClass in app.classes.Values)
      ensures var o, bytes := old(container.offset), container.bytes;
        && o + 5 <= |bytes| && BigEndian(bytes[o + 1..o + 3]) == 0
        && bytes[o + 3] == TC_ENDBLOCKDATA && NoClass(bytes[o + 4]) ==>
          && r.Ok? && container.offset == o + 5
          && jc.fields == old(jc.fields) && jc.superClasses == old(jc.superClasses)
    {
      superClass, superAt := null, 0;
      var flags :- container.PopByte();
      jc.SetClassDescFlags(flags);
      var countBytes :- container.PopBytes(2);
      var fieldCount := ConvertToUint16(countBytes);
      assert countBytes[..2] == countBytes;
      var _ :- ReadFieldDescs(jc, fieldCount, app, container);
      var jcsuper, at :- ReadClassDescTail(jc, app, container);
      superClass, superAt := jcsuper, at;
      r := Ok(());
    }

    /** count field descriptors (ReadFieldDesc), each appended to jc's fields. */
    method ReadFieldDescs(jc: JavaClass, count: nat, app: SlwApplication, container: DataContainer)
      returns (r: Result<()>)
      requires Inv(app, container)
      modifies this`currentHandle, app`strings, container, jc`fields
      ensures r.Ok? ==> Inv(app, container) && Progress(app, container, 0)
      ensures UniqueNames(old(jc.fields)) ==> UniqueNames(jc.fields)
      ensures r.Ok? ==> |jc.fields| == |old(jc.fields)| + count && jc.fields[..|old(jc.fields)|] == old(jc.fields)
      ensures count == 0 ==> r == Ok(()) && container.offset == old(container.offset)
    {
      var fieldIndex := 0;
      while fieldIndex < count
        invariant 0 <= fieldIndex <= count
        invariant Inv(app, container) && Progress(app, container, 0)
        invariant |jc.fields| == |old(jc.fields)| + fieldIndex
        invariant jc.fields[..|old(jc.fields)|] == old(jc.fields)
        invariant UniqueNames(old(jc.fields)) ==> UniqueNames(jc.fields)
        invariant fieldIndex == 0 ==> container.offset == old(container.offset)
      {
        ghost var before := jc.fields;
        var _ :- ReadFieldDesc(jc, app, container);
        assert jc.fields[..|old(jc.fields)|] == jc.fields[..|before|][..|old(jc.fields)|];
        fieldIndex := fieldIndex + 1;
      }
      r := Ok(());
    }

    /** The type code byte and the name (2-byte length, UTF-8 text) that open a field descriptor. */
    method ReadFieldHeader(container: DataContainer) returns (r: Result<(byte, string)>)
      requires container.Valid()
      modifies container
      ensures container.Valid() && old(container.offset) <= container.offset
      ensures var o, bytes := old(container.offset), container.bytes;
        if o + 3 <= |bytes| && o + 3 + BigEndian(bytes[o + 1..o + 3]) <= |bytes| then
          && r.Ok? && FieldHeaderAt(rt, bytes, o, r.value.0, r.value.1)
          && container.offset == o + 3 + BigEndian(bytes[o + 1..o + 3])
        else
          r == Err(OutOfData)
    {
      var fieldType :- container.PopByte();
      var nameLengthBytes :- container.PopBytes(2);
      var fieldNameLength := ConvertToUint16(nameLengthBytes);
      assert nameLengthBytes[..2] == nameLengthBytes;
      var nameBytes :- container.PopBytes(fieldNameLength);
      r := Ok((fieldType, ConvertToUTF(rt, nameBytes)));
    }

    /**
     * One field descriptor: its type code and name (ReadFieldHeader) and,
     * for an object or array field, a string content (ReadFieldSignature)
     * whose text is the field's type signature; any other code is itself the
     * signature. The field is appended to jc's fields, and a name already
     * declared fails.
     */
    method ReadFieldDesc(jc: JavaClass, app: SlwApplication, container: DataContainer) returns (r: Result<()>)
      requires Inv(app, container)
      modifies this`currentHandle, app`strings, container, jc`fields
      ensures r.Ok? ==> Inv(app, container) && Progress(app, container, 0)
      ensures UniqueNames(old(jc.fields)) ==> UniqueNames(jc.fields)
      ensures r.Ok? ==>
        && |jc.fields| == |old(jc.fields)| + 1
        && jc.fields[..|old(jc.fields)|] == old(jc.fields)
        && old(container.offset) < |container.bytes|
        && var field := jc.fields[|old(jc.fields)|];
        && var code := container.bytes[old(container.offset)];
        && FieldHeaderAt(rt, container.bytes, old(container.offset), code, field.name)
        && var p := old(container.offset) + 3 + BigEndian(container.bytes[old(container.offset) + 1..old(container.offset) + 3]);
        && (code as char == '[' || code as char == 'L' ==>
              && p < |container.bytes|
              && StringRead(rt, container.bytes[p], container.bytes, p + 1, container.offset, old(app.strings), field.typ))
        && (code as char != '[' && code as char != 'L' ==> field.typ == Some([code as char]) && container.offset == p)
    {
      var header :- ReadFieldHeader(container);
      var fieldType, fieldName := header.0, header.1;
      if fieldType as char == '[' || fieldType as char == 'L' {
        ghost var p, strings := container.offset, app.strings;
        var className1 :- ReadFieldSignature(app, container);
        assert p < |container.bytes| && StringRead(rt, container.bytes[p], container.bytes, p + 1, container.offset, strings, className1);
        var _ :- jc.AddField(fieldName, className1);
      } else {
        var _ :- jc.AddField(fieldName, Some([fieldType as char]));
      }
      r := Ok(());
    }

    /** The type signature of an object or array field: a content tag, then a string content (ParseNewString). */
    method ReadFieldSignature(app: SlwApplication, container: DataContainer) returns (r: Result<Option<string>>)
      requires Inv(app, container)
      modifies this`currentHandle, app`strings, container
      ensures r.Ok? ==> Inv(app, container) && Progress(app, container, 0)
      ensures r.Ok? ==>
        var o, bytes := old(container.offset), container.bytes;
        o < |bytes| && StringRead(rt, bytes[o], bytes, o + 1, container.offset, old(app.strings), r.value)
      ensures var o, bytes := old(container.offset), container.bytes;
        o < |bytes| && (bytes[o] == TC_STRING || bytes[o] == TC_LONGSTRING) ==>
          (r.Ok? <==> StringFits(bytes[o], bytes, o + 1))
    {
      var classTag :- container.PopNextControl();
      r := ParseNewString(classTag, app, container);
    }

    /**
     * The end of classDescInfo: the class annotation, then the superclass
     * descriptor, whose tag is at the ghost offset `superAt` where the
     * annotation ends; a superclass, when there is one, is appended to jc's
     * superclasses and returned.
     */
    method ReadClassDescTail(jc: JavaClass, app: SlwApplication, container: DataContainer)
      returns (r: Result<JavaClass?>, ghost superAt: nat)
      requires Inv(app, container)
      modifies this, app`classes, app`variables, app`strings, container, jc`superClasses
      decreases container.GetAvailable(), 0
      ensures r.Ok? ==> Inv(app, container) && Progress(app, container, 0)
      ensures r.Ok? && r.value == null ==> jc.superClasses == old(jc.superClasses)
      ensures r.Ok? && r.value != null ==>
        jc.superClasses == old(jc.superClasses) + [r.value] && r.value in app.classes.Values
      ensures r.Ok? ==>
        var o, bytes := old(container.offset), container.bytes;
        && o < superAt < container.offset && superAt < |bytes|
        && (bytes[o] == TC_ENDBLOCKDATA <==> superAt == o + 1)
        && (r.value == null <==> NoClass(bytes[superAt]))
      ensures var o, bytes := old(container.offset), container.bytes;
        o + 2 <= |bytes| && bytes[o] == TC_ENDBLOCKDATA && NoClass(bytes[o + 1]) ==>
          r == Ok(null) && container.offset == o + 2
    {
      superAt := 0;
      var annotationTag :- container.PopNextControl();
      var _ :- ParseClassAnnotation(annotationTag, app, container);
      superAt := container.offset;
      var superTag :- container.PopNextControl();
      var jcsuper :- ParseSuperClassDesc(superTag, app, container);
      jc.AddSuperClass(jcsuper);
      r := Ok(jcsuper);
    }

    /**
     * One field value of the given type signature. A primitive code reads
     * its fixed-width value and yields its text; an object or array code
     * reads a content element (ReadObjectField). A null signature, an empty
     * one and an unknown code fail.
     */
    method ReadField(complextype: Option<string>, app: SlwApplication, container: DataContainer)
      returns (r: Result<Child>)
      requires Inv(app, container)
      modifies this, app`classes, app`variables, app`strings, container
      decreases container.GetAvailable(), 2
      ensures r.Ok? ==> Inv(app, container) && Progress(app, container, 0)
      ensures r.Ok? && r.value.Ref? ==> r.value.handle in app.variables
      ensures r.Ok? ==> ValueAt(rt, complextype, container.bytes, r.value, old(container.offset), container.offset)
      ensures complextype.None? ==> r == Err(NullReference) && Untouched(app, container)
      ensures complextype == Some("") ==> r == Err(IndexOutOfRange) && Untouched(app, container)
      ensures complextype.Some? && complextype.value != "" && IsPrimitiveCode(complextype.value[0]) ==>
        var code, o, bytes := complextype.value[0], old(container.offset), container.bytes;
        && currentHandle == old(currentHandle) && unchanged(app)
        && (o + PrimitiveWidth(code) <= |bytes| ==>
              && r == Ok(Inline(PrimitiveText(rt, code, bytes[o..o + PrimitiveWidth(code)])))
              && container.offset == o + PrimitiveWidth(code))
        && (o + PrimitiveWidth(code) > |bytes| ==> r == Err(OutOfData))
      ensures complextype.Some? && complextype.value != "" ==>
        var code := complextype.value[0];
        !IsPrimitiveCode(code) && code != '[' && code != 'L' ==>
          r == Err(UnknownPrimitiveType(code)) && Untouched(app, container)
    {
      if complextype.None? {
        return Err(NullReference);
      }
      if complextype.value == "" {
        return Err(IndexOutOfRange);
      }
      var primitiveType := complextype.value[0];
      if IsPrimitiveCode(primitiveType) {
        var text :- ReadPrimitive(primitiveType, container);
        r := Ok(Inline(text));
      } else if primitiveType == '[' || primitiveType == 'L' {
        r := ReadObjectField(app, container);
      } else {
        r := Err(UnknownPrimitiveType(primitiveType));
      }
    }

    /** A primitive field value: PrimitiveWidth(code) bytes, rendered as PrimitiveText. */
    method ReadPrimitive(code: char, container: DataContainer) returns (r: Result<string>)
      requires IsPrimitiveCode(code) && container.Valid()
      modifies container
      ensures container.Valid()
      ensures var o, bytes := old(container.offset), container.bytes;
        if o + PrimitiveWidth(code) <= |bytes| then
          && r == Ok(PrimitiveText(rt, code, bytes[o..o + PrimitiveWidth(code)]))
          && container.offset == o + PrimitiveWidth(code)
        else
          r == Err(OutOfData) && container.offset == o
    {
      if code == 'C' {
        var b :- container.PopByte();
        ghost var w := container.bytes[old(container.offset)..container.offset];
        assert w[0] == b;
        r := Ok([ConvertToChar(b)]);
        assert r.value == PrimitiveText(rt, code, w);
      } else {
        var w :- container.PopBytes(PrimitiveWidth(code));
        if code == 'B' {
          assert HexText(w) == HexPair(w[0]) + HexText([]) by {
            assert w[1..] == [];
          }
          var hex := ConvertToHexByte(w);
          r := Ok(hex);
        } else if code == 'D' {
          assert w[..8] == w;
          r := Ok(ConvertToDouble(rt, w));
        } else if code == 'F' {
          assert w[..4] == w;
          r := Ok(ConvertToFloat(rt, w));
        } else if code == 'I' {
          r := Ok(IntText(ConvertToInt(w)));
        } else if code == 'J' {
          assert w[..8] == w;
          r := Ok(DecimalText(ConvertToLong(w)));
        } else if code == 'S' {
          r := Ok(IntText(ConvertToShort(w)));
        } else {
          r := Ok(BoolText(ConvertToBoolean(w)));
        }
        assert r.value == PrimitiveText(rt, code, w);
      }
    }

    /**
     * The value of an object or array field: a content tag, then a string
     * (registered as a string primitive under a new handle; TC_LONGSTRING
     * too has a 2-byte length here), a reference to a registered variable,
     * an array, null or an object. Other tags fail.
     */
    method ReadObjectField(app: SlwApplication, container: DataContainer) returns (r: Result<Child>)
      requires Inv(app, container)
      modifies this, app`classes, app`variables, app`strings, container
      decreases container.GetAvailable(), 0
      ensures r.Ok? ==> Inv(app, container) && Progress(app, container, 0)
      ensures r.Ok? && r.value.Ref? ==> r.value.handle in app.variables
      ensures var o, bytes := old(container.offset), container.bytes;
        && (o >= |bytes| ==> r == Err(OutOfData))
        && (o < |bytes| && bytes[o] == TC_NULL ==>
              r == Ok(Null) && container.offset == o + 1 && currentHandle == old(currentHandle) && unchanged(app))
        && (o < |bytes| && bytes[o] == TC_REFERENCE && o + 5 <= |bytes| ==>
              && container.offset == o + 5 && currentHandle == old(currentHandle) && unchanged(app)
              && var h := BigEndian(bytes[o + 1..o + 5]);
              r == if h in app.variables then Ok(Ref(h)) else Err(UnknownObjectHandle(h)))
        && (o < |bytes| && (bytes[o] == TC_STRING || bytes[o] == TC_LONGSTRING)
            && o + 3 <= |bytes| && o + 3 + BigEndian(bytes[o + 1..o + 3]) <= |bytes| ==>
              var text := ConvertToUTF(rt, bytes[o + 3..o + 3 + BigEndian(bytes[o + 1..o + 3])]);
              && r == Ok(Ref(old(currentHandle)))
              && app.variables == old(app.variables)[old(currentHandle) := Primitive(text)]
              && container.offset == o + 3 + BigEndian(bytes[o + 1..o + 3]))
        && (o < |bytes| && bytes[o] == TC_ARRAY && r.Ok? ==>
              r.value.Ref? && app.variables[r.value.handle].ArrayVar?)
        && (o < |bytes| && bytes[o] == TC_OBJECT && r.Ok? ==>
              && o + 1 < |bytes| && (r.value.Null? <==> NoClass(bytes[o + 1]))
              && (r.value.Ref? ==> app.variables[r.value.handle].ObjectVar?))
        && (r.Ok? ==> ObjectValueAt(bytes, r.value, o, container.offset))
        && (o < |bytes| && bytes[o] !in {TC_STRING, TC_LONGSTRING, TC_REFERENCE, TC_ARRAY, TC_NULL, TC_OBJECT} ==>
              r == Err(UnknownTag(bytes[o])) && container.offset == o + 1
              && currentHandle == old(currentHandle) && unchanged(app))
    {
      var objectType :- container.PopNextControl();
      if objectType == TC_STRING || objectType == TC_LONGSTRING {
        r := ReadStringField(app, container);
      } else if objectType == TC_REFERENCE {
        r := ReadReferenceField(app, container);
      } else if objectType == TC_ARRAY {
        r := ReadArrayField(app, container);
      } else if objectType == TC_NULL {
        r := Ok(Null);
      } else if objectType == TC_OBJECT {
        r := ReadNestedObjectField(app, container);
      } else {
        r := Err(UnknownTag(objectType));
      }
    }

    /** The value of an array field after its tag: a new array (ParseNewArray), referred to by its handle. */
    method ReadArrayField(app: SlwApplication, container: DataContainer) returns (r: Result<Child>)
      requires Inv(app, container)
      modifies this, app`classes, app`variables, app`strings, container
      decreases container.GetAvailable(), 3
      ensures r.Ok? ==> Inv(app, container) && Progress(app, container, 0)
      ensures r.Ok? ==> r.value.Ref? && r.value.handle in app.variables && app.variables[r.value.handle].ArrayVar?
    {
      var parsedArray, _, _, _ :- ParseNewArray(TC_ARRAY, app, container);
      r := Ok(Ref(parsedArray.1));
    }

    /**
     * The value of an object field after its tag: a new object
     * (ParseObject), referred to by its handle, or null when its class
     * descriptor yields no class.
     */
    method ReadNestedObjectField(app: SlwApplication, container: DataContainer) returns (r: Result<Child>)
      requires Inv(app, container)
      modifies this, app`classes, app`variables, app`strings, container
      decreases container.GetAvailable(), 3
      ensures r.Ok? ==> Inv(app, container) && Progress(app, container, 0)
      ensures r.Ok? ==>
        var o, bytes := old(container.offset), container.bytes;
        && o < container.offset && o < |bytes|
        && !r.value.Inline? && (r.value.Null? <==> NoClass(bytes[o]))
        && (NoClass(bytes[o]) ==> container.offset == o + 1)
        && (r.value.Ref? ==> r.value.handle in app.variables && app.variables[r.value.handle].ObjectVar?)
    {
      var parsed, _, _, _ :- ParseObject(TC_OBJECT, app, container);
      r := Ok(if parsed.Some? then Ref(parsed.value.1) else Null);
    }

    /**
     * The value of a string field after its tag, for TC_STRING and
     * TC_LONGSTRING alike: a 2-byte big-endian length, that many bytes of
     * UTF-8 text, stored as a string primitive under a new handle.
     */
    method ReadStringField(app: SlwApplication, container: DataContainer) returns (r: Result<Child>)
      requires Inv(app, container)
      modifies this`currentHandle, app`variables, container
      ensures container.Valid() && app.Bounded(currentHandle)
      ensures var o, bytes := old(container.offset), container.bytes;
        if o + 2 <= |bytes| && o + 2 + BigEndian(bytes[o..o + 2]) <= |bytes| then
          var text := ConvertToUTF(rt, bytes[o + 2..o + 2 + BigEndian(bytes[o..o + 2])]);
          && r == Ok(Ref(old(currentHandle))) && currentHandle == old(currentHandle) + 1
          && app.variables == old(app.variables)[old(currentHandle) := Primitive(text)]
          && container.offset == o + 2 + BigEndian(bytes[o..o + 2])
        else
          r == Err(OutOfData)
    {
      var lengthBytes :- container.PopBytes(2);
      var elementNameLength := ConvertToUint16(lengthBytes);
      assert lengthBytes[..2] == lengthBytes;
      var nameBytes :- container.PopBytes(elementNameLength);
      var elementName := ConvertToUTF(rt, nameBytes);
      var handle := NewPrimitive(elementName, app);
      r := Ok(Ref(handle));
    }

    /** The value of a reference field after its tag: a 4-byte big-endian handle, which must be a variable's. */
    method ReadReferenceField(app: SlwApplication, container: DataContainer) returns (r: Result<Child>)
      requires container.Valid()
      modifies container
      ensures container.Valid()
      ensures var o, bytes := old(container.offset), container.bytes;
        if o + 4 <= |bytes| then
          && container.offset == o + 4
          && var h := BigEndian(bytes[o..o + 4]);
          r == if h in app.variables then Ok(Ref(h)) else Err(UnknownObjectHandle(h))
        else
          r == Err(OutOfData) && container.offset == o
    {
      var handleBytes :- container.PopBytes(4);
      var handle := ConvertToUint32(handleBytes);
      assert handleBytes[..4] == handleBytes;
      var _ :- app.GetVariableByHandle(handle);
      r := Ok(Ref(handle));
    }

    /**
     * The class data of a new object of class jc: the object is registered
     * under a new handle first; then come the sections of the superclasses
     * in order (ReadSuperSections) and last the section of jc itself
     * (ReadClassSection). The ghost `trace` lists the values read, one per
     * field of ClassDataLayout(jc), in stream order, and `sections` splits
     * them into the classes' sections, which cover the bytes read.
     */
    method ParseClassData(jc: JavaClass, app: SlwApplication, container: DataContainer)
      returns (r: Result<(JavaObject, Handle)>, ghost trace: seq<FieldRead>, ghost sections: seq<Section>)
      requires Inv(app, container)
      modifies this, app`classes, app`variables, app`strings, container
      decreases container.GetAvailable(), 10
      ensures r.Ok? ==> Inv(app, container) && Progress(app, container, 1)
      ensures r.Ok? ==>
        var (jo, h) := r.value;
        && h == old(currentHandle) && h in app.variables && app.variables[h] == ObjectVar(jo)
        && fresh(jo) && jo.baseClass == jc
        && Resolves(jo.classData, app.variables)
        && SectionsRead(rt, container.bytes, ClassDataLayout(jc), ClassDataFlags(jc),
                        trace, sections, old(container.offset), container.offset)
        && jo.classData == Store(map[], trace)
      ensures var o, bytes, flags := old(container.offset), container.bytes, old(jc.classDescFlags);
        old(jc.fields) == [] && old(jc.superClasses) == [] && EmptyDataAt(flags, bytes, o) ==>
          r.Ok? && container.offset == EmptyDataEnd(flags, o)
    {
      trace, sections := [], [];
      var jo, handle := NewObject(jc, app);
      label before:
      var _, read, parts :- ReadClassData(jc, jo, app, container);
      ClassDataFramed@before(jc);
      trace, sections := read, parts;
      r := Ok((jo, handle));
    }

    /** The class data of a new object of class jc (ParseClassData), which holds a value under each field name. */
    method ReadObjectData(jc: JavaClass, app: SlwApplication, container: DataContainer)
      returns (r: Result<(JavaObject, Handle)>, ghost trace: seq<FieldRead>, ghost sections: seq<Section>)
      requires Inv(app, container)
      modifies this, app`classes, app`variables, app`strings, container
      decreases container.GetAvailable(), 11
      ensures r.Ok? ==> Inv(app, container) && Progress(app, container, 1)
      ensures r.Ok? ==>
        var (jo, h) := r.value;
        && h == old(currentHandle) && h in app.variables && app.variables[h] == ObjectVar(jo)
        && fresh(jo) && jo.baseClass == jc
        && Resolves(jo.classData, app.variables)
        && SectionsRead(rt, container.bytes, ClassDataLayout(jc), ClassDataFlags(jc),
                        trace, sections, old(container.offset), container.offset)
        && jo.classData == Store(map[], trace)
        && jo.classData.Keys == Elements(Names(ClassDataLayout(jc)))
      ensures var o, bytes, flags := old(container.offset), container.bytes, old(jc.classDescFlags);
        old(jc.fields) == [] && old(jc.superClasses) == [] && EmptyDataAt(flags, bytes, o) ==>
          r.Ok? && container.offset == EmptyDataEnd(flags, o)
    {
      r, trace, sections := ParseClassData(jc, app, container);
      if r.Ok? {
        StoreFieldKeys(rt, container.bytes, map[], ClassDataLayout(jc), trace);
      }
    }

    /**
     * The superclasses' sections of class data, outermost first, then jc's
     * own; the ghost `sections` are the sections read, back to back.
     */
    method ReadClassData(jc: JavaClass, jo: JavaObject, app: SlwApplication, container: DataContainer)
      returns (r: Result<()>, ghost trace: seq<FieldRead>, ghost sections: seq<Section>)
      requires Inv(app, container) && Resolves(jo.classData, app.variables)
      modifies this, app`classes, app`variables, app`strings, container, jo`classData
      decreases container.GetAvailable(), 9
      ensures r.Ok? ==> Inv(app, container) && Progress(app, container, 0)
      ensures r.Ok? ==>
        && Resolves(jo.classData, app.variables)
        && SectionsRead(rt, container.bytes, old(ClassDataLayout(jc)), old(ClassDataFlags(jc)),
                        trace, sections, old(container.offset), container.offset)
        && jo.classData == Store(old(jo.classData), trace)
      ensures var o, bytes, flags := old(container.offset), container.bytes, old(jc.classDescFlags);
        old(jc.fields) == [] && old(jc.superClasses) == [] && EmptyDataAt(flags, bytes, o) ==>
          r.Ok? && container.offset == EmptyDataEnd(flags, o)
    {
      trace, sections := [], [];
      ghost var flags, n := ClassDataFlags(jc), |jc.superClasses|;
      assert (jc.superClasses + [jc])[..n] == jc.superClasses;
      assert flags[..n] == Flags(jc.superClasses) && flags[n] == jc.classDescFlags;
      var _, supersTrace, supersSections :- ReadSuperSections(jc.superClasses, jo, app, container);
      ghost var mid := container.offset;
      var _, own, fieldsEnd :- ReadClassSection(jc, jo, app, container);
      ghost var last := Section(own, mid, fieldsEnd, container.offset);
      SectionAppend(rt, container.bytes, old(jo.classData), old(SuperLayout(jc.superClasses)), flags, n,
                    supersTrace, supersSections, old(container.offset), old(SerialFields(jc)), last);
      assert flags[..n + 1] == flags;
      trace, sections := supersTrace + own, supersSections + [last];
      r := Ok(());
    }

    /** The class data sections of the given superclasses, outermost first and back to back (the ghost `sections`). */
    method ReadSuperSections(supers: seq<JavaClass>, jo: JavaObject, app: SlwApplication, container: DataContainer)
      returns (r: Result<()>, ghost trace: seq<FieldRead>, ghost sections: seq<Section>)
      requires Inv(app, container) && Resolves(jo.classData, app.variables)
      modifies this, app`classes, app`variables, app`strings, container, jo`classData
      decreases container.GetAvailable(), 8
      ensures r.Ok? ==> Inv(app, container) && Progress(app, container, 0)
      ensures r.Ok? ==>
        && Resolves(jo.classData, app.variables)
        && SectionsRead(rt, container.bytes, old(SuperLayout(supers)), old(Flags(supers)),
                        trace, sections, old(container.offset), container.offset)
        && jo.classData == Store(old(jo.classData), trace)
      ensures supers == [] ==> r.Ok?
    {
      SuperLayoutSteps(supers);
      trace, sections := [], [];
      ghost var o, m, flags := container.offset, jo.classData, Flags(supers);
      var i := 0;
      while i < |supers|
        invariant 0 <= i <= |supers|
        invariant Inv(app, container) && Progress(app, container, 0)
        invariant Resolves(jo.classData, app.variables)
        invariant SectionsRead(rt, container.bytes, old(SuperLayout(supers[..i])), flags[..i], trace, sections, o, container.offset)
        invariant jo.classData == Store(m, trace)
      {
        ghost var mid := container.offset;
        var _, section, fieldsEnd :- ReadClassSection(supers[i], jo, app, container);
        ghost var s := Section(section, mid, fieldsEnd, container.offset);
        SectionAppend(rt, container.bytes, m, old(SuperLayout(supers[..i])), flags, i, trace, sections, o,
                      old(SerialFields(supers[i])), s);
        trace, sections := trace + section, sections + [s];
        i := i + 1;
      }
      assert supers[..i] == supers && flags[..i] == flags;
      r := Ok(());
    }

    /**
     * One class's section of class data: when the class is serializable, a
     * value for each of its fields (ReadSectionFields), back to back up to
     * the ghost offset `fieldsEnd`; then, exactly when its flags call for
     * one, an object annotation.
     */
    method ReadClassSection(c: JavaClass, jo: JavaObject, app: SlwApplication, container: DataContainer)
      returns (r: Result<()>, ghost trace: seq<FieldRead>, ghost fieldsEnd: nat)
      requires Inv(app, container) && Resolves(jo.classData, app.variables)
      modifies this, app`classes, app`variables, app`strings, container, jo`classData
      decreases container.GetAvailable(), 6
      ensures r.Ok? ==> Inv(app, container) && Progress(app, container, 0)
      ensures r.Ok? ==>
        && Resolves(jo.classData, app.variables)
        && ReadsOf(rt, container.bytes, old(SerialFields(c)), trace)
        && Chained(trace, old(container.offset), fieldsEnd)
        && fieldsEnd <= container.offset
        && (HasObjectAnnotation(old(c.classDescFlags)) <==> fieldsEnd < container.offset)
        && jo.classData == Store(old(jo.classData), trace)
      ensures var o, bytes, flags := old(container.offset), container.bytes, old(c.classDescFlags);
        old(c.fields) == [] && EmptyDataAt(flags, bytes, o) ==>
          r.Ok? && container.offset == EmptyDataEnd(flags, o)
    {
      trace, fieldsEnd := [], container.offset;
      var flags := c.classDescFlags;
      if IsSerializable(flags) {
        var _, read :- ReadSectionFields(c.fields, jo, app, container);
        trace := read;
      }
      fieldsEnd := container.offset;
      if HasObjectAnnotation(flags) {
        var annotationTag :- container.PopNextControl();
        var _ :- ParseObjectAnnotation(annotationTag, app, container);
      }
      r := Ok(());
    }

    /** A value for each field, in declaration order, added to jo under the field's name; a repeated name fails. */
    method ReadSectionFields(fields: seq<FieldDesc>, jo: JavaObject, app: SlwApplication, container: DataContainer)
      returns (r: Result<()>, ghost trace: seq<FieldRead>)
      requires Inv(app, container) && Resolves(jo.classData, app.variables)
      modifies this, app`classes, app`variables, app`strings, container, jo`classData
      decreases container.GetAvailable(), 4
      ensures r.Ok? ==> Inv(app, container) && Progress(app, container, 0)
      ensures r.Ok? ==>
        && Resolves(jo.classData, app.variables)
        && ReadsOf(rt, container.bytes, fields, trace)
        && Chained(trace, old(container.offset), container.offset)
        && jo.classData == Store(old(jo.classData), trace)
      ensures fields == [] ==> r.Ok? && container.offset == old(container.offset)
    {
      trace := [];
      ghost var o, m := container.offset, jo.classData;
      var j := 0;
      while j < |fields|
        invariant 0 <= j <= |fields|
        invariant Inv(app, container) && Progress(app, container, 0)
        invariant Resolves(jo.classData, app.variables)
        invariant ReadsOf(rt, container.bytes, fields[..j], trace)
        invariant Chained(trace, o, container.offset)
        invariant jo.classData == Store(m, trace)
      {
        var _, read :- ReadSectionField(fields[j], jo, app, container);
        ReadStep(rt, container.bytes, m, fields, j, trace, o, read);
        trace := trace + [read];
        j := j + 1;
      }
      assert fields[..j] == fields;
      r := Ok(());
    }

    /**
     * The value of one field, read by ReadField from the field's type
     * signature and added to jo under the field's name; a name jo already
     * holds fails. The ghost `read` is the value and the span it was read from.
     */
    method ReadSectionField(field: FieldDesc, jo: JavaObject, app: SlwApplication, container: DataContainer)
      returns (r: Result<()>, ghost read: FieldRead)
      requires Inv(app, container) && Resolves(jo.classData, app.variables)
      modifies this, app`classes, app`variables, app`strings, container, jo`classData
      decreases container.GetAvailable(), 3
      ensures r.Ok? ==> Inv(app, container) && Progress(app, container, 0)
      ensures r.Ok? ==>
        && Resolves(jo.classData, app.variables)
        && read.key == field.name && read.start == old(container.offset) && read.end == container.offset
        && ValueAt(rt, field.typ, container.bytes, read.value, read.start, read.end)
        && jo.classData == old(jo.classData)[field.name := read.value]
      ensures field.name in old(jo.classData) ==> r.Err?
    {
      read := FieldRead(field.name, Null, container.offset, container.offset);
      var value :- ReadField(field.typ, app, container);
      read := FieldRead(field.name, value, old(container.offset), container.offset);
      r := jo.AddValue(field.name, value);
    }

    /**
     * TC_ARRAY classDesc newHandle size values: the array's class
     * descriptor, a 4-byte element count, a new array registered under a
     * new handle, then its elements (ReadArrayElements). Other tags fail.
     * The ghost `size` is the element count read, which ends at the ghost
     * offset `countEnd`; the ghost `trace` lists the elements read.
     */
    method ParseNewArray(streamcontrol: byte, app: SlwApplication, container: DataContainer)
      returns (r: Result<(JavaArray, Handle)>, ghost size: nat, ghost countEnd: nat, ghost trace: seq<FieldRead>)
      requires Inv(app, container)
      modifies this, app`classes, app`variables, app`strings, container
      decreases container.GetAvailable(), 2
      ensures r.Ok? ==> Inv(app, container) && Progress(app, container, 0)
      ensures streamcontrol != TC_ARRAY ==> r == Err(UnknownTag(streamcontrol)) && Untouched(app, container)
      ensures var o, bytes := old(container.offset), container.bytes;
        streamcontrol == TC_ARRAY && o + 5 <= |bytes| && NoClass(bytes[o]) ==>
          && (BigEndian(bytes[o + 1..o + 5]) == 0 ==> r.Ok? && container.offset == o + 5)
          && (BigEndian(bytes[o + 1..o + 5]) > 0 ==> r == Err(NullReference))
      ensures r.Ok? ==>
        var (ja, h) := r.value;
        && h in app.variables && h !in old(app.variables)
        && app.variables[h] == ArrayVar(ja)
        && Resolves(ja.classData, app.variables)
        && old(container.offset) + 5 <= countEnd <= container.offset
        && size == BigEndian(container.bytes[countEnd - 4..countEnd]) && size < TWO_32
        && (ja.baseClass == null <==> NoClass(container.bytes[old(container.offset)]))
        && |trace| == size
        && Chained(trace, countEnd, container.offset)
        && ja.classData == Store(map[], trace)
        && ja.classData.Keys == IndexKeys(size)
        && (size > 0 ==>
              && ja.baseClass != null && |ja.baseClass.className| >= 1
              && ElementsOf(rt, container.bytes, Some(ja.baseClass.className[1..]), trace))
    {
      size, countEnd, trace := 0, 0, [];
      if streamcontrol != TC_ARRAY {
        r := Err(UnknownTag(streamcontrol));
        return;
      }
      var header :- ReadArrayHeader(app, container);
      var (jc, arraySize) := header;
      countEnd := container.offset;
      var parsed, elements :- ReadArray(jc, arraySize, app, container);
      size, trace := arraySize, elements;
      r := Ok(parsed);
    }

    /** A new array of class jc registered under a new handle, then its size elements (ReadArrayElements). */
    method ReadArray(jc: JavaClass?, size: nat, app: SlwApplication, container: DataContainer)
      returns (r: Result<(JavaArray, Handle)>, ghost trace: seq<FieldRead>)
      requires Inv(app, container)
      modifies this, app`classes, app`variables, app`strings, container
      decreases container.GetAvailable(), 5
      ensures r.Ok? ==> Inv(app, container) && Progress(app, container, 1)
      ensures size == 0 ==> r.Ok? && container.offset == old(container.offset)
      ensures size > 0 && jc == null ==> r == Err(NullReference)
      ensures r.Ok? ==>
        var (ja, h) := r.value;
        && h == old(currentHandle) && h in app.variables && app.variables[h] == ArrayVar(ja)
        && ja.baseClass == jc
        && Resolves(ja.classData, app.variables)
        && |trace| == size
        && Chained(trace, old(container.offset), container.offset)
        && ja.classData == Store(map[], trace)
        && ja.classData.Keys == IndexKeys(size)
        && (size > 0 ==>
              && jc != null && |jc.className| >= 1
              && ElementsOf(rt, container.bytes, Some(jc.className[1..]), trace))
    {
      trace := [];
      var ja, handle := NewArray(jc, app);
      var _, elements :- ReadArrayElements(jc, size, ja, app, container);
      trace := elements;
      r := Ok((ja, handle));
    }

    /** The array's class descriptor (null when absent) and its 4-byte big-endian element count. */
    method ReadArrayHeader(app: SlwApplication, container: DataContainer) returns (r: Result<(JavaClass?, nat)>)
      requires Inv(app, container)
      modifies this, app`classes, app`variables, app`strings, container
      decreases container.GetAvailable(), 1
      ensures r.Ok? ==> Inv(app, container) && Progress(app, container, 0)
      ensures r.Ok? ==> currentHandle - old(currentHandle) + 5 <= container.offset - old(container.offset)
      ensures r.Ok? ==>
        && r.value.1 < TWO_32 && container.offset >= 4
        && r.value.1 == BigEndian(container.bytes[container.offset - 4..container.offset])
        && old(container.offset) < |container.bytes|
        && (r.value.0 == null <==> NoClass(container.bytes[old(container.offset)]))
      ensures var o, bytes := old(container.offset), container.bytes;
        o + 5 <= |bytes| && NoClass(bytes[o]) ==>
          r == Ok((null, BigEndian(bytes[o + 1..o + 5]))) && container.offset == o + 5
    {
      var classTag :- container.PopNextControl();
      var jc :- ParseNewClassDesc(classTag, app, container);
      var sizeBytes :- container.PopBytes(4);
      assert sizeBytes[..4] == sizeBytes;
      r := Ok((jc, ConvertToUint32(sizeBytes)));
    }

    /**
     * The elements of an array of class jc: each read with the class name
     * minus its leading '[' as its type signature and keyed by the decimal
     * text of its index, back to back. A null class or an empty class name
     * fails once there is an element to read.
     */
    method ReadArrayElements(jc: JavaClass?, size: nat, ja: JavaArray, app: SlwApplication, container: DataContainer)
      returns (r: Result<()>, ghost trace: seq<FieldRead>)
      requires Inv(app, container) && ja.classData == map[]
      modifies this, app`classes, app`variables, app`strings, container, ja`classData
      decreases container.GetAvailable(), 4
      ensures r.Ok? ==> Inv(app, container) && Progress(app, container, 0)
      ensures size > 0 && jc == null ==> r == Err(NullReference)
      ensures size > 0 && jc != null && jc.className == "" ==> r == Err(SubstringOutOfRange)
      ensures size == 0 ==> r == Ok(()) && container.offset == old(container.offset)
      ensures r.Ok? ==>
        && |trace| == size
        && Chained(trace, old(container.offset), container.offset)
        && ja.classData == Store(map[], trace)
        && ja.classData.Keys == IndexKeys(size)
        && Resolves(ja.classData, app.variables)
        && (size > 0 ==>
              && jc != null && |jc.className| >= 1
              && ElementsOf(rt, container.bytes, Some(jc.className[1..]), trace))
    {
      trace := [];
      var arrayIndex := 0;
      while arrayIndex < size
        invariant 0 <= arrayIndex <= size
        invariant Inv(app, container) && Progress(app, container, 0)
        invariant |trace| == arrayIndex
        invariant Chained(trace, old(container.offset), container.offset)
        invariant ja.classData == Store(map[], trace)
        invariant ja.classData.Keys == IndexKeys(arrayIndex)
        invariant Resolves(ja.classData, app.variables)
        invariant arrayIndex > 0 ==>
          && jc != null && |jc.className| >= 1
          && ElementsOf(rt, container.bytes, Some(jc.className[1..]), trace)
      {
        if jc == null {
          return Err(NullReference), trace;
        }
        var className := jc.className;
        if |className| < 1 {
          return Err(SubstringOutOfRange), trace;
        }
        var _, read :- ReadArrayElement(Some(className[1..]), arrayIndex, ja, app, container);
        ElementStep(rt, container.bytes, map[], Some(className[1..]), trace, old(container.offset), read);
        trace := trace + [read];
        arrayIndex := arrayIndex + 1;
      }
      r := Ok(());
    }

    /**
     * One array element of type signature typ, read by ReadField and added
     * to ja under the decimal text of its index. The ghost `read` is the
     * element and the span it was read from.
     */
    method ReadArrayElement(typ: Option<string>, index: nat, ja: JavaArray, app: SlwApplication, container: DataContainer)
      returns (r: Result<()>, ghost read: FieldRead)
      requires Inv(app, container) && Resolves(ja.classData, app.variables)
      requires ja.classData.Keys == IndexKeys(index)
      modifies this, app`classes, app`variables, app`strings, container, ja`classData
      decreases container.GetAvailable(), 3
      ensures r.Ok? ==> Inv(app, container) && Progress(app, container, 0)
      ensures r.Ok? ==>
        && Resolves(ja.classData, app.variables)
        && read.key == DecimalText(index) && read.start == old(container.offset) && read.end == container.offset
        && ValueAt(rt, typ, container.bytes, read.value, read.start, read.end)
        && ja.classData == old(ja.classData)[read.key := read.value]
        && ja.classData.Keys == IndexKeys(index + 1)
    {
      read := FieldRead(DecimalText(index), Null, container.offset, container.offset);
      var value :- ReadField(typ, app, container);
      var key := DecimalText(index);
      forall k | 0 <= k < index
        ensures DecimalText(k) != key
      {
        DecimalTextInjective(k, index);
      }
      read := FieldRead(key, value, old(container.offset), container.offset);
      var _ :- ja.AddValue(key, value);
      assert IndexKeys(index + 1) == IndexKeys(index) + {key};
      r := Ok(());
    }

    /**
     * A class annotation: unless the tag read is TC_ENDBLOCKDATA, the next
     * byte is read as a content tag and one content element is decoded; the
     * tag read first is dropped, and no terminator is looked for after it.
     */
    method ParseClassAnnotation(streamcontrol: byte, app: SlwApplication, container: DataContainer)
      returns (r: Result<()>)
      requires Inv(app, container)
      modifies this, app`classes, app`variables, app`strings, container
      decreases container.GetAvailable(), 0
      ensures r.Ok? ==> Inv(app, container) && Progress(app, container, 0)
      ensures streamcontrol == TC_ENDBLOCKDATA ==> r == Ok(()) && Untouched(app, container)
      ensures streamcontrol != TC_ENDBLOCKDATA && r.Ok? ==> old(container.offset) < container.offset
      ensures streamcontrol != TC_ENDBLOCKDATA ==>
        var o, bytes := old(container.offset), container.bytes;
        && (o >= |bytes| ==> r == Err(OutOfData))
        && (o < |bytes| && IsUnsupportedTag(bytes[o]) ==>
              r == Ok(()) && container.offset == o + 1 && currentHandle == old(currentHandle) && unchanged(app))
    {
      if streamcontrol != TC_ENDBLOCKDATA {
        var contentTag :- container.PopNextControl();
        var _, _ :- ParseContent(contentTag, app, container);
      }
      r := Ok(());
    }

    /** An object annotation: read exactly as a class annotation. */
    method ParseObjectAnnotation(streamcontrol: byte, app: SlwApplication, container: DataContainer)
      returns (r: Result<()>)
      requires Inv(app, container)
      modifies this, app`classes, app`variables, app`strings, container
      decreases container.GetAvailable(), 0
      ensures r.Ok? ==> Inv(app, container) && Progress(app, container, 0)
      ensures streamcontrol == TC_ENDBLOCKDATA ==> r == Ok(()) && Untouched(app, container)
      ensures streamcontrol != TC_ENDBLOCKDATA && r.Ok? ==> old(container.offset) < container.offset
      ensures streamcontrol != TC_ENDBLOCKDATA ==>
        var o, bytes := old(container.offset), container.bytes;
        && (o >= |bytes| ==> r == Err(OutOfData))
        && (o < |bytes| && IsUnsupportedTag(bytes[o]) ==>
              r == Ok(()) && container.offset == o + 1 && currentHandle == old(currentHandle) && unchanged(app))
    {
      if streamcontrol != TC_ENDBLOCKDATA {
        var contentTag :- container.PopNextControl();
        var _, _ :- ParseContent(contentTag, app, container);
      }
      r := Ok(());
    }

    /** The superclass descriptor: a class descriptor; TC_NULL means no superclass. */
    method ParseSuperClassDesc(streamcontrol: byte, app: SlwApplication, container: DataContainer)
      returns (r: Result<JavaClass?>)
      requires Inv(app, container)
      modifies this, app`classes, app`variables, app`strings, container
      decreases container.GetAvailable(), 4
      ensures r.Ok? ==> Inv(app, container) && Progress(app, container, 0)
      ensures r.Ok? ==> (r.value == null <==> NoClass(streamcontrol))
      ensures r.Ok? && r.value != null ==> r.value in app.classes.Values
      ensures NoClass(streamcontrol) ==> r == Ok(null) && Untouched(app, container)
      ensures streamcontrol !in {TC_PROXYCLASSDESC, TC_CLASSDESC, TC_REFERENCE, TC_NULL} ==>
        r == Err(UnknownTag(streamcontrol)) && Untouched(app, container)
    {
      r := ParseNewClassDesc(streamcontrol, app, container);
    }
  }
}
