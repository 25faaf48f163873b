/**
 * The decoded data model (Loader/Loader/Application/JavaClass.cs,
 * JavaObject.cs, JavaArray.cs).
 *
 * Classes, objects and arrays are updated in place while the stream is
 * decoded, so they are classes here. A child value of an object or array
 * is `Null`, an `Inline` primitive (one that has no handle), or a `Ref` to
 * the handle under which the registry holds the variable.
 */
module Application {
  import opened Failures
  import opened Helper

  type Handle = nat

  /**
   * One declared field: its name and its type signature. The signature is
   * absent (C# null) when it came from a string reference to an unknown
   * handle.
   */
  datatype FieldDesc = FieldDesc(name: string, typ: Option<string>)

  /** A value held by an object field or an array element. */
  datatype Child = Null | Inline(text: string) | Ref(handle: Handle)

  /** The field names, in declaration order. */
  function Names(fields: seq<FieldDesc>): (names: seq<string>)
    ensures |names| == |fields|
    ensures forall i :: 0 <= i < |fields| ==> names[i] == fields[i].name
  {
    if fields == [] then [] else [fields[0].name] + Names(fields[1..])
  }

  /** No two fields share a name. */
  ghost predicate UniqueNames(fields: seq<FieldDesc>)
  {
    forall i, j :: 0 <= i < j < |fields| ==> fields[i].name != fields[j].name
  }

  /** Appending a field whose name is new keeps the names unique. */
  lemma {:induction false} AppendKeepsUnique(fields: seq<FieldDesc>, f: FieldDesc)
    requires UniqueNames(fields)
    requires f.name !in Names(fields)
    ensures UniqueNames(fields + [f])
  {
    var all := fields + [f];
    forall i, j | 0 <= i < j < |all|
      ensures all[i].name != all[j].name
    {
      if j == |fields| {
        assert Names(fields)[i] == fields[i].name;
      }
    }
  }

  /** A decoded class descriptor. */
  class JavaClass {
    const className: string
    const serialVersionUID: nat
    var classDescFlags: byte
    var fields: seq<FieldDesc>
    var superClasses: seq<JavaClass>

    /** A class with the given name and serial UID, flags 0, no fields and no superclass. */
    constructor (classname: string, serialversion: nat)
      ensures className == classname && serialVersionUID == serialversion
      ensures classDescFlags == 0 && fields == [] && superClasses == []
    {
      className := classname;
      serialVersionUID := serialversion;
      classDescFlags := 0;
      fields := [];
      superClasses := [];
    }

    /** Appends name -> type, or fails with the field map unchanged when the name is already declared. */
    method AddField(fieldname: string, typ: Option<string>) returns (r: Result<()>)
      modifies this`fields
      ensures fieldname in Names(old(fields)) ==>
        r == Err(DuplicateField(fieldname)) && fields == old(fields)
      ensures fieldname !in Names(old(fields)) ==>
        r == Ok(()) && fields == old(fields) + [FieldDesc(fieldname, typ)]
      ensures UniqueNames(old(fields)) ==> UniqueNames(fields)
    {
      if fieldname in Names(fields) {
        return Err(DuplicateField(fieldname));
      }
      assert UniqueNames(fields) ==> UniqueNames(fields + [FieldDesc(fieldname, typ)]) by {
        if UniqueNames(fields) {
          AppendKeepsUnique(fields, FieldDesc(fieldname, typ));
        }
      }
      fields := fields + [FieldDesc(fieldname, typ)];
      r := Ok(());
    }

    /** Appends a superclass; null is ignored. */
    method AddSuperClass(javaclass: JavaClass?)
      modifies this`superClasses
      ensures javaclass == null ==> superClasses == old(superClasses)
      ensures javaclass != null ==> superClasses == old(superClasses) + [javaclass]
    {
      if javaclass != null {
        superClasses := superClasses + [javaclass];
      }
    }

    function GetClassDescFlags(): byte
      reads this
    {
      classDescFlags
    }

    /** After the call the getter returns the value given; nothing else changes. */
    method SetClassDescFlags(classdescflags: byte)
      modifies this`classDescFlags
      ensures GetClassDescFlags() == classdescflags
    {
      classDescFlags := classdescflags;
    }

    function GetSuperClasses(): seq<JavaClass>
      reads this
    {
      superClasses
    }

    function GetFields(): seq<FieldDesc>
      reads this
    {
      fields
    }

    function GetClassName(): string
    {
      className
    }
  }

  /** A decoded object: its class and its field values by name. */
  class JavaObject {
    const baseClass: JavaClass?
    var classData: map<string, Child>

    constructor (baseclass: JavaClass?)
      ensures baseClass == baseclass && classData == map[]
    {
      baseClass := baseclass;
      classData := map[];
    }

    /** `Dictionary.Add`: a new name gets its value (Null allowed); a repeated name fails and changes nothing. */
    method AddValue(fieldname: string, value: Child) returns (r: Result<()>)
      modifies this`classData
      ensures fieldname in old(classData) ==>
        r == Err(DuplicateKey(fieldname)) && classData == old(classData)
      ensures fieldname !in old(classData) ==>
        r == Ok(()) && classData == old(classData)[fieldname := value]
    {
      if fieldname in classData {
        return Err(DuplicateKey(fieldname));
      }
      classData := classData[fieldname := value];
      r := Ok(());
    }
  }

  /** A decoded array: its class and its elements keyed by the decimal text of their index. */
  class JavaArray {
    const baseClass: JavaClass?
    var classData: map<string, Child>

    constructor (baseclass: JavaClass?)
      ensures baseClass == baseclass && classData == map[]
    {
      baseClass := baseclass;
      classData := map[];
    }

    /** `Dictionary.Add`: a new key gets its element (Null allowed); a repeated key fails and changes nothing. */
    method AddValue(fieldname: string, value: Child) returns (r: Result<()>)
      modifies this`classData
      ensures fieldname in old(classData) ==>
        r == Err(DuplicateKey(fieldname)) && classData == old(classData)
      ensures fieldname !in old(classData) ==>
        r == Ok(()) && classData == old(classData)[fieldname := value]
    {
      if fieldname in classData {
        return Err(DuplicateKey(fieldname));
      }
      classData := classData[fieldname := value];
      r := Ok(());
    }
  }

  /** What the variable table holds: an object, an array, or a string primitive. */
  datatype Variable = ObjectVar(obj: JavaObject) | ArrayVar(arr: JavaArray) | Primitive(text: string)
}
