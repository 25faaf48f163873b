/**
 * The handle registry (Loader/Loader/Application/SlwApplication.cs): three
 * tables keyed by handle (classes, variables, referenced strings) and the
 * list of top-level objects. Creation fails on a handle already present in
 * its table; class and variable lookups fail on an absent handle, string
 * lookups return null (None) instead.
 */
module Registry {
  import opened Failures
  import opened Application

  class SlwApplication {
    var classes: map<Handle, JavaClass>
    var variables: map<Handle, Variable>
    var strings: map<Handle, string>
    var javaObjects: seq<JavaObject>

    /** Every key in the three tables was handed out before `next`. */
    ghost predicate Bounded(next: Handle)
      reads this
    {
      && (forall h :: h in classes ==> h < next)
      && (forall h :: h in variables ==> h < next)
      && (forall h :: h in strings ==> h < next)
    }

    /**
     * The registry invariant with next handle `next`: the keys are bounded,
     * a handle is a class or a variable but never both, a variable handle is
     * never a string handle, and each class handle is also a string handle
     * naming the class.
     */
    ghost predicate Valid(next: Handle)
      reads this
    {
      && Bounded(next)
      && (forall h :: h in classes ==> h !in variables)
      && (forall h :: h in variables ==> h !in strings)
      && (forall h :: h in classes ==> h in strings && strings[h] == classes[h].className)
    }

    /** Empty tables and an empty object list. */
    constructor ()
      ensures classes == map[] && variables == map[] && strings == map[] && javaObjects == []
      ensures forall next :: Valid(next)
    {
      classes := map[];
      variables := map[];
      strings := map[];
      javaObjects := [];
    }

    /** Appends a non-null object at the end of the object list; null is ignored. */
    method AddJavaObject(javaobject: JavaObject?)
      modifies this`javaObjects
      ensures javaobject == null ==> javaObjects == old(javaObjects)
      ensures javaobject != null ==> javaObjects == old(javaObjects) + [javaobject]
    {
      if javaobject != null {
        javaObjects := javaObjects + [javaobject];
      }
    }

    /** Registers a string under a handle; a handle already in the string table fails. */
    method CreateStringReference(handle: Handle, referredstring: string) returns (r: Result<()>)
      modifies this`strings
      ensures handle in old(strings) ==> r == Err(DuplicateHandle(handle)) && strings == old(strings)
      ensures handle !in old(strings) ==> r == Ok(()) && strings == old(strings)[handle := referredstring]
      ensures old(Bounded(handle)) ==> Bounded(handle + 1)
    {
      if handle in strings {
        return Err(DuplicateHandle(handle));
      }
      strings := strings[handle := referredstring];
      r := Ok(());
    }

    /** The string under a handle, or None (C# null) when there is none; never fails. */
    function GetStringByHandle(handle: Handle): (s: Option<string>)
      reads this
      ensures handle in strings <==> s.Some?
      ensures s.Some? ==> s.value == strings[handle]
    {
      if handle in strings then Some(strings[handle]) else None
    }

    /** The class stored under a handle; an absent handle fails. */
    method GetClassByHandle(handle: Handle) returns (r: Result<JavaClass>)
      ensures handle in classes ==> r == Ok(classes[handle])
      ensures handle !in classes ==> r == Err(UnknownClassHandle(handle))
    {
      if handle !in classes {
        return Err(UnknownClassHandle(handle));
      }
      r := Ok(classes[handle]);
    }

    /** The variable stored under a handle; an absent handle fails. */
    method GetVariableByHandle(handle: Handle) returns (r: Result<Variable>)
      ensures handle in variables ==> r == Ok(variables[handle])
      ensures handle !in variables ==> r == Err(UnknownObjectHandle(handle))
    {
      if handle !in variables {
        return Err(UnknownObjectHandle(handle));
      }
      r := Ok(variables[handle]);
    }

    /** A fresh object of the class under a fresh variable handle; a handle in use fails and changes nothing. */
    method CreateObject(handle: Handle, baseclass: JavaClass?) returns (r: Result<JavaObject>)
      modifies this`variables
      ensures handle in old(variables) ==>
        r == Err(DuplicateHandle(handle)) && variables == old(variables)
      ensures handle !in old(variables) ==>
        && r.Ok? && fresh(r.value)
        && r.value.baseClass == baseclass && r.value.classData == map[]
        && variables == old(variables)[handle := ObjectVar(r.value)]
      ensures old(Valid(handle)) ==> r.Ok? && Valid(handle + 1)
    {
      if handle in variables {
        return Err(DuplicateHandle(handle));
      }
      var jo := new JavaObject(baseclass);
      variables := variables[handle := ObjectVar(jo)];
      r := Ok(jo);
    }

    /** A fresh array of the class under a fresh variable handle; a handle in use fails and changes nothing. */
    method CreateArray(handle: Handle, baseclass: JavaClass?) returns (r: Result<JavaArray>)
      modifies this`variables
      ensures handle in old(variables) ==>
        r == Err(DuplicateHandle(handle)) && variables == old(variables)
      ensures handle !in old(variables) ==>
        && r.Ok? && fresh(r.value)
        && r.value.baseClass == baseclass && r.value.classData == map[]
        && variables == old(variables)[handle := ArrayVar(r.value)]
      ensures old(Valid(handle)) ==> r.Ok? && Valid(handle + 1)
    {
      if handle in variables {
        return Err(DuplicateHandle(handle));
      }
      var ja := new JavaArray(baseclass);
      variables := variables[handle := ArrayVar(ja)];
      r := Ok(ja);
    }

    /** A string primitive under a fresh variable handle; a handle in use fails and changes nothing. */
    method CreatePrimitive(handle: Handle, value: string) returns (r: Result<Variable>)
      modifies this`variables
      ensures handle in old(variables) ==>
        r == Err(DuplicateHandle(handle)) && variables == old(variables)
      ensures handle !in old(variables) ==>
        r == Ok(Primitive(value)) && variables == old(variables)[handle := Primitive(value)]
      ensures old(Valid(handle)) ==> r.Ok? && Valid(handle + 1)
    {
      if handle in variables {
        return Err(DuplicateHandle(handle));
      }
      variables := variables[handle := Primitive(value)];
      r := Ok(Primitive(value));
    }

    /**
     * A fresh class under a fresh class handle, whose name is also
     * registered as the string under that handle. A handle already in the
     * class table fails and changes nothing; a handle only in the string
     * table fails after the class has been stored (the C# order).
     */
    method CreateClass(handle: Handle, classname: string, serialversion: nat) returns (r: Result<JavaClass>)
      modifies this`classes, this`strings
      ensures handle in old(classes) ==>
        r == Err(DuplicateHandle(handle)) && classes == old(classes) && strings == old(strings)
      ensures handle !in old(classes) && handle in old(strings) ==>
        r == Err(DuplicateHandle(handle)) && handle in classes && strings == old(strings)
      ensures handle !in old(classes) && handle !in old(strings) ==>
        && r.Ok? && fresh(r.value)
        && r.value.className == classname && r.value.serialVersionUID == serialversion
        && r.value.classDescFlags == 0 && r.value.fields == [] && r.value.superClasses == []
        && classes == old(classes)[handle := r.value]
        && strings == old(strings)[handle := classname]
      ensures old(Valid(handle)) ==> r.Ok? && Valid(handle + 1)
    {
      if handle in classes {
        return Err(DuplicateHandle(handle));
      }
      var jc := new JavaClass(classname, serialversion);
      classes := classes[handle := jc];
      var added := CreateStringReference(handle, classname);
      if added.Err? {
        return Err(added.error);
      }
      r := Ok(jc);
    }
  }
}
