/**
 * The typed value holder of the XML object serializer: a type tag and a value, set together
 * by typed setters and read back by typed getters that answer null for a value of another type.
 */
module XmlBaseObjects {
  import opened Wrappers

  const STRING: string := "string"
  const INT: string := "int"
  const LONG: string := "long"
  const BOOLEAN: string := "boolean"
  const FLOAT: string := "float"
  const DOUBLE: string := "double"
  const DATE: string := "date"
  const MAP: string := "map"
  const COLLECTION: string := "collection"
  const NATIVE_ARRAY: string := "native-array"
  const OBJECT: string := "object"

  /** A Java class, as far as `setType` tells classes apart. */
  datatype JavaClass =
    | StringClass | IntegerClass | LongClass | FloatClass | DoubleClass | BooleanClass
    | DateClass | MapClass | CollectionClass
    | OtherClass(name: string, nativeArray: bool)  // nativeArray: what XMLNativeArray.isNativeArray answers

  /**
   * A non-null value. Float and double payloads are opaque; `XmlObject` stands for an
   * XMLObject, the wrapper made around a value of no other kind.
   */
  datatype JavaValue =
    | JString(s: string) | JInt(i: int) | JLong(l: int) | JFloat(f: nat) | JDouble(d: nat)
    | JBoolean(b: bool) | JDate(millis: int) | XmlObject(id: nat)

  /** setType(Class): the tag of each known class, "native-array" for an array class, "object" for the rest. */
  function ClassTag(c: JavaClass): (t: string)
    ensures c.OtherClass? ==> (t == NATIVE_ARRAY <==> c.nativeArray) && (t == OBJECT <==> !c.nativeArray)
  {
    match c
    case StringClass => STRING
    case IntegerClass => INT
    case LongClass => LONG
    case FloatClass => FLOAT
    case DoubleClass => DOUBLE
    case BooleanClass => BOOLEAN
    case DateClass => DATE
    case MapClass => MAP
    case CollectionClass => COLLECTION
    case OtherClass(_, nativeArray) => if nativeArray then NATIVE_ARRAY else OBJECT
  }

  /** The class of a scalar value. */
  function ClassOf(v: JavaValue): JavaClass {
    match v
    case JString(_) => StringClass
    case JInt(_) => IntegerClass
    case JLong(_) => LongClass
    case JFloat(_) => FloatClass
    case JDouble(_) => DoubleClass
    case JBoolean(_) => BooleanClass
    case JDate(_) => DateClass
    case XmlObject(_) => OtherClass("XMLObject", false)
  }

  /** The known classes get pairwise different tags, none of them "object" or "native-array". */
  lemma ClassTagsDistinct(c1: JavaClass, c2: JavaClass)
    requires !c1.OtherClass? && !c2.OtherClass?
    ensures ClassTag(c1) == ClassTag(c2) <==> c1 == c2
    ensures ClassTag(c1) != OBJECT && ClassTag(c1) != NATIVE_ARRAY
  {
  }

  class XmlBaseObject {
    var kind: Option<string>
    var value: Option<JavaValue>

    /** The no-argument constructor: no type, no value. */
    constructor ()
      ensures kind.None? && value.None?
    {
      kind := None;
      value := None;
    }

    /**
     * The (class, value) constructor: with a null value the type comes from the class, and
     * with a value both come from the value.
     */
    constructor WithValue(objectType: JavaClass, val: Option<JavaValue>)
      ensures val.None? ==> kind == Some(ClassTag(objectType)) && value.None?
      ensures val.Some? ==> kind == Some(ValueTag(val.value)) && value == val
    {
      kind := None;
      value := None;
      new;
      if val.None? {
        SetTypeOf(objectType);
      } else {
        SetObjectValue(val.value);
      }
    }

    /** setType(String). */
    method SetType(s: Option<string>)
      modifies this`kind
      ensures kind == s
    {
      kind := s;
    }

    /** setType(Class). */
    method SetTypeOf(c: JavaClass)
      modifies this`kind
      ensures kind == Some(ClassTag(c))
    {
      if c == StringClass { kind := Some(STRING); }
      else if c == IntegerClass { kind := Some(INT); }
      else if c == LongClass { kind := Some(LONG); }
      else if c == FloatClass { kind := Some(FLOAT); }
      else if c == DoubleClass { kind := Some(DOUBLE); }
      else if c == BooleanClass { kind := Some(BOOLEAN); }
      else if c == DateClass { kind := Some(DATE); }
      else if c == MapClass { kind := Some(MAP); }
      else if c == CollectionClass { kind := Some(COLLECTION); }
      else if c.nativeArray { kind := Some(NATIVE_ARRAY); }
      else { kind := Some(OBJECT); }
    }

    /** setValue. */
    method SetValue(v: Option<JavaValue>)
      modifies this`value
      ensures value == v
    {
      value := v;
    }

    /** setObjectValue: dispatches on the runtime type of `o` to the setter of that type. */
    method SetObjectValue(o: JavaValue)
      modifies this`kind, this`value
      ensures kind == Some(ValueTag(o)) && value == Some(o)
    {
      match o
      case JString(s) => SetString(Some(s));
      case JInt(i) => SetInt(Some(i));
      case JLong(l) => SetLong(Some(l));
      case JFloat(f) => SetFloat(Some(f));
      case JDouble(d) => SetDouble(Some(d));
      case JBoolean(b) => SetBoolean(Some(b));
      case JDate(t) => SetDate(Some(t));
      case XmlObject(_) => SetObject(Some(o));
    }

    /** setObject: a non-null XMLObject is stored with type "object"; null changes nothing. */
    method SetObject(o: Option<JavaValue>)
      requires o.None? || o.value.XmlObject?
      modifies this`kind, this`value
      ensures o.None? ==> kind == old(kind) && value == old(value)
      ensures o.Some? ==> kind == Some(OBJECT) && value == o
    {
      if o.None? {
        return;
      }
      kind := Some(OBJECT);
      value := o;
    }

    /** setString: a non-null string is stored with type "string"; null changes nothing. */
    method SetString(s: Option<string>)
      modifies this`kind, this`value
      ensures s.None? ==> kind == old(kind) && value == old(value)
      ensures s.Some? ==> kind == Some(STRING) && GetString() == s
    {
      if s.None? {
        return;
      }
      kind := Some(STRING);
      value := Some(JString(s.value));
    }

    /** setInt: a non-null integer is stored with type "int"; null changes nothing. */
    method SetInt(i: Option<int>)
      modifies this`kind, this`value
      ensures i.None? ==> kind == old(kind) && value == old(value)
      ensures i.Some? ==> kind == Some(INT) && GetInt() == i
    {
      if i.None? {
        return;
      }
      kind := Some(INT);
      value := Some(JInt(i.value));
    }

    /** setLong: a non-null long is stored with type "long"; null changes nothing. */
    method SetLong(l: Option<int>)
      modifies this`kind, this`value
      ensures l.None? ==> kind == old(kind) && value == old(value)
      ensures l.Some? ==> kind == Some(LONG) && GetLong() == l
    {
      if l.None? {
        return;
      }
      kind := Some(LONG);
      value := Some(JLong(l.value));
    }

    /** setFloat: a non-null float is stored, tagged "double"; null changes nothing. */
    method SetFloat(f: Option<nat>)
      modifies this`kind, this`value
      ensures f.None? ==> kind == old(kind) && value == old(value)
      ensures f.Some? ==> kind == Some(DOUBLE) && GetFloat() == f
    {
      if f.None? {
        return;
      }
      kind := Some(DOUBLE);
      value := Some(JFloat(f.value));
    }

    /** setDouble: a non-null double is stored, tagged "float"; null changes nothing. */
    method SetDouble(d: Option<nat>)
      modifies this`kind, this`value
      ensures d.None? ==> kind == old(kind) && value == old(value)
      ensures d.Some? ==> kind == Some(FLOAT) && GetDouble() == d
    {
      if d.None? {
        return;
      }
      kind := Some(FLOAT);
      value := Some(JDouble(d.value));
    }

    /** setBoolean: a non-null boolean is stored with type "boolean"; null changes nothing. */
    method SetBoolean(b: Option<bool>)
      modifies this`kind, this`value
      ensures b.None? ==> kind == old(kind) && value == old(value)
      ensures b.Some? ==> kind == Some(BOOLEAN) && GetBoolean() == b
    {
      if b.None? {
        return;
      }
      kind := Some(BOOLEAN);
      value := Some(JBoolean(b.value));
    }

    /** setDate: a non-null date is stored with type "date"; null changes nothing. */
    method SetDate(t: Option<int>)
      modifies this`kind, this`value
      ensures t.None? ==> kind == old(kind) && value == old(value)
      ensures t.Some? ==> kind == Some(DATE) && GetDate() == t
    {
      if t.None? {
        return;
      }
      kind := Some(DATE);
      value := Some(JDate(t.value));
    }

    /** getString: the value when it is a string, null otherwise. */
    function GetString(): (r: Option<string>)
      reads this`value
      ensures r.Some? <==> value.Some? && value.value.JString?
      ensures r.Some? ==> value == Some(JString(r.value))
    {
      if value.Some? && value.value.JString? then Some(value.value.s) else None
    }

    /** getInt: the value when it is an integer, null otherwise. */
    function GetInt(): (r: Option<int>)
      reads this`value
      ensures r.Some? <==> value.Some? && value.value.JInt?
      ensures r.Some? ==> value == Some(JInt(r.value))
    {
      if value.Some? && value.value.JInt? then Some(value.value.i) else None
    }

    /** getLong: the value when it is a long, null otherwise. */
    function GetLong(): (r: Option<int>)
      reads this`value
      ensures r.Some? <==> value.Some? && value.value.JLong?
      ensures r.Some? ==> value == Some(JLong(r.value))
    {
      if value.Some? && value.value.JLong? then Some(value.value.l) else None
    }

    /** getFloat: the value when it is a float, null otherwise. */
    function GetFloat(): (r: Option<nat>)
      reads this`value
      ensures r.Some? <==> value.Some? && value.value.JFloat?
      ensures r.Some? ==> value == Some(JFloat(r.value))
    {
      if value.Some? && value.value.JFloat? then Some(value.value.f) else None
    }

    /** getDouble: the value when it is a double, null otherwise. */
    function GetDouble(): (r: Option<nat>)
      reads this`value
      ensures r.Some? <==> value.Some? && value.value.JDouble?
      ensures r.Some? ==> value == Some(JDouble(r.value))
    {
      if value.Some? && value.value.JDouble? then Some(value.value.d) else None
    }

    /** getBoolean: the value when it is a boolean, null otherwise. */
    function GetBoolean(): (r: Option<bool>)
      reads this`value
      ensures r.Some? <==> value.Some? && value.value.JBoolean?
      ensures r.Some? ==> value == Some(JBoolean(r.value))
    {
      if value.Some? && value.value.JBoolean? then Some(value.value.b) else None
    }

    /** getDate: the value when it is a date, null otherwise. */
    function GetDate(): (r: Option<int>)
      reads this`value
      ensures r.Some? <==> value.Some? && value.value.JDate?
      ensures r.Some? ==> value == Some(JDate(r.value))
    {
      if value.Some? && value.value.JDate? then Some(value.value.millis) else None
    }

    /** getObject: the value when it is an XMLObject, null otherwise. */
    function GetObject(): (r: Option<JavaValue>)
      reads this`value
      ensures r.Some? <==> value.Some? && value.value.XmlObject?
      ensures r.Some? ==> value == r
    {
      if value.Some? && value.value.XmlObject? then value else None
    }
  }

  /** The tag the typed setter of a value writes. */
  function ValueTag(v: JavaValue): string {
    match v
    case JString(_) => STRING
    case JInt(_) => INT
    case JLong(_) => LONG
    case JFloat(_) => DOUBLE
    case JDouble(_) => FLOAT
    case JBoolean(_) => BOOLEAN
    case JDate(_) => DATE
    case XmlObject(_) => OBJECT
  }

  /**
   * A value's setter writes the tag `setType` gives the value's class, except that setFloat
   * and setDouble write each other's tag: a float is tagged "double" and a double "float".
   */
  lemma SetterTags(v: JavaValue)
    ensures !v.JFloat? && !v.JDouble? ==> ValueTag(v) == ClassTag(ClassOf(v))
    ensures v.JFloat? ==> ValueTag(v) == ClassTag(DoubleClass) && ValueTag(v) != ClassTag(FloatClass)
    ensures v.JDouble? ==> ValueTag(v) == ClassTag(FloatClass) && ValueTag(v) != ClassTag(DoubleClass)
  {
  }
  /**
   * The tag a typed setter is evidently meant to write: the one `setType` gives the value's
   * class, so that a float is tagged "float" and a double "double".
   */
  function IntendedValueTag(v: JavaValue): (t: string)
    ensures t == ClassTag(ClassOf(v))
  {
    match v
    case JFloat(_) => FLOAT
    case JDouble(_) => DOUBLE
    case _ => ValueTag(v)
  }

  /** With the intended tags the tag of a value tells its class, floats and doubles included. */
  lemma IntendedTagsTellClass(v1: JavaValue, v2: JavaValue)
    ensures IntendedValueTag(v1) == IntendedValueTag(v2) <==> ClassOf(v1) == ClassOf(v2)
  {
    if !v1.XmlObject? && !v2.XmlObject? {
      ClassTagsDistinct(ClassOf(v1), ClassOf(v2));
    } else if !v1.XmlObject? {
      ClassTagsDistinct(ClassOf(v1), ClassOf(v1));
    } else if !v2.XmlObject? {
      ClassTagsDistinct(ClassOf(v2), ClassOf(v2));
    }
  }

  /** As written, a float and a double swap tags, so a stored float reads back under the double tag. */
  lemma FloatTaggedDouble(f: nat, d: nat)
    ensures ValueTag(JFloat(f)) == ClassTag(DoubleClass) && ValueTag(JDouble(d)) == ClassTag(FloatClass)
    ensures IntendedValueTag(JFloat(f)) != ValueTag(JFloat(f))
  {
  }
}
