/** The reflection helpers the query builder relies on, with Java reflection
    replaced by explicit class metadata. The bean introspector's output is the
    descriptor sequence of a `ClassInfo`, taken in whatever order it is given. */
module Reflection {
  import opened Wrappers
  import opened Values
  import Seqs

  /** A bean property: its name, whether it has a getter and a setter, and
      whether the getter returns `boolean` or `java.lang.Boolean`. */
  datatype Descriptor = Descriptor(name: string, hasRead: bool, hasWrite: bool, isBooleanType: bool)

  /** What reflection reports about a class: whether it carries `@Entity`,
      its canonical name, and its property descriptors in introspection order. */
  datatype ClassInfo = ClassInfo(isEntity: bool, canonicalName: string, descriptors: seq<Descriptor>)

  /** An object seen through reflection: its class, and the non-null results of
      its getters keyed by property name. A property with no entry reads null. */
  datatype Example = Example(cls: ClassInfo, values: map<string, Value>)

  /** Invoking the getter of property `name` on `e`. */
  function Read(e: Example, name: string): (v: Option<Value>)
    ensures v.Some? <==> name in e.values
  {
    if name in e.values then Some(e.values[name]) else None
  }

  /** The error a boolean property with an empty name raises in
      `getFieldName`: `charAt(0)` of the empty string. */
  datatype Error = StringIndexOutOfBounds

  predicate IsAsciiLower(c: char) { 'a' <= c <= 'z' }
  predicate IsAsciiUpper(c: char) { 'A' <= c <= 'Z' }

  /** `toUpperCase` of a one-character string, on the ASCII range. */
  function ToUpperAscii(c: char): (u: char)
    ensures IsAsciiLower(c) ==> IsAsciiUpper(u) && u as int == c as int - 32
    ensures !IsAsciiLower(c) ==> u == c
  {
    if IsAsciiLower(c) then (c as int - 32) as char else c
  }

  /** `Introspector.decapitalize` of one character, on the ASCII range. */
  function ToLowerAscii(c: char): (l: char)
    ensures IsAsciiUpper(c) ==> IsAsciiLower(l) && l as int == c as int + 32
    ensures !IsAsciiUpper(c) ==> l == c
  {
    if IsAsciiUpper(c) then (c as int + 32) as char else c
  }

  /** The field name a query uses for a property: the property name, or for a
      boolean property `"is"` followed by the name with its first character
      upper-cased. `None` when a boolean property has an empty name. */
  function FieldName(d: Descriptor): (r: Option<string>)
    ensures !d.isBooleanType ==> r == Some(d.name)
    ensures d.isBooleanType ==> (r.Some? <==> |d.name| > 0)
    ensures r.Some? && d.isBooleanType ==>
      && |r.value| == |d.name| + 2
      && r.value[..2] == "is"
      && r.value[2] == ToUpperAscii(d.name[0])
      && r.value[3..] == d.name[1..]
      && (IsAsciiLower(d.name[0]) ==> IsAsciiUpper(r.value[2]))
  {
    if !d.isBooleanType then Some(d.name)
    else if |d.name| == 0 then None
    else Some("is" + [ToUpperAscii(d.name[0])] + d.name[1..])
  }

  /** Reads the property name back from a boolean field name: strips `"is"`
      and lower-cases the next character. */
  function BooleanPropertyName(field: string): Option<string> {
    if |field| < 3 || field[..2] != "is" then None
    else Some([ToLowerAscii(field[2])] + field[3..])
  }

  /** For a boolean property named in bean style (starting with a lower-case
      letter), the field name determines the property name. */
  lemma {:induction false} FieldNameRoundTrip(d: Descriptor)
    requires d.isBooleanType && |d.name| > 0 && IsAsciiLower(d.name[0])
    ensures FieldName(d).Some? && BooleanPropertyName(FieldName(d).value) == Some(d.name)
  {
    var f := FieldName(d).value;
    assert f[2] == ToUpperAscii(d.name[0]);
    assert [ToLowerAscii(f[2])] + f[3..] == [d.name[0]] + d.name[1..];
    assert [d.name[0]] + d.name[1..] == d.name;
  }

  /** `deleted` of type boolean is queried as `isDeleted`; `URL`, whose first
      character is already upper-case, as `isURL`. */
  lemma BooleanFieldNameExample()
    ensures FieldName(Descriptor("deleted", true, true, true)) == Some("isDeleted")
    ensures FieldName(Descriptor("deleted", true, true, false)) == Some("deleted")
    ensures FieldName(Descriptor("", true, true, true)).None?
    ensures FieldName(Descriptor("URL", true, true, true)) == Some("isURL")
  {
    assert ToUpperAscii('d') == 'D';
    assert "deleted"[1..] == "eleted";
    assert "is" + ['D'] + "eleted" == "isDeleted";
    assert ToUpperAscii('U') == 'U';
    assert "URL"[1..] == "RL";
    assert "is" + ['U'] + "RL" == "isURL";
  }

  predicate IsReadWrite(d: Descriptor) {
    d.hasRead && d.hasWrite
  }

  /** The read/write descriptors of a descriptor sequence, in order. */
  function ReadWrite(ds: seq<Descriptor>): seq<Descriptor> {
    Seqs.Filter(IsReadWrite, ds)
  }

  /** `getPropertyDescriptors(type, readWriteOnly)`. The Java loop reassigns
      the array it iterates over after every element; the for-each statement
      evaluated that array once, so iteration is unaffected, and an empty
      input returns the original (empty) array. */
  method GetPropertyDescriptors(cls: ClassInfo, readWriteOnly: bool) returns (descs: seq<Descriptor>)
    ensures readWriteOnly ==> descs == ReadWrite(cls.descriptors)
    ensures !readWriteOnly ==> descs == cls.descriptors
    ensures forall i :: 0 <= i < |descs| ==> descs[i] in cls.descriptors
  {
    descs := cls.descriptors;
    if readWriteOnly {
      var iterated := descs;
      var list: seq<Descriptor> := [];
      var i := 0;
      while i < |iterated|
        invariant 0 <= i <= |iterated|
        invariant list == ReadWrite(iterated[..i])
        invariant i == 0 ==> descs == iterated
        invariant i > 0 ==> descs == list
      {
        var desc := iterated[i];
        assert iterated[..i + 1] == iterated[..i] + [desc];
        Seqs.FilterSnoc(IsReadWrite, iterated[..i], desc);
        if desc.hasRead && desc.hasWrite {
          list := list + [desc];
        }
        descs := list;
        i := i + 1;
      }
      assert iterated[..i] == iterated;
    }
  }

  /** `getPropertyDescriptors(type)`: the read/write descriptors. */
  method GetReadWritePropertyDescriptors(cls: ClassInfo) returns (descs: seq<Descriptor>)
    ensures descs == ReadWrite(cls.descriptors)
    ensures forall i :: 0 <= i < |descs| ==> IsReadWrite(descs[i]) && descs[i] in cls.descriptors
  {
    descs := GetPropertyDescriptors(cls, true);
  }

  /** `findPropertyWithName`: the first read/write descriptor named `name`,
      or null when there is none. */
  method FindPropertyWithName(name: string, cls: ClassInfo) returns (r: Option<Descriptor>)
    ensures var rw := ReadWrite(cls.descriptors);
      r.None? <==> forall i :: 0 <= i < |rw| ==> rw[i].name != name
    ensures var rw := ReadWrite(cls.descriptors);
      r.Some? ==> exists i :: 0 <= i < |rw| && rw[i] == r.value && rw[i].name == name
                             && forall j :: 0 <= j < i ==> rw[j].name != name
  {
    r := None;
    var descriptors := GetReadWritePropertyDescriptors(cls);
    var i := 0;
    while i < |descriptors|
      invariant 0 <= i <= |descriptors|
      invariant r.None?
      invariant forall j :: 0 <= j < i ==> descriptors[j].name != name
    {
      if name == descriptors[i].name {
        r := Some(descriptors[i]);
        return;
      }
      i := i + 1;
    }
  }

  /** The type of an annotation, by class name. */
  type AnnotationType = string

  /** `isAnnotationPresent`: whether some annotation of the property (the
      list `getPropertyAnnotations` would return) has one of the given types. */
  method IsAnnotationPresent(annotations: seq<AnnotationType>, annotationClasses: seq<AnnotationType>)
    returns (exists_: bool)
    ensures exists_ <==> exists i, j :: 0 <= i < |annotations| && 0 <= j < |annotationClasses|
                                        && annotations[i] == annotationClasses[j]
  {
    exists_ := false;
    var i := 0;
    while i < |annotations|
      invariant 0 <= i <= |annotations|
      invariant !exists_
      invariant forall a, j :: 0 <= a < i && 0 <= j < |annotationClasses| ==> annotations[a] != annotationClasses[j]
    {
      var j := 0;
      while j < |annotationClasses|
        invariant 0 <= j <= |annotationClasses|
        invariant !exists_
        invariant forall k :: 0 <= k < j ==> annotations[i] != annotationClasses[k]
      {
        if annotations[i] == annotationClasses[j] {
          exists_ := true;
          break;
        }
        j := j + 1;
      }
      if exists_ {
        break;
      }
      i := i + 1;
    }
  }
}
