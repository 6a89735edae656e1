/**
 The member-driven serializer of `SerializerJSON.h` over a universe of types: scalars, strings,
 serializable objects with named members, vectors, sets of strings, and pointers whose class
 is found from a member of the JSON object.
 */
module Json {
  import opened Text

  datatype Json = Null | Bool(b: bool) | Num(n: int) | Str(s: string) | Arr(items: seq<Json>)
      | Obj(members: map<string, Json>)

  // ----- types and values -----

  datatype Kind = KNumber | KBoolean | KString | KArray | KObject

  /** What a class checks a JSON object against, before it reads and after it writes it. */
  datatype Schema = Schema(properties: seq<(string, Kind)>, required: seq<string>)

  datatype Member = Member(name: string, ty: Type)

  /** A serializable class: exposed members, their values in a new object, and its schema if it has one. */
  datatype Class = Class(members: seq<Member>, defaults: seq<Value>, schema: Option<Schema>)

  datatype Type =
    | IntT
    | BoolT
    | StringT
    | ObjectT(cls: Class)
    | VectorT(elem: Type)
    | SetT
    | PointerT(key: string, alloc: map<int, nat>, classes: seq<Class>)

  /** A set is the sequence of its elements in the order of iteration. */
  datatype Value =
    | VInt(n: int)
    | VBool(b: bool)
    | VString(s: string)
    | VObject(fields: seq<Value>)
    | VVector(items: seq<Value>)
    | VSet(elements: seq<string>)
    | VNull
    | VPointer(cls: nat, fields: seq<Value>)

  predicate Sorted(s: seq<string>) { forall i, j :: 0 <= i < j < |s| ==> Less(s[i], s[j]) }

  predicate Typed(v: Value, ty: Type)
    decreases v, 1
  {
    match ty
    case IntT => v.VInt?
    case BoolT => v.VBool?
    case StringT => v.VString?
    case ObjectT(cls) => v.VObject? && TypedFields(v.fields, cls.members)
    case VectorT(elem) => v.VVector? && forall i :: 0 <= i < |v.items| ==> Typed(v.items[i], elem)
    case SetT => v.VSet? && Sorted(v.elements)
    case PointerT(_, _, classes) =>
      v.VNull? || (v.VPointer? && v.cls < |classes| && TypedFields(v.fields, classes[v.cls].members))
  }

  predicate TypedFields(fields: seq<Value>, members: seq<Member>)
    decreases fields, 0
  {
    |fields| == |members| && forall i :: 0 <= i < |fields| ==> Typed(fields[i], members[i].ty)
  }

  // ----- writing -----

  /** `serializer << member` for members up to the last; a null pointer is not written. */
  function WriteMembers(fields: seq<Value>, members: seq<Member>): (j: Json)
    requires TypedFields(fields, members)
    ensures j.Null? || j.Obj?
    decreases fields, 0
  {
    if members == [] then Null
    else
      var n := |members| - 1;
      var before := WriteMembers(fields[..n], members[..n]);
      if fields[n].VNull? then before else SetMember(before, members[n].name, Write(fields[n], members[n].ty))
  }

  /** `m_json[name] = value`. */
  function SetMember(j: Json, name: string, value: Json): (r: Json)
    requires j.Null? || j.Obj?
  {
    if j.Null? then Obj(map[name := value]) else Obj(j.members[name := value])
  }

  function Write(v: Value, ty: Type): (j: Json)
    requires Typed(v, ty)
    decreases v, 1
  {
    match ty
    case IntT => Num(v.n)
    case BoolT => Bool(v.b)
    case StringT => Str(v.s)
    case ObjectT(cls) => WriteMembers(v.fields, cls.members)
    case VectorT(elem) => Arr(seq(|v.items|, i requires 0 <= i < |v.items| => Write(v.items[i], elem)))
    case SetT => Arr(seq(|v.elements|, i requires 0 <= i < |v.elements| => Str(v.elements[i])))
    case PointerT(_, _, classes) => if v.VNull? then Null else WriteMembers(v.fields, classes[v.cls].members)
  }

  // ----- reading -----

  predicate HasKind(j: Json, k: Kind) {
    match k
    case KNumber => j.Num?
    case KBoolean => j.Bool?
    case KString => j.Str?
    case KArray => j.Arr?
    case KObject => j.Obj?
  }

  predicate Validates(j: Json, schema: Option<Schema>) {
    schema.Some? ==>
      && j.Obj?
      && (forall i :: 0 <= i < |schema.value.required| ==> schema.value.required[i] in j.members)
      && (forall i :: 0 <= i < |schema.value.properties| && schema.value.properties[i].0 in j.members ==>
            HasKind(j.members[schema.value.properties[i].0], schema.value.properties[i].1))
  }

  /** No class throws when it checks what it wrote. `Serialize` of a class checks; an element of a
      vector that is no pointer is written member by member without a check. */
  predicate Passes(v: Value, ty: Type)
    requires Typed(v, ty)
    decreases v, 1
  {
    match ty
    case ObjectT(cls) => FieldsPass(v.fields, cls.members)
    case VectorT(elem) => forall i :: 0 <= i < |v.items| ==> Passes(v.items[i], elem)
    case PointerT(_, _, classes) => v.VPointer? ==> ObjectPasses(v.fields, classes[v.cls])
    case _ => true
  }

  predicate ObjectPasses(fields: seq<Value>, cls: Class)
    requires TypedFields(fields, cls.members)
    decreases fields, 1
  {
    FieldsPass(fields, cls.members) && Validates(WriteMembers(fields, cls.members), cls.schema)
  }

  predicate FieldsPass(fields: seq<Value>, members: seq<Member>)
    requires TypedFields(fields, members)
    decreases fields, 0
  {
    forall i :: 0 <= i < |fields| ==> MemberPasses(fields[i], members[i].ty)
  }

  /** A member that is an object is written by its class. */
  predicate MemberPasses(v: Value, ty: Type)
    requires Typed(v, ty)
    decreases v, 2
  {
    Passes(v, ty) && (ty.ObjectT? ==> Validates(Write(v, ty), ty.cls.schema))
  }

  /** One element that is refused refuses the vector, one member the object. */
  lemma OneRefusalIsEnough(items: seq<Value>, elem: Type, fields: seq<Value>, cls: Class, i: nat)
    requires Typed(VVector(items), VectorT(elem)) && TypedFields(fields, cls.members)
    ensures i < |items| && !Passes(items[i], elem) ==> !Passes(VVector(items), VectorT(elem))
    ensures i < |fields| && !MemberPasses(fields[i], cls.members[i].ty) ==> !ObjectPasses(fields, cls)
    ensures !Validates(WriteMembers(fields, cls.members), cls.schema) ==> !ObjectPasses(fields, cls)
  {
  }

  predicate Contains(j: Json, name: string) { j.Obj? && name in j.members }

  /** `std::set::insert`. */
  function Insert(s: seq<string>, x: string): (r: seq<string>) {
    if s == [] then [x]
    else if x == s[0] then s
    else if Less(x, s[0]) then [x] + s
    else [s[0]] + Insert(s[1..], x)
  }

  lemma {:induction false} InsertKeepsSorted(s: seq<string>, x: string)
    requires Sorted(s)
    ensures Sorted(Insert(s, x))
    ensures forall y :: y in Insert(s, x) <==> y == x || y in s
  {
    if s != [] && x != s[0] {
      LessIsTotal(x, s[0]);
      if Less(x, s[0]) {
        forall i | 0 <= i < |s| ensures Less(x, s[i]) {
          if i > 0 { LessIsTransitive(x, s[0], s[i]); }
        }
      } else {
        InsertKeepsSorted(s[1..], x);
        var r := Insert(s[1..], x);
        forall i | 0 <= i < |r| ensures Less(s[0], r[i]) {
          assert r[i] in r;
          if r[i] != x { assert r[i] in s[1..]; }
        }
        assert s == [s[0]] + s[1..];
      }
    }
  }

  function ReadStrings(items: seq<Json>): (r: Option<seq<string>>)
    ensures r.Some? ==> Sorted(r.value)
  {
    if items == [] then Some([])
    else
      var n := |items| - 1;
      var before := ReadStrings(items[..n]);
      if before.None? || !items[n].Str? then None
      else
        InsertKeepsSorted(before.value, items[n].s);
        Some(Insert(before.value, items[n].s))
  }

  /** Default values have the types of the members, and pointers are allocated as known classes. */
  predicate TypeOk(ty: Type)
    decreases ty, 1, 0
  {
    match ty
    case ObjectT(cls) => ClassOk(cls)
    case VectorT(elem) => TypeOk(elem)
    case PointerT(_, alloc, classes) =>
      (forall i :: 0 <= i < |classes| ==> ClassOk(classes[i])) && (forall n :: n in alloc ==> alloc[n] < |classes|)
    case _ => true
  }

  predicate ClassOk(cls: Class)
    decreases cls, 0, 0
  {
    TypedFields(cls.defaults, cls.members) && MembersOk(cls.members)
  }

  predicate MembersOk(members: seq<Member>)
    decreases members, 0, 0
  {
    forall i :: 0 <= i < |members| ==> TypeOk(members[i].ty)
  }

  /** What `member >> json` stores; `None` stands for an exception or the use of a null pointer.
      Only objects look at the current value. */
  function Read(j: Json, ty: Type, current: Value): (r: Option<Value>)
    requires TypeOk(ty) && (ty.ObjectT? ==> Typed(current, ty))
    ensures r.Some? ==> Typed(r.value, ty)
    decreases ty, 1, 0
  {
    match ty
    case IntT => if j.Num? then Some(VInt(j.n)) else None
    case BoolT => if j.Bool? then Some(VBool(j.b)) else None
    case StringT => if j.Str? then Some(VString(j.s)) else None
    case ObjectT(cls) =>
      (match ReadObject(j, cls, current.fields)
       case None => None
       case Some(fields) => Some(VObject(fields)))
    case VectorT(elem) =>
      if !j.Arr? then None
      else
        (match ReadItems(j.items, elem)
         case None => None
         case Some(items) => Some(VVector(items)))
    case SetT =>
      if !j.Arr? then None
      else
        (match ReadStrings(j.items)
         case None => None
         case Some(elements) => Some(VSet(elements)))
    case PointerT(key, alloc, classes) =>
      if !Contains(j, key) || !j.members[key].Num? || j.members[key].n !in alloc then None
      else
        var c := alloc[j.members[key].n];
        (match ReadObject(j, classes[c], classes[c].defaults)
         case None => None
         case Some(fields) => Some(VPointer(c, fields)))
  }

  /** `Deserialize` of a class: validate, then every member. */
  function ReadObject(j: Json, cls: Class, current: seq<Value>): (r: Option<seq<Value>>)
    requires ClassOk(cls) && TypedFields(current, cls.members)
    ensures r.Some? ==> TypedFields(r.value, cls.members)
    decreases cls, 0, 1
  {
    if !Validates(j, cls.schema) then None else ReadMembers(j, cls.members, current)
  }

  function ReadMembers(j: Json, members: seq<Member>, current: seq<Value>): (r: Option<seq<Value>>)
    requires MembersOk(members) && TypedFields(current, members)
    ensures r.Some? ==> TypedFields(r.value, members)
    decreases members, 0, 1
  {
    if members == [] then Some([])
    else
      var n := |members| - 1;
      match ReadMembers(j, members[..n], current[..n])
      case None => None
      case Some(before) =>
        if !Contains(j, members[n].name) then Some(before + [current[n]])
        else
          match Read(j.members[members[n].name], members[n].ty, current[n])
          case None => None
          case Some(v) => Some(before + [v])
  }

  /** What an element is before it is read: objects are default constructed. */
  function Fresh(elem: Type): (v: Value) { if elem.ObjectT? then VObject(elem.cls.defaults) else VNull }

  /** A new vector, element by element. */
  function ReadItems(items: seq<Json>, elem: Type): (r: Option<seq<Value>>)
    requires TypeOk(elem)
    ensures r.Some? ==> |r.value| == |items| && forall i :: 0 <= i < |items| ==> Typed(r.value[i], elem)
    decreases elem, 2, |items|
  {
    if items == [] then Some([])
    else
      var n := |items| - 1;
      match ReadItems(items[..n], elem)
      case None => None
      case Some(before) =>
        assert elem.ObjectT? ==> ClassOk(elem.cls);
        match Read(items[n], elem, Fresh(elem))
        case None => None
        case Some(v) => Some(before + [v])
  }

  // ----- the loops -----

  /** `operator<<` for a value; `None` is the exception of a failed check. */
  method Serialize(v: Value, ty: Type) returns (r: Option<Json>)
    requires Typed(v, ty)
    ensures r == if Passes(v, ty) then Some(Write(v, ty)) else None
    decreases v, 1
  {
    match ty
    case IntT => r := Some(Num(v.n));
    case BoolT => r := Some(Bool(v.b));
    case StringT => r := Some(Str(v.s));
    case ObjectT(cls) => r := SerializeMembers(v.fields, cls.members);
    case VectorT(elem) =>
      var items := [];
      for i := 0 to |v.items|
        invariant |items| == i && forall k :: 0 <= k < i ==>
            Passes(v.items[k], elem) && items[k] == Write(v.items[k], elem)
      {
        var item := Serialize(v.items[i], elem);
        if item.None? { return None; }
        items := items + [item.value];
      }
      assert items == Write(v, ty).items;
      r := Some(Arr(items));
    case SetT =>
      var items := [];
      for i := 0 to |v.elements|
        invariant |items| == i && forall k :: 0 <= k < i ==> items[k] == Str(v.elements[k])
      {
        items := items + [Str(v.elements[i])];
      }
      assert items == Write(v, ty).items;
      r := Some(Arr(items));
    case PointerT(_, _, classes) =>
      if v.VNull? {
        r := Some(Null);
      } else {
        r := SerializeObject(v.fields, classes[v.cls]);
      }
  }

  /** `Serialize` of a class: every member, then validate. */
  method SerializeObject(fields: seq<Value>, cls: Class) returns (r: Option<Json>)
    requires TypedFields(fields, cls.members)
    ensures r == if ObjectPasses(fields, cls) then Some(WriteMembers(fields, cls.members)) else None
    decreases fields, 1
  {
    r := SerializeMembers(fields, cls.members);
    if r.Some? && !Validates(r.value, cls.schema) {
      return None;
    }
  }

  /** `operator<<` for each exposed member. */
  method SerializeMembers(fields: seq<Value>, members: seq<Member>) returns (r: Option<Json>)
    requires TypedFields(fields, members)
    ensures r == if FieldsPass(fields, members) then Some(WriteMembers(fields, members)) else None
    decreases fields, 0
  {
    var j := Null;
    for i := 0 to |members|
      invariant j == WriteMembers(fields[..i], members[..i])
      invariant forall k :: 0 <= k < i ==> MemberPasses(fields[k], members[k].ty)
    {
      assert fields[..i + 1][..i] == fields[..i] && members[..i + 1][..i] == members[..i];
      if !fields[i].VNull? {
        var value := SerializeMember(fields[i], members[i].ty);
        if value.None? { return None; }
        j := SetMember(j, members[i].name, value.value);
      }
    }
    assert fields[..|members|] == fields && members[..|members|] == members;
    r := Some(j);
  }

  /** A member: an object by its class, everything else as a value. */
  method SerializeMember(v: Value, ty: Type) returns (r: Option<Json>)
    requires Typed(v, ty)
    ensures r == if MemberPasses(v, ty) then Some(Write(v, ty)) else None
    decreases v, 2
  {
    if ty.ObjectT? {
      r := SerializeObject(v.fields, ty.cls);
    } else {
      r := Serialize(v, ty);
    }
  }

  /** `operator>>` for the exposed members of an object that holds `current`. */
  method DeserializeMembers(j: Json, members: seq<Member>, current: seq<Value>) returns (r: Option<seq<Value>>)
    requires MembersOk(members) && TypedFields(current, members)
    ensures r == ReadMembers(j, members, current)
    decreases members, 0, 1
  {
    var fields := [];
    for i := 0 to |members|
      invariant ReadMembers(j, members[..i], current[..i]) == Some(fields)
    {
      assert members[..i + 1][..i] == members[..i] && current[..i + 1][..i] == current[..i];
      if Contains(j, members[i].name) {
        var value := Deserialize(j.members[members[i].name], members[i].ty, current[i]);
        if value.None? {
          ReadFails(j, members, current, i + 1);
          return None;
        }
        fields := fields + [value.value];
      } else {
        fields := fields + [current[i]];
      }
    }
    assert members[..|members|] == members && current[..|members|] == current;
    return Some(fields);
  }

  /** The first failing member fails the object. */
  lemma {:induction false} ReadFails(j: Json, members: seq<Member>, current: seq<Value>, n: nat)
    requires MembersOk(members) && TypedFields(current, members) && n <= |members|
    requires ReadMembers(j, members[..n], current[..n]).None?
    ensures ReadMembers(j, members, current).None?
    decreases |members|
  {
    if n == |members| {
      assert members[..n] == members && current[..n] == current;
    } else {
      var m := |members| - 1;
      assert members[..m][..n] == members[..n] && current[..m][..n] == current[..n];
      ReadFails(j, members[..m], current[..m], n);
    }
  }

  lemma {:induction false} ReadItemFails(items: seq<Json>, elem: Type, n: nat)
    requires TypeOk(elem) && n <= |items| && ReadItems(items[..n], elem).None?
    ensures ReadItems(items, elem).None?
    decreases |items|
  {
    if n == |items| {
      assert items[..n] == items;
    } else {
      var m := |items| - 1;
      assert items[..m][..n] == items[..n];
      ReadItemFails(items[..m], elem, n);
    }
  }

  lemma {:induction false} ReadStringFails(items: seq<Json>, n: nat)
    requires n < |items| && !items[n].Str?
    ensures ReadStrings(items).None?
    decreases |items|
  {
    if n < |items| - 1 { ReadStringFails(items[..|items| - 1], n); }
  }

  /** `operator>>` for a value. */
  method Deserialize(j: Json, ty: Type, current: Value) returns (r: Option<Value>)
    requires TypeOk(ty) && (ty.ObjectT? ==> Typed(current, ty))
    ensures r == Read(j, ty, current)
    decreases ty, 1, 0
  {
    match ty
    case IntT => r := if j.Num? then Some(VInt(j.n)) else None;
    case BoolT => r := if j.Bool? then Some(VBool(j.b)) else None;
    case StringT => r := if j.Str? then Some(VString(j.s)) else None;
    case ObjectT(cls) =>
      var fields := DeserializeObject(j, cls, current.fields);
      r := if fields.None? then None else Some(VObject(fields.value));
    case VectorT(elem) =>
      if !j.Arr? { return None; }
      var newRange := DeserializeItems(j.items, elem);
      r := if newRange.None? then None else Some(VVector(newRange.value));
    case SetT =>
      if !j.Arr? { return None; }
      var newRange := DeserializeStrings(j.items);
      r := if newRange.None? then None else Some(VSet(newRange.value));
    case PointerT(key, alloc, classes) =>
      if !Contains(j, key) || !j.members[key].Num? || j.members[key].n !in alloc { return None; }
      var c := alloc[j.members[key].n];
      var fields := DeserializeObject(j, classes[c], classes[c].defaults);
      r := if fields.None? then None else Some(VPointer(c, fields.value));
  }

  lemma FreshIsTyped(elem: Type)
    requires TypeOk(elem)
    ensures elem.ObjectT? ==> Typed(Fresh(elem), elem)
  {
    assert elem.ObjectT? ==> ClassOk(elem.cls);
  }

  /** The loop over a vector: `push_back`. */
  method DeserializeItems(items: seq<Json>, elem: Type) returns (r: Option<seq<Value>>)
    requires TypeOk(elem)
    ensures r == ReadItems(items, elem)
    decreases elem, 2, 0
  {
    var newRange := [];
    for i := 0 to |items|
      invariant ReadItems(items[..i], elem) == Some(newRange)
    {
      assert items[..i + 1][..i] == items[..i];
      FreshIsTyped(elem);
      var item := Deserialize(items[i], elem, Fresh(elem));
      if item.None? {
        ReadItemFails(items, elem, i + 1);
        return None;
      }
      newRange := newRange + [item.value];
    }
    assert items[..|items|] == items;
    return Some(newRange);
  }

  /** The loop over a set: `insert`. */
  method DeserializeStrings(items: seq<Json>) returns (r: Option<seq<string>>)
    ensures r == ReadStrings(items)
  {
    var newRange := [];
    for i := 0 to |items|
      invariant ReadStrings(items[..i]) == Some(newRange)
    {
      assert items[..i + 1][..i] == items[..i];
      if !items[i].Str? {
        ReadStringFails(items, i);
        return None;
      }
      newRange := Insert(newRange, items[i].s);
    }
    assert items[..|items|] == items;
    return Some(newRange);
  }

  method DeserializeObject(j: Json, cls: Class, current: seq<Value>) returns (r: Option<seq<Value>>)
    requires ClassOk(cls) && TypedFields(current, cls.members)
    ensures r == ReadObject(j, cls, current)
    decreases cls, 0, 1
  {
    if !Validates(j, cls.schema) {
      return None;
    }
    r := DeserializeMembers(j, cls.members, current);
  }

  // ----- what the round trip asks for -----

  predicate NoNull(v: Value)
    decreases v, 1
  {
    match v
    case VNull => false
    case VObject(fields) => NoNulls(fields)
    case VPointer(_, fields) => NoNulls(fields)
    case VVector(items) => NoNulls(items)
    case _ => true
  }

  predicate NoNulls(vs: seq<Value>)
    decreases vs, 0
  {
    forall i :: 0 <= i < |vs| ==> NoNull(vs[i])
  }

  function KindOf(ty: Type): (k: Kind) {
    match ty
    case IntT => KNumber
    case BoolT => KBoolean
    case StringT => KString
    case ObjectT(_) => KObject
    case VectorT(_) => KArray
    case SetT => KArray
    case PointerT(_, _, _) => KObject
  }

  predicate DistinctNames(members: seq<Member>) {
    forall i, j :: 0 <= i < j < |members| ==> members[i].name != members[j].name
  }

  predicate HasMember(members: seq<Member>, name: string) { exists i :: 0 <= i < |members| && members[i].name == name }

  /** The schema requires only members, and gives them their kinds. */
  predicate Describes(schema: Option<Schema>, members: seq<Member>) {
    schema.Some? ==>
      && (forall k :: 0 <= k < |schema.value.required| ==> HasMember(members, schema.value.required[k]))
      && (forall k, i :: 0 <= k < |schema.value.properties| && 0 <= i < |members| ==>
            schema.value.properties[k].0 == members[i].name ==> schema.value.properties[k].1 == KindOf(members[i].ty))
  }

  predicate Fits(ty: Type)
    decreases ty, 1
  {
    match ty
    case ObjectT(cls) => ClassFits(cls)
    case VectorT(elem) => Fits(elem)
    case PointerT(_, _, classes) => forall i :: 0 <= i < |classes| ==> ClassFits(classes[i])
    case _ => true
  }

  predicate ClassFits(cls: Class)
    decreases cls, 0
  {
    && cls.members != [] && DistinctNames(cls.members) && Describes(cls.schema, cls.members)
    && forall i :: 0 <= i < |cls.members| ==> Fits(cls.members[i].ty)
  }

  /** The class that would be allocated for what the object says of itself. */
  ghost predicate SaysClass(fields: seq<Value>, members: seq<Member>, key: string, alloc: map<int, nat>, cls: nat)
    requires |fields| == |members|
  {
    exists i :: 0 <= i < |members| && members[i].name == key && fields[i].VInt?
      && fields[i].n in alloc && alloc[fields[i].n] == cls
  }

  /** Every object behind a pointer is of the class that its discriminating member names. */
  ghost predicate Agrees(v: Value, ty: Type)
    requires Typed(v, ty)
    decreases v, 1
  {
    match ty
    case ObjectT(cls) => FieldsAgree(v.fields, cls.members)
    case VectorT(elem) => forall i :: 0 <= i < |v.items| ==> Agrees(v.items[i], elem)
    case PointerT(key, alloc, classes) =>
      v.VPointer? ==>
        assert TypedFields(v.fields, classes[v.cls].members);
        SaysClass(v.fields, classes[v.cls].members, key, alloc, v.cls) && FieldsAgree(v.fields, classes[v.cls].members)
    case _ => true
  }

  ghost predicate FieldsAgree(fields: seq<Value>, members: seq<Member>)
    requires TypedFields(fields, members)
    decreases fields, 0
  {
    forall i :: 0 <= i < |fields| ==> Agrees(fields[i], members[i].ty)
  }

  // ----- the round trip -----

  lemma {:induction false} NamesWritten(fields: seq<Value>, members: seq<Member>)
    requires TypedFields(fields, members)
    ensures var j := WriteMembers(fields, members);
      j.Obj? ==> forall name :: name in j.members ==> HasMember(members, name)
    decreases |members|
  {
    if members != [] {
      var n := |members| - 1;
      NamesWritten(fields[..n], members[..n]);
      var before := WriteMembers(fields[..n], members[..n]);
      var j := WriteMembers(fields, members);
      if j.Obj? {
        forall name | name in j.members ensures HasMember(members, name) {
          if name != members[n].name || fields[n].VNull? {
            assert name in before.members;
            var i :| 0 <= i < |members[..n]| && members[..n][i].name == name;
            assert members[i].name == name;
          }
        }
      }
    }
  }

  predicate AllNull(fields: seq<Value>) { forall i :: 0 <= i < |fields| ==> fields[i].VNull? }

  ghost predicate WrittenAt(j: Json, fields: seq<Value>, members: seq<Member>)
    requires TypedFields(fields, members)
  {
    forall i :: 0 <= i < |members| ==>
      && (Contains(j, members[i].name) <==> !fields[i].VNull?)
      && (!fields[i].VNull? ==> j.members[members[i].name] == Write(fields[i], members[i].ty))
  }

  lemma WrittenAtStep(before: Json, fields: seq<Value>, members: seq<Member>, j: Json)
    requires TypedFields(fields, members) && DistinctNames(members) && members != []
    requires var n := |members| - 1;
      WrittenAt(before, fields[..n], members[..n]) && !Contains(before, members[n].name)
          && (before.Null? || before.Obj?)
      && j == if fields[n].VNull? then before else SetMember(before, members[n].name, Write(fields[n], members[n].ty))
    ensures WrittenAt(j, fields, members)
  {
    var n := |members| - 1;
    forall i | 0 <= i < n
      ensures Contains(j, members[i].name) <==> !fields[i].VNull?
      ensures !fields[i].VNull? ==> j.members[members[i].name] == Write(fields[i], members[i].ty)
    {
      assert fields[..n][i] == fields[i] && members[..n][i] == members[i];
      assert members[i].name != members[n].name;
    }
  }

  /** Members with different names do not overwrite each other. */
  lemma {:induction false} MembersWritten(fields: seq<Value>, members: seq<Member>)
    requires TypedFields(fields, members) && DistinctNames(members)
    ensures WrittenAt(WriteMembers(fields, members), fields, members)
    ensures WriteMembers(fields, members).Null? <==> AllNull(fields)
    decreases |members|
  {
    if members != [] {
      var n := |members| - 1;
      var f, m := fields[..n], members[..n];
      var before := WriteMembers(f, m);
      MembersWritten(f, m);
      NamesWritten(f, m);
      LastIsNew(before, members);
      WrittenAtStep(before, fields, members, WriteMembers(fields, members));
      assert AllNull(fields) <==> AllNull(f) && fields[n].VNull?;
    }
  }

  lemma LastIsNew(before: Json, members: seq<Member>)
    requires members != [] && DistinctNames(members)
    requires before.Obj? ==> forall name :: name in before.members ==> HasMember(members[..|members| - 1], name)
    ensures !Contains(before, members[|members| - 1].name)
  {
    var n := |members| - 1;
    assert forall i :: 0 <= i < n ==> members[..n][i].name != members[n].name;
  }

  /** An object that only has null pointers is written as null. */
  predicate WritesNull(v: Value) { (v.VObject? || v.VPointer?) && AllNull(v.fields) }

  lemma WrittenHasKind(v: Value, ty: Type)
    requires Typed(v, ty) && !v.VNull? && Fits(ty)
    ensures HasKind(Write(v, ty), KindOf(ty)) <==> !WritesNull(v)
  {
    match ty
    case ObjectT(cls) => MembersWritten(v.fields, cls.members);
    case PointerT(_, _, classes) => MembersWritten(v.fields, classes[v.cls].members);
    case _ =>
  }

  predicate IsWritten(fields: seq<Value>, members: seq<Member>, name: string)
    requires |fields| == |members|
  {
    exists i :: 0 <= i < |members| && members[i].name == name && !fields[i].VNull?
  }

  /** Which null pointers the schema of a class lets through: no required member, not all members, and
      none that leaves a member with a property nothing to write. */
  predicate SchemaAllows(fields: seq<Value>, cls: Class)
    requires |fields| == |cls.members|
  {
    cls.schema.Some? ==>
      && !AllNull(fields)
      && (forall k :: 0 <= k < |cls.schema.value.required| ==>
           IsWritten(fields, cls.members, cls.schema.value.required[k]))
      && (forall k, i :: 0 <= k < |cls.schema.value.properties| && 0 <= i < |fields| ==>
            cls.schema.value.properties[k].0 == cls.members[i].name ==> !WritesNull(fields[i]))
  }

  lemma NameIsWritten(fields: seq<Value>, members: seq<Member>, name: string)
    requires TypedFields(fields, members) && DistinctNames(members)
    ensures Contains(WriteMembers(fields, members), name) <==> IsWritten(fields, members, name)
  {
    MembersWritten(fields, members);
    NamesWritten(fields, members);
  }

  lemma PropertyHolds(fields: seq<Value>, cls: Class, k: nat)
    requires TypedFields(fields, cls.members) && ClassFits(cls) && cls.schema.Some? && k < |cls.schema.value.properties|
    ensures var j, p := WriteMembers(fields, cls.members), cls.schema.value.properties[k];
      (Contains(j, p.0) ==> HasKind(j.members[p.0], p.1)) <==>
      (forall i :: 0 <= i < |fields| && p.0 == cls.members[i].name ==> !WritesNull(fields[i]))
  {
    var j, p := WriteMembers(fields, cls.members), cls.schema.value.properties[k];
    MembersWritten(fields, cls.members);
    NamesWritten(fields, cls.members);
    if i :| 0 <= i < |fields| && p.0 == cls.members[i].name {
      if !fields[i].VNull? { WrittenHasKind(fields[i], cls.members[i].ty); }
    }
  }

  /** What a class writes passes its own schema, exactly if the null pointers are allowed. */
  lemma WrittenPassesExactly(fields: seq<Value>, cls: Class)
    requires TypedFields(fields, cls.members) && ClassFits(cls)
    ensures Validates(WriteMembers(fields, cls.members), cls.schema) <==> SchemaAllows(fields, cls)
  {
    if cls.schema.Some? {
      var schema := cls.schema.value;
      MembersWritten(fields, cls.members);
      forall k | 0 <= k < |schema.required|
        ensures Contains(WriteMembers(fields, cls.members), schema.required[k])
            <==> IsWritten(fields, cls.members, schema.required[k])
      {
        NameIsWritten(fields, cls.members, schema.required[k]);
      }
      forall k: nat | k < |schema.properties|
        ensures var j, p := WriteMembers(fields, cls.members), schema.properties[k];
          (Contains(j, p.0) ==> HasKind(j.members[p.0], p.1)) <==>
          (forall i :: 0 <= i < |fields| && p.0 == cls.members[i].name ==> !WritesNull(fields[i]))
      {
        PropertyHolds(fields, cls, k);
      }
    }
  }

  lemma AppendIs<T>(before: seq<T>, x: T, all: seq<T>)
    requires all != []
    ensures before + [x] == all <==> before == all[..|all| - 1] && x == all[|all| - 1]
  {
    assert all == all[..|all| - 1] + [all[|all| - 1]];
    assert (before + [x])[|before|] == x && (before + [x])[..|before|] == before;
    if before + [x] == all { assert |before| == |all| - 1; }
  }

  ghost predicate ItemReadsBack(j: Json, elem: Type, v: Value)
    requires TypeOk(elem) && (elem.ObjectT? ==> Typed(Fresh(elem), elem))
  {
    Read(j, elem, Fresh(elem)) == Some(v)
  }

  lemma ReadItemsUnfolds(items: seq<Json>, elem: Type)
    requires TypeOk(elem) && items != [] && (elem.ObjectT? ==> Typed(Fresh(elem), elem))
    ensures var before, last := ReadItems(items[..|items| - 1], elem), Read(items[|items| - 1], elem, Fresh(elem));
      ReadItems(items, elem) == if before.None? || last.None? then None else Some(before.value + [last.value])
  {
  }

  /** Two optional parts make up the whole exactly if each is its part of it. */
  lemma PartsAre<T>(before: Option<seq<T>>, last: Option<T>, all: seq<T>)
    requires all != []
    ensures (before.Some? && last.Some? && before.value + [last.value] == all)
       <==> (before == Some(all[..|all| - 1]) && last == Some(all[|all| - 1]))
  {
    if before.Some? && last.Some? {
      AppendIs(before.value, last.value, all);
    }
  }

  lemma ReadItemsStep(items: seq<Json>, elem: Type, values: seq<Value>)
    requires TypeOk(elem) && |items| == |values| > 0 && (elem.ObjectT? ==> Typed(Fresh(elem), elem))
    ensures var n := |items| - 1;
      ReadItems(items, elem) == Some(values) <==>
      ReadItems(items[..n], elem) == Some(values[..n]) && ItemReadsBack(items[n], elem, values[n])
  {
    var n := |items| - 1;
    ReadItemsUnfolds(items, elem);
    PartsAre(ReadItems(items[..n], elem), Read(items[n], elem, Fresh(elem)), values);
  }

  ghost predicate ItemsReadBack(items: seq<Json>, elem: Type, values: seq<Value>)
    requires TypeOk(elem) && (elem.ObjectT? ==> Typed(Fresh(elem), elem)) && |items| == |values|
  {
    forall i :: 0 <= i < |items| ==> ItemReadsBack(items[i], elem, values[i])
  }

  lemma ItemsReadBackStep(items: seq<Json>, elem: Type, values: seq<Value>)
    requires TypeOk(elem) && (elem.ObjectT? ==> Typed(Fresh(elem), elem)) && |items| == |values| > 0
    ensures var n := |items| - 1;
      ItemsReadBack(items, elem, values) <==>
      ItemsReadBack(items[..n], elem, values[..n]) && ItemReadsBack(items[n], elem, values[n])
  {
    var n := |items| - 1;
    assert forall i :: 0 <= i < n ==> items[..n][i] == items[i] && values[..n][i] == values[i];
  }

  lemma {:induction false} ReadItemsBack(items: seq<Json>, elem: Type, values: seq<Value>)
    requires TypeOk(elem) && (elem.ObjectT? ==> Typed(Fresh(elem), elem)) && |items| == |values|
    ensures ReadItems(items, elem) == Some(values) <==> ItemsReadBack(items, elem, values)
    decreases |items|
  {
    if items != [] {
      var n := |items| - 1;
      ReadItemsBack(items[..n], elem, values[..n]);
      ReadItemsStep(items, elem, values);
      ItemsReadBackStep(items, elem, values);
    }
  }

  /** A member that is not in the object keeps what it holds. */
  ghost predicate MemberReadsBack(j: Json, m: Member, current: Value, v: Value) {
    && TypeOk(m.ty) && (m.ty.ObjectT? ==> Typed(current, m.ty))
    && (if Contains(j, m.name) then Read(j.members[m.name], m.ty, current) == Some(v) else current == v)
  }

  ghost predicate MembersReadBack(j: Json, members: seq<Member>, current: seq<Value>, fields: seq<Value>)
    requires |current| == |members| == |fields|
  {
    forall i :: 0 <= i < |members| ==> MemberReadsBack(j, members[i], current[i], fields[i])
  }

  lemma MembersReadBackStep(j: Json, members: seq<Member>, current: seq<Value>, fields: seq<Value>)
    requires |current| == |members| == |fields| > 0
    ensures var n := |members| - 1;
      MembersReadBack(j, members, current, fields) <==>
      MembersReadBack(j, members[..n], current[..n], fields[..n])
          && MemberReadsBack(j, members[n], current[n], fields[n])
  {
    var n := |members| - 1;
    assert forall i :: 0 <= i < n ==>
        members[..n][i] == members[i] && current[..n][i] == current[i] && fields[..n][i] == fields[i];
  }

  lemma {:induction false} ReadMembersBack(j: Json, members: seq<Member>, current: seq<Value>, fields: seq<Value>)
    requires MembersOk(members) && TypedFields(current, members) && |fields| == |members|
    ensures ReadMembers(j, members, current) == Some(fields) <==> MembersReadBack(j, members, current, fields)
    decreases |members|
  {
    if members != [] {
      var n := |members| - 1;
      ReadMembersBack(j, members[..n], current[..n], fields[..n]);
      ReadMembersStep(j, members, current, fields);
      MembersReadBackStep(j, members, current, fields);
    }
  }

  lemma ReadMembersStep(j: Json, members: seq<Member>, current: seq<Value>, fields: seq<Value>)
    requires MembersOk(members) && TypedFields(current, members) && |fields| == |members| > 0
    ensures var n := |members| - 1;
      ReadMembers(j, members, current) == Some(fields) <==>
      ReadMembers(j, members[..n], current[..n]) == Some(fields[..n])
          && MemberReadsBack(j, members[n], current[n], fields[n])
  {
    var n := |members| - 1;
    var last := if Contains(j, members[n].name) then Read(j.members[members[n].name], members[n].ty, current[n])
        else Some(current[n]);
    PartsAre(ReadMembers(j, members[..n], current[..n]), last, fields);
  }

  lemma {:induction false} InsertLast(s: seq<string>, x: string)
    requires Sorted(s + [x])
    ensures Insert(s, x) == s + [x]
  {
    if s != [] {
      assert (s + [x])[0] == s[0] && (s + [x])[|s|] == x;
      LessIsTotal(s[0], x);
      LessIrreflexive(x);
      assert s[1..] + [x] == (s + [x])[1..];
      InsertLast(s[1..], x);
      assert [s[0]] + (s[1..] + [x]) == s + [x];
    }
  }

  lemma {:induction false} ReadStringsBack(items: seq<Json>, elements: seq<string>)
    requires |items| == |elements| && Sorted(elements) && forall i :: 0 <= i < |items| ==> items[i] == Str(elements[i])
    ensures ReadStrings(items) == Some(elements)
    decreases |items|
  {
    if items != [] {
      var n := |items| - 1;
      ReadStringsBack(items[..n], elements[..n]);
      assert elements == elements[..n] + [elements[n]];
      InsertLast(elements[..n], elements[n]);
    }
  }

  // ----- exactly what comes back -----

  /** What comes back when it is read into `current`: an element that is a null pointer never does, a
      member that is one only if the member is null already and the schema lets it be missing; an object
      behind a pointer only if it is of the class that it names. */
  ghost predicate Restores(v: Value, ty: Type, current: Value)
    requires Typed(v, ty) && TypeOk(ty) && (ty.ObjectT? ==> Typed(current, ty))
    decreases v, 1
  {
    match ty
    case ObjectT(cls) => ObjectRestores(v.fields, cls, current.fields)
    case VectorT(elem) =>
      FreshIsTyped(elem);
      forall i :: 0 <= i < |v.items| ==> Restores(v.items[i], elem, Fresh(elem))
    case PointerT(key, alloc, classes) =>
      && v.VPointer?
      && (assert TypedFields(v.fields, classes[v.cls].members);
          SaysClass(v.fields, classes[v.cls].members, key, alloc, v.cls))
      && ObjectRestores(v.fields, classes[v.cls], classes[v.cls].defaults)
    case _ => true
  }

  ghost predicate ObjectRestores(fields: seq<Value>, cls: Class, current: seq<Value>)
    requires TypedFields(fields, cls.members) && ClassOk(cls) && TypedFields(current, cls.members)
    decreases fields, 0
  {
    assert MembersOk(cls.members);
    && SchemaAllows(fields, cls)
    && forall i :: 0 <= i < |fields| ==>
         if fields[i].VNull? then current[i].VNull? else Restores(fields[i], cls.members[i].ty, current[i])
  }

  /** Main result, for every type of the universe, every value, and whatever the object read into held
      before: reading what was written gives the value back exactly under that condition. */
  lemma {:induction false} RoundTripExactly(v: Value, ty: Type, current: Value)
    requires Typed(v, ty) && TypeOk(ty) && Fits(ty) && (ty.ObjectT? ==> Typed(current, ty))
    ensures Read(Write(v, ty), ty, current) == Some(v) <==> Restores(v, ty, current)
    decreases v, 1
  {
    match ty
    case IntT =>
    case BoolT =>
    case StringT =>
    case SetT => ReadStringsBack(Write(v, ty).items, v.elements);
    case VectorT(elem) =>
      FreshIsTyped(elem);
      ReadItemsBack(Write(v, ty).items, elem, v.items);
      forall i | 0 <= i < |v.items|
        ensures ItemReadsBack(Write(v, ty).items[i], elem, v.items[i]) <==> Restores(v.items[i], elem, Fresh(elem))
      {
        RoundTripExactly(v.items[i], elem, Fresh(elem));
      }
    case ObjectT(cls) =>
      ObjectRoundTrip(v.fields, cls, current.fields);
    case PointerT(key, alloc, classes) =>
      if v.VPointer? { PointerRoundTrip(v, key, alloc, classes); }
  }

  lemma {:induction false} ObjectRoundTrip(fields: seq<Value>, cls: Class, current: seq<Value>)
    requires TypedFields(fields, cls.members) && ClassOk(cls) && ClassFits(cls) && TypedFields(current, cls.members)
    ensures ReadObject(WriteMembers(fields, cls.members), cls, current) == Some(fields)
        <==> ObjectRestores(fields, cls, current)
    decreases fields, 0
  {
    var j := WriteMembers(fields, cls.members);
    MembersWritten(fields, cls.members);
    WrittenPassesExactly(fields, cls);
    ReadMembersBack(j, cls.members, current, fields);
    forall i | 0 <= i < |fields|
      ensures MemberReadsBack(j, cls.members[i], current[i], fields[i]) <==>
        if fields[i].VNull? then current[i].VNull? else Restores(fields[i], cls.members[i].ty, current[i])
    {
      assert TypeOk(cls.members[i].ty);
      if !fields[i].VNull? { RoundTripExactly(fields[i], cls.members[i].ty, current[i]); }
    }
  }

  lemma NumberWritten(v: Value, ty: Type)
    requires Typed(v, ty) && v.VInt?
    ensures Write(v, ty) == Num(v.n)
  {
  }

  lemma {:induction false} PointerRoundTrip(v: Value, key: string, alloc: map<int, nat>, classes: seq<Class>)
    requires var ty := PointerT(key, alloc, classes); Typed(v, ty) && v.VPointer? && TypeOk(ty) && Fits(ty)
    ensures var ty := PointerT(key, alloc, classes);
      Read(Write(v, ty), ty, VNull) == Some(v) <==> Restores(v, ty, VNull)
    decreases v, 0
  {
    var cls := classes[v.cls];
    var j := WriteMembers(v.fields, cls.members);
    MembersWritten(v.fields, cls.members);
    ObjectRoundTrip(v.fields, cls, cls.defaults);
    KeyWritten(v.fields, cls.members, key);
    if SaysClass(v.fields, cls.members, key, alloc, v.cls) {
      var i :| 0 <= i < |cls.members| && cls.members[i].name == key && v.fields[i].VInt?
        && v.fields[i].n in alloc && alloc[v.fields[i].n] == v.cls;
      NumberWritten(v.fields[i], cls.members[i].ty);
      assert j.members[key] == Num(v.fields[i].n);
    } else if Contains(j, key) && j.members[key].Num? && j.members[key].n in alloc {
      assert alloc[j.members[key].n] != v.cls;
    }
  }

  /** The discriminating member as it was written. */
  lemma KeyWritten(fields: seq<Value>, members: seq<Member>, key: string)
    requires TypedFields(fields, members) && DistinctNames(members)
    ensures var j := WriteMembers(fields, members);
      Contains(j, key) && j.members[key].Num? ==>
        exists i :: 0 <= i < |members| && members[i].name == key && fields[i] == VInt(j.members[key].n)
  {
    var j := WriteMembers(fields, members);
    MembersWritten(fields, members);
    NamesWritten(fields, members);
    if Contains(j, key) && j.members[key].Num? {
      var i :| 0 <= i < |members| && members[i].name == key;
      assert !fields[i].VNull? && j.members[key] == Write(fields[i], members[i].ty);
      OnlyNumbersAreNumbers(fields[i], members[i].ty);
    }
  }

  lemma OnlyNumbersAreNumbers(v: Value, ty: Type)
    requires Typed(v, ty) && Write(v, ty).Num?
    ensures v == VInt(Write(v, ty).n)
  {
  }

  /** What comes back was written without an exception. */
  lemma {:induction false} RestoredPasses(v: Value, ty: Type, current: Value)
    requires Typed(v, ty) && TypeOk(ty) && Fits(ty) && (ty.ObjectT? ==> Typed(current, ty)) && Restores(v, ty, current)
    ensures MemberPasses(v, ty)
    decreases v, 1
  {
    match ty
    case ObjectT(cls) => RestoredObjectPasses(v.fields, cls, current.fields);
    case VectorT(elem) =>
      FreshIsTyped(elem);
      forall i | 0 <= i < |v.items| ensures Passes(v.items[i], elem) { RestoredPasses(v.items[i], elem, Fresh(elem)); }
    case PointerT(key, alloc, classes) => RestoredObjectPasses(v.fields, classes[v.cls], classes[v.cls].defaults);
    case _ =>
  }

  lemma {:induction false} RestoredObjectPasses(fields: seq<Value>, cls: Class, current: seq<Value>)
    requires TypedFields(fields, cls.members) && ClassOk(cls) && ClassFits(cls) && TypedFields(current, cls.members)
    requires ObjectRestores(fields, cls, current)
    ensures ObjectPasses(fields, cls)
    decreases fields, 0
  {
    WrittenPassesExactly(fields, cls);
    forall i | 0 <= i < |fields| ensures MemberPasses(fields[i], cls.members[i].ty) {
      assert TypeOk(cls.members[i].ty);
      if !fields[i].VNull? { RestoredPasses(fields[i], cls.members[i].ty, current[i]); }
    }
  }

  // ----- without null pointers -----

  lemma NoNullsAllowed(fields: seq<Value>, cls: Class)
    requires TypedFields(fields, cls.members) && NoNulls(fields) && ClassFits(cls)
    ensures SchemaAllows(fields, cls)
  {
    assert NoNull(fields[0]);
    forall i | 0 <= i < |fields| ensures !fields[i].VNull? && !WritesNull(fields[i]) {
      NotAllNull(fields[i], cls.members[i].ty);
    }
  }

  lemma NotAllNull(v: Value, ty: Type)
    requires Typed(v, ty) && NoNull(v) && Fits(ty)
    ensures !v.VNull? && !WritesNull(v)
  {
    if v.VObject? || v.VPointer? {
      assert |v.fields| > 0;
      assert NoNull(v.fields[0]);
    }
  }

  /** What a class writes passes its own schema. */
  lemma WrittenPasses(fields: seq<Value>, cls: Class)
    requires TypedFields(fields, cls.members) && NoNulls(fields) && ClassFits(cls)
    ensures Validates(WriteMembers(fields, cls.members), cls.schema)
  {
    NoNullsAllowed(fields, cls);
    WrittenPassesExactly(fields, cls);
  }

  /** Without null pointers writing never throws. */
  lemma {:induction false} NoNullPasses(v: Value, ty: Type)
    requires Typed(v, ty) && NoNull(v) && Fits(ty)
    ensures MemberPasses(v, ty)
    decreases v, 1
  {
    match ty
    case ObjectT(cls) => NoNullsPass(v.fields, cls);
    case VectorT(elem) =>
      forall i | 0 <= i < |v.items| ensures Passes(v.items[i], elem) { NoNullPasses(v.items[i], elem); }
    case PointerT(_, _, classes) => NoNullsPass(v.fields, classes[v.cls]);
    case _ =>
  }

  lemma {:induction false} NoNullsPass(fields: seq<Value>, cls: Class)
    requires TypedFields(fields, cls.members) && NoNulls(fields) && ClassFits(cls)
    ensures ObjectPasses(fields, cls)
    decreases fields, 0
  {
    WrittenPasses(fields, cls);
    forall i | 0 <= i < |fields| ensures MemberPasses(fields[i], cls.members[i].ty) {
      assert NoNull(fields[i]);
      NoNullPasses(fields[i], cls.members[i].ty);
    }
  }

  /** Without null pointers everything comes back exactly if the objects behind pointers are of the
      class they name, whatever the object read into held. */
  lemma {:induction false} RestoresExactlyIfAgrees(v: Value, ty: Type, current: Value)
    requires Typed(v, ty) && NoNull(v) && TypeOk(ty) && Fits(ty) && (ty.ObjectT? ==> Typed(current, ty))
    ensures Restores(v, ty, current) <==> Agrees(v, ty)
    decreases v, 1
  {
    match ty
    case ObjectT(cls) => ObjectRestoresExactlyIfAgrees(v.fields, cls, current.fields);
    case VectorT(elem) =>
      FreshIsTyped(elem);
      forall i | 0 <= i < |v.items| ensures Restores(v.items[i], elem, Fresh(elem)) <==> Agrees(v.items[i], elem) {
        RestoresExactlyIfAgrees(v.items[i], elem, Fresh(elem));
      }
    case PointerT(key, alloc, classes) =>
      ObjectRestoresExactlyIfAgrees(v.fields, classes[v.cls], classes[v.cls].defaults);
    case _ =>
  }

  lemma {:induction false} ObjectRestoresExactlyIfAgrees(fields: seq<Value>, cls: Class, current: seq<Value>)
    requires TypedFields(fields, cls.members) && NoNulls(fields) && ClassOk(cls) && ClassFits(cls)
    requires TypedFields(current, cls.members)
    ensures ObjectRestores(fields, cls, current) <==> FieldsAgree(fields, cls.members)
    decreases fields, 0
  {
    NoNullsAllowed(fields, cls);
    forall i | 0 <= i < |fields|
      ensures !fields[i].VNull? && TypeOk(cls.members[i].ty)
      ensures Restores(fields[i], cls.members[i].ty, current[i]) <==> Agrees(fields[i], cls.members[i].ty)
    {
      assert NoNull(fields[i]) && TypeOk(cls.members[i].ty);
      RestoresExactlyIfAgrees(fields[i], cls.members[i].ty, current[i]);
    }
  }
}
