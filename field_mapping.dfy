/**
 * The field-mapping engine: descriptors that route a field (or string map
 * key) of a predecessor's output to a field (or key) of a successor's input,
 * value-level extraction and injection, type-level resolution, the per-edge
 * fan-out into a `to -> value` map, assembly of the successor input, and the
 * compile-time validation that builds runtime guards.
 */
module FieldMappings {
  import opened Values

  /** One routing rule. An empty `from` is the whole predecessor output, an
      empty `to` the whole successor input. */
  datatype FieldMapping = FieldMapping(fromNodeKey: string, from: string, to: string) {
    predicate Empty() { from == "" && to == "" }
  }

  /** A predecessor field mapped to the entire successor input. */
  function FromField(from: string): (m: FieldMapping)
    ensures m.from == from && m.to == "" && m.fromNodeKey == ""
  {
    FieldMapping("", from, "")
  }

  /** The entire predecessor output mapped to one successor field. */
  function ToField(to: string): (m: FieldMapping)
    ensures m.from == "" && m.to == to && m.fromNodeKey == ""
  {
    FieldMapping("", "", to)
  }

  /** One predecessor field mapped to one successor field. */
  function MapFields(from: string, to: string): (m: FieldMapping)
    ensures m.from == from && m.to == to && m.fromNodeKey == ""
  {
    FieldMapping("", from, to)
  }

  /** The rendering used in error messages, built by successive appends. */
  method String(m: FieldMapping) returns (s: string)
    ensures s == "from " + (if m.from != "" then m.from + "(field) of " else "")
                 + m.fromNodeKey
                 + (if m.to != "" then " to " + m.to + "(field)" else "") + "; "
  {
    s := "from ";
    if m.from != "" {
      s := s + m.from;
      s := s + "(field) of ";
    }
    s := s + m.fromNodeKey;
    if m.to != "" {
      s := s + " to ";
      s := s + m.to;
      s := s + "(field)";
    }
    s := s + "; ";
  }

  // ---------------------------------------------------------------------
  // Extraction
  // ---------------------------------------------------------------------

  /** `i` is the first field named `name`, and that field is exported. */
  predicate ExportedAt(fs: seq<Field>, name: string, i: nat)
  {
    FirstIndex(FieldNames(fs), name) == Some(i) && i < |fs| && fs[i].exported
  }

  /** Reads a named field of a struct value; any other kind makes reflection panic. */
  function CheckAndExtractFromField(fromField: string, input: Value): (r: Result<Value>)
    ensures r.Ok? <==> input.StructV? && exists i: nat :: ExportedAt(input.fields, fromField, i)
    ensures forall i: nat :: input.StructV? && ExportedAt(input.fields, fromField, i) ==>
      r == Ok(input.fields[i].val)
    ensures input.StructV? && fromField !in FieldNames(input.fields) ==>
      r == Err(FieldNotFound(fromField))
    ensures !input.StructV? ==> r == Err(Panic(NotStruct))
  {
    if !input.StructV? then Err(Panic(NotStruct))
    else match FirstIndex(FieldNames(input.fields), fromField)
      case None => Err(FieldNotFound(fromField))
      case Some(i) =>
        if !input.fields[i].exported then Err(FieldNotExported(fromField))
        else assert ExportedAt(input.fields, fromField, i); Ok(input.fields[i].val)
  }

  /** Reads a key of a map value whose key type accepts a string. */
  function CheckAndExtractFromMapKey(fromMapKey: string, input: Value, assignable: Assignable): (r: Result<Value>)
    requires input.MapV?
    ensures r.Ok? <==> assignable(Str, input.keyType) && fromMapKey in input.entries
    ensures r.Ok? ==> r.value == input.entries[fromMapKey]
    ensures !assignable(Str, input.keyType) ==> r == Err(MapKeyNotString)
  {
    if !assignable(Str, input.keyType) then Err(MapKeyNotString)
    else if fromMapKey !in input.entries then Err(KeyNotFound(fromMapKey))
    else Ok(input.entries[fromMapKey])
  }

  /**
   * Takes the part of a predecessor output named by `from`. Exactly one
   * pointer level is dereferenced before the struct lookup.
   */
  function TakeOne(input: Value, from: string, assignable: Assignable): (r: Result<Value>)
    ensures from == "" ==> r == Ok(input)
    ensures from != "" && input.MapV? ==>
      && (r.Ok? <==> assignable(Str, input.keyType) && from in input.entries)
      && (r.Ok? ==> r.value == input.entries[from])
    ensures from != "" && (input.StructV? || input.PtrV?) ==>
      var s := if input.PtrV? then input.target else input;
      && (r.Ok? <==> s.StructV? && exists i: nat :: ExportedAt(s.fields, from, i))
      && (forall i: nat :: s.StructV? && ExportedAt(s.fields, from, i) ==> r == Ok(s.fields[i].val))
      && (s.StructV? && from !in FieldNames(s.fields) ==> r == Err(FieldNotFound(from)))
    ensures from != "" && (input.StrV? || input.IntV?) ==> r == Err(UnsupportedKind)
  {
    if from == "" then Ok(input)
    else match input
      case MapV(_, _, _) => CheckAndExtractFromMapKey(from, input, assignable)
      case PtrV(_, target) => CheckAndExtractFromField(from, target)
      case StructV(_) => CheckAndExtractFromField(from, input)
      case _ => Err(UnsupportedKind)
  }

  // ---------------------------------------------------------------------
  // Type-level resolution
  // ---------------------------------------------------------------------

  /**
   * The static type of the part named by `field`. The map check comes
   * before pointers are stripped, so a pointer to a map is "not a struct";
   * the map key type must be exactly the string type.
   */
  function ResolveFieldType(field: string, typ: Type): Result<Type>
  {
    if field == "" then Ok(typ)
    else if typ.MapT? then
      if typ.key != Str then Err(MapKeyNotString) else Ok(typ.elem)
    else
      var s := StripPtrs(typ);
      if !s.Struct? then Err(NotStruct)
      else match FirstIndex(DeclNames(s.decls), field)
        case None => Err(FieldNotFound(field))
        case Some(i) =>
          if !s.decls[i].exported then Err(FieldNotExported(field))
          else Ok(s.decls[i].typ)
  }

  /** The pointer-stripping loop of the type-level resolution. */
  method CheckAndExtractFieldType(field: string, typ: Type) returns (r: Result<Type>)
    ensures r == ResolveFieldType(field, typ)
  {
    if |field| == 0 {
      return Ok(typ);
    }
    if typ.MapT? {
      if typ.key != Str {
        return Err(MapKeyNotString);
      }
      return Ok(typ.elem);
    }
    var t := typ;
    while t.Ptr?
      invariant StripPtrs(t) == StripPtrs(typ)
      decreases t
    {
      t := t.elem;
    }
    if !t.Struct? {
      return Err(NotStruct);
    }
    var idx := FirstIndex(DeclNames(t.decls), field);
    if idx.None? {
      return Err(FieldNotFound(field));
    }
    var i := idx.value;
    if !t.decls[i].exported {
      return Err(FieldNotExported(field));
    }
    r := Ok(t.decls[i].typ);
  }

  /** Below the map check, resolution sees through any number of pointer levels. */
  lemma ResolveThroughPointer(field: string, t: Type)
    requires field != "" && !t.MapT?
    ensures ResolveFieldType(field, Ptr(t)) == ResolveFieldType(field, t)
  {
  }

  /** A pointer to a map is rejected as not a struct, whatever the map's key type. */
  lemma PointerToMapIsNotStruct(field: string, key: Type, elem: Type)
    requires field != ""
    ensures ResolveFieldType(field, Ptr(MapT(key, elem))) == Err(NotStruct)
  {
    assert StripPtrs(Ptr(MapT(key, elem))) == MapT(key, elem);
  }

  /**
   * The type-level resolution predicts the value-level extraction for a
   * struct or a single (well-formed) pointer to a struct: both succeed on the
   * same field names, and the resolved type is the declared type of the
   * field extracted.
   */
  lemma StaticAgreesWithExtraction(v: Value, field: string, assignable: Assignable)
    requires field != ""
    requires v.StructV? || (v.PtrV? && v.target.StructV? && v.elemType == TypeOf(v.target))
    ensures var s := if v.PtrV? then v.target else v;
      && (ResolveFieldType(field, TypeOf(v)).Ok? <==> TakeOne(v, field, assignable).Ok?)
      && (TakeOne(v, field, assignable).Ok? ==>
            exists i: nat :: ExportedAt(s.fields, field, i)
              && ResolveFieldType(field, TypeOf(v)) == Ok(s.fields[i].typ)
              && TakeOne(v, field, assignable) == Ok(s.fields[i].val))
  {
    var s := if v.PtrV? then v.target else v;
    assert StripPtrs(TypeOf(v)) == Struct(Decls(s.fields));
    assert DeclNames(Decls(s.fields)) == FieldNames(s.fields);
    match FirstIndex(FieldNames(s.fields), field)
    case None =>
    case Some(i) =>
      if s.fields[i].exported {
        assert ExportedAt(s.fields, field, i);
      }
  }

  /** Whether a type is a map, a pointer (to anything) or a struct. */
  function ValidateStructOrMap(t: Type): bool
  {
    match t
    case MapT(_, _) => true
    case Ptr(_) => true
    case Struct(_) => true
    case _ => false
  }

  /**
   * The accepted kinds are exactly map, pointer and struct; a pointer is
   * accepted whatever it points to, even a scalar or another pointer.
   */
  lemma ValidateStructOrMapKinds(t: Type)
    ensures ValidateStructOrMap(t) <==> t.MapT? || t.Ptr? || t.Struct?
    ensures ValidateStructOrMap(Ptr(t))
  {
  }

  // ---------------------------------------------------------------------
  // Injection
  // ---------------------------------------------------------------------

  /** The key under which a value is stored into a map destination. */
  function CheckAndExtractToMapKey(toMapKey: string, output: Value, toSet: Value, assignable: Assignable): (r: Result<string>)
    ensures r.Ok? <==> output.MapV? && assignable(Str, output.keyType) && assignable(TypeOf(toSet), output.elemType)
    ensures r.Ok? ==> r.value == toMapKey
    ensures !output.MapV? ==> r == Err(NotMap)
  {
    if !output.MapV? then Err(NotMap)
    else if !assignable(Str, output.keyType) then Err(MapKeyNotString)
    else if !assignable(TypeOf(toSet), output.elemType) then Err(TypeMismatch)
    else Ok(toMapKey)
  }

  /**
   * The field a struct destination is written through: the first field named
   * `toField` of the struct behind every pointer level, which must be
   * settable (exported) and accept the value's type.
   */
  function ResolveToField(toField: string, output: Value, toSet: Value, assignable: Assignable): Result<nat>
  {
    var s := Deref(output);
    if !s.StructV? then Err(NotStruct)
    else match FirstIndex(FieldNames(s.fields), toField)
      case None => Err(FieldNotFound(toField))
      case Some(i) =>
        if !s.fields[i].exported then Err(FieldNotExported(toField))
        else if !assignable(TypeOf(toSet), s.fields[i].typ) then Err(TypeMismatch)
        else Ok(i)
  }

  /** The pointer-following loop that finds the destination field. */
  method CheckAndExtractToField(toField: string, output: Value, toSet: Value, assignable: Assignable)
    returns (r: Result<nat>)
    ensures r == ResolveToField(toField, output, toSet, assignable)
  {
    var out := output;
    while out.PtrV?
      invariant Deref(out) == Deref(output)
      decreases out
    {
      out := out.target;
    }
    if !out.StructV? {
      return Err(NotStruct);
    }
    var idx := FirstIndex(FieldNames(out.fields), toField);
    if idx.None? {
      return Err(FieldNotFound(toField));
    }
    var i := idx.value;
    if !out.fields[i].exported {
      return Err(FieldNotExported(toField));
    }
    if !assignable(TypeOf(toSet), out.fields[i].typ) {
      return Err(TypeMismatch);
    }
    r := Ok(i);
  }

  /** `v` with field `i` of the struct behind its pointers set to `x`. */
  function SetField(v: Value, i: nat, x: Value): Value
    requires Deref(v).StructV? && i < |Deref(v).fields|
    decreases v
  {
    if v.PtrV? then PtrV(v.elemType, SetField(v.target, i, x))
    else StructV(v.fields[i := v.fields[i].(val := x)])
  }

  /**
   * What assigning `taken` to the part `to` of a destination of static type
   * `destType` produces. With an interface static type the destination is
   * an interface-kind value, so a named part of it is "not a struct".
   */
  function Inject(destType: Type, dest: Value, taken: Value, to: string, assignable: Assignable): Result<Value>
  {
    if to == "" then
      if assignable(TypeOf(taken), destType) then Ok(taken) else Err(TypeMismatch)
    else if destType.Iface? then Err(NotStruct)
    else if dest.MapV? then
      match CheckAndExtractToMapKey(to, dest, taken, assignable)
      case Err(e) => Err(e)
      case Ok(key) => Ok(MapV(dest.keyType, dest.elemType, dest.entries[key := taken]))
    else
      match ResolveToField(to, dest, taken, assignable)
      case Err(e) => Err(e)
      case Ok(i) => Ok(SetField(dest, i, taken))
  }

  /** Assigns `taken` to the part `to` of `dest`, whose static type is `destType`. */
  method AssignOne(destType: Type, dest: Value, taken: Value, to: string, assignable: Assignable)
    returns (r: Result<Value>)
    requires !destType.Iface? ==> TypeOf(dest) == destType
    ensures r == Inject(destType, dest, taken, to, assignable)
  {
    if |to| == 0 {
      if !assignable(TypeOf(taken), destType) {
        return Err(TypeMismatch);
      }
      return Ok(taken);
    }
    if destType.MapT? {
      var key :- CheckAndExtractToMapKey(to, dest, taken, assignable);
      return Ok(MapV(dest.keyType, dest.elemType, dest.entries[key := taken]));
    }
    if destType.Iface? {
      // the destination is an interface-kind value, never a struct
      return Err(NotStruct);
    }
    var i :- CheckAndExtractToField(to, dest, taken, assignable);
    r := Ok(SetField(dest, i, taken));
  }

  lemma {:induction false} SetFieldShape(v: Value, i: nat, x: Value)
    requires Deref(v).StructV? && i < |Deref(v).fields|
    ensures TypeOf(SetField(v, i, x)) == TypeOf(v)
    ensures Deref(SetField(v, i, x)) == StructV(Deref(v).fields[i := Deref(v).fields[i].(val := x)])
    decreases v
  {
    if v.PtrV? {
      SetFieldShape(v.target, i, x);
    } else {
      assert Decls(v.fields[i := v.fields[i].(val := x)]) == Decls(v.fields);
    }
  }

  /** A named assignment changes only the entry or field named `to`. */
  lemma InjectChangesOnlyTarget(destType: Type, dest: Value, taken: Value, to: string, assignable: Assignable)
    requires to != "" && Inject(destType, dest, taken, to, assignable).Ok?
    ensures var r := Inject(destType, dest, taken, to, assignable).value;
      && TypeOf(r) == TypeOf(dest)
      && (dest.MapV? ==> r.entries == dest.entries[to := taken]
                         && assignable(Str, dest.keyType) && assignable(TypeOf(taken), dest.elemType))
      && (!dest.MapV? ==>
            var s, s' := Deref(dest), Deref(r);
            && s.StructV? && s'.StructV? && |s'.fields| == |s.fields|
            && exists i: nat :: ExportedAt(s.fields, to, i)
                 && assignable(TypeOf(taken), s.fields[i].typ)
                 && s'.fields[i] == s.fields[i].(val := taken)
                 && forall j :: 0 <= j < |s.fields| && j != i ==> s'.fields[j] == s.fields[j])
  {
    if !dest.MapV? {
      var i := ResolveToField(to, dest, taken, assignable).value;
      SetFieldShape(dest, i, taken);
      assert ExportedAt(Deref(dest).fields, to, i);
    }
  }

  /**
   * Round trip: taking back the part just assigned gives the assigned value,
   * for a map, a struct, or a single pointer to a struct.
   */
  lemma ExtractAfterInject(destType: Type, dest: Value, taken: Value, to: string, assignable: Assignable)
    requires to != "" && Inject(destType, dest, taken, to, assignable).Ok?
    requires !(dest.PtrV? && dest.target.PtrV?)
    ensures TakeOne(Inject(destType, dest, taken, to, assignable).value, to, assignable) == Ok(taken)
  {
    var r := Inject(destType, dest, taken, to, assignable).value;
    if !dest.MapV? {
      var i := ResolveToField(to, dest, taken, assignable).value;
      SetFieldShape(dest, i, taken);
      var s' := Deref(r);
      assert FieldNames(s'.fields) == FieldNames(Deref(dest).fields);
      assert ExportedAt(s'.fields, to, i);
    }
  }

  /** With two pointer levels the round trip breaks: assignment follows every
      pointer, extraction only one, and reflection panics. */
  lemma ExtractAfterInjectTwoPointers(assignable: Assignable)
    requires assignable(Int, Int)
    ensures var s := StructV([Field("A", Int, true, IntV(0))]);
      var dest := PtrV(Ptr(TypeOf(s)), PtrV(TypeOf(s), s));
      && Inject(TypeOf(dest), dest, IntV(1), "A", assignable).Ok?
      && TakeOne(Inject(TypeOf(dest), dest, IntV(1), "A", assignable).value, "A", assignable)
         == Err(Panic(NotStruct))
  {
    var s := StructV([Field("A", Int, true, IntV(0))]);
    assert FieldNames(s.fields) == ["A"];
  }

  /** Round trip: assigning back a part just taken leaves the value unchanged. */
  lemma InjectAfterExtract(v: Value, from: string, assignable: Assignable)
    requires from != "" && TakeOne(v, from, assignable).Ok?
    requires Inject(TypeOf(v), v, TakeOne(v, from, assignable).value, from, assignable).Ok?
    ensures Inject(TypeOf(v), v, TakeOne(v, from, assignable).value, from, assignable).value == v
  {
    var x := TakeOne(v, from, assignable).value;
    if v.MapV? {
      assert v.entries[from := x] == v.entries;
    } else {
      var s := if v.PtrV? then v.target else v;
      assert s.StructV?;
      var i := FirstIndex(FieldNames(s.fields), from).value;
      assert ExportedAt(s.fields, from, i);
      assert Deref(v) == s;
      assert ResolveToField(from, v, x, assignable) == Ok(i);
      assert s.fields[i := s.fields[i].(val := x)] == s.fields;
      assert SetField(s, i, x) == s;
    }
  }

  // ---------------------------------------------------------------------
  // Assembly of a successor input
  // ---------------------------------------------------------------------

  /** The fields of `fs` with each first-named field in `parts` overwritten. */
  function OverwriteFields(fs: seq<Field>, parts: map<string, Value>): (gs: seq<Field>)
    ensures |gs| == |fs|
    ensures forall i :: 0 <= i < |fs| ==>
      gs[i] == if fs[i].name in parts && FirstIndex(FieldNames(fs), fs[i].name) == Some(i)
               then fs[i].(val := parts[fs[i].name]) else fs[i]
  {
    seq(|fs|, i requires 0 <= i < |fs| =>
      if fs[i].name in parts && FirstIndex(FieldNames(fs), fs[i].name) == Some(i)
      then fs[i].(val := parts[fs[i].name]) else fs[i])
  }

  /** A destination with every part named in `parts` set to its value. */
  function Overwrite(dest: Value, parts: map<string, Value>): Value
    decreases dest
  {
    match dest
    case MapV(kt, et, entries) => MapV(kt, et, entries + parts)
    case PtrV(e, t) => PtrV(e, Overwrite(t, parts))
    case StructV(fs) => StructV(OverwriteFields(fs, parts))
    case _ => dest
  }

  lemma {:induction false} OverwriteNothing(dest: Value)
    ensures Overwrite(dest, map[]) == dest
    decreases dest
  {
    match dest
    case MapV(kt, et, entries) =>
      assert entries + map[] == entries;
    case PtrV(e, t) =>
      OverwriteNothing(t);
    case StructV(fs) =>
      assert OverwriteFields(fs, map[]) == fs;
    case _ =>
  }

  lemma {:induction false} OverwriteShape(dest: Value, parts: map<string, Value>)
    ensures TypeOf(Overwrite(dest, parts)) == TypeOf(dest)
    decreases dest
  {
    match dest
    case PtrV(e, t) =>
      OverwriteShape(t, parts);
    case StructV(fs) =>
    case _ =>
  }

  lemma {:induction false} OverwriteDeref(dest: Value, parts: map<string, Value>)
    ensures Deref(Overwrite(dest, parts)) == Overwrite(Deref(dest), parts)
    decreases dest
  {
    match dest
    case PtrV(e, t) =>
      OverwriteDeref(t, parts);
    case _ =>
  }

  lemma {:induction false} SetFieldOverwrite(v: Value, a: map<string, Value>, k: string, x: Value, i: nat)
    requires Deref(v).StructV? && FirstIndex(FieldNames(Deref(v).fields), k) == Some(i)
    requires k !in a
    requires Deref(Overwrite(v, a)).StructV? && i < |Deref(Overwrite(v, a)).fields|
    ensures SetField(Overwrite(v, a), i, x) == Overwrite(v, a[k := x])
    decreases v
  {
    OverwriteDeref(v, a);
    if v.PtrV? {
      SetFieldOverwrite(v.target, a, k, x, i);
    } else {
      var fs := v.fields;
      var lhs := OverwriteFields(fs, a)[i := OverwriteFields(fs, a)[i].(val := x)];
      var rhs := OverwriteFields(fs, a[k := x]);
      forall j | 0 <= j < |fs| ensures lhs[j] == rhs[j] {
        if j != i && fs[j].name == k {
          assert FirstIndex(FieldNames(fs), fs[j].name) != Some(j);
        }
      }
      assert lhs == rhs;
    }
  }

  lemma InjectIntoOverwriteMap(destType: Type, zero: Value, a: map<string, Value>, k: string, x: Value,
                               assignable: Assignable)
    requires k != "" && !destType.Iface? && zero.MapV?
    ensures Inject(destType, Overwrite(zero, a), x, k, assignable)
         == match Inject(destType, zero, x, k, assignable)
            case Ok(_) => Ok(Overwrite(zero, a[k := x]))
            case Err(e) => Err(e)
  {
    assert (zero.entries + a)[k := x] == zero.entries + a[k := x];
  }

  lemma OverwriteFieldsShape(fs: seq<Field>, parts: map<string, Value>)
    ensures FieldNames(OverwriteFields(fs, parts)) == FieldNames(fs)
    ensures Decls(OverwriteFields(fs, parts)) == Decls(fs)
  {
    var gs := OverwriteFields(fs, parts);
    assert forall i :: 0 <= i < |fs| ==> gs[i].name == fs[i].name && gs[i].typ == fs[i].typ && gs[i].exported == fs[i].exported;
  }

  /** Resolving a destination field looks only at the struct behind the pointers. */
  lemma ResolveDerefs(k: string, v: Value, x: Value, assignable: Assignable)
    ensures ResolveToField(k, v, x, assignable) == ResolveToField(k, Deref(v), x, assignable)
  {
    assert Deref(Deref(v)) == Deref(v);
  }

  lemma ResolveInOverwrittenStruct(k: string, s: Value, a: map<string, Value>, x: Value, assignable: Assignable)
    requires !s.PtrV?
    ensures ResolveToField(k, Overwrite(s, a), x, assignable) == ResolveToField(k, s, x, assignable)
  {
    if s.StructV? {
      var gs := OverwriteFields(s.fields, a);
      assert Deref(Overwrite(s, a)) == StructV(gs);
      OverwriteFieldsShape(s.fields, a);
      match FirstIndex(FieldNames(s.fields), k)
      case None =>
      case Some(i) =>
        assert Decls(gs)[i] == Decls(s.fields)[i];
    }
  }

  lemma ResolveThroughOverwrite(k: string, zero: Value, a: map<string, Value>, x: Value, assignable: Assignable)
    ensures ResolveToField(k, Overwrite(zero, a), x, assignable) == ResolveToField(k, zero, x, assignable)
  {
    ResolveDerefs(k, Overwrite(zero, a), x, assignable);
    OverwriteDeref(zero, a);
    ResolveInOverwrittenStruct(k, Deref(zero), a, x, assignable);
    ResolveDerefs(k, Overwrite(Deref(zero), a), x, assignable);
    ResolveDerefs(k, zero, x, assignable);
  }

  lemma InjectIntoOverwriteStruct(destType: Type, zero: Value, a: map<string, Value>, k: string, x: Value,
                                  assignable: Assignable)
    requires k != "" && k !in a && !destType.Iface? && !zero.MapV?
    ensures Inject(destType, Overwrite(zero, a), x, k, assignable)
         == match Inject(destType, zero, x, k, assignable)
            case Ok(_) => Ok(Overwrite(zero, a[k := x]))
            case Err(e) => Err(e)
  {
    OverwriteDeref(zero, a);
    ResolveThroughOverwrite(k, zero, a, x, assignable);
    assert !Overwrite(zero, a).MapV?;
    match ResolveToField(k, zero, x, assignable)
    case Err(e) =>
    case Ok(i) =>
      assert FirstIndex(FieldNames(Deref(zero).fields), k) == Some(i);
      SetFieldOverwrite(zero, a, k, x, i);
  }

  /**
   * Assigning one more part into a partly assembled destination succeeds or
   * fails exactly as it would on the zero destination, and extends the
   * assembled parts by that one.
   */
  lemma InjectIntoOverwrite(destType: Type, zero: Value, a: map<string, Value>, k: string, x: Value,
                            assignable: Assignable)
    requires k != "" && k !in a
    ensures Inject(destType, Overwrite(zero, a), x, k, assignable)
         == match Inject(destType, zero, x, k, assignable)
            case Ok(_) => Ok(Overwrite(zero, a[k := x]))
            case Err(e) => Err(e)
  {
    if destType.Iface? {
    } else if zero.MapV? {
      InjectIntoOverwriteMap(destType, zero, a, k, x, assignable);
    } else {
      InjectIntoOverwriteStruct(destType, zero, a, k, x, assignable);
    }
  }

  /** The type assertion `v.(T)`: identity for a concrete T, assignability for an interface. */
  predicate AssertsAs(v: Value, t: Type, assignable: Assignable)
  {
    if t.Iface? then assignable(TypeOf(v), t) else TypeOf(v) == t
  }

  /** A map read that yields the empty list for a missing key, as Go's does for a nil slice. */
  function ValuesAt(m: map<string, seq<Value>>, k: string): (vs: seq<Value>)
    ensures k !in m ==> vs == []
    ensures k in m ==> vs == m[k]
  {
    if k in m then m[k] else []
  }

  /**
   * Groups the taken values by destination field, as the first loop of
   * convertTo does. Map keys are distinct, so each field gets one value.
   */
  method CollectFieldValues(mappings: map<string, Value>) returns (field2Values: map<string, seq<Value>>)
    ensures field2Values.Keys == mappings.Keys
    ensures forall k :: k in mappings ==> field2Values[k] == [mappings[k]]
  {
    field2Values := map[];
    var pending := mappings.Keys;
    while pending != {}
      invariant pending <= mappings.Keys
      invariant field2Values.Keys == mappings.Keys - pending
      invariant forall k :: k in field2Values ==> field2Values[k] == [mappings[k]]
      decreases pending
    {
      var to :| to in pending;
      var prev := ValuesAt(field2Values, to);
      field2Values := field2Values[to := prev + [mappings[to]]];
      pending := pending - {to};
    }
  }

  /**
   * Builds a successor input of static type `destType` from the `to -> value`
   * map. `zero` is the newly allocated zero instance of that type.
   */
  method ConvertTo(destType: Type, zero: Value, mappings: map<string, Value>, assignable: Assignable)
    returns (r: Result<Value>)
    requires !destType.Iface? ==> TypeOf(zero) == destType
    ensures "" in mappings ==>
      r == if AssertsAs(mappings[""], destType, assignable) then Ok(mappings[""])
           else Err(Panic(TypeAssertionFailed))
    ensures "" !in mappings ==>
      (r.Ok? <==> forall k :: k in mappings ==> Inject(destType, zero, mappings[k], k, assignable).Ok?)
    ensures "" !in mappings && r.Ok? ==> r.value == Overwrite(zero, mappings)
    ensures r.Err? ==> r.error.Panic?
  {
    if "" in mappings {
      if !AssertsAs(mappings[""], destType, assignable) {
        return Err(Panic(TypeAssertionFailed));
      }
      return Ok(mappings[""]);
    }
    r := AssembleParts(destType, zero, mappings, assignable);
  }

  /** The part of convertTo that assigns each taken value into the zero destination. */
  method AssembleParts(destType: Type, zero: Value, mappings: map<string, Value>, assignable: Assignable)
    returns (r: Result<Value>)
    requires "" !in mappings
    requires !destType.Iface? ==> TypeOf(zero) == destType
    ensures r.Ok? <==> forall k :: k in mappings ==> Inject(destType, zero, mappings[k], k, assignable).Ok?
    ensures r.Ok? ==> r.value == Overwrite(zero, mappings)
    ensures r.Err? ==> r.error.Panic?
  {
    var t := zero;
    var field2Values := CollectFieldValues(mappings);
    var remaining := field2Values.Keys;
    ghost var done: map<string, Value> := map[];
    OverwriteNothing(zero);
    while remaining != {}
      invariant remaining <= mappings.Keys
      invariant done.Keys == mappings.Keys - remaining
      invariant forall k :: k in done ==> done[k] == mappings[k]
      invariant t == Overwrite(zero, done)
      invariant done.Keys <= Injectable(destType, zero, mappings, assignable)
      decreases remaining
    {
      var fieldName :| fieldName in remaining;
      var values := field2Values[fieldName];
      // every destination key has exactly one value, so no merge is needed
      assert |values| == 1;
      var taken := values[0];
      ConvertStep(destType, zero, done, fieldName, taken, assignable);
      var res := AssignOne(destType, t, taken, fieldName, assignable);
      if res.Err? {
        assert fieldName !in Injectable(destType, zero, mappings, assignable);
        return Err(Panic(res.error));
      }
      t := res.value;
      done := done[fieldName := taken];
      remaining := remaining - {fieldName};
    }
    assert done == mappings;
    r := Ok(t);
  }

  /** The destination keys of `mappings` whose value can be assigned into `zero`. */
  ghost function Injectable(destType: Type, zero: Value, mappings: map<string, Value>, assignable: Assignable): set<string>
  {
    set k | k in mappings && Inject(destType, zero, mappings[k], k, assignable).Ok?
  }

  /** One step of convertTo's second loop, in terms of the parts assigned so far. */
  lemma ConvertStep(destType: Type, zero: Value, done: map<string, Value>, k: string, x: Value,
                    assignable: Assignable)
    requires k != "" && k !in done
    requires !destType.Iface? ==> TypeOf(zero) == destType
    ensures !destType.Iface? ==> TypeOf(Overwrite(zero, done)) == destType
    ensures Inject(destType, Overwrite(zero, done), x, k, assignable).Ok?
        <==> Inject(destType, zero, x, k, assignable).Ok?
    ensures Inject(destType, Overwrite(zero, done), x, k, assignable).Ok? ==>
      Inject(destType, Overwrite(zero, done), x, k, assignable).value == Overwrite(zero, done[k := x])
  {
    InjectIntoOverwrite(destType, zero, done, k, x, assignable);
    OverwriteShape(zero, done);
  }

  /** The struct fields reached this way hold the parts values: each
      destination key receives exactly one value. */
  lemma ExtractAfterConvert(zero: Value, mappings: map<string, Value>, k: string, assignable: Assignable)
    requires k != "" && k in mappings
    requires zero.StructV? || (zero.PtrV? && zero.target.StructV?)
    requires ResolveToField(k, zero, mappings[k], assignable).Ok?
    ensures TakeOne(Overwrite(zero, mappings), k, assignable) == Ok(mappings[k])
  {
    var s := Deref(zero);
    OverwriteDeref(zero, mappings);
    var i := FirstIndex(FieldNames(s.fields), k).value;
    var fs' := OverwriteFields(s.fields, mappings);
    assert FieldNames(fs') == FieldNames(s.fields);
    assert ExportedAt(fs', k, i);
  }

  // ---------------------------------------------------------------------
  // Per-edge fan-out
  // ---------------------------------------------------------------------

  /** No mapping after position `i` (and before `n`) has the same destination. */
  predicate LastToBefore(ms: seq<FieldMapping>, i: int, n: int)
    requires 0 <= i < n <= |ms|
  {
    forall l :: i < l < n ==> ms[l].to != ms[i].to
  }

  /** The destination keys written by the first `n + 1` mappings. */
  lemma WrittenKeysStep(ms: seq<FieldMapping>, n: nat, keys: set<string>)
    requires n < |ms|
    requires keys == set i | 0 <= i < n :: ms[i].to
    ensures (set i | 0 <= i < n + 1 :: ms[i].to) == keys + {ms[n].to}
  {
    var next := set i | 0 <= i < n + 1 :: ms[i].to;
    forall k | k in next ensures k in keys + {ms[n].to} {
      var i :| 0 <= i < n + 1 && ms[i].to == k;
      if i < n {
        assert k in keys;
      }
    }
    assert ms[n].to in next;
  }

  /**
   * One step of the fan-out: writing the `n`-th mapping's value keeps every
   * destination key's value equal to that of the last mapping naming it.
   */
  lemma LastWriterStep(ms: seq<FieldMapping>, took: seq<Result<Value>>, n: nat,
                       result: map<string, Value>, v: Value)
    requires n < |ms| && |took| == |ms| && took[n] == Ok(v)
    requires result.Keys == set i | 0 <= i < n :: ms[i].to
    requires forall i :: 0 <= i < n && LastToBefore(ms, i, n) ==> took[i] == Ok(result[ms[i].to])
    ensures result[ms[n].to := v].Keys == set i | 0 <= i < n + 1 :: ms[i].to
    ensures forall i :: 0 <= i < n + 1 && LastToBefore(ms, i, n + 1) ==>
      took[i] == Ok(result[ms[n].to := v][ms[i].to])
  {
    WrittenKeysStep(ms, n, result.Keys);
    var next := result[ms[n].to := v];
    forall i | 0 <= i < n + 1 && LastToBefore(ms, i, n + 1)
      ensures took[i] == Ok(next[ms[i].to])
    {
      if i < n {
        assert ms[i].to != ms[n].to;
        assert LastToBefore(ms, i, n);
        assert next[ms[i].to] == result[ms[i].to];
      }
    }
  }

  /** Takes every mapping's part of one predecessor output, keyed by destination. */
  method FieldMap(mappings: seq<FieldMapping>, input: Value, assignable: Assignable)
    returns (r: Result<map<string, Value>>)
    ensures r.Ok? <==> forall i :: 0 <= i < |mappings| ==> TakeOne(input, mappings[i].from, assignable).Ok?
    ensures r.Err? ==> r.error.Panic?
    ensures r.Ok? ==> r.value.Keys == set i | 0 <= i < |mappings| :: mappings[i].to
    ensures r.Ok? ==> forall i :: 0 <= i < |mappings| && LastToBefore(mappings, i, |mappings|) ==>
      TakeOne(input, mappings[i].from, assignable) == Ok(r.value[mappings[i].to])
  {
    ghost var took := seq(|mappings|, i requires 0 <= i < |mappings| => TakeOne(input, mappings[i].from, assignable));
    assert forall i :: 0 <= i < |mappings| ==> took[i] == TakeOne(input, mappings[i].from, assignable);
    var result: map<string, Value> := map[];
    var n := 0;
    while n < |mappings|
      invariant 0 <= n <= |mappings|
      invariant forall i :: 0 <= i < n ==> took[i].Ok?
      invariant result.Keys == set i | 0 <= i < n :: mappings[i].to
      invariant forall i :: 0 <= i < n && LastToBefore(mappings, i, n) ==> took[i] == Ok(result[mappings[i].to])
    {
      var mapping := mappings[n];
      var taken := TakeOne(input, mapping.from, assignable);
      assert took[n] == taken;
      if taken.Err? {
        assert !TakeOne(input, mappings[n].from, assignable).Ok?;
        return Err(Panic(taken.error));
      }
      LastWriterStep(mappings, took, n, result, taken.value);
      result := result[mapping.to := taken.value];
      n := n + 1;
    }
    r := Ok(result);
  }

  // ---------------------------------------------------------------------
  // Compile-time validation and the runtime guard
  // ---------------------------------------------------------------------

  /** The static verdict on a (source field type, destination field type) pair. */
  datatype Assignability = Must | MustNot | May

  /** The host's static assignability classifier (checkAssignable). */
  type Classifier = (Type, Type) -> Assignability

  /** A runtime check of one destination field: the mapping it was built for and the type it tests against. */
  datatype Guard = Guard(mapping: FieldMapping, fieldType: Type)

  /** The compiled handler: the guards, keyed by destination field. */
  datatype Handler = Handler(guards: map<string, Guard>)

  predicate FromAll(ms: seq<FieldMapping>)
  {
    exists i :: 0 <= i < |ms| && ms[i].from == ""
  }

  predicate ToAll(ms: seq<FieldMapping>)
  {
    exists i :: 0 <= i < |ms| && ms[i].to == ""
  }

  method IsFromAll(mappings: seq<FieldMapping>) returns (b: bool)
    ensures b <==> exists i :: 0 <= i < |mappings| && mappings[i].from == ""
  {
    for i := 0 to |mappings|
      invariant forall j :: 0 <= j < i ==> mappings[j].from != ""
    {
      if |mappings[i].from| == 0 {
        return true;
      }
    }
    return false;
  }

  method IsToAll(mappings: seq<FieldMapping>) returns (b: bool)
    ensures b <==> exists i :: 0 <= i < |mappings| && mappings[i].to == ""
  {
    for i := 0 to |mappings|
      invariant forall j :: 0 <= j < i ==> mappings[j].to != ""
    {
      if |mappings[i].to| == 0 {
        return true;
      }
    }
    return false;
  }

  /** The edge-level legality checks, in the order the source makes them. */
  function ShapeError(predecessorType: Type, successorType: Type, ms: seq<FieldMapping>): Option<Error>
  {
    if FromAll(ms) && ToAll(ms) then Some(DegenerateMapping)
    else if !ToAll(ms) && !ValidateStructOrMap(successorType) then Some(SuccessorNotStructOrMap)
    else if !FromAll(ms) && !ValidateStructOrMap(predecessorType) then Some(PredecessorNotStructOrMap)
    else None
  }

  /** Both ends of one mapping resolved at the type level. */
  function ResolvePair(predecessorType: Type, successorType: Type, m: FieldMapping): Result<(Type, Type)>
  {
    match ResolveFieldType(m.from, predecessorType)
    case Err(e) => Err(StaticCheckFailed(m.from, m.to, e))
    case Ok(pt) =>
      match ResolveFieldType(m.to, successorType)
      case Err(e) => Err(StaticCheckFailed(m.from, m.to, e))
      case Ok(st) => Ok((pt, st))
  }

  /** The verdict on one mapping, or None when one of its ends does not resolve. */
  function Verdict(predecessorType: Type, successorType: Type, m: FieldMapping, classify: Classifier): Option<Assignability>
  {
    match ResolvePair(predecessorType, successorType, m)
    case Err(_) => None
    case Ok((pt, st)) => Some(classify(pt, st))
  }

  predicate PairAccepted(predecessorType: Type, successorType: Type, m: FieldMapping, classify: Classifier)
  {
    Verdict(predecessorType, successorType, m, classify).Some?
    && Verdict(predecessorType, successorType, m, classify) != Some(MustNot)
  }

  /** Whether one mapping is a "may be assignable" pairing. */
  predicate IsMay(predecessorType: Type, successorType: Type, m: FieldMapping, classify: Classifier)
  {
    Verdict(predecessorType, successorType, m, classify) == Some(May)
  }

  /** The guard of a "may" pairing: its mapping and the destination field type. */
  function GuardOf(predecessorType: Type, successorType: Type, m: FieldMapping, classify: Classifier): Guard
    requires IsMay(predecessorType, successorType, m, classify)
  {
    Guard(m, ResolvePair(predecessorType, successorType, m).value.1)
  }

  /** The guards built for the "may" pairings; a later one for the same field replaces an earlier one. */
  function MayGuards(predecessorType: Type, successorType: Type, ms: seq<FieldMapping>, classify: Classifier)
    : map<string, Guard>
    decreases |ms|
  {
    if ms == [] then map[]
    else
      var g := MayGuards(predecessorType, successorType, ms[..|ms| - 1], classify);
      var m := ms[|ms| - 1];
      if IsMay(predecessorType, successorType, m, classify)
      then g[m.to := GuardOf(predecessorType, successorType, m, classify)]
      else g
  }

  lemma ResolvedPairFacts(predecessorType: Type, successorType: Type, m: FieldMapping, classify: Classifier,
                          pt: Type, st: Type)
    requires ResolvePair(predecessorType, successorType, m) == Ok((pt, st))
    ensures PairAccepted(predecessorType, successorType, m, classify) <==> classify(pt, st) != MustNot
    ensures IsMay(predecessorType, successorType, m, classify) <==> classify(pt, st) == May
    ensures IsMay(predecessorType, successorType, m, classify) ==>
      GuardOf(predecessorType, successorType, m, classify) == Guard(m, st)
  {
  }

  lemma MayGuardsSnoc(predecessorType: Type, successorType: Type, ms: seq<FieldMapping>, m: FieldMapping,
                      classify: Classifier)
    ensures MayGuards(predecessorType, successorType, ms + [m], classify)
         == if IsMay(predecessorType, successorType, m, classify)
            then MayGuards(predecessorType, successorType, ms, classify)[m.to := GuardOf(predecessorType, successorType, m, classify)]
            else MayGuards(predecessorType, successorType, ms, classify)
  {
    assert (ms + [m])[..|ms|] == ms;
  }

  /** A field is guarded iff some mapping into it is a "may" pairing. */
  lemma {:induction false} MayGuardsKeys(predecessorType: Type, successorType: Type, ms: seq<FieldMapping>,
                                         classify: Classifier)
    ensures forall k :: k in MayGuards(predecessorType, successorType, ms, classify) <==>
      exists i :: 0 <= i < |ms| && ms[i].to == k && IsMay(predecessorType, successorType, ms[i], classify)
    decreases |ms|
  {
    if ms != [] {
      var init := ms[..|ms| - 1];
      MayGuardsKeys(predecessorType, successorType, init, classify);
      assert forall i :: 0 <= i < |init| ==> init[i] == ms[i];
    }
  }

  /** A guarded field's guard is the one of the last "may" mapping into it. */
  lemma {:induction false} MayGuardsLast(predecessorType: Type, successorType: Type, ms: seq<FieldMapping>,
                                         classify: Classifier, i: nat)
    requires i < |ms| && IsMay(predecessorType, successorType, ms[i], classify)
    requires forall l :: i < l < |ms| && ms[l].to == ms[i].to ==>
      !IsMay(predecessorType, successorType, ms[l], classify)
    ensures ms[i].to in MayGuards(predecessorType, successorType, ms, classify)
    ensures MayGuards(predecessorType, successorType, ms, classify)[ms[i].to]
         == GuardOf(predecessorType, successorType, ms[i], classify)
    decreases |ms|
  {
    if i < |ms| - 1 {
      var init := ms[..|ms| - 1];
      assert init[i] == ms[i];
      MayGuardsLast(predecessorType, successorType, init, classify, i);
    }
  }

  lemma NoMayNoGuards(predecessorType: Type, successorType: Type, ms: seq<FieldMapping>, classify: Classifier)
    ensures MayGuards(predecessorType, successorType, ms, classify) == map[] <==>
      forall i :: 0 <= i < |ms| ==> !IsMay(predecessorType, successorType, ms[i], classify)
  {
    MayGuardsKeys(predecessorType, successorType, ms, classify);
    var g := MayGuards(predecessorType, successorType, ms, classify);
    forall i | 0 <= i < |ms| && IsMay(predecessorType, successorType, ms[i], classify)
      ensures ms[i].to in g
    {
    }
    if g != map[] {
      var k :| k in g;
    }
  }

  /**
   * The destination field type the checker closures read when they run.
   * `successorFieldType` is one variable, declared before the loop and
   * reassigned on every iteration; the closures run only after validation
   * has returned, so they all see the type of the last mapping.
   */
  function LastSuccessorFieldType(predecessorType: Type, successorType: Type, ms: seq<FieldMapping>): Option<Type>
  {
    if ms == [] then None
    else match ResolvePair(predecessorType, successorType, ms[|ms| - 1])
      case Ok((_, st)) => Some(st)
      case Err(_) => None
  }

  lemma LastSuccessorFieldTypeSnoc(predecessorType: Type, successorType: Type, ms: seq<FieldMapping>, m: FieldMapping)
    requires ResolvePair(predecessorType, successorType, m).Ok?
    ensures LastSuccessorFieldType(predecessorType, successorType, ms + [m])
         == Some(ResolvePair(predecessorType, successorType, m).value.1)
  {
    assert (ms + [m])[|ms|] == m;
  }

  /** The guards as the closures behave: each keeps its mapping but tests against the shared type `t`. */
  function SharedGuards(g: map<string, Guard>, t: Type): (h: map<string, Guard>)
    ensures h.Keys == g.Keys
    ensures forall k :: k in h ==> h[k].mapping == g[k].mapping && h[k].fieldType == t
  {
    map k | k in g :: Guard(g[k].mapping, t)
  }

  /**
   * As the source is written, the guard of a field is built for the last
   * "may" mapping into it, but tests against the last mapping's destination
   * field type, whichever field that mapping names.
   */
  lemma SharedGuardsLast(predecessorType: Type, successorType: Type, ms: seq<FieldMapping>,
                         classify: Classifier, i: nat)
    requires i < |ms| && IsMay(predecessorType, successorType, ms[i], classify)
    requires forall l :: i < l < |ms| && ms[l].to == ms[i].to ==>
      !IsMay(predecessorType, successorType, ms[l], classify)
    requires LastSuccessorFieldType(predecessorType, successorType, ms).Some?
    ensures ms[i].to in SharedGuards(MayGuards(predecessorType, successorType, ms, classify),
                                     LastSuccessorFieldType(predecessorType, successorType, ms).value)
    ensures SharedGuards(MayGuards(predecessorType, successorType, ms, classify),
                         LastSuccessorFieldType(predecessorType, successorType, ms).value)[ms[i].to]
         == Guard(ms[i], ResolvePair(predecessorType, successorType, ms[|ms| - 1]).value.1)
  {
    MayGuardsLast(predecessorType, successorType, ms, classify, i);
  }

  /** Every guard of the intended definition tests against its own mapping's destination field type. */
  lemma {:induction false} MayGuardsOwnType(predecessorType: Type, successorType: Type, ms: seq<FieldMapping>,
                                            classify: Classifier)
    ensures forall k :: k in MayGuards(predecessorType, successorType, ms, classify) ==>
      exists i :: (0 <= i < |ms| && ms[i].to == k && IsMay(predecessorType, successorType, ms[i], classify)
                   && MayGuards(predecessorType, successorType, ms, classify)[k] == GuardOf(predecessorType, successorType, ms[i], classify))
    decreases |ms|
  {
    if ms != [] {
      var init := ms[..|ms| - 1];
      var last := |ms| - 1;
      MayGuardsOwnType(predecessorType, successorType, init, classify);
      var g := MayGuards(predecessorType, successorType, ms, classify);
      forall k | k in g
        ensures exists i :: (0 <= i < |ms| && ms[i].to == k && IsMay(predecessorType, successorType, ms[i], classify)
                             && g[k] == GuardOf(predecessorType, successorType, ms[i], classify))
      {
        if IsMay(predecessorType, successorType, ms[last], classify) && k == ms[last].to {
          assert ms[last].to == k;
        } else {
          var i :| 0 <= i < |init| && init[i].to == k && IsMay(predecessorType, successorType, init[i], classify)
            && MayGuards(predecessorType, successorType, init, classify)[k] == GuardOf(predecessorType, successorType, init[i], classify);
          assert ms[i] == init[i];
        }
      }
    }
  }

  /** The edge-level legality checks of validateFieldMapping, in the source's order. */
  method ShapeCheck(predecessorType: Type, successorType: Type, mappings: seq<FieldMapping>)
    returns (e: Option<Error>)
    ensures e == ShapeError(predecessorType, successorType, mappings)
  {
    var fromAll := IsFromAll(mappings);
    var toAll := IsToAll(mappings);
    if fromAll && toAll {
      return Some(DegenerateMapping);
    } else if !toAll && !ValidateStructOrMap(successorType) {
      return Some(SuccessorNotStructOrMap);
    } else if !fromAll && !ValidateStructOrMap(predecessorType) {
      return Some(PredecessorNotStructOrMap);
    }
    return None;
  }

  /** With no mappings there are no guards; with a guard, the last mapping resolved. */
  lemma GuardsNeedLastType(predecessorType: Type, successorType: Type, ms: seq<FieldMapping>, classify: Classifier)
    requires forall i :: 0 <= i < |ms| ==> PairAccepted(predecessorType, successorType, ms[i], classify)
    requires MayGuards(predecessorType, successorType, ms, classify) != map[]
    ensures LastSuccessorFieldType(predecessorType, successorType, ms).Some?
  {
    assert ms != [];
    assert PairAccepted(predecessorType, successorType, ms[|ms| - 1], classify);
  }

  /**
   * Validates one edge's mappings against the predecessor's output type and
   * the successor's input type, and builds the runtime guards for the
   * "may be assignable" pairings. No handler is built when there are none.
   * As written, every guard tests against the shared `successorFieldType`,
   * that is, the last mapping's destination field type.
   */
  method ValidateFieldMapping(predecessorType: Type, successorType: Type, mappings: seq<FieldMapping>,
                              classify: Classifier)
    returns (r: Result<Option<Handler>>)
    ensures ShapeError(predecessorType, successorType, mappings).Some? ==>
      r == Err(ShapeError(predecessorType, successorType, mappings).value)
    ensures r.Ok? <==> (ShapeError(predecessorType, successorType, mappings).None?
      && forall i :: 0 <= i < |mappings| ==> PairAccepted(predecessorType, successorType, mappings[i], classify))
    ensures r.Ok? ==> (r.value.None? <==>
      forall i :: 0 <= i < |mappings| ==> !IsMay(predecessorType, successorType, mappings[i], classify))
    ensures r.Ok? && r.value.Some? ==>
      LastSuccessorFieldType(predecessorType, successorType, mappings).Some?
      && r.value.value.guards == SharedGuards(MayGuards(predecessorType, successorType, mappings, classify),
                                              LastSuccessorFieldType(predecessorType, successorType, mappings).value)
  {
    var shape := ShapeCheck(predecessorType, successorType, mappings);
    if shape.Some? {
      return Err(shape.value);
    }
    var checked :- BuildFieldCheckers(predecessorType, successorType, mappings, classify);
    var fieldCheckers := checked.0;
    var successorFieldType := checked.1;
    NoMayNoGuards(predecessorType, successorType, mappings, classify);
    if |fieldCheckers| == 0 {
      return Ok(None);
    }
    GuardsNeedLastType(predecessorType, successorType, mappings, classify);
    // each closure reads successorFieldType when it runs, after the loop
    r := Ok(Some(Handler(SharedGuards(fieldCheckers, successorFieldType.value))));
  }

  /**
   * The evidently intended validation: the same checks, but each guard tests
   * against the destination field type of the mapping it was built for.
   */
  method ValidateFieldMappingIntended(predecessorType: Type, successorType: Type, mappings: seq<FieldMapping>,
                                      classify: Classifier)
    returns (r: Result<Option<Handler>>)
    ensures ShapeError(predecessorType, successorType, mappings).Some? ==>
      r == Err(ShapeError(predecessorType, successorType, mappings).value)
    ensures r.Ok? <==> (ShapeError(predecessorType, successorType, mappings).None?
      && forall i :: 0 <= i < |mappings| ==> PairAccepted(predecessorType, successorType, mappings[i], classify))
    ensures r.Ok? ==> (r.value.None? <==>
      forall i :: 0 <= i < |mappings| ==> !IsMay(predecessorType, successorType, mappings[i], classify))
    ensures r.Ok? && r.value.Some? ==> forall k :: k in r.value.value.guards ==>
      exists i :: (0 <= i < |mappings| && mappings[i].to == k && IsMay(predecessorType, successorType, mappings[i], classify)
                   && r.value.value.guards[k] == Guard(mappings[i], ResolvePair(predecessorType, successorType, mappings[i]).value.1))
    ensures r.Ok? && r.value.Some? ==>
      r.value.value.guards == MayGuards(predecessorType, successorType, mappings, classify)
  {
    var shape := ShapeCheck(predecessorType, successorType, mappings);
    if shape.Some? {
      return Err(shape.value);
    }
    var checked :- BuildFieldCheckers(predecessorType, successorType, mappings, classify);
    var fieldCheckers := checked.0;
    NoMayNoGuards(predecessorType, successorType, mappings, classify);
    if |fieldCheckers| == 0 {
      return Ok(None);
    }
    MayGuardsOwnType(predecessorType, successorType, mappings, classify);
    r := Ok(Some(Handler(fieldCheckers)));
  }

  /**
   * The two differ. Predecessor fields X: R (interface), Y: int; successor
   * fields A: W (interface), B: int; mappings X -> A ("may") then Y -> B
   * ("must"), as with R = io.Reader and W = io.ReadCloser. As written, the
   * guard of A tests against int, the type of B, so a value whose dynamic
   * type implements W (an *os.File in Go; here `StrV("s")` under an
   * `assignable` that lets it into W) is refused, and the intended guard,
   * that of ValidateFieldMappingIntended, accepts it.
   */
  lemma SharedGuardCounterexample()
    ensures
      var pt := Struct([FieldDecl("X", Iface("R"), true), FieldDecl("Y", Int, true)]);
      var st := Struct([FieldDecl("A", Iface("W"), true), FieldDecl("B", Int, true)]);
      var ms := [FieldMapping("p", "X", "A"), FieldMapping("p", "Y", "B")];
      var classify: Classifier := (a: Type, b: Type) => if a == Iface("R") && b == Iface("W") then May else Must;
      var assignable: Assignable := (a: Type, b: Type) => a == b || (a == Str && b == Iface("W"));
      var intended := MayGuards(pt, st, ms, classify);
      LastSuccessorFieldType(pt, st, ms) == Some(Int)
      && intended == map["A" := Guard(ms[0], Iface("W"))]
      && SharedGuards(intended, Int) == map["A" := Guard(ms[0], Int)]
      && GuardCheck(SharedGuards(intended, Int)["A"], StrV("s"), assignable).Err?
      && GuardCheck(intended["A"], StrV("s"), assignable).Ok?
  {
    var pt := Struct([FieldDecl("X", Iface("R"), true), FieldDecl("Y", Int, true)]);
    var st := Struct([FieldDecl("A", Iface("W"), true), FieldDecl("B", Int, true)]);
    var ms := [FieldMapping("p", "X", "A"), FieldMapping("p", "Y", "B")];
    assert ResolvePair(pt, st, ms[0]) == Ok((Iface("R"), Iface("W")));
    assert ResolvePair(pt, st, ms[1]) == Ok((Int, Int));
    assert ms[..1] == [ms[0]];
    assert ms[..1][..0] == [];
  }

  /**
   * One iteration of validateFieldMapping's loop: resolves both ends of a
   * mapping, rejects a "must not" pairing, and yields a guard for a "may" one.
   * It also yields the destination field type, which the loop stores in its
   * shared `successorFieldType` variable.
   */
  method CheckOneMapping(predecessorType: Type, successorType: Type, mapping: FieldMapping, classify: Classifier)
    returns (r: Result<(Type, Option<Guard>)>)
    ensures r.Ok? <==> PairAccepted(predecessorType, successorType, mapping, classify)
    ensures r.Ok? ==> r.value.0 == ResolvePair(predecessorType, successorType, mapping).value.1
    ensures r.Ok? ==> (r.value.1.Some? <==> IsMay(predecessorType, successorType, mapping, classify))
    ensures r.Ok? && r.value.1.Some? ==>
      IsMay(predecessorType, successorType, mapping, classify)
      && r.value.1.value == GuardOf(predecessorType, successorType, mapping, classify)
  {
    var predecessorFieldType := CheckAndExtractFieldType(mapping.from, predecessorType);
    if predecessorFieldType.Err? {
      return Err(StaticCheckFailed(mapping.from, mapping.to, predecessorFieldType.error));
    }
    var successorFieldType := CheckAndExtractFieldType(mapping.to, successorType);
    if successorFieldType.Err? {
      return Err(StaticCheckFailed(mapping.from, mapping.to, successorFieldType.error));
    }
    ResolvedPairFacts(predecessorType, successorType, mapping, classify,
                      predecessorFieldType.value, successorFieldType.value);
    var at := classify(predecessorFieldType.value, successorFieldType.value);
    if at == MustNot {
      return Err(MustNotAssignable(mapping.from, mapping.to));
    } else if at == May {
      return Ok((successorFieldType.value, Some(Guard(mapping, successorFieldType.value))));
    }
    r := Ok((successorFieldType.value, None));
  }

  /**
   * The loop of validateFieldMapping: stops at the first mapping that does
   * not resolve or must not be assignable, and collects the guards of the
   * "may" pairings, each recorded with the mapping it was built for and the
   * type of that iteration. It also returns the final value of the shared
   * `successorFieldType` variable.
   */
  method BuildFieldCheckers(predecessorType: Type, successorType: Type, mappings: seq<FieldMapping>,
                            classify: Classifier)
    returns (r: Result<(map<string, Guard>, Option<Type>)>)
    ensures r.Ok? <==> forall i :: 0 <= i < |mappings| ==>
      PairAccepted(predecessorType, successorType, mappings[i], classify)
    ensures r.Ok? ==> r.value.0 == MayGuards(predecessorType, successorType, mappings, classify)
    ensures r.Ok? ==> r.value.1 == LastSuccessorFieldType(predecessorType, successorType, mappings)
  {
    var fieldCheckers: map<string, Guard> := map[];
    var successorFieldType: Option<Type> := None;
    var n := 0;
    while n < |mappings|
      invariant 0 <= n <= |mappings|
      invariant forall i :: 0 <= i < n ==> PairAccepted(predecessorType, successorType, mappings[i], classify)
      invariant fieldCheckers == MayGuards(predecessorType, successorType, mappings[..n], classify)
      invariant successorFieldType == LastSuccessorFieldType(predecessorType, successorType, mappings[..n])
    {
      var mapping := mappings[n];
      assert mappings[..n + 1] == mappings[..n] + [mapping];
      MayGuardsSnoc(predecessorType, successorType, mappings[..n], mapping, classify);
      var checked := CheckOneMapping(predecessorType, successorType, mapping, classify);
      if checked.Err? {
        return Err(checked.error);
      }
      LastSuccessorFieldTypeSnoc(predecessorType, successorType, mappings[..n], mapping);
      successorFieldType := Some(checked.value.0);
      if checked.value.1.Some? {
        fieldCheckers := fieldCheckers[mapping.to := checked.value.1.value];
      }
      n := n + 1;
    }
    assert mappings[..n] == mappings;
    r := Ok((fieldCheckers, successorFieldType));
  }

  /** One guard: the value passes unchanged iff its dynamic type is assignable. */
  function GuardCheck(g: Guard, a: Value, assignable: Assignable): (r: Result<Value>)
    ensures r.Ok? <==> assignable(TypeOf(a), g.fieldType)
    ensures r.Ok? ==> r.value == a
    ensures r.Err? ==> r.error == RuntimeCheckFailed(g.mapping.to)
  {
    if !assignable(TypeOf(a), g.fieldType) then Err(RuntimeCheckFailed(g.mapping.to)) else Ok(a)
  }

  /**
   * The compiled checker: applies the guard of every guarded field present
   * in the `to -> value` map. Unguarded and absent fields are left alone.
   */
  method RunChecker(h: Handler, mValue: map<string, Value>, assignable: Assignable)
    returns (r: Result<map<string, Value>>)
    ensures r.Ok? <==> forall k :: k in h.guards && k in mValue ==>
      assignable(TypeOf(mValue[k]), h.guards[k].fieldType)
    ensures r.Ok? ==> r.value == mValue
    ensures r.Err? ==> exists k :: (k in h.guards && k in mValue
      && !assignable(TypeOf(mValue[k]), h.guards[k].fieldType)
      && r.error == RuntimeCheckFailed(h.guards[k].mapping.to))
  {
    var m := mValue;
    var remaining := h.guards.Keys;
    while remaining != {}
      invariant remaining <= h.guards.Keys
      invariant m == mValue
      invariant forall k :: k in h.guards && k !in remaining && k in mValue ==>
        assignable(TypeOf(mValue[k]), h.guards[k].fieldType)
      decreases remaining
    {
      var k :| k in remaining;
      if k in m {
        var checked := GuardCheck(h.guards[k], m[k], assignable);
        if checked.Err? {
          return Err(checked.error);
        }
        m := m[k := checked.value];
      }
      remaining := remaining - {k};
    }
    r := Ok(m);
  }

  /** Validation succeeds or fails whatever the order of the mappings. */
  lemma ValidationOrderIndependent(predecessorType: Type, successorType: Type, ms: seq<FieldMapping>,
                                   ms': seq<FieldMapping>, classify: Classifier)
    requires forall m :: m in ms <==> m in ms'
    ensures ShapeError(predecessorType, successorType, ms) == ShapeError(predecessorType, successorType, ms')
    ensures (forall i :: 0 <= i < |ms| ==> PairAccepted(predecessorType, successorType, ms[i], classify))
        <==> (forall i :: 0 <= i < |ms'| ==> PairAccepted(predecessorType, successorType, ms'[i], classify))
  {
    assert FromAll(ms) <==> FromAll(ms') by {
      if FromAll(ms) { var i :| 0 <= i < |ms| && ms[i].from == ""; assert ms[i] in ms'; }
      if FromAll(ms') { var i :| 0 <= i < |ms'| && ms'[i].from == ""; assert ms'[i] in ms; }
    }
    assert ToAll(ms) <==> ToAll(ms') by {
      if ToAll(ms) { var i :| 0 <= i < |ms| && ms[i].to == ""; assert ms[i] in ms'; }
      if ToAll(ms') { var i :| 0 <= i < |ms'| && ms'[i].to == ""; assert ms'[i] in ms; }
    }
    if forall i :: 0 <= i < |ms| ==> PairAccepted(predecessorType, successorType, ms[i], classify) {
      forall j | 0 <= j < |ms'| ensures PairAccepted(predecessorType, successorType, ms'[j], classify) {
        assert ms'[j] in ms;
      }
    }
    if forall j :: 0 <= j < |ms'| ==> PairAccepted(predecessorType, successorType, ms'[j], classify) {
      forall i | 0 <= i < |ms| ensures PairAccepted(predecessorType, successorType, ms[i], classify) {
        assert ms[i] in ms';
      }
    }
  }
}
