/**
 * The explicit type and value universe that stands in for Go reflection in
 * the field-mapping engine: the kinds of types the engine distinguishes
 * (strings, integers, maps, pointers, structs, interfaces), runtime values of
 * those types, and the failures the engine reports.
 */
module Values {

  datatype Option<+T> = None | Some(value: T)

  /** Every failure the engine and the workflow builder can report. */
  datatype Error =
    // value- and type-level field access
    | FieldNotFound(field: string)
    | FieldNotExported(field: string)
    | MapKeyNotString
    | KeyNotFound(key: string)
    | UnsupportedKind
    | NotStruct
    | NotMap
    | TypeMismatch
    // a Go panic, modelled as a distinguished failure
    | Panic(cause: Error)
    | TypeAssertionFailed
    // static validation of one edge's field mappings
    | DegenerateMapping
    | SuccessorNotStructOrMap
    | PredecessorNotStructOrMap
    | StaticCheckFailed(mappingFrom: string, mappingTo: string, cause: Error)
    | MustNotAssignable(mappingFrom: string, mappingTo: string)
    | RuntimeCheckFailed(field: string)
    // workflow builder
    | NodeHasNoInput(node: string)
    | EntireInputAmongMany(node: string)
    | DuplicateTo(node: string, field: string)
    | EndHasNoInput
    | AnyPredecessorUnsupported
    | GraphRejected

  datatype Result<+T> = Ok(value: T) | Err(error: Error) {
    predicate IsFailure() { Err? }
    function PropagateFailure<U>(): Result<U>
      requires Err?
    {
      Err(error)
    }
    function Extract(): T
      requires Ok?
    {
      value
    }
  }

  /** Static types, by the kinds the engine inspects. */
  datatype Type =
    | Str
    | Int
    | MapT(key: Type, elem: Type)
    | Ptr(elem: Type)
    | Struct(decls: seq<FieldDecl>)
    | Iface(name: string)

  datatype FieldDecl = FieldDecl(name: string, typ: Type, exported: bool)

  /**
   * Runtime values. A map value carries its static key and element types and
   * is indexed by string keys; a pointer carries its element type and the
   * value it points to; a struct carries its field declarations with values.
   */
  datatype Value =
    | StrV(s: string)
    | IntV(i: int)
    | MapV(keyType: Type, elemType: Type, entries: map<string, Value>)
    | PtrV(elemType: Type, target: Value)
    | StructV(fields: seq<Field>)

  datatype Field = Field(name: string, typ: Type, exported: bool, val: Value)

  /** The assignability relation of the host type system (reflect's AssignableTo). */
  type Assignable = (Type, Type) -> bool

  function Decls(fs: seq<Field>): (ds: seq<FieldDecl>)
    ensures |ds| == |fs|
    ensures forall i :: 0 <= i < |fs| ==>
      ds[i] == FieldDecl(fs[i].name, fs[i].typ, fs[i].exported)
  {
    seq(|fs|, i requires 0 <= i < |fs| => FieldDecl(fs[i].name, fs[i].typ, fs[i].exported))
  }

  /** The dynamic type of a value (reflect.TypeOf). It is never an interface. */
  function TypeOf(v: Value): (t: Type)
    ensures !t.Iface?
  {
    match v
    case StrV(_) => Str
    case IntV(_) => Int
    case MapV(k, e, _) => MapT(k, e)
    case PtrV(e, _) => Ptr(e)
    case StructV(fs) => Struct(Decls(fs))
  }

  /** The declared names, in declaration order. */
  function DeclNames(ds: seq<FieldDecl>): (ns: seq<string>)
    ensures |ns| == |ds| && forall i :: 0 <= i < |ds| ==> ns[i] == ds[i].name
  {
    seq(|ds|, i requires 0 <= i < |ds| => ds[i].name)
  }

  /**
   * The names of a struct value's fields: those of its declarations, so
   * `FieldNames(fs) == DeclNames(Decls(fs))` (`FieldNamesAreDeclNames`).
   * It is spelled out on the fields to keep the proofs that use it small.
   */
  function FieldNames(fs: seq<Field>): (ns: seq<string>)
    ensures |ns| == |fs| && forall i :: 0 <= i < |fs| ==> ns[i] == fs[i].name
  {
    seq(|fs|, i requires 0 <= i < |fs| => fs[i].name)
  }

  lemma FieldNamesAreDeclNames(fs: seq<Field>)
    ensures FieldNames(fs) == DeclNames(Decls(fs))
  {
  }

  /** The index of the first field with the given name (FieldByName). */
  function FirstIndex(names: seq<string>, name: string): (r: Option<nat>)
    ensures r.None? <==> name !in names
    ensures r.Some? ==> r.value < |names| && names[r.value] == name
    ensures r.Some? ==> forall j :: 0 <= j < r.value ==> names[j] != name
  {
    if |names| == 0 then None
    else if names[0] == name then Some(0)
    else match FirstIndex(names[1..], name)
      case None => None
      case Some(i) => Some(i + 1)
  }

  /** The value reached by following every pointer. */
  function Deref(v: Value): (s: Value)
    ensures !s.PtrV?
  {
    if v.PtrV? then Deref(v.target) else v
  }

  /** The type reached by stripping every pointer level. */
  function StripPtrs(t: Type): (s: Type)
    ensures !s.Ptr?
  {
    if t.Ptr? then StripPtrs(t.elem) else t
  }
}
