/**
 * The type mapper `GetType` of the message generator: the type written on a property
 * becomes a Protocol Buffers field type. Nullable wrappers are transparent; the five
 * keyword types `int`, `uint`, `double`, `float` and `string` are supported and every
 * other type makes the generator throw.
 */
module TypeMapper {
  import opened Wrappers
  import opened Syntax

  /** `FieldDescriptorProto.Types.Type`, the field types of Protocol Buffers' descriptor.proto. */
  datatype FieldType =
    | Double | Float | Int64 | Uint64 | Int32 | Fixed64 | Fixed32 | Bool | String
    | Group | Message | Bytes | Uint32 | Enum | Sfixed32 | Sfixed64 | Sint32 | Sint64

  /**
   * `NotImplementedException`. The exception carries nothing; the syntax is the model's
   * record of which type the mapper gave up on.
   */
  datatype MappingError = NotImplemented(syntax: TypeSyntax)

  /** The keyword table of the mapper's `switch`. */
  const KeywordTypes: map<string, FieldType> :=
    map["int" := Int32, "uint" := Uint32, "double" := Double, "float" := Float, "string" := String]

  /** The field types the mapper can produce. */
  predicate IsMapped(t: FieldType)
  {
    t == Int32 || t == Uint32 || t == Double || t == Float || t == String
  }

  function GetType(t: TypeSyntax): (r: Result<FieldType, MappingError>)
    ensures r.Ok? ==> IsMapped(r.value)
  {
    match t
    case Nullable(elementType) => GetType(elementType)
    case Predefined(keyword) =>
      if keyword == "int" then Ok(Int32)
      else if keyword == "uint" then Ok(Uint32)
      else if keyword == "double" then Ok(Double)
      else if keyword == "float" then Ok(Float)
      else if keyword == "string" then Ok(String)
      else Err(NotImplemented(t))
    case Other(_) => Err(NotImplemented(t))
  }

  /** The type under all nullable wrappers. */
  function Unwrap(t: TypeSyntax): (r: TypeSyntax)
    ensures !r.Nullable?
  {
    if t.Nullable? then Unwrap(t.elementType) else t
  }

  /** `t` under `depth` nullable wrappers. */
  function Wrap(depth: nat, t: TypeSyntax): (r: TypeSyntax)
    ensures depth > 0 ==> r.Nullable?
  {
    if depth == 0 then t else Nullable(Wrap(depth - 1, t))
  }

  /**
   * The mapper against its table: a type maps to the table's entry for the keyword
   * under its nullable wrappers, and to an error naming that innermost syntax when
   * it is not a keyword type or its keyword is not in the table.
   */
  lemma {:induction false} GetTypeByTable(t: TypeSyntax)
    ensures GetType(t) ==
      if Unwrap(t).Predefined? && Unwrap(t).keyword in KeywordTypes then Ok(KeywordTypes[Unwrap(t).keyword])
      else Err(NotImplemented(Unwrap(t)))
  {
    match t
    case Nullable(e) => GetTypeByTable(e);
    case Predefined(_) =>
    case Other(_) =>
  }

  /** Nullable wrapping at any depth maps like the wrapped type. */
  lemma {:induction false} GetTypeIgnoresNullable(depth: nat, t: TypeSyntax)
    ensures GetType(Wrap(depth, t)) == GetType(t)
  {
    if depth > 0 {
      GetTypeIgnoresNullable(depth - 1, t);
    }
  }

  /** The mapper succeeds exactly on the five keyword types, possibly wrapped as nullable. */
  lemma GetTypeSupported(t: TypeSyntax)
    ensures GetType(t).Ok? <==>
      Unwrap(t).Predefined? && Unwrap(t).keyword in {"int", "uint", "double", "float", "string"}
  {
    GetTypeByTable(t);
  }

  /** Keyword types outside the table (`bool`, `long`, `byte`, ...) and named types are errors. */
  lemma UnsupportedExamples(depth: nat)
    ensures GetType(Wrap(depth, Predefined("bool"))) == Err(NotImplemented(Predefined("bool")))
    ensures GetType(Wrap(depth, Predefined("long"))) == Err(NotImplemented(Predefined("long")))
    ensures GetType(Wrap(depth, Other("System.Int32"))) == Err(NotImplemented(Other("System.Int32")))
    ensures GetType(Wrap(depth, Other("int[]"))) == Err(NotImplemented(Other("int[]")))
  {
    GetTypeIgnoresNullable(depth, Predefined("bool"));
    GetTypeIgnoresNullable(depth, Predefined("long"));
    GetTypeIgnoresNullable(depth, Other("System.Int32"));
    GetTypeIgnoresNullable(depth, Other("int[]"));
  }
}
