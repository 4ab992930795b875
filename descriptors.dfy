/**
 * The already-decoded plugin request and the response the generator builds:
 * the shapes of CodeGeneratorRequest, its descriptor classes and
 * CodeGeneratorResponse. Their wire encoding is not modelled.
 *
 * An unset optional name is modelled as the empty string, which is what Ruby
 * string interpolation makes of `nil`; an unset repeated field is an empty
 * sequence.
 */
module Descriptors {
  import opened Wrappers

  /** FieldDescriptorProto::Type. */
  datatype FieldType =
    | TypeDouble | TypeFloat | TypeInt64 | TypeUint64 | TypeInt32 | TypeFixed64
    | TypeFixed32 | TypeBool | TypeString | TypeGroup | TypeMessage | TypeBytes
    | TypeUint32 | TypeEnum | TypeSfixed32 | TypeSfixed64 | TypeSint32 | TypeSint64

  /** FieldDescriptorProto::Label. */
  datatype Label = LabelOptional | LabelRequired | LabelRepeated

  /**
   * The Ruby constant that holds a Type value, as the reflective lookup
   * `name_for(T, value)` names it; a fixed table stands in for that lookup.
   */
  function TypeConstName(t: FieldType): string
  {
    "TYPE_" + TypeSuffix(t)
  }

  /** The part of each Type constant's name after `TYPE_`. */
  function TypeSuffix(t: FieldType): string
  {
    match t
    case TypeDouble => "DOUBLE"        case TypeFloat => "FLOAT"
    case TypeInt64 => "INT64"          case TypeUint64 => "UINT64"
    case TypeInt32 => "INT32"          case TypeFixed64 => "FIXED64"
    case TypeFixed32 => "FIXED32"      case TypeBool => "BOOL"
    case TypeString => "STRING"        case TypeGroup => "GROUP"
    case TypeMessage => "MESSAGE"      case TypeBytes => "BYTES"
    case TypeUint32 => "UINT32"        case TypeEnum => "ENUM"
    case TypeSfixed32 => "SFIXED32"    case TypeSfixed64 => "SFIXED64"
    case TypeSint32 => "SINT32"        case TypeSint64 => "SINT64"
  }

  /** The Ruby constant that holds a Label value. */
  function LabelConstName(l: Label): string
  {
    "LABEL_" + LabelSuffix(l)
  }

  /** The part of each Label constant's name after `LABEL_`. */
  function LabelSuffix(l: Label): string
  {
    match l
    case LabelOptional => "OPTIONAL"
    case LabelRequired => "REQUIRED"
    case LabelRepeated => "REPEATED"
  }

  /**
   * FieldDescriptorProto. `type` may be unset when `type_name` is set.
   * The `extended` field is never read by the generator and is left out.
   */
  datatype FieldDescriptorProto = FieldDescriptorProto(
    name: string,
    number: int,
    fieldLabel: Label,
    fieldType: Option<FieldType>,
    typeName: Option<string>,
    defaultValue: Option<string>)

  /** A field whose type token can be formed: it names a Type constant or a type reference. */
  type Field = f: FieldDescriptorProto | f.typeName.Some? || f.fieldType.Some?
    witness FieldDescriptorProto("", 0, LabelOptional, Some(TypeDouble), None, None)

  /** EnumValueDescriptorProto. */
  datatype EnumValueDescriptorProto = EnumValueDescriptorProto(name: string, number: int)

  /** EnumDescriptorProto. */
  datatype EnumDescriptorProto = EnumDescriptorProto(name: string, value: seq<EnumValueDescriptorProto>)

  /** DescriptorProto: one message, with its fields, nested messages and nested enums. */
  datatype DescriptorProto = DescriptorProto(
    name: string,
    field: seq<Field>,
    nestedType: seq<DescriptorProto>,
    enumType: seq<EnumDescriptorProto>)

  /** FileDescriptorProto. */
  datatype FileDescriptorProto = FileDescriptorProto(
    name: string,
    package: string,
    messageType: seq<DescriptorProto>,
    enumType: seq<EnumDescriptorProto>)

  /** CodeGeneratorRequest. */
  datatype CodeGeneratorRequest = CodeGeneratorRequest(
    fileToGenerate: seq<string>,
    parameter: Option<string>,
    protoFile: seq<FileDescriptorProto>)

  /** CodeGeneratorResponse::File. */
  datatype ResponseFile = ResponseFile(name: string, content: string)

  /** CodeGeneratorResponse. */
  datatype CodeGeneratorResponse = CodeGeneratorResponse(file: seq<ResponseFile>)
}
