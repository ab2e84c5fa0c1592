/** The binding API derived from a provider schema: field lists and their types. */
module Bindings {
  import opened Wrappers

  datatype BindingField = BindingField(
    providerName: string,
    publicName: string,
    fieldType: BindingType,
    required: bool,
    optional: bool,
    computed: bool,
    sensitive: bool,
    block: bool,
    targetReserved: bool,
    description: Option<string>,
    minItems: Option<nat>,
    maxItems: Option<nat>
  )

  datatype BindingType =
    | Text
    | Boolean
    | Number
    | List(item: BindingType)
    | Set(item: BindingType)
    | Map(item: BindingType)
    | Object(fields: seq<BindingField>)
    | Tuple(items: seq<BindingType>)
    | Dynamic

  /** The object fields behind any number of collection layers, if there are any. */
  function ObjectFields(fieldType: BindingType): (fields: Option<seq<BindingField>>)
    ensures fields.Some? ==> (fieldType decreases to fields.value)
  {
    match fieldType
    case Object(fields) => Some(fields)
    case List(item) => ObjectFields(item)
    case Set(item) => ObjectFields(item)
    case Map(item) => ObjectFields(item)
    case Text | Boolean | Number | Tuple(_) | Dynamic => None
  }

  /** An input block: an object, or one collection of objects. */
  predicate Nested(fieldType: BindingType) {
    match fieldType
    case Object(_) => true
    case List(item) => item.Object?
    case Set(item) => item.Object?
    case Map(item) => item.Object?
    case Text | Boolean | Number | Tuple(_) | Dynamic => false
  }

  predicate IsInput(field: BindingField) {
    field.required || field.optional
  }
}
