/**
 * The per-property loop of the message generator's `Execute`: it builds the
 * `DescriptorProto` named after the class, with one field per property in property
 * order, and collects, per property, the rules the emitted message operations follow
 * (its name, mapped field type and nullability). An unsupported property type throws
 * before anything is emitted for the class.
 */
module Descriptor {
  import opened Wrappers
  import opened Syntax
  import opened TypeMapper

  /** The generator sets only the name and the type; number and label stay unset. */
  datatype FieldDescriptorProto = FieldDescriptorProto(name: string, fieldType: FieldType)

  datatype DescriptorProto = DescriptorProto(name: string, fields: seq<FieldDescriptorProto>)

  /**
   * One property as the emitted operations treat it: its name, its field type and whether
   * its type is declared with `?` (`IsNullable`).
   */
  datatype FieldSpec = FieldSpec(name: string, kind: FieldType, nullable: bool)

  /** What the generator derives for one message class. */
  datatype MessageModel = MessageModel(descriptor: DescriptorProto, fields: seq<FieldSpec>)

  predicate AllSupported(properties: seq<PropertyDecl>)
  {
    forall i :: 0 <= i < |properties| ==> GetType(properties[i].declaredType).Ok?
  }

  /**
   * `model` is the message model of class `className` with `properties`: the descriptor
   * is named after the class and has one field per property, in order, with the
   * property's name and mapped type; the field rules carry the same name and type
   * and the property's nullability.
   */
  predicate Describes(model: MessageModel, className: string, properties: seq<PropertyDecl>)
  {
    && model.descriptor.name == className
    && |model.descriptor.fields| == |properties| == |model.fields|
    && forall i :: 0 <= i < |properties| ==>
         && GetType(properties[i].declaredType) == Ok(model.descriptor.fields[i].fieldType)
         && model.descriptor.fields[i].name == properties[i].identifier
         && model.fields[i] == FieldSpec(properties[i].identifier, model.descriptor.fields[i].fieldType, properties[i].IsNullable())
  }

  /** The class and its properties determine the message model. */
  lemma DescribesUnique(m1: MessageModel, m2: MessageModel, className: string, properties: seq<PropertyDecl>)
    requires Describes(m1, className, properties) && Describes(m2, className, properties)
    ensures m1 == m2
  {
    assert m1.descriptor.fields == m2.descriptor.fields by {
      forall i | 0 <= i < |properties|
        ensures m1.descriptor.fields[i] == m2.descriptor.fields[i]
      {
        assert GetType(properties[i].declaredType).value == m1.descriptor.fields[i].fieldType;
      }
    }
  }

  /**
   * The loop over the properties: map each property's type, append its descriptor
   * field and its rules. The first unsupported type ends the loop with its error.
   */
  method BuildMessage(className: string, properties: seq<PropertyDecl>) returns (r: Result<MessageModel, MappingError>)
    ensures r.Ok? <==> AllSupported(properties)
    ensures r.Ok? ==> Describes(r.value, className, properties)
    ensures r.Err? ==>
      exists k :: 0 <= k < |properties| && GetType(properties[k].declaredType) == Err(r.error)
                  && forall j :: 0 <= j < k ==> GetType(properties[j].declaredType).Ok?
  {
    var descriptorFields: seq<FieldDescriptorProto> := [];
    var fields: seq<FieldSpec> := [];
    var i := 0;
    while i < |properties|
      invariant 0 <= i <= |properties|
      invariant |descriptorFields| == i == |fields|
      invariant forall k :: 0 <= k < i ==>
        && GetType(properties[k].declaredType) == Ok(descriptorFields[k].fieldType)
        && descriptorFields[k].name == properties[k].identifier
        && fields[k] == FieldSpec(properties[k].identifier, descriptorFields[k].fieldType, properties[k].IsNullable())
    {
      var prop := properties[i];
      var mapped := GetType(prop.declaredType);
      if mapped.Err? {
        return Err(mapped.error);
      }
      descriptorFields := descriptorFields + [FieldDescriptorProto(prop.identifier, mapped.value)];
      fields := fields + [FieldSpec(prop.identifier, mapped.value, prop.IsNullable())];
      i := i + 1;
    }
    return Ok(MessageModel(DescriptorProto(className, descriptorFields), fields));
  }

  /**
   * Every field type in a message model is one the mapper produces, so no field is of
   * `Message` type and the emitted `Clone` copies every field by assignment: its
   * branch that clones a `Message` field is never taken.
   */
  lemma {:induction false} NoMessageFields(model: MessageModel, className: string, properties: seq<PropertyDecl>, i: nat)
    requires Describes(model, className, properties)
    requires i < |model.fields|
    ensures IsMapped(model.fields[i].kind) && model.fields[i].kind != Message
  {
    assert GetType(properties[i].declaredType) == Ok(model.descriptor.fields[i].fieldType);
  }
}
