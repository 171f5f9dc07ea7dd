/**
 * A generated message class: an instance holds one value per descriptor field and
 * carries the operations the generator emits for it. `MergeFrom` assigns the
 * receiver's fields in place and `CalculateSize` accumulates the size field by field;
 * both are proved against the value-level definitions of module Codec. The emitted
 * members join the discovered class only when it is a top-level class of namespace
 * `Example`, the namespace the unit declares; the model takes that as given.
 */
module Messages {
  import opened TypeMapper
  import opened Descriptor
  import opened WireSize
  import opened Codec

  class Message {
    /** The field rules of the message's class, the same for every instance. */
    const fields: seq<FieldSpec>
    /** The property values, indexed like `fields`. */
    var values: seq<Value>

    ghost predicate Valid()
      reads this
    {
      WellTyped(fields, values)
    }

    /** `new X()`: every property at its C# default. */
    constructor (fields: seq<FieldSpec>)
      requires forall i :: 0 <= i < |fields| ==> IsMapped(fields[i].kind)
      ensures Valid()
      ensures this.fields == fields && values == Defaults(fields)
    {
      this.fields := fields;
      values := Defaults(fields);
    }

    /**
     * The emitted `CalculateSize`: start from 0 and add each non-default field's size.
     * For an `int?` or `uint?` property the emitted method does not compile; there this
     * is the corrected method, which counts a null as 0.
     */
    method CalculateSize() returns (size: int)
      requires Valid()
      ensures size == Size(fields, values)
    {
      size := 0;
      var i := 0;
      while i < |fields|
        invariant 0 <= i <= |fields|
        invariant size == Size(fields[..i], values[..i])
      {
        var f, v := fields[i], values[i];
        match f.kind {
          case Int32 =>
            if v.Int? && v.n != 0 {
              size := size + 2 + Int32Size(v.n);
            }
          case Uint32 =>
            if v.Int? && v.n != 0 {
              size := size + 2 + UInt32Size(v.n);
            }
          case String =>
            if v.Text? && v.s != [] {
              size := size + 1 + StringSize(v.s);
            }
          case _ =>
        }
        assert fields[..i + 1][..i] == fields[..i] && values[..i + 1][..i] == values[..i];
        i := i + 1;
      }
      assert fields[..i] == fields && values[..i] == values;
    }

    /**
     * The emitted `MergeFrom(other)`: nothing when `other` is null; otherwise each field
     * in turn takes `other`'s value when that value is not 0 (nor null, for a nullable
     * property) for an integer field, neither null nor empty for a string field.
     * `other` may be this very instance.
     */
    method MergeFrom(other: Message?)
      requires Valid()
      requires other != null ==> other.Valid() && other.fields == fields
      modifies this
      ensures Valid()
      ensures other == null ==> values == old(values)
      ensures other != null ==> values == Merge(fields, old(values), old(other.values))
    {
      if other == null {
        return;
      }
      ghost var theirs := other.values;
      ghost var mine := values;
      MergeWellTyped(fields, mine, theirs);
      var i := 0;
      while i < |fields|
        invariant 0 <= i <= |fields|
        invariant |values| == |fields|
        invariant other != this ==> other.values == theirs
        invariant forall k :: 0 <= k < i ==> values[k] == MergeField(fields[k], mine[k], theirs[k])
        invariant forall k :: i <= k < |fields| ==> values[k] == mine[k]
      {
        var f, v := fields[i], other.values[i];
        match f.kind {
          case Int32 =>
            if (f.nullable ==> v != Null) && v != Int(0) {
              values := values[i := v];
            }
          case Uint32 =>
            if (f.nullable ==> v != Null) && v != Int(0) {
              values := values[i := v];
            }
          case String =>
            if v.Text? && v.s != [] {
              values := values[i := v];
            }
          case _ =>
        }
        i := i + 1;
      }
    }

    /**
     * `Equals(other)` with its floating fields compared by bit pattern (Codec.Equal): false
     * for null, true for this very instance, otherwise the field-by-field comparison. The
     * emitted text compares `double` and `float` fields with IEEE `!=` instead, which is
     * Codec.EqualsAsWritten; the two differ on NaN and on +0.0 against -0.0.
     */
    predicate Equals(other: Message?)
      requires Valid()
      requires other != null ==> other.Valid() && other.fields == fields
      reads this, other
      ensures Equals(other) <==> other != null && other.values == values
    {
      other != null && (other == this || (EqualIffSame(fields, values, other.values); Equal(fields, values, other.values)))
    }

    /** The emitted `Clone`: a new instance whose every property is this one's. */
    method Clone() returns (c: Message)
      requires Valid()
      ensures fresh(c) && c.Valid()
      ensures c.fields == fields && c.values == values
      ensures c.Equals(this) && Equals(c)
    {
      c := new Message.Copy(fields, values);
    }

    /** The object initializer of `Clone`: fields assigned one by one from the original. */
    constructor Copy(fields: seq<FieldSpec>, values: seq<Value>)
      requires WellTyped(fields, values)
      ensures Valid()
      ensures this.fields == fields && this.values == values
    {
      this.fields := fields;
      this.values := values;
    }
  }
}
