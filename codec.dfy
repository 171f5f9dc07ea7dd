/**
 * What the message operations emitted by the generator compute, on message values: a
 * message value is the sequence of its field values, indexed like the descriptor's
 * fields. `CalculateSize` sums per-field contributions and leaves out default values;
 * `MergeFrom(other)` copies `other`'s non-default integer and string fields; `Equals`
 * compares field by field.
 */
module Codec {
  import opened Wrappers
  import opened TypeMapper
  import opened Descriptor
  import opened WireSize

  /** A field value; `float` and `double` values are their IEEE 754 bit patterns. */
  datatype Value = Null | Int(n: int) | Text(s: string) | Bits(b: nat)

  /**
   * The values a property of field rule `f` can hold: an `int` a 32-bit signed value, a
   * `uint` a 32-bit unsigned one, a `double` or `float` a 64- or 32-bit pattern, each
   * also null when the property is nullable; a string is text or null whatever its
   * annotation, since `string` is a reference type.
   */
  predicate HasType(f: FieldSpec, v: Value)
  {
    match f.kind
    case Int32 => (v.Int? && -TwoTo31 <= v.n < TwoTo31) || (f.nullable && v.Null?)
    case Uint32 => (v.Int? && 0 <= v.n < TwoTo32) || (f.nullable && v.Null?)
    case String => (v.Text? && Utf8Length(v.s) < TwoTo31) || v.Null?
    case Double => (v.Bits? && v.b < TwoTo64) || (f.nullable && v.Null?)
    case Float => (v.Bits? && v.b < TwoTo32) || (f.nullable && v.Null?)
    case _ => false
  }

  predicate WellTyped(fields: seq<FieldSpec>, values: seq<Value>)
  {
    |values| == |fields| && forall i :: 0 <= i < |fields| ==> HasType(fields[i], values[i])
  }

  /** The value a property holds in a fresh instance `new X()`. */
  function DefaultValue(f: FieldSpec): (v: Value)
    ensures IsMapped(f.kind) ==> HasType(f, v)
  {
    if f.kind == String || f.nullable then Null
    else if f.kind == Double || f.kind == Float then Bits(0)
    else Int(0)
  }

  function Defaults(fields: seq<FieldSpec>): (r: seq<Value>)
  {
    seq(|fields|, i requires 0 <= i < |fields| => DefaultValue(fields[i]))
  }

  /** Null, zero or the empty string: the values the wire format does not encode. */
  predicate IsEmpty(v: Value)
  {
    v.Null? || v == Int(0) || v == Text([])
  }

  /**
   * The field is left out of size and merge: a `double` or `float` field (no rule is
   * emitted for them), or an integer or string field holding an empty value.
   */
  predicate Elided(f: FieldSpec, v: Value)
  {
    f.kind == Double || f.kind == Float || IsEmpty(v)
  }

  // ---------------------------------------------------------------- CalculateSize

  /**
   * The size one field adds: an `int` or `uint` field 2 plus its varint size when it is
   * not 0, a string field 1 plus its length-delimited size when it is neither null nor
   * empty, anything else 0. A null `int?` or `uint?` adds 0 (see FieldSizeAsWritten).
   */
  function FieldSize(f: FieldSpec, v: Value): (r: nat)
    requires HasType(f, v)
  {
    match f.kind
    case Int32 => if v.Int? && v.n != 0 then 2 + Int32Size(v.n) else 0
    case Uint32 => if v.Int? && v.n != 0 then 2 + UInt32Size(v.n) else 0
    case String => if v.Text? && v.s != [] then 1 + StringSize(v.s) else 0
    case _ => 0
  }

  /** The sum of the field sizes, accumulated in field order; it bounds each of them. */
  function Size(fields: seq<FieldSpec>, values: seq<Value>): (r: nat)
    requires WellTyped(fields, values)
    ensures forall i :: 0 <= i < |fields| ==> FieldSize(fields[i], values[i]) <= r
    decreases |fields|
  {
    if |fields| == 0 then 0
    else
      var n := |fields| - 1;
      Size(fields[..n], values[..n]) + FieldSize(fields[n], values[n])
  }

  /** A field adds to the size exactly when it is not elided. */
  lemma FieldSizePositive(f: FieldSpec, v: Value)
    requires HasType(f, v)
    ensures FieldSize(f, v) > 0 <==> !Elided(f, v)
  {
  }

  /**
   * The size is 0 exactly when every integer and string field holds 0, null or the
   * empty string; so it is positive as soon as one of them holds anything else.
   */
  lemma {:induction false} SizeZeroIffElided(fields: seq<FieldSpec>, values: seq<Value>)
    requires WellTyped(fields, values)
    ensures Size(fields, values) == 0 <==> forall i :: 0 <= i < |fields| ==> Elided(fields[i], values[i])
  {
    if |fields| > 0 {
      var n := |fields| - 1;
      SizeZeroIffElided(fields[..n], values[..n]);
      FieldSizePositive(fields[n], values[n]);
      if Size(fields, values) == 0 {
        forall i | 0 <= i < |fields| ensures Elided(fields[i], values[i]) {
          if i < n {
            assert fields[..n][i] == fields[i] && values[..n][i] == values[i];
          }
        }
      } else {
        if Size(fields[..n], values[..n]) > 0 {
          var i :| 0 <= i < n && !Elided(fields[..n][i], values[..n][i]);
          assert !Elided(fields[i], values[i]);
        }
      }
    }
  }

  /** A fresh instance has size 0. */
  lemma DefaultsSizeZero(fields: seq<FieldSpec>)
    requires forall i :: 0 <= i < |fields| ==> IsMapped(fields[i].kind)
    ensures WellTyped(fields, Defaults(fields)) && Size(fields, Defaults(fields)) == 0
  {
    assert WellTyped(fields, Defaults(fields));
    SizeZeroIffElided(fields, Defaults(fields));
  }

  /** Whether the size line emitted for `f` compiles: not for an `int?` or `uint?` property. */
  predicate SizeLineCompiles(f: FieldSpec)
  {
    !(f.nullable && (f.kind == Int32 || f.kind == Uint32))
  }

  /**
   * The size line emitted for each field, as written: `None` where the emitted line does
   * not compile. For an `int?` or `uint?` property the line passes the nullable value to
   * `ComputeInt32Size(int)` or `ComputeUInt32Size(uint)`, which C# does not convert
   * implicitly, so the generated unit fails to compile whatever the value is.
   */
  function FieldSizeAsWritten(f: FieldSpec, v: Value): (r: Option<int>)
    requires HasType(f, v)
    ensures r.None? <==> !SizeLineCompiles(f)
  {
    match f.kind
    case Int32 => if f.nullable then None else if v.n != 0 then Some(2 + Int32Size(v.n)) else Some(0)
    case Uint32 => if f.nullable then None else if v.n != 0 then Some(2 + UInt32Size(v.n)) else Some(0)
    case String => if v.Text? && v.s != [] then Some(1 + StringSize(v.s)) else Some(0)
    case Double => Some(0)
    case Float => Some(0)
  }

  /**
   * Wherever the size line as written compiles it agrees with FieldSize, null strings
   * and nullable floating fields included; for `int?` and `uint?` it has no size.
   */
  lemma FieldSizeAsWrittenAgrees(f: FieldSpec, v: Value)
    requires HasType(f, v)
    ensures FieldSizeAsWritten(f, v) == if SizeLineCompiles(f) then Some(FieldSize(f, v)) else None
  {
  }

  /**
   * An `int?` property has no size as written, whether it holds a value or null, while
   * FieldSize counts a null as 0 and a value like a plain `int` would.
   */
  lemma NullableIntSizeAsWritten()
    ensures FieldSizeAsWritten(FieldSpec("Age", Int32, true), Null) == None
    ensures FieldSizeAsWritten(FieldSpec("Age", Int32, true), Int(5)) == None
    ensures FieldSize(FieldSpec("Age", Int32, true), Null) == 0
    ensures FieldSize(FieldSpec("Age", Int32, true), Int(5)) == FieldSize(FieldSpec("Age", Int32, false), Int(5)) == 3
  {
  }

  /** `Point { X: int, Y: int }` with X = 0 and Y = 5: only Y counts, 2 + 1 bytes. */
  lemma PointSize()
    ensures Size([FieldSpec("X", Int32, false), FieldSpec("Y", Int32, false)], [Int(0), Int(5)]) == 3
  {
    var fields := [FieldSpec("X", Int32, false), FieldSpec("Y", Int32, false)];
    var values := [Int(0), Int(5)];
    assert fields[..1] == [FieldSpec("X", Int32, false)] && values[..1] == [Int(0)];
    assert fields[..1][..0] == [] && values[..1][..0] == [];
  }

  // ---------------------------------------------------------------- MergeFrom

  /**
   * The merge line of one field: an `int` or `uint` field takes `other`'s value when it is
   * not 0 (and, for a nullable property, not null); a string field when it is neither
   * null nor empty; `double` and `float` fields have no merge line.
   */
  predicate Overrides(f: FieldSpec, theirs: Value)
  {
    match f.kind
    case Int32 => (f.nullable ==> theirs != Null) && theirs != Int(0)
    case Uint32 => (f.nullable ==> theirs != Null) && theirs != Int(0)
    case String => theirs.Text? && theirs.s != []
    case _ => false
  }

  function MergeField(f: FieldSpec, mine: Value, theirs: Value): (r: Value)
  {
    if Overrides(f, theirs) then theirs else mine
  }

  /** `MergeFrom(other)` on values: each field merged by its rule. */
  function Merge(fields: seq<FieldSpec>, mine: seq<Value>, theirs: seq<Value>): (r: seq<Value>)
    requires |mine| == |fields| == |theirs|
    ensures |r| == |fields|
    ensures forall i :: 0 <= i < |fields| ==> r[i] == mine[i] || r[i] == theirs[i]
  {
    seq(|fields|, i requires 0 <= i < |fields| => MergeField(fields[i], mine[i], theirs[i]))
  }

  /**
   * Last write wins on non-default fields: for a well-typed `other`, each field of the
   * result is `other`'s unless it is elided there, and then the receiver's. The fields
   * that merge copies are exactly those that add to the size.
   */
  lemma MergeTakesNonElided(fields: seq<FieldSpec>, mine: seq<Value>, theirs: seq<Value>)
    requires |mine| == |fields| && WellTyped(fields, theirs)
    ensures forall i :: 0 <= i < |fields| ==>
      Merge(fields, mine, theirs)[i] == if Elided(fields[i], theirs[i]) then mine[i] else theirs[i]
    ensures forall i :: 0 <= i < |fields| ==>
      (Overrides(fields[i], theirs[i]) <==> FieldSize(fields[i], theirs[i]) > 0)
  {
    forall i | 0 <= i < |fields|
      ensures Merge(fields, mine, theirs)[i] == if Elided(fields[i], theirs[i]) then mine[i] else theirs[i]
      ensures Overrides(fields[i], theirs[i]) <==> FieldSize(fields[i], theirs[i]) > 0
    {
      assert HasType(fields[i], theirs[i]);
      FieldSizePositive(fields[i], theirs[i]);
    }
  }

  /** Merging keeps values well typed. */
  lemma MergeWellTyped(fields: seq<FieldSpec>, mine: seq<Value>, theirs: seq<Value>)
    requires WellTyped(fields, mine) && WellTyped(fields, theirs)
    ensures WellTyped(fields, Merge(fields, mine, theirs))
  {
    var r := Merge(fields, mine, theirs);
    forall i | 0 <= i < |fields| ensures HasType(fields[i], r[i]) {
      assert HasType(fields[i], mine[i]) && HasType(fields[i], theirs[i]);
    }
  }

  /** Merging from a fresh default instance leaves the receiver unchanged. */
  lemma MergeDefaultsNoOp(fields: seq<FieldSpec>, mine: seq<Value>)
    requires |mine| == |fields|
    ensures Merge(fields, mine, Defaults(fields)) == mine
  {
  }

  /** Merging the same `other` twice equals merging it once. */
  lemma MergeIdempotent(fields: seq<FieldSpec>, mine: seq<Value>, theirs: seq<Value>)
    requires |mine| == |fields| == |theirs|
    ensures Merge(fields, Merge(fields, mine, theirs), theirs) == Merge(fields, mine, theirs)
  {
  }

  /** Merging a message into itself (`m.MergeFrom(m)`) changes nothing. */
  lemma MergeSelf(fields: seq<FieldSpec>, mine: seq<Value>)
    requires |mine| == |fields|
    ensures Merge(fields, mine, mine) == mine
  {
  }

  /** Merging `a` and then `b` equals merging the merge of `a` and `b`. */
  lemma MergeAssociative(fields: seq<FieldSpec>, mine: seq<Value>, a: seq<Value>, b: seq<Value>)
    requires |mine| == |fields| == |a| == |b|
    ensures Merge(fields, Merge(fields, mine, a), b) == Merge(fields, mine, Merge(fields, a, b))
  {
  }

  // ---------------------------------------------------------------- Equals

  /**
   * `Equals` past its reference checks: false at the first field whose values differ,
   * true when none does. Values are compared as they are stored: strings ordinally,
   * `double` and `float` fields by bit pattern (see EqualsAsWritten for the IEEE
   * comparison the emitted text uses).
   */
  function Equal(fields: seq<FieldSpec>, a: seq<Value>, b: seq<Value>): (r: bool)
    requires |a| == |fields| == |b|
    ensures r <==> forall i :: 0 <= i < |fields| ==> a[i] == b[i]
  {
    if fields == [] then true
    else if a[0] != b[0] then false
    else Equal(fields[1..], a[1..], b[1..])
  }

  /** Two messages are equal exactly when all their field values are the same. */
  lemma {:induction false} EqualIffSame(fields: seq<FieldSpec>, a: seq<Value>, b: seq<Value>)
    requires |a| == |fields| == |b|
    ensures Equal(fields, a, b) <==> a == b
  {
    if fields != [] {
      EqualIffSame(fields[1..], a[1..], b[1..]);
      assert a == [a[0]] + a[1..] && b == [b[0]] + b[1..];
    }
  }

  /** Equal is reflexive, symmetric and transitive. */
  lemma EqualIsEquivalence(fields: seq<FieldSpec>, a: seq<Value>, b: seq<Value>, c: seq<Value>)
    requires |a| == |fields| == |b| == |c|
    ensures Equal(fields, a, a)
    ensures Equal(fields, a, b) == Equal(fields, b, a)
    ensures Equal(fields, a, b) && Equal(fields, b, c) ==> Equal(fields, a, c)
  {
    EqualIffSame(fields, a, a);
    EqualIffSame(fields, a, b);
    EqualIffSame(fields, b, a);
    EqualIffSame(fields, b, c);
    EqualIffSame(fields, a, c);
  }

  /** IEEE 754 NaN: all exponent bits set and a non-zero fraction. */
  predicate IsNaN(kind: FieldType, bits: nat)
  {
    if kind == Double then (bits / 0x10_0000_0000_0000) % 0x800 == 0x7FF && bits % 0x10_0000_0000_0000 != 0
    else (bits / 0x80_0000) % 0x100 == 0xFF && bits % 0x80_0000 != 0
  }

  /** Positive or negative zero. */
  predicate IsZero(kind: FieldType, bits: nat)
  {
    if kind == Double then bits % 0x8000_0000_0000_0000 == 0 else bits % 0x8000_0000 == 0
  }

  /** C#'s `==` on `double` and `float`: NaN equals nothing, the two zeros are equal. */
  predicate IeeeEqual(kind: FieldType, p: nat, q: nat)
  {
    !IsNaN(kind, p) && !IsNaN(kind, q) && (p == q || (IsZero(kind, p) && IsZero(kind, q)))
  }

  /** The emitted `{name} != other.{name}` for one field. */
  predicate DiffersAsWritten(f: FieldSpec, x: Value, y: Value)
  {
    if (f.kind == Double || f.kind == Float) && x.Bits? && y.Bits? then !IeeeEqual(f.kind, x.b, y.b)
    else x != y
  }

  /** `Equals` past its reference checks, with the comparisons of the emitted text. */
  function EqualsAsWritten(fields: seq<FieldSpec>, a: seq<Value>, b: seq<Value>): (r: bool)
    requires |a| == |fields| == |b|
    ensures r <==> forall i :: 0 <= i < |fields| ==> !DiffersAsWritten(fields[i], a[i], b[i])
  {
    if fields == [] then true
    else if DiffersAsWritten(fields[0], a[0], b[0]) then false
    else EqualsAsWritten(fields[1..], a[1..], b[1..])
  }

  /** As written, Equals is symmetric. */
  lemma {:induction false} EqualsAsWrittenSymmetric(fields: seq<FieldSpec>, a: seq<Value>, b: seq<Value>)
    requires |a| == |fields| == |b|
    ensures EqualsAsWritten(fields, a, b) == EqualsAsWritten(fields, b, a)
  {
    if fields != [] {
      EqualsAsWrittenSymmetric(fields[1..], a[1..], b[1..]);
    }
  }

  /** As written, Equals holds of equal values exactly when no `double` or `float` field is NaN. */
  lemma {:induction false} EqualsAsWrittenReflexiveIffNoNaN(fields: seq<FieldSpec>, a: seq<Value>)
    requires |a| == |fields|
    ensures EqualsAsWritten(fields, a, a) <==>
      forall i :: 0 <= i < |fields| && (fields[i].kind == Double || fields[i].kind == Float) && a[i].Bits?
        ==> !IsNaN(fields[i].kind, a[i].b)
  {
    if fields != [] {
      EqualsAsWrittenReflexiveIffNoNaN(fields[1..], a[1..]);
      assert forall i :: 1 <= i < |fields| ==> fields[1..][i - 1] == fields[i] && a[1..][i - 1] == a[i];
    }
  }

  /**
   * A message with a `double` field holding NaN: a copy with every field equal is not
   * Equals to it as written, while Equal holds.
   */
  lemma NaNCopyNotEqualAsWritten()
    ensures !EqualsAsWritten([FieldSpec("Ratio", Double, false)], [Bits(0x7FF8_0000_0000_0000)], [Bits(0x7FF8_0000_0000_0000)])
    ensures Equal([FieldSpec("Ratio", Double, false)], [Bits(0x7FF8_0000_0000_0000)], [Bits(0x7FF8_0000_0000_0000)])
  {
    assert IsNaN(Double, 0x7FF8_0000_0000_0000);
  }

  /**
   * The other difference of the IEEE comparison: a `double` field holding +0.0 and one
   * holding -0.0 are Equals as written, while Equal tells the bit patterns apart.
   */
  lemma SignedZerosEqualAsWritten()
    ensures EqualsAsWritten([FieldSpec("Ratio", Double, false)], [Bits(0)], [Bits(0x8000_0000_0000_0000)])
    ensures !Equal([FieldSpec("Ratio", Double, false)], [Bits(0)], [Bits(0x8000_0000_0000_0000)])
  {
  }
}
