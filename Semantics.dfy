/**
 * The values a settings instance holds, as a tree: one field per accessor of
 * its TypeAccessor, a nested instance as a nested state. This is what the
 * heap objects of the Instances module abstract to, and what the folds of
 * ConfOxide/SettingsExtensions.cs are specified against.
 */
module Semantics {
  import opened Wrappers
  import opened Values
  import opened TypeExtensions
  import opened Metadata

  datatype Field =
    | ScalarField(value: Value)
    | ListField(items: seq<Value>)
    | NestedField(state: State)
    | Absent                        // a list or nested property that still holds null

  datatype State = State(fields: seq<Field>)

  /** The field holds what its accessor's class stores. */
  predicate FieldConforms(shape: Shape, f: Field)
    decreases shape
  {
    match shape
    case ValueShape(_, _) => f.ScalarField?
    case CollectionShape(_, _, _) => f.ListField?
    case NestedShape(_, inner) => f.NestedField? && inner.Success? && Conforms(inner.value, f.state)
  }

  /** A state of a fully constructed instance of the type described by `meta`. */
  predicate Conforms(meta: TypeAccessor, st: State)
    decreases meta
  {
    |st.fields| == |meta.properties| &&
    forall i :: 0 <= i < |st.fields| ==> FieldConforms(meta.properties[i].shape, st.fields[i])
  }

  /**
   * Whether `SettingsBase<T>()` can complete: TypeAccessor<T> was built,
   * `Error` is null or empty, and so it is for every nested type.
   */
  predicate Instantiable(meta: Result<TypeAccessor, Fault>)
    decreases meta
  {
    meta.Success? &&
    !(meta.value.error.Some? && meta.value.error.value != "") &&
    forall i :: 0 <= i < |meta.value.properties| && meta.value.properties[i].shape.NestedShape? ==>
      Instantiable(meta.value.properties[i].shape.inner)
  }

  /** The value `ResetValue` leaves: the captured default, an empty list, a reset instance. */
  function DefaultField(shape: Shape): (f: Field)
    decreases shape
    ensures shape.NestedShape? && Instantiable(shape.inner) ==> FieldConforms(shape, f)
    ensures !shape.NestedShape? ==> FieldConforms(shape, f)
  {
    match shape
    case ValueShape(_, defaultValue) => ScalarField(defaultValue)
    case CollectionShape(_, _, _) => ListField([])
    case NestedShape(_, inner) =>
      if inner.Success? then NestedField(DefaultState(inner.value)) else Absent
  }

  /** The state of a freshly constructed, or freshly reset, instance. */
  function DefaultState(meta: TypeAccessor): (st: State)
    decreases meta
    ensures |st.fields| == |meta.properties|
    ensures Instantiable(Success(meta)) ==> Conforms(meta, st)
  {
    State(seq(|meta.properties|, i requires 0 <= i < |meta.properties| => DefaultField(meta.properties[i].shape)))
  }

  // ---------------------------------------------------------------------
  // AssignFrom

  /**
   * `Copy(source, target)` of one accessor. A scalar takes the source's value.
   * A list is cleared and then refilled from the source's list, which is the
   * target's own list, already emptied, when the two instances are the same.
   * A nested instance is assigned from itself, whatever the source holds.
   */
  function AssignField(shape: Shape, target: Field, source: Field, aliased: bool): (f: Field)
    requires FieldConforms(shape, target) && FieldConforms(shape, source)
    decreases shape
    ensures FieldConforms(shape, f)
  {
    match shape
    case ValueShape(_, _) => source
    case CollectionShape(_, _, _) => ListField(if aliased then [] else source.items)
    case NestedShape(_, inner) => NestedField(Assign(inner.value, target.state, target.state, true))
  }

  /** `target.AssignFrom(source)`; `aliased` says whether they are one instance. */
  function Assign(meta: TypeAccessor, target: State, source: State, aliased: bool): (st: State)
    requires Conforms(meta, target) && Conforms(meta, source)
    decreases meta
    ensures Conforms(meta, st)
  {
    State(seq(|meta.properties|, i requires 0 <= i < |meta.properties| =>
      AssignField(meta.properties[i].shape, target.fields[i], source.fields[i], aliased)))
  }

  /** The field with its lists emptied, at every depth, and its scalars kept. */
  function ClearedField(shape: Shape, f: Field): (r: Field)
    requires FieldConforms(shape, f)
    decreases shape
    ensures FieldConforms(shape, r)
  {
    match shape
    case ValueShape(_, _) => f
    case CollectionShape(_, _, _) => ListField([])
    case NestedShape(_, inner) => NestedField(Cleared(inner.value, f.state))
  }

  /** The state with every list emptied, at every depth, and every scalar kept. */
  function Cleared(meta: TypeAccessor, st: State): (r: State)
    requires Conforms(meta, st)
    decreases meta
    ensures Conforms(meta, r)
  {
    State(seq(|st.fields|, i requires 0 <= i < |st.fields| => ClearedField(meta.properties[i].shape, st.fields[i])))
  }

  /** The type has a property with a nested settings class. */
  predicate HasNested(meta: TypeAccessor) {
    exists i :: 0 <= i < |meta.properties| && meta.properties[i].shape.NestedShape?
  }

  /**
   * Assigning an instance from itself keeps its scalars and empties its lists,
   * at every depth: each list is cleared before it is read back.
   */
  lemma {:induction false} SelfAssignClears(meta: TypeAccessor, st: State)
    requires Conforms(meta, st)
    decreases meta
    ensures Assign(meta, st, st, true) == Cleared(meta, st)
  {
    var a := Assign(meta, st, st, true);
    var c := Cleared(meta, st);
    forall i | 0 <= i < |st.fields|
      ensures a.fields[i] == c.fields[i]
    {
      var shape := meta.properties[i].shape;
      assert a.fields[i] == AssignField(shape, st.fields[i], st.fields[i], true);
      assert c.fields[i] == ClearedField(shape, st.fields[i]);
      if shape.NestedShape? {
        SelfAssignClears(shape.inner.value, st.fields[i].state);
      }
    }
  }

  /**
   * `Copy` of a nested accessor never reads the source: the target's nested
   * instance ends up as its own self-assignment.
   */
  lemma NestedCopyIgnoresSource(meta: TypeAccessor, target: State, source: State, aliased: bool, i: nat)
    requires Conforms(meta, target) && Conforms(meta, source)
    requires i < |meta.properties| && meta.properties[i].shape.NestedShape?
    ensures Assign(meta, target, source, aliased).fields[i] == ClearedField(meta.properties[i].shape, target.fields[i])
  {
    SelfAssignClears(meta.properties[i].shape.inner.value, target.fields[i].state);
  }

  /**
   * For a type without nested properties, assigning from a distinct instance
   * makes the target hold exactly the source's values.
   */
  lemma AssignWithoutNestedCopies(meta: TypeAccessor, target: State, source: State)
    requires Conforms(meta, target) && Conforms(meta, source) && !HasNested(meta)
    ensures Assign(meta, target, source, false) == source
  {
    var a := Assign(meta, target, source, false);
    forall i | 0 <= i < |source.fields|
      ensures a.fields[i] == source.fields[i]
    {
      assert !meta.properties[i].shape.NestedShape?;
      assert a.fields[i] == AssignField(meta.properties[i].shape, target.fields[i], source.fields[i], false);
    }
  }

  /** Scalars survive a self-assignment; lists do not. */
  lemma SelfAssignKeepsScalars(meta: TypeAccessor, st: State, i: nat)
    requires Conforms(meta, st) && i < |st.fields|
    ensures st.fields[i].ScalarField? ==> Assign(meta, st, st, true).fields[i] == st.fields[i]
    ensures st.fields[i].ListField? ==> Assign(meta, st, st, true).fields[i] == ListField([])
  {
  }

  // ---------------------------------------------------------------------
  // The nested-copy defect on a concrete type

  /** `public int Value { get; set; }` of the nested class. */
  function ValueProperty(): PropertyInfo {
    PropertyInfo("Value", Primitive(Int32), true, PublicSetter, None, None, None)
  }

  /** The nested class: one scalar. */
  function InnerAccessor(): TypeAccessor {
    TypeAccessor([Accessor(ValueProperty(), "Value", ValueShape(Primitive(Int32), Int(0)))], map["Value" := 0], None)
  }

  /** The outer class: one nested property `Inner`. */
  function OuterAccessor(): TypeAccessor {
    var innerDecl := TypeDecl("Inner", false, true, Some(SettingsBaseOf("Inner")), None, true, [ValueProperty()]);
    var innerProperty := PropertyInfo("Inner", Declared(innerDecl), true, PublicSetter, None, None, None);
    TypeAccessor([Accessor(innerProperty, "Inner", NestedShape(Declared(innerDecl), Success(InnerAccessor())))], map["Inner" := 0], None)
  }

  /** An outer instance whose nested `Value` is `v`. */
  function OuterWith(v: int): State {
    State([NestedField(State([ScalarField(Int(v))]))])
  }

  /**
   * `target.AssignFrom(source)` leaves the target as it was when only a nested
   * value differs, so target and source are still not equal afterwards.
   */
  lemma NestedCopyLosesSourceValue()
    ensures Conforms(OuterAccessor(), OuterWith(0)) && Conforms(OuterAccessor(), OuterWith(1))
    ensures Assign(OuterAccessor(), OuterWith(0), OuterWith(1), false) == OuterWith(0)
    ensures Assign(OuterAccessor(), OuterWith(0), OuterWith(1), false) != OuterWith(1)
  {
    var inner := State([ScalarField(Int(0))]);
    assert Conforms(InnerAccessor(), inner);
    assert Conforms(OuterAccessor(), OuterWith(0));
    assert Conforms(InnerAccessor(), State([ScalarField(Int(1))]));
    assert Conforms(OuterAccessor(), OuterWith(1));
    var a := Assign(InnerAccessor(), inner, inner, true);
    assert a.fields[0] == ScalarField(Int(0));
    assert a == inner;
    var r := Assign(OuterAccessor(), OuterWith(0), OuterWith(1), false);
    assert r.fields[0] == NestedField(a);
    assert r == OuterWith(0);
    assert r.fields[0] != OuterWith(1).fields[0] by {
      assert r.fields[0].state.fields[0] != OuterWith(1).fields[0].state.fields[0];
    }
  }
}
