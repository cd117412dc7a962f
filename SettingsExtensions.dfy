/**
 * The folds of ConfOxide/SettingsExtensions.cs (`EquivalentTo`, `ResetValues`,
 * `AssignFrom`), the operations of ConfOxide/MemberAccess/NestedPropertyAccessor.cs
 * and the constructor of ConfOxide/SettingsBase.cs. They share a module
 * because they call each other: a nested accessor folds over the nested
 * instance, and a fold dispatches to every accessor, nested ones included.
 *
 * The dispatchers `CompareValues`, `ResetValue`, `Copy` and `InitializeValue`
 * stand for the interface calls through IPropertyAccessor<T>: each runs the
 * operation of the accessor's class.
 */
module SettingsExtensions {
  import opened Wrappers
  import opened Values
  import opened TypeExtensions
  import opened Json
  import opened Metadata
  import opened Semantics
  import opened Instances
  import ValuePropertyAccessor
  import CollectionPropertyAccessor

  // ---------------------------------------------------------------------
  // EquivalentTo

  /** `EquivalentTo(first, second)`: every accessor's `CompareValues` holds. */
  function EquivalentTo(first: Settings, second: Settings): (r: bool)
    requires first.Valid() && second.Valid() && first.meta == second.meta
    reads first, first.Repr, second, second.Repr
    decreases first.Repr, 2
    ensures r <==> first.Abstract() == second.Abstract()
  {
    SameAbstract(first, second);
    assert forall k :: 0 <= k < |first.slots| ==>
      (CompareValues(k, first, second) <==> first.FieldOf(k) == second.FieldOf(k));
    forall k :: 0 <= k < |first.slots| ==> CompareValues(k, first, second)
  }

  /** `IPropertyAccessor<T>.CompareValues(x, y)` of the `k`-th accessor. */
  function CompareValues(k: nat, x: Settings, y: Settings): (r: bool)
    requires x.Valid() && y.Valid() && x.meta == y.meta && k < |x.slots|
    reads x, x.Repr, y, y.Repr
    decreases x.Repr, 1
    ensures r <==> x.FieldOf(k) == y.FieldOf(k)
  {
    match x.meta.properties[k].shape
    case ValueShape(_, _) => ValuePropertyAccessor.CompareValues(k, x, y)
    case CollectionShape(_, _, _) => CollectionPropertyAccessor.CompareValues(k, x, y)
    case NestedShape(_, _) => NestedCompareValues(k, x, y)
  }

  /** Nested `CompareValues(x, y)`: the two nested instances are equivalent. */
  function NestedCompareValues(k: nat, x: Settings, y: Settings): (r: bool)
    requires x.Valid() && y.Valid() && x.meta == y.meta && k < |x.slots|
    requires x.meta.properties[k].shape.NestedShape?
    reads x, x.Repr, y, y.Repr
    decreases x.Repr, 0
    ensures r <==> x.FieldOf(k) == y.FieldOf(k)
  {
    EquivalentTo(x.GetValue(k).obj, y.GetValue(k).obj)
  }

  // ---------------------------------------------------------------------
  // ResetValues

  /** `ResetValues(instance)`: `ResetValue` of every accessor, in order. */
  method ResetValues(inst: Settings)
    requires inst.Valid()
    modifies inst.Repr
    decreases inst.Repr, 2
    ensures inst.Valid() && inst.Repr == old(inst.Repr) && inst.Nodes == old(inst.Nodes) && SameObjects(old(inst.slots), inst.slots)
    ensures inst.Abstract() == DefaultState(inst.meta)
  {
    var k := 0;
    while k < |inst.slots|
      invariant k <= |inst.slots|
      invariant inst.Valid() && inst.Repr == old(inst.Repr) && inst.Nodes == old(inst.Nodes) && SameObjects(old(inst.slots), inst.slots)
      invariant forall j :: 0 <= j < k ==> inst.Abstract().fields[j] == DefaultField(inst.meta.properties[j].shape)
    {
      ResetValue(inst, k);
      k := k + 1;
    }
    assert inst.Abstract().fields == DefaultState(inst.meta).fields;
  }

  /** `IPropertyAccessor<T>.ResetValue(instance)` of the `k`-th accessor. */
  method ResetValue(inst: Settings, k: nat)
    requires inst.Valid() && k < |inst.slots|
    modifies inst.Repr
    decreases inst.Repr, 1
    ensures inst.Valid() && inst.Repr == old(inst.Repr) && inst.Nodes == old(inst.Nodes) && SameObjects(old(inst.slots), inst.slots)
    ensures inst.Abstract().fields == old(inst.Abstract().fields)[k := DefaultField(inst.meta.properties[k].shape)]
  {
    match inst.meta.properties[k].shape {
      case ValueShape(_, _) =>
        ValuePropertyAccessor.ResetValue(inst, k);
      case CollectionShape(_, _, _) =>
        CollectionPropertyAccessor.ResetValue(inst, k);
      case NestedShape(_, _) =>
        NestedResetValue(inst, k);
    }
  }

  /**
   * Nested `ResetValue(instance)`: the nested instance resets its own
   * properties; it is still the same instance afterwards.
   */
  method NestedResetValue(inst: Settings, k: nat)
    requires inst.Valid() && k < |inst.slots| && inst.meta.properties[k].shape.NestedShape?
    modifies inst.GetValue(k).obj.Repr
    decreases inst.Repr, 0
    ensures inst.Valid() && inst.slots == old(inst.slots)
    ensures inst.Abstract().fields == old(inst.Abstract().fields)[k := DefaultField(inst.meta.properties[k].shape)]
  {
    ghost var was := inst.Abstract().fields;
    var c := inst.GetValue(k).obj;
    ResetValues(c);
    forall j | 0 <= j < |inst.slots| && j != k
      ensures inst.OwnedBy(j) == old(inst.OwnedBy(j))
      ensures inst.SlotValid(j) && inst.FieldOf(j) == was[j]
    {
      assert old(inst.OwnedBy(j)) !! old(inst.OwnedBy(k));
    }
    assert inst.OwnedBy(k) == old(inst.OwnedBy(k));
    assert inst.ValidUpTo(|inst.slots|);
    UpdatedAt(was, inst.Abstract().fields, k, DefaultField(inst.meta.properties[k].shape));
  }

  // ---------------------------------------------------------------------
  // AssignFrom

  /**
   * `AssignFrom(target, source)`: `Copy(source, target)` of every accessor, in
   * order. The two are one instance or share no object.
   */
  method AssignFrom(target: Settings, source: Settings)
    requires target.Valid() && source.Valid() && target.meta == source.meta
    requires target == source || target.Repr !! source.Repr
    modifies target.Repr
    decreases target.Repr, 2
    ensures target.Valid() && target.Repr == old(target.Repr) && target.Nodes == old(target.Nodes) && SameObjects(old(target.slots), target.slots)
    ensures target.Abstract() == Assign(target.meta, old(target.Abstract()), old(source.Abstract()), target == source)
    ensures target != source ==> source.Abstract() == old(source.Abstract())
  {
    ghost var t0, s0 := target.Abstract(), source.Abstract();
    ghost var goal := Assign(target.meta, t0, s0, target == source);
    var k := 0;
    while k < |target.slots|
      invariant k <= |target.slots|
      invariant target.Valid() && target.Repr == old(target.Repr) && target.Nodes == old(target.Nodes) && SameObjects(old(target.slots), target.slots)
      invariant source.Valid() && (target != source ==> source.Abstract() == s0)
      invariant forall j :: 0 <= j < k ==> target.Abstract().fields[j] == goal.fields[j]
      invariant forall j :: k <= j < |target.slots| ==> target.Abstract().fields[j] == t0.fields[j]
    {
      Copy(k, source, target);
      k := k + 1;
    }
    assert target.Abstract().fields == goal.fields;
  }

  /** `IPropertyAccessor<T>.Copy(source, target)` of the `k`-th accessor. */
  method Copy(k: nat, source: Settings, target: Settings)
    requires target.Valid() && source.Valid() && source.meta == target.meta && k < |target.slots|
    requires source == target || source.Repr !! target.Repr
    modifies target.Repr
    decreases target.Repr, 1
    ensures target.Valid() && target.Repr == old(target.Repr) && target.Nodes == old(target.Nodes) && SameObjects(old(target.slots), target.slots)
    ensures target.Abstract().fields == old(target.Abstract().fields)[k :=
      AssignField(target.meta.properties[k].shape, old(target.Abstract().fields[k]), old(source.Abstract().fields[k]), source == target)]
    ensures source != target ==> source.Abstract() == old(source.Abstract())
  {
    match target.meta.properties[k].shape {
      case ValueShape(_, _) =>
        ValuePropertyAccessor.Copy(k, source, target);
      case CollectionShape(_, _, _) =>
        CollectionPropertyAccessor.Copy(k, source, target);
      case NestedShape(_, _) =>
        assert target.GetValue(k).obj.Repr <= target.Repr;
        NestedCopy(k, source, target);
    }
  }

  /**
   * Nested `Copy(source, target)`, as written: the nested instance of `target` is
   * assigned from itself, and `source` is never read.
   */
  method NestedCopy(k: nat, source: Settings, target: Settings)
    requires target.Valid() && source.Valid() && source.meta == target.meta && k < |target.slots|
    requires target.meta.properties[k].shape.NestedShape?
    requires source == target || source.Repr !! target.Repr
    modifies target.GetValue(k).obj.Repr
    decreases target.Repr, 0
    ensures target.Valid() && target.slots == old(target.slots)
    ensures target.Abstract().fields == old(target.Abstract().fields)[k :=
      AssignField(target.meta.properties[k].shape, old(target.Abstract().fields[k]), old(source.Abstract().fields[k]), source == target)]
  {
    ghost var was := target.Abstract().fields;
    var c := target.GetValue(k).obj;
    ghost var c0 := c.Abstract();
    assert was[k] == NestedField(c0);
    ghost var f := AssignField(target.meta.properties[k].shape, was[k], old(source.Abstract().fields[k]), source == target);
    assert f == NestedField(Assign(c.meta, c0, c0, true));
    AssignFrom(c, c);
    forall j | 0 <= j < |target.slots| && j != k
      ensures target.OwnedBy(j) == old(target.OwnedBy(j))
      ensures target.SlotValid(j) && target.FieldOf(j) == was[j]
    {
      assert old(target.OwnedBy(j)) !! old(target.OwnedBy(k));
    }
    assert target.OwnedBy(k) == old(target.OwnedBy(k));
    assert target.ValidUpTo(|target.slots|);
    UpdatedAt(was, target.Abstract().fields, k, f);
  }

  // ---------------------------------------------------------------------
  // The SettingsBase<T> constructor

  function InvalidPropertiesMessage(typeName: string, error: string): string {
    "Settings class " + typeName + " has invalid properties:\n" + error
  }

  /**
   * The exception `new T()` ends in, if any: the static constructor of
   * TypeAccessor<T> threw, or `Error` is not empty, or the construction of a
   * nested instance failed, for the first nested property in order.
   */
  function ConstructionFault(typeName: string, meta: Result<TypeAccessor, Fault>): Option<Fault>
    decreases meta, 1
  {
    match meta
    case Failure(f) => Some(TypeInitialization(f))
    case Success(m) =>
      if m.error.Some? && m.error.value != "" then Some(InvalidOperation(InvalidPropertiesMessage(typeName, m.error.value)))
      else NestedFault(m, |m.properties|)
  }

  /** The exception `InitializeValue` of the `k`-th accessor ends in, if any. */
  function InitializeFault(m: TypeAccessor, k: nat): Option<Fault>
    requires k < |m.properties|
    decreases m, 0, k
  {
    match m.properties[k].shape
    case NestedShape(t, inner) => ConstructionFault(TypeName(t), inner)
    case _ => None
  }

  /** The first exception of `InitializeValue` over the first `k` accessors, in order. */
  function NestedFault(m: TypeAccessor, k: nat): Option<Fault>
    requires k <= |m.properties|
    decreases m, 0, k
  {
    if k == 0 then None
    else if NestedFault(m, k - 1).Some? then NestedFault(m, k - 1)
    else InitializeFault(m, k - 1)
  }

  /**
   * `new T()` running the SettingsBase<T> constructor: the `Error` check,
   * then `InitializeValue` of every accessor in order, then `ResetValues`.
   */
  method New(typeName: string, meta: Result<TypeAccessor, Fault>) returns (r: Result<Settings, Fault>)
    decreases meta, 1
    ensures r.Failure? <==> ConstructionFault(typeName, meta).Some?
    ensures r.Failure? ==> ConstructionFault(typeName, meta) == Some(r.error)
    ensures r.Success? ==>
      fresh(r.value.Repr) && r.value.meta == meta.value && r.value.Valid() &&
      r.value.Abstract() == DefaultState(meta.value)
  {
    if meta.Failure? {
      return Failure(TypeInitialization(meta.error));
    }
    var m := meta.value;
    if m.error.Some? && m.error.value != "" {
      return Failure(InvalidOperation(InvalidPropertiesMessage(typeName, m.error.value)));
    }
    var inst := new Settings(m);
    var k := 0;
    while k < |m.properties|
      invariant k <= |m.properties| && inst.meta == m
      invariant inst.ValidUpTo(k) && fresh(inst.Repr)
      invariant NestedFault(m, k).None?
    {
      var fault := InitializeValue(inst, k);
      if fault.Some? {
        NestedFaultIsFinal(m, k + 1, |m.properties|);
        return Failure(fault.value);
      }
      k := k + 1;
    }
    ResetValues(inst);
    return Success(inst);
  }

  /** Construction succeeds exactly for the instantiable types. */
  lemma {:induction false} FaultIffNotInstantiable(typeName: string, meta: Result<TypeAccessor, Fault>)
    decreases meta, 1
    ensures ConstructionFault(typeName, meta).None? <==> Instantiable(meta)
  {
    if meta.Success? && !(meta.value.error.Some? && meta.value.error.value != "") {
      NestedFaultNone(meta.value, |meta.value.properties|);
    }
  }

  /**
   * A class without a parameterless constructor never constructs: its
   * `CreateInstance` initialiser fails, so `TypeAccessor<T>.Error` throws
   * TypeInitializationException from the base constructor.
   */
  lemma NoParameterlessConstructorNoInstance(rt: ScalarType.Runtime, d: TypeDecl)
    requires !d.hasDefaultConstructor
    ensures ConstructionFault(d.name, TypeAccessorOf(rt, d)) == Some(TypeInitialization(MissingConstructor))
    ensures !Instantiable(TypeAccessorOf(rt, d))
  {
    FaultIffNotInstantiable(d.name, TypeAccessorOf(rt, d));
  }

  /** No nested construction fails exactly when every nested type among the first `k` is instantiable. */
  lemma {:induction false} NestedFaultNone(m: TypeAccessor, k: nat)
    requires k <= |m.properties|
    decreases m, 0, k
    ensures NestedFault(m, k).None? <==>
      forall i :: 0 <= i < k && m.properties[i].shape.NestedShape? ==> Instantiable(m.properties[i].shape.inner)
  {
    if k > 0 {
      NestedFaultNone(m, k - 1);
      var shape := m.properties[k - 1].shape;
      if shape.NestedShape? {
        FaultIffNotInstantiable(TypeName(shape.propertyType), shape.inner);
      }
    }
  }

  /** Once a nested construction has failed, the later accessors are not initialised. */
  lemma {:induction false} NestedFaultIsFinal(m: TypeAccessor, k: nat, n: nat)
    requires k <= n <= |m.properties| && NestedFault(m, k).Some?
    ensures NestedFault(m, n) == NestedFault(m, k)
    decreases n
  {
    if n > k {
      NestedFaultIsFinal(m, k, n - 1);
    }
  }

  /** `IPropertyAccessor<T>.InitializeValue(instance)` of the `k`-th accessor. */
  method InitializeValue(inst: Settings, k: nat) returns (fault: Option<Fault>)
    requires inst.ValidUpTo(k) && k < |inst.slots|
    modifies inst
    decreases inst.meta, 1
    ensures fault == InitializeFault(inst.meta, k)
    ensures old(inst.Repr) <= inst.Repr && fresh(inst.Repr - old(inst.Repr))
    ensures fault.None? ==> inst.ValidUpTo(k + 1)
  {
    match inst.meta.properties[k].shape {
      case ValueShape(_, _) =>
        ValuePropertyAccessor.InitializeValue(inst, k);
        fault := None;
      case CollectionShape(_, _, _) =>
        CollectionPropertyAccessor.InitializeValue(inst, k);
        fault := None;
      case NestedShape(_, _) =>
        fault := NestedInitializeValue(inst, k);
    }
  }

  /**
   * Nested `InitializeValue(instance)`: the property is set to `new TProperty()`,
   * a constructed and reset instance of the nested type, or the construction's
   * exception propagates.
   */
  method NestedInitializeValue(inst: Settings, k: nat) returns (fault: Option<Fault>)
    requires inst.ValidUpTo(k) && k < |inst.slots| && inst.meta.properties[k].shape.NestedShape?
    modifies inst
    decreases inst.meta, 0
    ensures fault == InitializeFault(inst.meta, k)
    ensures old(inst.Repr) <= inst.Repr && fresh(inst.Repr - old(inst.Repr))
    ensures fault.None? ==> inst.ValidUpTo(k + 1)
    ensures fault.None? ==>
      inst.slots[k].Nested? && fresh(inst.slots[k].obj) &&
      inst.slots[k].obj.Abstract() == DefaultState(inst.meta.properties[k].shape.inner.value)
  {
    var shape := inst.meta.properties[k].shape;
    var created := New(TypeName(shape.propertyType), shape.inner);
    if created.Failure? {
      return Some(created.error);
    }
    var c := created.value;
    inst.SetNested(k, c);
    fault := None;
  }

  // ---------------------------------------------------------------------
  // The JSON form of a nested instance

  /**
   * `ReadJson(JObject)`, `ToJson()` and `UpdateJson(JObject)` of a nested
   * instance, which this model does not define: each is given as a function of
   * the nested type's accessor and of the values the instance holds.
   */
  datatype JsonHooks = JsonHooks(
    readJson: (TypeAccessor, State, seq<JProperty>) -> State,
    toJson: (TypeAccessor, State) -> seq<JProperty>,
    updateJson: (TypeAccessor, State, seq<JProperty>) -> seq<JProperty>)

  /** Reading JSON into an instance leaves values of the instance's type. */
  ghost predicate ReadKeepsShape(hooks: JsonHooks) {
    forall meta, st, props :: Conforms(meta, st) ==> Conforms(meta, hooks.readJson(meta, st, props))
  }

  /**
   * Nested `FromJson(instance, token)`: the cast `(JObject)token`, then
   * `ReadJson` on the nested instance, which takes the values read in place:
   * the instance, its lists and its nested instances are the same objects afterwards.
   */
  method NestedFromJson(hooks: JsonHooks, inst: Settings, k: nat, token: JToken) returns (fault: Option<Fault>)
    requires inst.Valid() && k < |inst.slots| && inst.meta.properties[k].shape.NestedShape?
    requires ReadKeepsShape(hooks)
    modifies inst.GetValue(k).obj.Repr
    ensures inst.Valid() && inst.slots == old(inst.slots)
    ensures !token.JObject? ==> fault == Some(InvalidCast) && inst.Abstract() == old(inst.Abstract())
    ensures token.JObject? ==>
      fault == None &&
      inst.Abstract().fields == old(inst.Abstract().fields)[k :=
        NestedField(hooks.readJson(inst.meta.properties[k].shape.inner.value, old(inst.Abstract().fields[k].state), token.properties))]
  {
    if !token.JObject? {
      return Some(InvalidCast);
    }
    var c := inst.GetValue(k).obj;
    var st := hooks.readJson(c.meta, c.Abstract(), token.properties);
    LoadNested(inst, k, st);
    return None;
  }

  /**
   * The instance takes the values `st` in place: scalars are set, lists are
   * refilled, nested instances take their part of `st` the same way.
   */
  method LoadState(inst: Settings, st: State)
    requires inst.Valid() && Conforms(inst.meta, st)
    modifies inst.Repr
    decreases inst.Repr, 2
    ensures inst.Valid() && inst.Repr == old(inst.Repr) && inst.Nodes == old(inst.Nodes) && SameObjects(old(inst.slots), inst.slots)
    ensures inst.Abstract() == st
  {
    var k := 0;
    while k < |inst.slots|
      invariant k <= |inst.slots|
      invariant inst.Valid() && inst.Repr == old(inst.Repr) && inst.Nodes == old(inst.Nodes) && SameObjects(old(inst.slots), inst.slots)
      invariant forall j :: 0 <= j < k ==> inst.Abstract().fields[j] == st.fields[j]
    {
      LoadField(inst, k, st.fields[k]);
      k := k + 1;
    }
    assert inst.Abstract().fields == st.fields;
  }

  /** The `k`-th property takes the value `f` in place; the others keep theirs. */
  method LoadField(inst: Settings, k: nat, f: Field)
    requires inst.Valid() && k < |inst.slots| && FieldConforms(inst.meta.properties[k].shape, f)
    modifies inst.Repr
    decreases inst.Repr, 1
    ensures inst.Valid() && inst.Repr == old(inst.Repr) && inst.Nodes == old(inst.Nodes) && SameObjects(old(inst.slots), inst.slots)
    ensures inst.Abstract().fields == old(inst.Abstract().fields)[k := f]
  {
    match inst.meta.properties[k].shape {
      case ValueShape(_, _) =>
        inst.SetScalar(k, f.value);
      case CollectionShape(_, _, _) =>
        LoadList(inst, k, f.items);
      case NestedShape(_, _) =>
        assert inst.GetValue(k).obj.Repr <= inst.Repr;
        LoadNested(inst, k, f.state);
    }
  }

  /** The list of the `k`-th property is refilled with `items`. */
  method LoadList(inst: Settings, k: nat, items: seq<Value>)
    requires inst.Valid() && k < |inst.slots| && inst.meta.properties[k].shape.CollectionShape?
    modifies CollectionPropertyAccessor.ListOf(inst, k)
    ensures inst.Valid()
    ensures inst.Abstract().fields == old(inst.Abstract().fields)[k := ListField(items)]
  {
    CollectionPropertyAccessor.ListOf(inst, k).items := items;
  }

  /** The nested instance of the `k`-th property takes the values `st` in place. */
  method LoadNested(inst: Settings, k: nat, st: State)
    requires inst.Valid() && k < |inst.slots| && inst.meta.properties[k].shape.NestedShape?
    requires Conforms(inst.meta.properties[k].shape.inner.value, st)
    modifies inst.GetValue(k).obj.Repr
    decreases inst.Repr, 0
    ensures inst.Valid() && inst.slots == old(inst.slots)
    ensures inst.Abstract().fields == old(inst.Abstract().fields)[k := NestedField(st)]
  {
    ghost var was := inst.Abstract().fields;
    var c := inst.GetValue(k).obj;
    LoadState(c, st);
    forall j | 0 <= j < |inst.slots| && j != k
      ensures inst.OwnedBy(j) == old(inst.OwnedBy(j))
      ensures inst.SlotValid(j) && inst.FieldOf(j) == was[j]
    {
      assert old(inst.OwnedBy(j)) !! old(inst.OwnedBy(k));
    }
    assert inst.OwnedBy(k) == old(inst.OwnedBy(k));
    assert inst.ValidUpTo(|inst.slots|);
    UpdatedAt(was, inst.Abstract().fields, k, NestedField(st));
  }

  /**
   * Nested `UpdateJsonProperty(instance, jsonProperty)`: a JSON object already
   * there is updated from the nested instance; any other value is replaced by
   * the nested instance's `ToJson()`. The name stays.
   */
  function NestedUpdateJsonProperty(hooks: JsonHooks, inst: Settings, k: nat, jp: JProperty): (r: JProperty)
    requires inst.SlotValid(k) && inst.meta.properties[k].shape.NestedShape?
    reads inst, inst.OwnedBy(k)
    ensures r.name == jp.name && r.value.JObject?
    ensures var inner := inst.meta.properties[k].shape.inner.value;
      var st := inst.FieldOf(k).state;
      r.value.properties == if jp.value.JObject? then hooks.updateJson(inner, st, jp.value.properties) else hooks.toJson(inner, st)
  {
    var c := inst.GetValue(k).obj;
    match jp.value
    case JObject(props) => jp.(value := JObject(hooks.updateJson(c.meta, c.Abstract(), props)))
    case _ => jp.(value := JObject(hooks.toJson(c.meta, c.Abstract())))
  }

  // ---------------------------------------------------------------------
  // Properties of the folds

  /** `EquivalentTo` is reflexive and symmetric, as every `CompareValues` is. */
  lemma EquivalentToIsSymmetric(a: Settings, b: Settings)
    requires a.Valid() && b.Valid() && a.meta == b.meta
    ensures EquivalentTo(a, a)
    ensures EquivalentTo(a, b) <==> EquivalentTo(b, a)
  {
  }

  /**
   * A reset instance is equivalent to a newly constructed one: both hold the
   * default state, whatever the reset instance held before.
   */
  lemma ResetIsAsConstructed(reset: Settings, constructed: Settings)
    requires reset.Valid() && constructed.Valid() && reset.meta == constructed.meta
    requires reset.Abstract() == DefaultState(reset.meta) && constructed.Abstract() == DefaultState(constructed.meta)
    ensures EquivalentTo(reset, constructed)
  {
  }

  /**
   * For a type without nested properties, `target.AssignFrom(source)` with a
   * distinct source leaves the target equivalent to the source.
   */
  lemma AssignFromMakesEquivalent(target: Settings, source: Settings, before: State)
    requires target.Valid() && source.Valid() && target.meta == source.meta && !HasNested(target.meta)
    requires Conforms(target.meta, before)
    requires target.Abstract() == Assign(target.meta, before, source.Abstract(), false)
    ensures EquivalentTo(target, source)
  {
    AssignWithoutNestedCopies(target.meta, before, source.Abstract());
  }

  /** In a constructed instance no list or nested property is null. */
  lemma ConstructedHasNoNull(inst: Settings)
    requires inst.Valid()
    ensures forall j :: 0 <= j < |inst.slots| ==> !inst.slots[j].Unset?
  {
  }

  /**
   * Nested JSON round trip: when `ReadJson` restores what `ToJson` wrote, the
   * object a non-object JSON value is replaced by reads back to the nested values.
   */
  lemma NestedJsonRoundTrip(hooks: JsonHooks, inst: Settings, k: nat, jp: JProperty, current: State)
    requires inst.SlotValid(k) && inst.meta.properties[k].shape.NestedShape? && !jp.value.JObject?
    requires var inner := inst.meta.properties[k].shape.inner.value;
      var st := inst.FieldOf(k).state;
      hooks.readJson(inner, current, hooks.toJson(inner, st)) == st
    ensures var r := NestedUpdateJsonProperty(hooks, inst, k, jp);
      hooks.readJson(inst.meta.properties[k].shape.inner.value, current, r.value.properties) == inst.FieldOf(k).state
  {
  }
}
