/**
 * The operations of ConfOxide/MemberAccess/ValuePropertyAccessor.cs on a
 * settings instance. The accessor is the `k`-th one of the instance's type;
 * its setter writes the property's slot and its getter reads it.
 */
module ValuePropertyAccessor {
  import opened Wrappers
  import opened Values
  import opened Json
  import opened Metadata
  import ScalarType
  import opened Semantics
  import opened Instances

  /** The `k`-th accessor of the type of `inst` is a ValuePropertyAccessor. */
  ghost predicate IsValueProperty(inst: Settings, k: nat)
    reads inst, inst.Nodes
  {
    inst.Valid() && k < |inst.meta.properties| && inst.meta.properties[k].shape.ValueShape?
  }

  /**
   * `Copy(source, target)`: the setter of `target` receives the getter of `source`. Only
   * that field of `target` changes, to the value `source` holds; `source` is left alone.
   */
  method Copy(k: nat, source: Settings, target: Settings)
    requires IsValueProperty(target, k) && source.Valid() && source.meta == target.meta
    requires source == target || source.Repr !! target.Repr
    modifies target
    ensures target.Valid() && target.Repr == old(target.Repr) && target.Nodes == old(target.Nodes) && SameObjects(old(target.slots), target.slots)
    ensures target.Abstract().fields == old(target.Abstract().fields)[k := old(source.Abstract().fields[k])]
    ensures source != target ==> source.Abstract() == old(source.Abstract())
  {
    target.SetScalar(k, source.GetValue(k).v);
  }

  /** `ResetValue`: the setter receives the default captured when the accessor was built. */
  method ResetValue(inst: Settings, k: nat)
    requires IsValueProperty(inst, k)
    modifies inst
    ensures inst.Valid() && inst.Repr == old(inst.Repr) && inst.Nodes == old(inst.Nodes) && SameObjects(old(inst.slots), inst.slots)
    ensures inst.Abstract().fields == old(inst.Abstract().fields)[k := DefaultField(inst.meta.properties[k].shape)]
  {
    inst.SetScalar(k, inst.meta.properties[k].shape.defaultValue);
  }

  /** `CompareValues(x, y)`: `==` on the two values of the property. */
  function CompareValues(k: nat, x: Settings, y: Settings): (r: bool)
    requires x.SlotValid(k) && y.SlotValid(k) && x.meta == y.meta
    requires x.meta.properties[k].shape.ValueShape?
    reads x, y
    ensures r <==> x.FieldOf(k) == y.FieldOf(k)
  {
    x.GetValue(k).v == y.GetValue(k).v
  }

  /**
   * `FromJson(instance, token)`: ScalarType<TProperty> is initialised, then the
   * cast `(JValue)token`, then the codec's reading of it, then the setter. A
   * fault of any of them leaves the field as it was.
   */
  method FromJson(rt: ScalarType.Runtime, inst: Settings, k: nat, token: JToken) returns (fault: Option<Fault>)
    requires IsValueProperty(inst, k)
    modifies inst
    ensures inst.Valid() && inst.Repr == old(inst.Repr) && inst.Nodes == old(inst.Nodes) && SameObjects(old(inst.slots), inst.slots)
    ensures var t := inst.meta.properties[k].shape.propertyType;
      if !ScalarType.CodecBuilds(t) then fault == Some(ScalarType.CodecFault(t)) && inst.Abstract() == old(inst.Abstract())
      else if !IsJValue(token) then fault == Some(InvalidCast) && inst.Abstract() == old(inst.Abstract())
      else match ScalarType.FromJson(rt, t, token)
        case Failure(f) => fault == Some(f) && inst.Abstract() == old(inst.Abstract())
        case Success(v) => fault == None && inst.Abstract().fields == old(inst.Abstract().fields)[k := ScalarField(v)]
  {
    var t := inst.meta.properties[k].shape.propertyType;
    if !ScalarType.CodecBuilds(t) {
      return Some(ScalarType.CodecFault(t));
    }
    if !IsJValue(token) {
      return Some(InvalidCast);
    }
    var decoded := ScalarType.FromJson(rt, t, token);
    match decoded {
      case Failure(f) =>
        return Some(f);
      case Success(v) =>
        inst.SetScalar(k, v);
        return None;
    }
  }

  /**
   * `UpdateJsonProperty(instance, jsonProperty)`: the property's value becomes
   * the encoding of the field; its name stays. When ScalarType<TProperty>
   * cannot be initialised the JSON property is left alone and the fault raised.
   */
  function UpdateJsonProperty(rt: ScalarType.Runtime, inst: Settings, k: nat, jp: JProperty): (r: Result<JProperty, Fault>)
    requires inst.SlotValid(k) && inst.meta.properties[k].shape.ValueShape?
    reads inst
    ensures var t := inst.meta.properties[k].shape.propertyType;
      r.Failure? <==> !ScalarType.CodecBuilds(t)
    ensures r.Failure? ==> r.error == ScalarType.CodecFault(inst.meta.properties[k].shape.propertyType)
    ensures r.Success? ==>
      r.value.name == jp.name && IsJValue(r.value.value) &&
      r.value.value == ScalarType.ToJson(rt, inst.meta.properties[k].shape.propertyType, inst.FieldOf(k).value)
  {
    var t := inst.meta.properties[k].shape.propertyType;
    if !ScalarType.CodecBuilds(t) then Failure(ScalarType.CodecFault(t))
    else Success(jp.(value := ScalarType.ToJson(rt, t, inst.GetValue(k).v)))
  }

  /** `InitializeValue`: nothing to do, the field already holds a value. */
  method InitializeValue(inst: Settings, k: nat)
    requires inst.ValidUpTo(k) && k < |inst.slots| && inst.meta.properties[k].shape.ValueShape?
    ensures inst.ValidUpTo(k + 1)
  {
  }

  // ---------------------------------------------------------------------
  // Properties

  /**
   * When the codec reads back what it writes for a type, reading a property
   * from the JSON it was written to restores the field.
   */
  lemma JsonRoundTrip(rt: ScalarType.Runtime, inst: Settings, k: nat, jp: JProperty)
    requires inst.SlotValid(k) && inst.meta.properties[k].shape.ValueShape?
    requires ScalarType.RoundTrips(rt, inst.meta.properties[k].shape.propertyType, inst.FieldOf(k).value)
    ensures UpdateJsonProperty(rt, inst, k, jp).Success?
    ensures ScalarType.FromJson(rt, inst.meta.properties[k].shape.propertyType, UpdateJsonProperty(rt, inst, k, jp).value.value)
      == Success(inst.FieldOf(k).value)
  {
  }
}
