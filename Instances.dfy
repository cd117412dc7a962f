/**
 * Settings instances on the heap. A settings object holds one slot per
 * accessor of its TypeAccessor: a scalar value, a list object, or a nested
 * settings object. Lists and nested objects are references, so the
 * accessors can reuse them in place, and the model can state that they do.
 */
module Instances {
  import opened Wrappers
  import opened Values
  import opened TypeExtensions
  import opened Metadata
  import opened Semantics

  /** A List<E>, or an instance of the declared collection class, holding scalar values. */
  class ListObj {
    const container: ContainerKind
    var items: seq<Value>

    constructor (container: ContainerKind)
      ensures this.container == container && items == []
    {
      this.container := container;
      items := [];
    }

    /** `IList<E>.Clear()`. */
    method Clear()
      modifies this
      ensures items == []
    {
      items := [];
    }

    /** `ICollection<E>.Add(item)`. */
    method Add(item: Value)
      modifies this
      ensures items == old(items) + [item]
    {
      items := items + [item];
    }
  }

  /** What a property of a settings object refers to. */
  datatype Slot =
    | Scalar(v: Value)
    | Coll(list: ListObj)
    | Nested(obj: Settings)
    | Unset                       // a reference-typed property that still holds null

  /** The objects a slot owns: its list, or everything its nested instance owns. */
  ghost function Owned(s: Slot): set<object>
    reads if s.Nested? then {s.obj} else {}
  {
    match s
    case Coll(l) => {l}
    case Nested(c) => {c} + c.Repr + c.Nodes
    case _ => {}
  }

  /**
   * The slot suits the accessor's class: before `InitializeValue` a list or
   * nested property is null, afterwards it holds an object of the right kind.
   */
  predicate SlotFits(shape: Shape, s: Slot, initialized: bool) {
    match shape
    case ValueShape(_, _) => s.Scalar?
    case CollectionShape(_, _, container) =>
      if initialized then s.Coll? && s.list.container == container else s.Unset?
    case NestedShape(_, inner) =>
      if initialized then s.Nested? && inner.Success? && s.obj.meta == inner.value else s.Unset?
  }

  /** The slots of a newly allocated object: default(T) for scalars, null for the rest. */
  function InitialSlots(meta: TypeAccessor): (slots: seq<Slot>)
    ensures |slots| == |meta.properties|
    ensures forall j :: 0 <= j < |slots| ==> SlotFits(meta.properties[j].shape, slots[j], false)
  {
    seq(|meta.properties|, j requires 0 <= j < |meta.properties| =>
      match meta.properties[j].shape
      case ValueShape(t, _) => Scalar(ScalarType.Default(t))
      case _ => Unset)
  }

  /**
   * The slots after an operation refer to the same lists and nested instances
   * as before: only scalars may have been replaced.
   */
  ghost predicate SameObjects(before: seq<Slot>, after: seq<Slot>) {
    |after| == |before| &&
    forall j :: 0 <= j < |before| && !before[j].Scalar? ==> after[j] == before[j]
  }

  /** Two instances of one type hold the same values when each property does. */
  lemma SameAbstract(x: Settings, y: Settings)
    requires x.Valid() && y.Valid() && x.meta == y.meta
    ensures (forall j :: 0 <= j < |x.slots| ==> x.FieldOf(j) == y.FieldOf(j)) ==> x.Abstract() == y.Abstract()
    ensures x.Abstract() == y.Abstract() ==> forall j :: 0 <= j < |x.slots| ==> x.FieldOf(j) == y.FieldOf(j)
  {
    var a, b := x.Abstract(), y.Abstract();
    if forall j :: 0 <= j < |x.slots| ==> x.FieldOf(j) == y.FieldOf(j) {
      assert a.fields == b.fields by {
        forall j | 0 <= j < |a.fields|
          ensures a.fields[j] == b.fields[j]
        {
          assert a.fields[j] == x.FieldOf(j) && b.fields[j] == y.FieldOf(j);
        }
      }
      assert a == b;
    }
    if a == b {
      forall j | 0 <= j < |x.slots|
        ensures x.FieldOf(j) == y.FieldOf(j)
      {
        assert a.fields[j] == b.fields[j];
      }
    }
  }

  /** Two states that agree everywhere but at `k`, where the second holds `f`. */
  lemma UpdatedAt(was: seq<Field>, now: seq<Field>, k: nat, f: Field)
    requires |now| == |was| && k < |now| && now[k] == f
    requires forall j :: 0 <= j < |now| && j != k ==> now[j] == was[j]
    ensures now == was[k := f]
  {
  }

  /** An instance of the settings class whose TypeAccessor is `meta`. */
  class Settings {
    const meta: TypeAccessor
    var slots: seq<Slot>
    ghost var Repr: set<object>
    ghost var Nodes: set<Settings>   // this instance and its nested instances, at every depth

    /**
     * The first `k` properties are initialised and the rest are as the
     * allocation left them; owned objects are disjoint between properties and
     * every nested instance is itself valid.
     */
    ghost predicate ValidUpTo(k: nat)
      reads this, Nodes
      decreases Repr, 0
    {
      this in Nodes && Nodes <= Repr &&
      k <= |slots| == |meta.properties| &&
      (forall j :: 0 <= j < |slots| ==> SlotFits(meta.properties[j].shape, slots[j], j < k)) &&
      (forall j :: 0 <= j < |slots| && slots[j].Coll? ==> slots[j].list in Repr) &&
      (forall j :: 0 <= j < |slots| && slots[j].Nested? ==>
        slots[j].obj in Nodes && slots[j].obj.Nodes <= Nodes && slots[j].obj.Repr <= Repr &&
        this !in slots[j].obj.Repr &&
        slots[j].obj.ValidUpTo(|slots[j].obj.slots|)) &&
      (forall j, j' :: 0 <= j < j' < |slots| ==> Owned(slots[j]) !! Owned(slots[j']))
    }

    /** A fully constructed instance. */
    ghost predicate Valid()
      reads this, Nodes
    {
      ValidUpTo(|slots|)
    }

    /** The objects the `j`-th property owns. */
    ghost function OwnedBy(j: nat): set<object>
      reads this, if j < |slots| && slots[j].Nested? then {slots[j].obj} else {}
    {
      if j < |slots| then Owned(slots[j]) else {}
    }

    /** The `j`-th property fits its accessor and a nested instance is valid. */
    ghost predicate SlotValid(j: nat)
      reads this, OwnedBy(j)
    {
      j < |slots| == |meta.properties| &&
      SlotFits(meta.properties[j].shape, slots[j], true) &&
      (slots[j].Nested? ==> slots[j].obj.Valid())
    }

    /** The value the `j`-th property holds; it depends on nothing but what the property owns. */
    function FieldOf(j: nat): (f: Field)
      requires SlotValid(j)
      reads this, OwnedBy(j)
      decreases OwnedBy(j), 4
      ensures FieldConforms(meta.properties[j].shape, f)
    {
      match slots[j]
      case Scalar(v) => ScalarField(v)
      case Coll(l) => ListField(l.items)
      case Nested(c) => NestedField(c.Abstract())
    }

    /** The values of the instance, at every depth. */
    function Abstract(): (st: State)
      requires Valid()
      reads this, Repr
      decreases Repr, 3
      ensures Conforms(meta, st)
      ensures forall j :: 0 <= j < |slots| ==> st.fields[j] == FieldOf(j)
    {
      State(seq(|slots|, j requires 0 <= j < |slots| && Valid() reads this, Repr, Nodes => FieldOf(j)))
    }

    /** A newly allocated object, before the SettingsBase constructor body runs. */
    constructor (meta: TypeAccessor)
      ensures this.meta == meta && slots == InitialSlots(meta)
      ensures Repr == {this} && Nodes == {this} && ValidUpTo(0)
    {
      this.meta := meta;
      slots := InitialSlots(meta);
      Repr := {this};
      Nodes := {this};
    }

    /**
     * `TypedPropertyAccessor.GetValue`: a read of the property, which changes
     * nothing; in a valid instance it is an object of the accessor's kind.
     */
    function GetValue(j: nat): (s: Slot)
      requires j < |slots|
      reads this
      ensures s == slots[j]
      ensures Valid() ==> SlotFits(meta.properties[j].shape, s, true)
    {
      slots[j]
    }

    /**
     * The setter of a nested property, as `InitializeValue` calls it with a
     * newly constructed instance that shares nothing with this one.
     */
    method SetNested(j: nat, c: Settings)
      requires ValidUpTo(j) && j < |slots| && slots[j].Unset?
      requires meta.properties[j].shape.NestedShape? && meta.properties[j].shape.inner == Success(c.meta)
      requires c.Valid() && c.Repr !! Repr
      modifies this
      ensures ValidUpTo(j + 1) && Repr == old(Repr) + c.Repr && Nodes == old(Nodes) + c.Nodes
      ensures slots == old(slots)[j := Nested(c)]
    {
      slots := slots[j := Nested(c)];
      Repr := Repr + c.Repr;
      Nodes := Nodes + c.Nodes;
      forall i | 0 <= i < |slots| && i != j
        ensures slots[i] == old(slots[i]) && Owned(slots[i]) == old(Owned(slots[i])) && Owned(slots[i]) <= old(Repr)
        ensures slots[i].Nested? ==> this !in slots[i].obj.Nodes && slots[i].obj.ValidUpTo(|slots[i].obj.slots|)
      {
        if slots[i].Nested? {
          assert old(slots[i].obj.ValidUpTo(|slots[i].obj.slots|));
        }
      }
      assert this !in c.Repr && c in c.Repr && c.Nodes <= c.Repr;
      assert Owned(slots[j]) <= c.Repr;
      assert forall i, i' :: 0 <= i < i' < |slots| ==> Owned(slots[i]) !! Owned(slots[i']);
      assert forall i :: 0 <= i < |slots| ==> SlotFits(meta.properties[i].shape, slots[i], i < j + 1);
      assert ValidUpTo(j + 1);
    }

    /** The setter of a scalar property. */
    method SetScalar(j: nat, v: Value)
      requires Valid() && j < |slots| && slots[j].Scalar?
      modifies this
      ensures Valid() && Repr == old(Repr) && Nodes == old(Nodes)
      ensures slots == old(slots)[j := Scalar(v)]
      ensures Abstract().fields == old(Abstract().fields)[j := ScalarField(v)]
    {
      slots := slots[j := Scalar(v)];
      assert ValidUpTo(|slots|) by {
        forall i | 0 <= i < |slots| && slots[i].Nested?
          ensures slots[i] == old(slots[i]) && this !in slots[i].obj.Nodes
          ensures slots[i].obj.ValidUpTo(|slots[i].obj.slots|)
        {
          assert old(slots[i].obj.ValidUpTo(|slots[i].obj.slots|));
        }
      }
    }
  }
}
