/**
 * The operations of ConfOxide/MemberAccess/CollectionPropertyAccessor.cs: a
 * property holding a list of scalars, which every operation after
 * `InitializeValue` empties and refills in place.
 */
module CollectionPropertyAccessor {
  import opened Wrappers
  import opened Values
  import opened TypeExtensions
  import opened Json
  import opened Metadata
  import ScalarType
  import opened Semantics
  import opened Instances

  /** The `k`-th accessor of the type of `inst` is a CollectionPropertyAccessor. */
  ghost predicate IsCollectionProperty(inst: Settings, k: nat)
    reads inst, inst.Nodes
  {
    inst.Valid() && k < |inst.meta.properties| && inst.meta.properties[k].shape.CollectionShape?
  }

  /** The list object of the `k`-th property. */
  function ListOf(inst: Settings, k: nat): ListObj
    requires k < |inst.slots| && inst.slots[k].Coll?
    reads inst
  {
    inst.GetValue(k).list
  }

  // ---------------------------------------------------------------------
  // The JSON form of a list

  /** What reading the elements of a JSON array leaves in the list, and the fault that stopped it. */
  datatype Decoded = Decoded(values: seq<Value>, fault: Option<Fault>)

  /**
   * The elements decoded one by one, in order, each through the initialisation
   * of ScalarType<E>, the cast `(JValue)item` and the codec, up to the first
   * that fails.
   */
  function DecodeItems(rt: ScalarType.Runtime, t: TypeDesc, items: seq<JToken>): (d: Decoded)
    ensures |d.values| <= |items|
    ensures d.fault.None? ==> |d.values| == |items|
    ensures !ScalarType.CodecBuilds(t) && |items| > 0 ==> d == Decoded([], Some(ScalarType.CodecFault(t)))
  {
    if |items| == 0 then Decoded([], None)
    else
      var prefix := DecodeItems(rt, t, items[..|items| - 1]);
      var last := items[|items| - 1];
      if prefix.fault.Some? then prefix
      else if !ScalarType.CodecBuilds(t) then Decoded(prefix.values, Some(ScalarType.CodecFault(t)))
      else if !IsJValue(last) then Decoded(prefix.values, Some(InvalidCast))
      else match ScalarType.FromJson(rt, t, last)
        case Success(v) => Decoded(prefix.values + [v], None)
        case Failure(f) => Decoded(prefix.values, Some(f))
  }

  /** Each element of the list through the codec, in order. */
  function EncodeItems(rt: ScalarType.Runtime, t: TypeDesc, vs: seq<Value>): (items: seq<JToken>)
    ensures |items| == |vs|
    ensures forall i :: 0 <= i < |vs| ==> items[i] == ScalarType.ToJson(rt, t, vs[i])
  {
    seq(|vs|, i requires 0 <= i < |vs| => ScalarType.ToJson(rt, t, vs[i]))
  }

  // ---------------------------------------------------------------------
  // The operations

  /**
   * `InitializeValue`: the property is set to a new, empty container: a
   * List<E> for an interface-typed property, else the declared collection class.
   */
  method InitializeValue(inst: Settings, k: nat)
    requires inst.ValidUpTo(k) && k < |inst.slots| && inst.meta.properties[k].shape.CollectionShape?
    modifies inst
    ensures inst.ValidUpTo(k + 1)
    ensures inst.slots[k].Coll? && fresh(inst.slots[k].list)
    ensures inst.slots[k].list.items == [] && inst.slots[k].list.container == inst.meta.properties[k].shape.container
    ensures inst.slots == old(inst.slots)[k := inst.slots[k]]
    ensures inst.Repr == old(inst.Repr) + {inst.slots[k].list} && inst.Nodes == old(inst.Nodes)
  {
    var l := new ListObj(inst.meta.properties[k].shape.container);
    inst.slots := inst.slots[k := Coll(l)];
    inst.Repr := inst.Repr + {l};
  }

  /** `ResetValue`: the list is cleared; it is still the same list. */
  method ResetValue(inst: Settings, k: nat)
    requires IsCollectionProperty(inst, k)
    modifies ListOf(inst, k)
    ensures inst.Valid()
    ensures inst.Abstract().fields == old(inst.Abstract().fields)[k := DefaultField(inst.meta.properties[k].shape)]
  {
    ListOf(inst, k).Clear();
  }

  /**
   * `Copy(source, target)`: the list of `target` is cleared, then every element of the
   * list of `source` is added to it, in order. When `source` and `target` are one
   * instance the list is read after it was cleared, so it ends up empty.
   */
  method Copy(k: nat, source: Settings, target: Settings)
    requires IsCollectionProperty(target, k) && source.Valid() && source.meta == target.meta
    requires source == target || source.Repr !! target.Repr
    modifies ListOf(target, k)
    ensures target.Valid()
    ensures target.Abstract().fields ==
      old(target.Abstract().fields)[k := ListField(if source == target then [] else old(source.Abstract().fields[k].items))]
    ensures source != target ==> source.Abstract() == old(source.Abstract())
  {
    ghost var was := target.Abstract().fields;
    ghost var copied := if source == target then [] else ListOf(source, k).items;
    assert source != target ==> old(source.Abstract().fields[k]) == ListField(copied);
    var dest := ListOf(target, k);
    dest.Clear();
    var src := ListOf(source, k);
    assert source != target ==> src != dest;
    AddAll(src, dest);
    assert dest.items == copied;
    ghost var now := target.Abstract().fields;
    forall j | 0 <= j < |now| && j != k
      ensures now[j] == was[j]
    {
      assert dest !in old(target.OwnedBy(j));
      assert target.FieldOf(j) == old(target.FieldOf(j));
    }
    UpdatedAt(was, now, k, ListField(dest.items));
  }

  /**
   * The loop of `Copy`: every element of `src` is added to `dest`, in order.
   * When the two are one list it must be empty, as `Copy` has just cleared it.
   */
  method AddAll(src: ListObj, dest: ListObj)
    requires src == dest ==> dest.items == []
    modifies dest
    ensures dest.items == old(dest.items) + old(src.items)
    ensures src != dest ==> src.items == old(src.items)
  {
    var i := 0;
    while i < |src.items|
      invariant i <= |src.items|
      invariant src != dest ==> src.items == old(src.items)
      invariant src == dest ==> dest.items == []
      invariant dest.items == old(dest.items) + src.items[..i]
    {
      dest.Add(src.items[i]);
      i := i + 1;
    }
    assert src.items[..i] == src.items;
  }

  /** `CompareValues(x, y)`: the two lists have the same length and equal elements in order. */
  function CompareValues(k: nat, x: Settings, y: Settings): (r: bool)
    requires x.SlotValid(k) && y.SlotValid(k) && x.meta == y.meta
    requires x.meta.properties[k].shape.CollectionShape?
    reads x, y, x.OwnedBy(k), y.OwnedBy(k)
    ensures r <==> x.FieldOf(k) == y.FieldOf(k)
  {
    ListOf(x, k).items == ListOf(y, k).items
  }

  /**
   * `FromJson(instance, token)`: the list is cleared, then the token is cast
   * to a JSON array and each element, cast to a JSON value and decoded, is
   * added in order. A fault stops the loop and leaves what was added so far.
   */
  method FromJson(rt: ScalarType.Runtime, inst: Settings, k: nat, token: JToken) returns (fault: Option<Fault>)
    requires IsCollectionProperty(inst, k)
    modifies ListOf(inst, k)
    ensures inst.Valid()
    ensures var d := if token.JArray? then DecodeItems(rt, inst.meta.properties[k].shape.element, token.items)
                     else Decoded([], Some(InvalidCast));
      fault == d.fault && inst.Abstract().fields == old(inst.Abstract().fields)[k := ListField(d.values)]
  {
    ghost var was := inst.Abstract().fields;
    var dest := ListOf(inst, k);
    dest.Clear();
    if !token.JArray? {
      fault := Some(InvalidCast);
    } else {
      fault := AddDecoded(rt, inst.meta.properties[k].shape.element, token.items, dest);
    }
    ghost var now := inst.Abstract().fields;
    forall j | 0 <= j < |now| && j != k
      ensures now[j] == was[j]
    {
      assert dest !in old(inst.OwnedBy(j));
      assert inst.FieldOf(j) == old(inst.FieldOf(j));
    }
    UpdatedAt(was, now, k, ListField(dest.items));
  }

  /**
   * The loop of `FromJson`: each element, cast to a JSON value and decoded, is
   * added to the emptied list, up to the first fault.
   */
  method AddDecoded(rt: ScalarType.Runtime, t: TypeDesc, items: seq<JToken>, dest: ListObj) returns (fault: Option<Fault>)
    requires dest.items == []
    modifies dest
    ensures Decoded(dest.items, fault) == DecodeItems(rt, t, items)
  {
    var i := 0;
    fault := None;
    while i < |items|
      invariant i <= |items|
      invariant DecodeItems(rt, t, items[..i]) == Decoded(dest.items, None)
    {
      var item := items[i];
      assert items[..i + 1][..i] == items[..i];
      if !ScalarType.CodecBuilds(t) {
        fault := Some(ScalarType.CodecFault(t));
        break;
      }
      if !IsJValue(item) {
        fault := Some(InvalidCast);
        break;
      }
      match ScalarType.FromJson(rt, t, item) {
        case Failure(f) =>
          fault := Some(f);
          break;
        case Success(v) =>
          dest.Add(v);
      }
      i := i + 1;
    }
    if fault.Some? {
      FaultIsFinal(rt, t, items, i + 1);
    } else {
      assert items[..i] == items;
    }
  }

  /**
   * `UpdateJsonProperty(instance, jsonProperty)`: a JSON array already there
   * is cleared, anything else is replaced by a new array; then each element
   * of the list is encoded and appended in order. Encoding the first element
   * initialises ScalarType<E>; when that fails the property is left holding
   * the empty array and the fault is raised.
   */
  method UpdateJsonProperty(rt: ScalarType.Runtime, inst: Settings, k: nat, jp: JProperty) returns (r: JProperty, fault: Option<Fault>)
    requires inst.SlotValid(k) && inst.meta.properties[k].shape.CollectionShape?
    ensures r.name == jp.name
    ensures var t := inst.meta.properties[k].shape.element;
      fault.Some? <==> |inst.FieldOf(k).items| > 0 && !ScalarType.CodecBuilds(t)
    ensures fault.Some? ==>
      fault == Some(ScalarType.CodecFault(inst.meta.properties[k].shape.element)) && r.value == JArray([])
    ensures fault.None? ==>
      r.value == JArray(EncodeItems(rt, inst.meta.properties[k].shape.element, inst.FieldOf(k).items))
  {
    var t := inst.meta.properties[k].shape.element;
    var vs := ListOf(inst, k).items;
    var arr: seq<JToken> := [];
    fault := None;
    var i := 0;
    while i < |vs|
      invariant i <= |vs|
      invariant i > 0 ==> ScalarType.CodecBuilds(t)
      invariant arr == EncodeItems(rt, t, vs[..i])
    {
      if !ScalarType.CodecBuilds(t) {
        fault := Some(ScalarType.CodecFault(t));
        break;
      }
      arr := arr + [ScalarType.ToJson(rt, t, vs[i])];
      i := i + 1;
    }
    if fault.None? {
      assert vs[..i] == vs;
    }
    r := jp.(value := JArray(arr));
  }

  // ---------------------------------------------------------------------
  // Properties

  /** Decoding an array whose elements all decode loses nothing: the values in order. */
  lemma {:induction false} DecodeEncoded(rt: ScalarType.Runtime, t: TypeDesc, vs: seq<Value>)
    requires forall i :: 0 <= i < |vs| ==> ScalarType.RoundTrips(rt, t, vs[i])
    ensures DecodeItems(rt, t, EncodeItems(rt, t, vs)) == Decoded(vs, None)
  {
    if |vs| > 0 {
      var items := EncodeItems(rt, t, vs);
      var front := vs[..|vs| - 1];
      assert items[..|items| - 1] == EncodeItems(rt, t, front);
      DecodeEncoded(rt, t, front);
      assert ScalarType.RoundTrips(rt, t, vs[|vs| - 1]);
      assert front + [vs[|vs| - 1]] == vs;
    }
  }

  /**
   * When the codec reads back each element, reading the property from the
   * JSON written for it reproduces an equal list.
   */
  lemma JsonRoundTrip(rt: ScalarType.Runtime, inst: Settings, k: nat, jp: JProperty)
    requires inst.SlotValid(k) && inst.meta.properties[k].shape.CollectionShape?
    requires forall i :: 0 <= i < |inst.FieldOf(k).items| ==>
      ScalarType.RoundTrips(rt, inst.meta.properties[k].shape.element, inst.FieldOf(k).items[i])
    ensures DecodeItems(rt, inst.meta.properties[k].shape.element,
      JArray(EncodeItems(rt, inst.meta.properties[k].shape.element, inst.FieldOf(k).items)).items)
      == Decoded(inst.FieldOf(k).items, None)
  {
    DecodeEncoded(rt, inst.meta.properties[k].shape.element, inst.FieldOf(k).items);
  }

  /** Once an element fails to decode, the later elements are not read. */
  lemma {:induction false} FaultIsFinal(rt: ScalarType.Runtime, t: TypeDesc, items: seq<JToken>, n: nat)
    requires n <= |items| && DecodeItems(rt, t, items[..n]).fault.Some?
    ensures DecodeItems(rt, t, items) == DecodeItems(rt, t, items[..n])
    decreases |items|
  {
    if n < |items| {
      var front := items[..|items| - 1];
      assert front[..n] == items[..n];
      FaultIsFinal(rt, t, front, n);
    } else {
      assert items[..n] == items;
    }
  }

  /** The decoded values are a prefix of the array's elements, decoded one by one. */
  lemma {:induction false} DecodedArePrefix(rt: ScalarType.Runtime, t: TypeDesc, items: seq<JToken>)
    ensures var d := DecodeItems(rt, t, items);
      forall i :: 0 <= i < |d.values| ==>
        ScalarType.CodecBuilds(t) && IsJValue(items[i]) && ScalarType.FromJson(rt, t, items[i]) == Success(d.values[i])
  {
    if |items| > 0 {
      var front := items[..|items| - 1];
      DecodedArePrefix(rt, t, front);
      var d := DecodeItems(rt, t, items);
      var p := DecodeItems(rt, t, front);
      forall i | 0 <= i < |d.values|
        ensures ScalarType.CodecBuilds(t) && IsJValue(items[i]) && ScalarType.FromJson(rt, t, items[i]) == Success(d.values[i])
      {
        if i < |p.values| {
          assert items[i] == front[i];
          assert d.values[i] == p.values[i];
        }
      }
    }
  }

  /** A list of nullable enums without values round-trips whatever the runtime does. */
  lemma NullEnumListRoundTrips(rt: ScalarType.Runtime, n: string, vs: seq<Value>)
    requires forall i :: 0 <= i < |vs| ==> vs[i] == Null
    ensures DecodeItems(rt, NullableOf(EnumType(n)), EncodeItems(rt, NullableOf(EnumType(n)), vs)) == Decoded(vs, None)
  {
    ScalarType.NullEnumRoundTrips(rt, n);
    DecodeEncoded(rt, NullableOf(EnumType(n)), vs);
  }

  /**
   * A list of enum values round-trips when each value's name is read back as
   * a string and parses to the value.
   */
  lemma EnumListRoundTrips(rt: ScalarType.Runtime, n: string, vs: seq<Value>)
    requires forall i :: 0 <= i < |vs| ==>
      rt.castToken(JValue(EnumType(n), Text(rt.enumName(vs[i]))), StringType) == Success(Text(rt.enumName(vs[i]))) &&
      rt.parseEnum(EnumType(n), rt.enumName(vs[i])) == Success(vs[i])
    ensures DecodeItems(rt, EnumType(n), EncodeItems(rt, EnumType(n), vs)) == Decoded(vs, None)
  {
    forall i | 0 <= i < |vs|
      ensures ScalarType.RoundTrips(rt, EnumType(n), vs[i])
    {
      ScalarType.EnumRoundTrips(rt, n, vs[i]);
    }
    DecodeEncoded(rt, EnumType(n), vs);
  }
}
