/**
 * The per-type metadata of ConfOxide/MemberAccess/TypeAccessor.cs: the accessor
 * built for each supported property, the error report, the JSON-name index,
 * and the keyed PropertyCollection.
 *
 * `TypeAccessor<T>` is built once by its static constructor. The model states
 * that build as the function `TypeAccessorOf` and performs it with the loop
 * `BuildTypeAccessor`; a failed build stands for the static constructor
 * throwing. The accessor constructors (ValuePropertyAccessor.cs,
 * CollectionPropertyAccessor.cs, NestedPropertyAccessor.cs) are here because
 * a nested accessor's metadata embeds the nested type's own build.
 */
module Metadata {
  import opened Wrappers
  import opened Values
  import opened TypeExtensions
  import opened ScalarType
  import opened TypedPropertyAccessor

  /** The object `InitializeValue` of a collection property creates. */
  datatype ContainerKind =
    | NewList(element: TypeDesc)               // a List<E>, for an interface-typed property
    | NewInstance(collectionType: TypeDesc)    // the declared concrete collection type

  /** The three accessor classes, with what each one captures when it is built. */
  datatype Shape =
    | ValueShape(propertyType: TypeDesc, defaultValue: Value)
    | CollectionShape(propertyType: TypeDesc, element: TypeDesc, container: ContainerKind)
    | NestedShape(propertyType: TypeDesc, inner: Result<TypeAccessor, Fault>)   // `inner` is TypeAccessor<TProperty>

  /** An IPropertyAccessor<T>: its `Property`, its `JsonName` and its class. */
  datatype Accessor = Accessor(property: PropertyInfo, jsonName: string, shape: Shape)

  /**
   * TypeAccessor<T> once built: `Properties`, `jsonKeyMap` (from a JSON name to
   * the position of its accessor in `properties`) and `Error`.
   */
  datatype TypeAccessor = TypeAccessor(properties: seq<Accessor>, jsonKeyMap: map<string, nat>, error: Option<string>)

  const SealedMessage: string := "Concrete settings class must be sealed."

  function UnrecognizedMessage(p: PropertyInfo): string {
    "Property " + p.name + " is of unrecognized type " + TypeName(p.propertyType)
  }

  // ---------------------------------------------------------------------
  // The accessor constructors

  /**
   * `new ValuePropertyAccessor<T, TProperty>(property)`: the getter (base
   * constructor), then the public setter, then the default literal converted
   * once by Convert.ChangeType; without a literal the default is default(T).
   */
  function NewValueAccessor(rt: Runtime, p: PropertyInfo): (r: Result<Accessor, Fault>)
    ensures r.Success? <==>
      p.hasPublicGetter && p.setter == PublicSetter &&
      (p.defaultValue.Some? ==> rt.changeType(p.defaultValue.value, p.propertyType).Success?)
    ensures !p.hasPublicGetter || p.setter != PublicSetter ==> r == Failure(ArgumentNull)
    ensures r.Success? ==>
      r.value.property == p && r.value.jsonName == JsonNameOf(p) &&
      r.value.shape.ValueShape? && r.value.shape.propertyType == p.propertyType
    ensures r.Success? && p.defaultValue.None? ==> r.value.shape.defaultValue == Default(p.propertyType)
    ensures r.Success? && p.defaultValue.Some? ==>
      rt.changeType(p.defaultValue.value, p.propertyType) == Success(r.value.shape.defaultValue)
  {
    match NewTypedAccessor(p)
    case Failure(f) => Failure(f)
    case Success(jsonName) =>
      if p.setter != PublicSetter then Failure(ArgumentNull)    // GetSetMethod() is null
      else if p.defaultValue.None? then Success(Accessor(p, jsonName, ValueShape(p.propertyType, Default(p.propertyType))))
      else
        match rt.changeType(p.defaultValue.value, p.propertyType)
        case Failure(f) => Failure(f)
        case Success(v) => Success(Accessor(p, jsonName, ValueShape(p.propertyType, v)))
  }

  /**
   * `new CollectionPropertyAccessor<T, TCollection, E>(property)`: the getter,
   * then the creator (a List<E> for an interface, else TCollection's
   * parameterless constructor), then a call to the setter of any visibility
   * with the creator's result, which must fit the setter's parameter.
   */
  function NewCollectionAccessor(p: PropertyInfo, element: TypeDesc): (r: Result<Accessor, Fault>)
    ensures r.Success? <==>
      p.hasPublicGetter &&
      (IsInterface(p.propertyType) || (p.propertyType.Declared? && p.propertyType.decl.hasDefaultConstructor)) &&
      p.setter != NoSetter &&
      (IsInterface(p.propertyType) ==> p.propertyType == IListOf(element))
    ensures r.Success? ==>
      r.value.property == p && r.value.jsonName == JsonNameOf(p) &&
      r.value.shape == CollectionShape(p.propertyType, element,
        if IsInterface(p.propertyType) then NewList(element) else NewInstance(p.propertyType))
  {
    var t := p.propertyType;
    match NewTypedAccessor(p)
    case Failure(f) => Failure(f)
    case Success(jsonName) =>
      if !IsInterface(t) && !(t.Declared? && t.decl.hasDefaultConstructor) then Failure(MissingConstructor)
      else if p.setter == NoSetter then Failure(ArgumentNull)          // GetSetMethod(true) is null
      else if IsInterface(t) && t != IListOf(element) then Failure(ArgumentMismatch)   // a List<E> does not fit
      else
        var container := if IsInterface(t) then NewList(element) else NewInstance(t);
        Success(Accessor(p, jsonName, CollectionShape(t, element, container)))
  }

  /**
   * `new NestedPropertyAccessor<T, TProperty>(property)`: the getter, then
   * `Expression.New(TProperty)`, then a call to the public setter.
   * TypeAccessor<TProperty> is not touched here; it is embedded as `inner`.
   */
  function NewNestedAccessor(rt: Runtime, p: PropertyInfo): (r: Result<Accessor, Fault>)
    requires p.propertyType.Declared?
    decreases p, 0
    ensures r.Success? <==>
      p.hasPublicGetter && p.propertyType.decl.hasDefaultConstructor && p.setter == PublicSetter
    ensures r.Success? ==>
      r.value.property == p && r.value.jsonName == JsonNameOf(p) &&
      r.value.shape == NestedShape(p.propertyType, TypeAccessorOf(rt, p.propertyType.decl))
  {
    match NewTypedAccessor(p)
    case Failure(f) => Failure(f)
    case Success(jsonName) =>
      if !p.propertyType.decl.hasDefaultConstructor then Failure(MissingConstructor)
      else if p.setter != PublicSetter then Failure(ArgumentNull)     // GetSetMethod() is null
      else Success(Accessor(p, jsonName, NestedShape(p.propertyType, TypeAccessorOf(rt, p.propertyType.decl))))
  }

  // ---------------------------------------------------------------------
  // Classification of one property (one iteration of the static constructor)

  datatype Classified = Accepted(accessor: Accessor) | Rejected(message: string)

  /** The type implements IList<E>: the first test of the loop. */
  predicate ListBranch(p: PropertyInfo) {
    GetListElementType(p.propertyType).Some?
  }

  /** Not a list, and a settings type: the second test. */
  predicate SettingsBranch(p: PropertyInfo) {
    !ListBranch(p) && IsSettingsType(p.propertyType) == Success(true)
  }

  /** Neither of the above, and scalar: the third test. */
  predicate ScalarBranch(p: PropertyInfo) {
    !ListBranch(p) && IsSettingsType(p.propertyType) == Success(false) && IsScalarType(p.propertyType)
  }

  /** No test matched. */
  predicate UnrecognizedBranch(p: PropertyInfo) {
    !ListBranch(p) && IsSettingsType(p.propertyType) == Success(false) && !IsScalarType(p.propertyType)
  }

  /**
   * A list element type wins, then a settings type, then a scalar type; a
   * property matching none is reported. A fault of the predicates or of an
   * accessor constructor aborts the whole build.
   */
  function Classify(rt: Runtime, p: PropertyInfo): (r: Result<Classified, Fault>)
    decreases p, 1
    ensures ListBranch(p) ==>
      r == (match NewCollectionAccessor(p, GetListElementType(p.propertyType).value)
            case Success(a) => Success(Accepted(a))
            case Failure(f) => Failure(f))
    ensures !ListBranch(p) && IsSettingsType(p.propertyType).Failure? ==> r == Failure(NullReference)
    ensures SettingsBranch(p) ==> r.Success? ==> r.value.Accepted? && r.value.accessor.shape.NestedShape?
    ensures ScalarBranch(p) ==> r.Success? ==> r.value.Accepted? && r.value.accessor.shape.ValueShape?
    ensures UnrecognizedBranch(p) ==> r == Success(Rejected(UnrecognizedMessage(p)))
    ensures r.Success? && r.value.Accepted? ==>
      r.value.accessor.property == p && r.value.accessor.jsonName == JsonNameOf(p)
  {
    var t := p.propertyType;
    match GetListElementType(t)
    case Some(e) =>
      (match NewCollectionAccessor(p, e)
       case Success(a) => Success(Accepted(a))
       case Failure(f) => Failure(f))
    case None =>
      match IsSettingsType(t)
      case Failure(f) => Failure(f)
      case Success(isSettings) =>
        if isSettings then
          (match NewNestedAccessor(rt, p)
           case Success(a) => Success(Accepted(a))
           case Failure(f) => Failure(f))
        else if IsScalarType(t) then
          (match NewValueAccessor(rt, p)
           case Success(a) => Success(Accepted(a))
           case Failure(f) => Failure(f))
        else Success(Rejected(UnrecognizedMessage(p)))
  }

  /**
   * The scalar branch as the source is written: `Activator.CreateInstance(type,
   * prop)` searches public constructors only, and ValuePropertyAccessor's
   * constructor is internal, so the search fails before any of its checks run.
   */
  function ClassifyAsWritten(rt: Runtime, p: PropertyInfo): (r: Result<Classified, Fault>)
    ensures ScalarBranch(p) ==> r == Failure(MissingMethod)
    ensures !ScalarBranch(p) ==> r == Classify(rt, p)
  {
    var t := p.propertyType;
    if GetListElementType(t).None? && IsSettingsType(t) == Success(false) && IsScalarType(t) then Failure(MissingMethod)
    else Classify(rt, p)
  }

  // ---------------------------------------------------------------------
  // The static constructor

  /** The `props` and `errors` lists after some iterations of the loop. */
  datatype Collected = Collected(props: seq<Accessor>, errors: seq<string>)

  /** The loop of the static constructor over the first `k` properties. */
  function CollectFrom(rt: Runtime, d: TypeDecl, k: nat): Result<Collected, Fault>
    requires k <= |d.properties|
    decreases d, 1, k
  {
    if k == 0 then Success(Collected([], if d.isSealed then [] else [SealedMessage]))
    else
      match CollectFrom(rt, d, k - 1)
      case Failure(f) => Failure(f)
      case Success(c) =>
        match Classify(rt, d.properties[k - 1])
        case Failure(f) => Failure(f)
        case Success(Accepted(a)) => Success(Collected(c.props + [a], c.errors))
        case Success(Rejected(m)) => Success(Collected(c.props, c.errors + [m]))
  }

  /** `Properties.ToDictionary(p => p.JsonName)`, mapping to positions; a repeated key throws. */
  function KeyMap(props: seq<Accessor>): (r: Result<map<string, nat>, Fault>)
    decreases |props|
    ensures r.Failure? ==> r.error.DuplicateKey?
    ensures r.Success? ==> forall n :: n in r.value ==> r.value[n] < |props|
  {
    if |props| == 0 then Success(map[])
    else
      var last := props[|props| - 1];
      match KeyMap(props[..|props| - 1])
      case Failure(f) => Failure(f)
      case Success(m) =>
        if last.jsonName in m then Failure(DuplicateKey(last.jsonName))
        else Success(m[last.jsonName := |props| - 1])
  }

  /** `String.Join(sep, xs)`. */
  function Join(sep: string, xs: seq<string>): string
    decreases |xs|
  {
    if |xs| == 0 then ""
    else if |xs| == 1 then xs[0]
    else xs[0] + sep + Join(sep, xs[1..])
  }

  /** `Error`: the newline join of the messages, left null when there are none. */
  function ErrorOf(errors: seq<string>): (r: Option<string>)
    ensures r.None? <==> |errors| == 0
  {
    if |errors| > 0 then Some(Join("\n", errors)) else None
  }

  /**
   * TypeAccessor<T> for the class `d`, or the fault its initialisation throws.
   * The initialiser of `CreateInstance`, `Expression.New(typeof(T))`, runs
   * before the static constructor's body and fails without a parameterless
   * constructor.
   */
  function TypeAccessorOf(rt: Runtime, d: TypeDecl): Result<TypeAccessor, Fault>
    decreases d, 2
  {
    if !d.hasDefaultConstructor then Failure(MissingConstructor)
    else
    match CollectFrom(rt, d, |d.properties|)
    case Failure(f) => Failure(f)
    case Success(c) =>
      match KeyMap(c.props)
      case Failure(f) => Failure(f)
      case Success(keys) => Success(TypeAccessor(c.props, keys, ErrorOf(c.errors)))
  }

  /** The `CreateInstance` initialiser, then the static constructor, step by step. */
  method BuildTypeAccessor(rt: Runtime, d: TypeDecl) returns (r: Result<TypeAccessor, Fault>)
    ensures r == TypeAccessorOf(rt, d)
  {
    if !d.hasDefaultConstructor {
      return Failure(MissingConstructor);
    }
    var errors: seq<string> := [];
    if !d.isSealed {
      errors := [SealedMessage];
    }
    var props: seq<Accessor> := [];
    var k := 0;
    while k < |d.properties|
      invariant 0 <= k <= |d.properties|
      invariant CollectFrom(rt, d, k) == Success(Collected(props, errors))
    {
      var c := Classify(rt, d.properties[k]);
      if c.Failure? {
        FailureIsFinal(rt, d, k + 1, |d.properties|);
        return Failure(c.error);
      }
      match c.value {
        case Accepted(a) => props := props + [a];
        case Rejected(m) => errors := errors + [m];
      }
      k := k + 1;
    }
    var keys := KeyMap(props);
    if keys.Failure? {
      return Failure(keys.error);
    }
    r := Success(TypeAccessor(props, keys.value, ErrorOf(errors)));
  }

  /** `TryGetJsonProperty(jsonName, out value)`: the position of the accessor, if any. */
  function TryGetJsonProperty(meta: TypeAccessor, jsonName: string): (r: Option<nat>)
    ensures r.Some? <==> jsonName in meta.jsonKeyMap
  {
    if jsonName in meta.jsonKeyMap then Some(meta.jsonKeyMap[jsonName]) else None
  }

  // ---------------------------------------------------------------------
  // Properties of the build

  /** Once a property faults, the rest of the loop never runs. */
  lemma {:induction false} FailureIsFinal(rt: Runtime, d: TypeDecl, j: nat, k: nat)
    requires j <= k <= |d.properties|
    requires CollectFrom(rt, d, j).Failure?
    ensures CollectFrom(rt, d, k) == CollectFrom(rt, d, j)
    decreases k - j
  {
    if j < k {
      FailureIsFinal(rt, d, j, k - 1);
    }
  }

  /** No two accessors share a JSON name. */
  ghost predicate DistinctJsonNames(props: seq<Accessor>) {
    forall i, j :: 0 <= i < j < |props| ==> props[i].jsonName != props[j].jsonName
  }

  /** `m` maps every JSON name of `props` to its position, and nothing else. */
  ghost predicate IndexesJsonNames(m: map<string, nat>, props: seq<Accessor>) {
    (forall i :: 0 <= i < |props| ==> props[i].jsonName in m && m[props[i].jsonName] == i) &&
    (forall n :: n in m ==> m[n] < |props| && props[m[n]].jsonName == n)
  }

  /** ToDictionary succeeds exactly when the names are distinct, and then indexes them. */
  lemma {:induction false} KeyMapIndexes(props: seq<Accessor>)
    ensures KeyMap(props).Success? <==> DistinctJsonNames(props)
    ensures KeyMap(props).Success? ==> IndexesJsonNames(KeyMap(props).value, props)
    decreases |props|
  {
    if |props| > 0 {
      var front := props[..|props| - 1];
      var last := props[|props| - 1];
      KeyMapIndexes(front);
      match KeyMap(front)
      case Failure(_) =>
        assert !DistinctJsonNames(front);
        var i, j :| 0 <= i < j < |front| && front[i].jsonName == front[j].jsonName;
        assert props[i].jsonName == props[j].jsonName;
      case Success(m) =>
        if last.jsonName in m {
          var i := m[last.jsonName];
          assert props[i].jsonName == props[|props| - 1].jsonName;
        } else {
          forall i, j | 0 <= i < j < |props|
            ensures props[i].jsonName != props[j].jsonName
          {
            if j < |props| - 1 {
              assert props[i] == front[i] && props[j] == front[j];
            } else {
              assert props[i] == front[i];
            }
          }
          var m' := m[last.jsonName := |props| - 1];
          forall i | 0 <= i < |props|
            ensures props[i].jsonName in m' && m'[props[i].jsonName] == i
          {
            if i < |props| - 1 {
              assert props[i] == front[i];
            }
          }
        }
    }
  }

  /**
   * `TryGetJsonProperty(n)` succeeds exactly when `n` is the JSON name of an
   * accepted property, and then answers that property's accessor.
   */
  lemma TryGetJsonPropertyFinds(meta: TypeAccessor, n: string)
    requires KeyMap(meta.properties) == Success(meta.jsonKeyMap)
    ensures TryGetJsonProperty(meta, n).Some? <==> exists i :: 0 <= i < |meta.properties| && meta.properties[i].jsonName == n
    ensures TryGetJsonProperty(meta, n).Some? ==>
      TryGetJsonProperty(meta, n).value < |meta.properties| &&
      meta.properties[TryGetJsonProperty(meta, n).value].jsonName == n
  {
    KeyMapIndexes(meta.properties);
  }

  /**
   * The build fails exactly when the class has no parameterless constructor,
   * a property faults, or two accepted properties share a JSON name; the
   * first of these is the fault raised.
   */
  lemma BuildFailures(rt: Runtime, d: TypeDecl)
    ensures !d.hasDefaultConstructor ==> TypeAccessorOf(rt, d) == Failure(MissingConstructor)
    ensures d.hasDefaultConstructor && CollectFrom(rt, d, |d.properties|).Failure? ==>
      TypeAccessorOf(rt, d) == Failure(CollectFrom(rt, d, |d.properties|).error)
    ensures d.hasDefaultConstructor && CollectFrom(rt, d, |d.properties|).Success? ==>
      (TypeAccessorOf(rt, d).Success? <==> DistinctJsonNames(CollectFrom(rt, d, |d.properties|).value.props))
    ensures TypeAccessorOf(rt, d).Success? ==>
      d.hasDefaultConstructor && CollectFrom(rt, d, |d.properties|).Success? &&
      TypeAccessorOf(rt, d).value.properties == CollectFrom(rt, d, |d.properties|).value.props &&
      TypeAccessorOf(rt, d).value.error == ErrorOf(CollectFrom(rt, d, |d.properties|).value.errors)
    ensures TypeAccessorOf(rt, d).Success? ==>
      KeyMap(TypeAccessorOf(rt, d).value.properties) == Success(TypeAccessorOf(rt, d).value.jsonKeyMap)
  {
    if CollectFrom(rt, d, |d.properties|).Success? {
      KeyMapIndexes(CollectFrom(rt, d, |d.properties|).value.props);
    }
  }

  /**
   * `idx` picks, in increasing order, the properties of `ps` that were
   * accepted, and `props` holds exactly their accessors.
   */
  ghost predicate OrderedSelection(rt: Runtime, idx: seq<nat>, props: seq<Accessor>, ps: seq<PropertyInfo>) {
    |idx| == |props| &&
    (forall j :: 0 <= j < |idx| ==> idx[j] < |ps| && Classify(rt, ps[idx[j]]) == Success(Accepted(props[j]))) &&
    (forall j, j' :: 0 <= j < j' < |idx| ==> idx[j] < idx[j']) &&
    (forall i :: 0 <= i < |ps| && Classify(rt, ps[i]).Success? && Classify(rt, ps[i]).value.Accepted? ==> i in idx)
  }

  /**
   * The loop keeps the enumeration order of `GetProperties` and gives each
   * accepted property exactly one accessor.
   */
  lemma {:induction false} CollectKeepsOrder(rt: Runtime, d: TypeDecl, k: nat)
    requires k <= |d.properties| && CollectFrom(rt, d, k).Success?
    ensures exists idx :: OrderedSelection(rt, idx, CollectFrom(rt, d, k).value.props, d.properties[..k])
  {
    if k == 0 {
      var none: seq<nat> := [];
      assert OrderedSelection(rt, none, [], d.properties[..0]);
    } else {
      var prev := CollectFrom(rt, d, k - 1);
      assert prev.Success?;
      CollectKeepsOrder(rt, d, k - 1);
      var front := d.properties[..k - 1];
      var idx :| OrderedSelection(rt, idx, prev.value.props, front);
      var p := d.properties[k - 1];
      assert d.properties[..k] == front + [p];
      match Classify(rt, p).value
      case Accepted(a) =>
        SelectAccepted(rt, idx, prev.value.props, front, p, a);
      case Rejected(_) =>
        SelectRejected(rt, idx, prev.value.props, front, p);
    }
  }

  lemma SelectAccepted(rt: Runtime, idx: seq<nat>, props: seq<Accessor>, ps: seq<PropertyInfo>, p: PropertyInfo, a: Accessor)
    requires OrderedSelection(rt, idx, props, ps)
    requires Classify(rt, p) == Success(Accepted(a))
    ensures OrderedSelection(rt, idx + [|ps|], props + [a], ps + [p])
  {
    var ps' := ps + [p];
    var idx' := idx + [|ps|];
    forall i | 0 <= i < |ps'| && Classify(rt, ps'[i]).Success? && Classify(rt, ps'[i]).value.Accepted?
      ensures i in idx'
    {
      if i < |ps| {
        assert ps'[i] == ps[i];
        assert i in idx;
      } else {
        assert idx'[|idx|] == i;
      }
    }
    forall j | 0 <= j < |idx'|
      ensures idx'[j] < |ps'| && Classify(rt, ps'[idx'[j]]) == Success(Accepted((props + [a])[j]))
    {
      if j < |idx| {
        assert ps'[idx[j]] == ps[idx[j]];
      }
    }
  }

  lemma SelectRejected(rt: Runtime, idx: seq<nat>, props: seq<Accessor>, ps: seq<PropertyInfo>, p: PropertyInfo)
    requires OrderedSelection(rt, idx, props, ps)
    requires Classify(rt, p).Success? && Classify(rt, p).value.Rejected?
    ensures OrderedSelection(rt, idx, props, ps + [p])
  {
    var ps' := ps + [p];
    forall i | 0 <= i < |ps'| && Classify(rt, ps'[i]).Success? && Classify(rt, ps'[i]).value.Accepted?
      ensures i in idx
    {
      assert i < |ps|;
      assert ps'[i] == ps[i];
    }
    forall j | 0 <= j < |idx|
      ensures idx[j] < |ps'| && Classify(rt, ps'[idx[j]]) == Success(Accepted(props[j]))
    {
      assert ps'[idx[j]] == ps[idx[j]];
    }
  }

  /**
   * Each property of the loop is classified without a fault, and lands in
   * exactly one of the two lists.
   */
  lemma {:induction false} CollectCounts(rt: Runtime, d: TypeDecl, k: nat)
    requires k <= |d.properties| && CollectFrom(rt, d, k).Success?
    ensures forall i :: 0 <= i < k ==> Classify(rt, d.properties[i]).Success?
    ensures |CollectFrom(rt, d, k).value.props| + |CollectFrom(rt, d, k).value.errors| == k + (if d.isSealed then 0 else 1)
  {
    if k > 0 {
      CollectCounts(rt, d, k - 1);
    }
  }

  /**
   * The messages of the loop are never empty, and a class that is not sealed
   * has the sealed message first.
   */
  lemma {:induction false} CollectMessages(rt: Runtime, d: TypeDecl, k: nat)
    requires k <= |d.properties| && CollectFrom(rt, d, k).Success?
    ensures !d.isSealed ==> |CollectFrom(rt, d, k).value.errors| > 0 && CollectFrom(rt, d, k).value.errors[0] == SealedMessage
    ensures forall m :: m in CollectFrom(rt, d, k).value.errors ==> m != ""
  {
    if k > 0 {
      CollectMessages(rt, d, k - 1);
      var prev := CollectFrom(rt, d, k - 1).value;
      var p := d.properties[k - 1];
      match Classify(rt, p).value {
        case Accepted(a) =>
        case Rejected(m) =>
          assert m == UnrecognizedMessage(p) && m[0] == 'P';
          assert CollectFrom(rt, d, k).value.errors == prev.errors + [m];
      }
    }
  }

  /** No message is collected exactly when the class is sealed and every property is accepted. */
  lemma {:induction false} CollectNoMessages(rt: Runtime, d: TypeDecl, k: nat)
    requires k <= |d.properties| && CollectFrom(rt, d, k).Success?
    ensures forall i :: 0 <= i < k ==> Classify(rt, d.properties[i]).Success?
    ensures |CollectFrom(rt, d, k).value.errors| == 0 <==>
      d.isSealed && forall i :: 0 <= i < k ==> Classify(rt, d.properties[i]).value.Accepted?
  {
    if k > 0 {
      CollectNoMessages(rt, d, k - 1);
    }
  }

  /** Properties never outnumber the properties of the class. */
  lemma PropertiesAtMostDeclared(rt: Runtime, d: TypeDecl)
    requires TypeAccessorOf(rt, d).Success?
    ensures |TypeAccessorOf(rt, d).value.properties| <= |d.properties|
  {
    CollectCounts(rt, d, |d.properties|);
    CollectMessages(rt, d, |d.properties|);
  }

  /**
   * `Error` is null exactly when the class is sealed and every property was
   * accepted; a non-sealed class always reports the sealed message first.
   */
  lemma ErrorReportsRejections(rt: Runtime, d: TypeDecl)
    requires TypeAccessorOf(rt, d).Success?
    ensures forall i :: 0 <= i < |d.properties| ==> Classify(rt, d.properties[i]).Success?
    ensures TypeAccessorOf(rt, d).value.error.None? <==>
      d.isSealed && forall i :: 0 <= i < |d.properties| ==> Classify(rt, d.properties[i]).value.Accepted?
    ensures !d.isSealed ==>
      TypeAccessorOf(rt, d).value.error.Some? && SealedMessage <= TypeAccessorOf(rt, d).value.error.value
    ensures TypeAccessorOf(rt, d).value.error.Some? ==> TypeAccessorOf(rt, d).value.error.value != ""
  {
    var c := CollectFrom(rt, d, |d.properties|).value;
    CollectMessages(rt, d, |d.properties|);
    CollectNoMessages(rt, d, |d.properties|);
    if |c.errors| > 0 {
      assert c.errors[0] in c.errors;
      JoinStartsWithFirst("\n", c.errors);
    }
  }

  /** The join starts with the first message. */
  lemma JoinStartsWithFirst(sep: string, xs: seq<string>)
    requires |xs| > 0
    ensures xs[0] <= Join(sep, xs)
    ensures xs[0] != "" ==> Join(sep, xs) != ""
  {
    if |xs| > 1 {
      assert Join(sep, xs) == xs[0] + (sep + Join(sep, xs[1..]));
    }
  }

  /** A list element type is taken as it is: even IList<object> gets a collection accessor. */
  lemma ListElementNotChecked(rt: Runtime, p: PropertyInfo, e: TypeDesc)
    requires p.propertyType == IListOf(e) && p.hasPublicGetter && p.setter != NoSetter
    ensures Classify(rt, p) == Success(Accepted(Accessor(p, JsonNameOf(p), CollectionShape(IListOf(e), e, NewList(e)))))
  {
  }

  /** A settings type is recognised before the scalar test, and a list before both. */
  lemma ListWinsOverSettingsType(rt: Runtime, p: PropertyInfo)
    requires p.propertyType.Declared? && p.propertyType.decl.listElement.Some?
    requires IsSettingsType(p.propertyType) == Success(true)
    ensures Classify(rt, p).Success? ==> Classify(rt, p).value.accessor.shape.CollectionShape?
  {
  }

  // ---------------------------------------------------------------------
  // The defect in the scalar branch

  /**
   * As written, a settings class with any scalar property cannot be built,
   * although the corrected branch accepts the same property.
   */
  lemma ScalarPropertyFailsAsWritten(rt: Runtime)
    ensures ClassifyAsWritten(rt, ScalarProbe()) == Failure(MissingMethod)
    ensures Classify(rt, ScalarProbe()).Success? && Classify(rt, ScalarProbe()).value.Accepted?
  {
  }

  /** `public int Count { get; set; }` */
  function ScalarProbe(): PropertyInfo {
    PropertyInfo("Count", Primitive(Int32), true, PublicSetter, None, None, None)
  }

  // ---------------------------------------------------------------------
  // PropertyCollection<T>: a KeyedCollection keyed by the property's name

  /**
   * The items in order and, once KeyedCollection has created it, the
   * dictionary from key to item.
   */
  datatype PropertyCollection = PropertyCollection(items: seq<Accessor>, dictionary: Option<map<string, Accessor>>)

  /** `GetKeyForItem`. */
  function KeyOf(a: Accessor): string {
    a.property.name
  }

  /**
   * What KeyedCollection maintains: keys are unique, and the dictionary, when
   * present, maps each key to the item carrying it.
   */
  ghost predicate KeyedValid(c: PropertyCollection) {
    (forall i, j :: 0 <= i < j < |c.items| ==> KeyOf(c.items[i]) != KeyOf(c.items[j])) &&
    (c.dictionary.Some? ==>
      (forall k :: k in c.dictionary.value ==> c.dictionary.value[k] in c.items && KeyOf(c.dictionary.value[k]) == k) &&
      (forall i :: 0 <= i < |c.items| ==> KeyOf(c.items[i]) in c.dictionary.value))
  }

  /** `this.FirstOrDefault(v => v.Property.Name == key)`. */
  function FirstWithKey(items: seq<Accessor>, key: string): (r: Option<Accessor>)
    ensures r.Some? ==> r.value in items && KeyOf(r.value) == key
    ensures r.None? ==> forall i :: 0 <= i < |items| ==> KeyOf(items[i]) != key
  {
    if |items| == 0 then None
    else if KeyOf(items[0]) == key then Some(items[0])
    else FirstWithKey(items[1..], key)
  }

  /** `PropertyCollection.TryGetValue`. */
  function TryGetValue(c: PropertyCollection, key: string): (r: Option<Accessor>)
    ensures KeyedValid(c) && r.Some? ==> r.value in c.items && KeyOf(r.value) == key
    ensures KeyedValid(c) && r.None? ==> forall i :: 0 <= i < |c.items| ==> KeyOf(c.items[i]) != key
  {
    if c.dictionary.Some? then
      if key in c.dictionary.value then Some(c.dictionary.value[key]) else None
    else FirstWithKey(c.items, key)
  }

  /** The dictionary and the linear search give the same answer. */
  lemma TryGetValueAgrees(c: PropertyCollection, key: string)
    requires KeyedValid(c)
    ensures TryGetValue(c, key) == FirstWithKey(c.items, key)
  {
    if c.dictionary.Some? {
      var d := c.dictionary.value;
      var f := FirstWithKey(c.items, key);
      if key in d {
        var i :| 0 <= i < |c.items| && c.items[i] == d[key];
        assert f.Some?;
        var j :| 0 <= j < |c.items| && c.items[j] == f.value;
        assert i == j;
      }
    }
  }
}
