/**
 * The shared base of every accessor (ConfOxide/MemberAccess/TypedPropertyAccessor.cs):
 * the JSON name a property is written under, and the getter the base
 * constructor binds.
 */
module TypedPropertyAccessor {
  import opened Wrappers
  import opened Values
  import opened TypeExtensions

  predicate NonEmpty(name: Option<string>) {
    name.Some? && name.value != ""
  }

  /** The name from [JsonProperty], else from [DataMember], if either is non-empty. */
  function GetJsonName(p: PropertyInfo): (r: Option<string>)
    ensures r.Some? ==> r.value != ""
    ensures r.None? <==> !NonEmpty(p.jsonPropertyName) && !NonEmpty(p.dataMemberName)
    ensures r.Some? ==> r == p.jsonPropertyName || r == p.dataMemberName
  {
    if NonEmpty(p.jsonPropertyName) then p.jsonPropertyName
    else if NonEmpty(p.dataMemberName) then p.dataMemberName
    else None
  }

  /** `GetJsonName(property) ?? property.Name`. */
  function JsonNameOf(p: PropertyInfo): string {
    GetJsonName(p).GetOr(p.name)
  }

  /**
   * The base constructor: it binds the public getter (a property without one
   * makes `Delegate.CreateDelegate` throw) and fixes the JSON name.
   */
  function NewTypedAccessor(p: PropertyInfo): (r: Result<string, Fault>)
    ensures r.Success? <==> p.hasPublicGetter
    ensures r.Success? ==> r.value == JsonNameOf(p)
  {
    if !p.hasPublicGetter then Failure(ArgumentNull)
    else Success(JsonNameOf(p))
  }

  // ---------------------------------------------------------------------
  // Precedence of the JSON name

  /** A non-empty [JsonProperty] name wins over everything else. */
  lemma JsonPropertyNameWins(p: PropertyInfo)
    requires NonEmpty(p.jsonPropertyName)
    ensures JsonNameOf(p) == p.jsonPropertyName.value
  {
  }

  /** A [DataMember] name counts only without a usable [JsonProperty] name, and only when non-empty. */
  lemma DataMemberNameSecond(p: PropertyInfo)
    requires !NonEmpty(p.jsonPropertyName)
    ensures NonEmpty(p.dataMemberName) ==> JsonNameOf(p) == p.dataMemberName.value
    ensures !NonEmpty(p.dataMemberName) ==> JsonNameOf(p) == p.name
  {
  }

  /** The JSON name is always one of the three candidates. */
  lemma JsonNameIsACandidate(p: PropertyInfo)
    ensures JsonNameOf(p) == p.name || Some(JsonNameOf(p)) == p.jsonPropertyName || Some(JsonNameOf(p)) == p.dataMemberName
  {
  }
}
