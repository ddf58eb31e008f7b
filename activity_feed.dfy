/** The landing feed's alias remapping. The activities query renames some
    resource fields (`entryFundersCount`, `entryDescription`, `rewardName`,
    `rewardProject`); the remapping copies them back under the generated
    types' names, on a shallow copy of each resource. Records are modelled as
    JavaScript objects: finite maps from keys to values, where reading a
    missing key gives `undefined` and assigning `undefined` creates the key. */
module ActivityFeed {

  datatype JsValue =
    | Undefined
    | Null
    | Bool(b: bool)
    | Num(n: int)
    | Str(s: string)
    | Obj(fields: map<string, JsValue>)
    | Arr(items: seq<JsValue>)

  type JsObject = map<string, JsValue>

  const EntryTypename := "Entry"
  const RewardTypename := "ProjectReward"
  /** The key the remapping reads the entry description from. */
  const DescriptionKeyAsWritten := "entrydescription"
  /** The alias the query gives the entry description. */
  const DescriptionAlias := "entryDescription"

  /** Property read: `o[key]`, `undefined` when the key is missing. */
  function Get(o: JsObject, key: string): (v: JsValue)
    ensures key !in o ==> v == Undefined
    ensures key in o ==> v == o[key]
  {
    if key in o then o[key] else Undefined
  }

  /** The own keys an object spread copies: an object's fields; nothing for
      `undefined` or `null`. */
  function Spread(v: JsValue): (o: JsObject)
    ensures v.Obj? ==> o == v.fields
    ensures v == Undefined || v == Null ==> o == map[]
  {
    if v.Obj? then v.fields else map[]
  }

  /** The remapping of one resource copy, reading the entry description from
      `descriptionKey`. */
  function RemapResource(resource: JsObject, descriptionKey: string): (r: JsObject)
    ensures Get(resource, "__typename") == Str(EntryTypename) ==>
      && r.Keys == resource.Keys + {"fundersCount", "description"}
      && r["fundersCount"] == Get(resource, "entryFundersCount")
      && (descriptionKey != "fundersCount" ==> r["description"] == Get(resource, descriptionKey))
      && forall k :: k in resource && k != "fundersCount" && k != "description" ==> r[k] == resource[k]
    ensures Get(resource, "__typename") == Str(RewardTypename) ==>
      && r.Keys == resource.Keys + {"name", "project"}
      && r["name"] == Get(resource, "rewardName")
      && r["project"] == Get(resource, "rewardProject")
      && forall k :: k in resource && k != "name" && k != "project" ==> r[k] == resource[k]
    ensures Get(resource, "__typename") != Str(EntryTypename) && Get(resource, "__typename") != Str(RewardTypename) ==>
      r == resource
  {
    var afterEntry :=
      if Get(resource, "__typename") == Str(EntryTypename) then
        var withCount := resource["fundersCount" := Get(resource, "entryFundersCount")];
        withCount["description" := Get(withCount, descriptionKey)]
      else resource;
    if Get(afterEntry, "__typename") == Str(RewardTypename) then
      var withName := afterEntry["name" := Get(afterEntry, "rewardName")];
      withName["project" := Get(withName, "rewardProject")]
    else afterEntry
  }

  /** `{ ...activity, resource: newResource }` */
  function RemapActivity(activity: JsObject, descriptionKey: string): (a: JsObject)
    ensures a.Keys == activity.Keys + {"resource"}
    ensures forall k :: k in activity && k != "resource" ==> a[k] == activity[k]
    ensures a["resource"] == Obj(RemapResource(Spread(Get(activity, "resource")), descriptionKey))
  {
    activity["resource" := Obj(RemapResource(Spread(Get(activity, "resource")), descriptionKey))]
  }

  /** The remapping as written: the description is read from `entrydescription`. */
  function MapAliasedActivityProperties(rawActivities: seq<JsObject>): (r: seq<JsObject>)
    ensures |r| == |rawActivities|
    ensures forall i :: 0 <= i < |r| ==> r[i] == RemapActivity(rawActivities[i], DescriptionKeyAsWritten)
  {
    seq(|rawActivities|, i requires 0 <= i < |rawActivities| => RemapActivity(rawActivities[i], DescriptionKeyAsWritten))
  }

  /** The remapping as evidently intended: the description is read from the
      query's alias `entryDescription`. */
  function MapAliasedActivityPropertiesIntended(rawActivities: seq<JsObject>): (r: seq<JsObject>)
    ensures |r| == |rawActivities|
    ensures forall i :: 0 <= i < |r| ==> r[i] == RemapActivity(rawActivities[i], DescriptionAlias)
  {
    seq(|rawActivities|, i requires 0 <= i < |rawActivities| => RemapActivity(rawActivities[i], DescriptionAlias))
  }

  /** Remapping a resource a second time changes nothing, for a description
      key that is none of the keys the remapping writes. */
  lemma RemapResourceIdempotent(resource: JsObject, descriptionKey: string)
    requires descriptionKey !in {"__typename", "fundersCount", "description", "name", "project"}
    ensures RemapResource(RemapResource(resource, descriptionKey), descriptionKey) == RemapResource(resource, descriptionKey)
  {
    var once := RemapResource(resource, descriptionKey);
    var twice := RemapResource(once, descriptionKey);
    assert Get(once, "__typename") == Get(resource, "__typename");
    assert twice.Keys == once.Keys;
    forall k | k in once ensures twice[k] == once[k] {
    }
  }

  /** Applying the remapping twice gives the same list as applying it once. */
  lemma MapAliasedActivityPropertiesIdempotent(rawActivities: seq<JsObject>)
    ensures MapAliasedActivityProperties(MapAliasedActivityProperties(rawActivities)) == MapAliasedActivityProperties(rawActivities)
  {
    var once := MapAliasedActivityProperties(rawActivities);
    var twice := MapAliasedActivityProperties(once);
    forall i | 0 <= i < |once| ensures twice[i] == once[i] {
      var res := RemapResource(Spread(Get(rawActivities[i], "resource")), DescriptionKeyAsWritten);
      RemapResourceIdempotent(Spread(Get(rawActivities[i], "resource")), DescriptionKeyAsWritten);
      assert Spread(Get(once[i], "resource")) == res;
    }
  }

  /** The intended remapping is idempotent as well. */
  lemma MapAliasedActivityPropertiesIntendedIdempotent(rawActivities: seq<JsObject>)
    ensures MapAliasedActivityPropertiesIntended(MapAliasedActivityPropertiesIntended(rawActivities))
      == MapAliasedActivityPropertiesIntended(rawActivities)
  {
    var once := MapAliasedActivityPropertiesIntended(rawActivities);
    var twice := MapAliasedActivityPropertiesIntended(once);
    forall i | 0 <= i < |once| ensures twice[i] == once[i] {
      var res := RemapResource(Spread(Get(rawActivities[i], "resource")), DescriptionAlias);
      RemapResourceIdempotent(Spread(Get(rawActivities[i], "resource")), DescriptionAlias);
      assert Spread(Get(once[i], "resource")) == res;
    }
  }

  /** An entry as the query returns it: its description arrives under the
      alias, and the remapping as written sets `description` to `undefined`,
      while the intended remapping carries the text over. */
  lemma EntryDescriptionIsLost()
    ensures var entry := map["__typename" := Str(EntryTypename), "entryDescription" := Str("First update"), "entryFundersCount" := Num(3)];
      var raw := [map["id" := Num(1), "resource" := Obj(entry)]];
      && MapAliasedActivityProperties(raw)[0]["resource"].fields["description"] == Undefined
      && MapAliasedActivityPropertiesIntended(raw)[0]["resource"].fields["description"] == Str("First update")
      && MapAliasedActivityProperties(raw)[0]["resource"].fields["fundersCount"] == Num(3)
  {
    var entry := map["__typename" := Str(EntryTypename), "entryDescription" := Str("First update"), "entryFundersCount" := Num(3)];
    assert DescriptionKeyAsWritten !in entry;
  }
}
