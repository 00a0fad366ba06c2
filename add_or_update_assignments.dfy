/** `add_or_update_assignments`: resolve each requested smart-group name to an
    id, split the resolved groups into those already assigned to the latest app
    version (updated with PUT) and the others (added with POST), and send one
    request per non-empty list. */
module AddOrUpdateAssignments {
  import opened Basics
  import opened Decimal
  import opened Helper

  /** One element of a smart-group search reply's `SmartGroups` array. */
  datatype SmartGroupMatch = SmartGroupMatch(smartGroupId: int, name: string)

  /** A reply to `GET /API/mdm/smartgroups/search?name=...`: its status code and
      the parsed `SmartGroups` array. */
  datatype SearchReply = SearchReply(code: int, smartGroups: seq<SmartGroupMatch>)

  /** The id `find_smart_group_id` gives a name it could not resolve. */
  const UNRESOLVED := -1

  const ASSIGNMENT_SUFFIX := "/assignments"

  function NoAppError(appIdentifier: string): string
  {
    "No app found on the console having bundle identifier: " + appIdentifier
  }

  /** A requested smart group: the name as given and the id it resolved to. */
  datatype Group = Group(name: string, id: int)

  /** The id a search reply resolves to: -1 when the reply is not 200 (the
      details are then an empty hash) or lists no group, and otherwise the id
      of the LAST group listed. */
  function ResolvedId(reply: SearchReply): int
  {
    if reply.code != 200 || reply.smartGroups == [] then UNRESOLVED
    else reply.smartGroups[|reply.smartGroups| - 1].smartGroupId
  }

  /** `find_smart_group_id` with `fetch_smart_group_details`: the id is
      overwritten by every group of the reply, so the last one wins. */
  method FindSmartGroupId(reply: SearchReply) returns (smartGroupId: int)
    ensures reply.code != 200 ==> smartGroupId == UNRESOLVED
    ensures reply.code == 200 && reply.smartGroups == [] ==> smartGroupId == UNRESOLVED
    ensures reply.code == 200 && reply.smartGroups != [] ==>
              smartGroupId == reply.smartGroups[|reply.smartGroups| - 1].smartGroupId
    ensures smartGroupId == ResolvedId(reply)
  {
    smartGroupId := UNRESOLVED;
    if reply.code != 200 {
      return;
    }
    var data := reply.smartGroups;
    var i := 0;
    while i < |data|
      invariant 0 <= i <= |data|
      invariant i == 0 ==> smartGroupId == UNRESOLVED
      invariant i > 0 ==> smartGroupId == data[i - 1].smartGroupId
    {
      smartGroupId := data[i].smartGroupId;
      i := i + 1;
    }
  }

  /** Each requested name with the id its search resolved to; `lookup(name)` is
      the console's reply to the search for `name`. */
  function Resolve(names: seq<string>, lookup: string -> SearchReply): (r: seq<Group>)
    ensures |r| == |names|
  {
    seq(|names|, i requires 0 <= i < |names| => Group(names[i], ResolvedId(lookup(names[i]))))
  }

  /** `app_smart_groups.map { |g| g.values[0] }`: the ids already assigned. */
  function AssignedIds(refs: seq<SmartGroupRef>): (r: seq<int>)
    ensures |r| == |refs|
  {
    seq(|refs|, i requires 0 <= i < |refs| => refs[i].id)
  }

  /** The resolved groups already assigned, in request order. */
  function ToUpdate(groups: seq<Group>, existing: seq<int>): seq<Group>
  {
    if groups == [] then []
    else
      var g := groups[|groups| - 1];
      ToUpdate(groups[..|groups| - 1], existing) + (if g.id != UNRESOLVED && g.id in existing then [g] else [])
  }

  /** The resolved groups not yet assigned, in request order. */
  function ToAdd(groups: seq<Group>, existing: seq<int>): seq<Group>
  {
    if groups == [] then []
    else
      var g := groups[|groups| - 1];
      ToAdd(groups[..|groups| - 1], existing) + (if g.id != UNRESOLVED && g.id !in existing then [g] else [])
  }

  function GroupIds(gs: seq<Group>): (r: seq<int>)
    ensures |r| == |gs|
  {
    seq(|gs|, i requires 0 <= i < |gs| => gs[i].id)
  }

  function GroupNames(gs: seq<Group>): (r: seq<string>)
    ensures |r| == |gs|
  {
    seq(|gs|, i requires 0 <= i < |gs| => gs[i].name)
  }

  /** Every resolved group lands in exactly one of the two lists, as often as it
      was requested; an unresolved one (-1) lands in neither. A group is in the
      update list only if its id is assigned, in the add list only if it is not. */
  lemma {:induction false} PartitionExact(groups: seq<Group>, existing: seq<int>, g: Group)
    ensures multiset(ToUpdate(groups, existing))[g] + multiset(ToAdd(groups, existing))[g]
         == (if g.id == UNRESOLVED then 0 else multiset(groups)[g])
    ensures g in ToUpdate(groups, existing) ==> g in groups && g.id != UNRESOLVED && g.id in existing
    ensures g in ToAdd(groups, existing) ==> g in groups && g.id != UNRESOLVED && g.id !in existing
  {
    if groups != [] {
      var init, last := groups[..|groups| - 1], groups[|groups| - 1];
      assert groups == init + [last];
      PartitionExact(init, existing, g);
    }
  }

  /** The partition loop of `run` (lines 61-77): four arrays filled in request
      order, the id and name lists of each kind kept parallel. */
  method Partition(names: seq<string>, lookup: string -> SearchReply, appSmartGroups: seq<SmartGroupRef>)
    returns (updateIds: seq<int>, updateNames: seq<string>, addIds: seq<int>, addNames: seq<string>)
    ensures var update := ToUpdate(Resolve(names, lookup), AssignedIds(appSmartGroups));
            updateIds == GroupIds(update) && updateNames == GroupNames(update)
    ensures var add := ToAdd(Resolve(names, lookup), AssignedIds(appSmartGroups));
            addIds == GroupIds(add) && addNames == GroupNames(add)
  {
    updateIds, updateNames, addIds, addNames := [], [], [], [];
    ghost var groups := Resolve(names, lookup);
    var existing := AssignedIds(appSmartGroups);
    var i := 0;
    while i < |names|
      invariant 0 <= i <= |names|
      invariant updateIds == GroupIds(ToUpdate(groups[..i], existing))
      invariant updateNames == GroupNames(ToUpdate(groups[..i], existing))
      invariant addIds == GroupIds(ToAdd(groups[..i], existing))
      invariant addNames == GroupNames(ToAdd(groups[..i], existing))
    {
      var smartGroup := names[i];
      var smartGroupId := FindSmartGroupId(lookup(smartGroup));
      PartitionStep(groups, existing, i);
      if smartGroupId == UNRESOLVED {
        // skipped with a warning
      } else if smartGroupId in existing {
        updateIds := updateIds + [smartGroupId];
        updateNames := updateNames + [smartGroup];
      } else {
        addIds := addIds + [smartGroupId];
        addNames := addNames + [smartGroup];
      }
      i := i + 1;
    }
    assert groups[..i] == groups;
  }

  /** How one more requested group extends the update and add lists and their
      id and name projections. */
  lemma PartitionStep(groups: seq<Group>, existing: seq<int>, i: int)
    requires 0 <= i < |groups|
    ensures var g, upd, add := groups[i], ToUpdate(groups[..i], existing), ToAdd(groups[..i], existing);
            && (g.id != UNRESOLVED && g.id in existing ==>
                  GroupIds(ToUpdate(groups[..i + 1], existing)) == GroupIds(upd) + [g.id]
                  && GroupNames(ToUpdate(groups[..i + 1], existing)) == GroupNames(upd) + [g.name]
                  && ToAdd(groups[..i + 1], existing) == add)
            && (g.id != UNRESOLVED && g.id !in existing ==>
                  GroupIds(ToAdd(groups[..i + 1], existing)) == GroupIds(add) + [g.id]
                  && GroupNames(ToAdd(groups[..i + 1], existing)) == GroupNames(add) + [g.name]
                  && ToUpdate(groups[..i + 1], existing) == upd)
            && (g.id == UNRESOLVED ==> ToUpdate(groups[..i + 1], existing) == upd && ToAdd(groups[..i + 1], existing) == add)
  {
    assert groups[..i + 1][..i] == groups[..i];
    ProjectionsAppend(ToUpdate(groups[..i], existing), groups[i]);
    ProjectionsAppend(ToAdd(groups[..i], existing), groups[i]);
  }

  lemma ProjectionsAppend(gs: seq<Group>, g: Group)
    ensures GroupIds(gs + [g]) == GroupIds(gs) + [g.id]
    ensures GroupNames(gs + [g]) == GroupNames(gs) + [g.name]
  {
    assert forall k :: 0 <= k < |gs| ==> (gs + [g])[k] == gs[k];
  }

  /** Each id/name pair of either list is one requested name together with the
      id its own search resolved to. */
  lemma PairsAreResolutions(names: seq<string>, lookup: string -> SearchReply, existing: seq<int>, k: int)
    ensures var update := ToUpdate(Resolve(names, lookup), existing);
            0 <= k < |update| ==>
              update[k].name in names && update[k].id == ResolvedId(lookup(update[k].name)) && update[k].id != UNRESOLVED
    ensures var add := ToAdd(Resolve(names, lookup), existing);
            0 <= k < |add| ==>
              add[k].name in names && add[k].id == ResolvedId(lookup(add[k].name)) && add[k].id != UNRESOLVED
  {
    var groups := Resolve(names, lookup);
    var update, add := ToUpdate(groups, existing), ToAdd(groups, existing);
    if 0 <= k < |update| {
      PartitionExact(groups, existing, update[k]);
      var j :| 0 <= j < |groups| && groups[j] == update[k];
    }
    if 0 <= k < |add| {
      PartitionExact(groups, existing, add[k]);
      var j :| 0 <= j < |groups| && groups[j] == add[k];
    }
  }

  /** `find_app_smart_groups`: a listing reply other than 200, or an empty
      listing, is a user error; otherwise the LAST version of the listing gives
      the app id (`$app_id_int`) and its assigned smart groups. */
  function FindAppSmartGroups(listing: Listing, appIdentifier: string): (r: Result<(int, seq<SmartGroupRef>)>)
    ensures listing.code != 200 ==> r == Err(UserError(LIST_ERROR))
    ensures listing.code == 200 && listing.apps == [] ==> r == Err(UserError(NoAppError(appIdentifier)))
    ensures listing.code == 200 && listing.apps != [] ==> r.Ok?
    ensures r.Ok? ==> listing.apps != [] && r.value.0 == listing.apps[|listing.apps| - 1].id
                      && r.value.1 == listing.apps[|listing.apps| - 1].smartGroups
  {
    if listing.code != 200 then Err(UserError(LIST_ERROR))
    else if |listing.apps| <= 0 then Err(UserError(NoAppError(appIdentifier)))
    else
      var latest := listing.apps[|listing.apps| - 1];
      Ok((latest.id, latest.smartGroups))
  }

  function AssignmentUrl(host: string, appId: int): string
  {
    host + INTERNAL_APP_PREFIX + Format(appId) + ASSIGNMENT_SUFFIX
  }

  function IdsJson(ids: seq<int>): (r: seq<Json>)
    ensures |r| == |ids| && forall k :: 0 <= k < |ids| ==> r[k] == JInt(ids[k])
  {
    seq(|ids|, k requires 0 <= k < |ids| => JInt(ids[k]))
  }

  /** The body of `add_update_smart_group_assignment`: exactly the two keys
      `SmartGroupIds` and `DeploymentParameters`, the parameters as given. */
  function AssignmentBody(ids: seq<int>, parameters: Json): (j: Json)
    ensures Keys(j) == ["SmartGroupIds", "DeploymentParameters"]
    ensures Get(j, "SmartGroupIds") == Some(JArr(IdsJson(ids)))
    ensures Get(j, "DeploymentParameters") == Some(parameters)
  {
    var fields := [("SmartGroupIds", JArr(IdsJson(ids))), ("DeploymentParameters", parameters)];
    assert "DeploymentParameters"[0] != "SmartGroupIds"[0];
    assert fields[1..] == [("DeploymentParameters", parameters)];
    assert fields[0].0 != "DeploymentParameters";
    assert Lookup(fields[1..], "DeploymentParameters") == Some(parameters);
    JObj(fields)
  }

  /** Steps 3 and 4 of `run`: a PUT for the update list, then a POST for the add
      list, each sent only when its list is not empty. */
  function AssignmentRequests(host: string, appId: int, updateIds: seq<int>, addIds: seq<int>, parameters: Json): (r: seq<Request>)
    ensures (exists q :: q in r && q.verb == PUT) <==> updateIds != []
    ensures (exists q :: q in r && q.verb == POST) <==> addIds != []
    ensures forall q :: q in r && q.verb == PUT ==> q == Request(PUT, AssignmentUrl(host, appId), JsonBody(AssignmentBody(updateIds, parameters)))
    ensures forall q :: q in r && q.verb == POST ==> q == Request(POST, AssignmentUrl(host, appId), JsonBody(AssignmentBody(addIds, parameters)))
    ensures forall q :: q in r ==> q.verb == PUT || q.verb == POST
    ensures |r| <= 2 && (|r| == 2 ==> r[0].verb == PUT && r[1].verb == POST)
  {
    var url := AssignmentUrl(host, appId);
    (if |updateIds| <= 0 then [] else [Request(PUT, url, JsonBody(AssignmentBody(updateIds, parameters)))])
    + (if |addIds| <= 0 then [] else [Request(POST, url, JsonBody(AssignmentBody(addIds, parameters)))])
  }

  /** `run`: find the latest version's smart groups (a failure stops the action
      before any search), partition the requested names, then send the
      assignment requests. The returned requests are the writes only; the
      searches are the `lookup` replies. */
  method Run(listing: Listing, appIdentifier: string, names: seq<string>, lookup: string -> SearchReply,
             parameters: Json, host: string) returns (r: Result<seq<Request>>)
    ensures FindAppSmartGroups(listing, appIdentifier).Err? ==> r == Err(FindAppSmartGroups(listing, appIdentifier).error)
    ensures FindAppSmartGroups(listing, appIdentifier).Ok? ==>
              var (appId, refs) := FindAppSmartGroups(listing, appIdentifier).value;
              var groups := Resolve(names, lookup);
              r == Ok(AssignmentRequests(host, appId, GroupIds(ToUpdate(groups, AssignedIds(refs))),
                                         GroupIds(ToAdd(groups, AssignedIds(refs))), parameters))
  {
    var found := FindAppSmartGroups(listing, appIdentifier);
    if found.Err? {
      return Err(found.error);
    }
    var appIdInt, appSmartGroups := found.value.0, found.value.1;
    var updateIds, updateNames, addIds, addNames := Partition(names, lookup, appSmartGroups);
    var requests: seq<Request> := [];
    if |updateIds| <= 0 {
      // nothing to update
    } else {
      requests := requests + [Request(PUT, AssignmentUrl(host, appIdInt), JsonBody(AssignmentBody(updateIds, parameters)))];
    }
    if |addIds| <= 0 {
      // nothing to add
    } else {
      requests := requests + [Request(POST, AssignmentUrl(host, appIdInt), JsonBody(AssignmentBody(addIds, parameters)))];
    }
    assert requests == AssignmentRequests(host, appIdInt, updateIds, addIds, parameters);
    return Ok(requests);
  }
}
