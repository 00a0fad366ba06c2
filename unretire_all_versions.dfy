/** `unretire_all_versions`: unretire every Retired version of the app, in
    ascending id order. */
module UnretireAllVersions {
  import opened Basics
  import opened Helper

  /** `find_app` with `list_app_versions`: a reply other than 200 is a user
      error; otherwise the Retired apps become records, sorted by id. It selects
      exactly what the helper's `find_app_versions(..., 'Retired', ...)` does. */
  method FindApp(listing: Listing) returns (r: Result<seq<AppVersion>>)
    ensures listing.code != 200 ==> r == Err(UserError(LIST_ERROR))
    ensures listing.code == 200 ==> r == Ok(AppVersions(listing.apps, "Retired"))
  {
    if listing.code != 200 {
      return Err(UserError(LIST_ERROR));
    }
    var apps := listing.apps;
    var retiredAppVersions: seq<AppVersion> := [];
    var i := 0;
    while i < |apps|
      invariant 0 <= i <= |apps|
      invariant retiredAppVersions == Selected(apps[..i], "Retired")
    {
      assert apps[..i + 1][..i] == apps[..i];
      if apps[i].status == "Retired" {
        retiredAppVersions := retiredAppVersions + [AppVersion(apps[i].id, apps[i].appVersion)];
      }
      i := i + 1;
    }
    assert apps[..i] == apps;
    retiredAppVersions := SortById(retiredAppVersions);
    return Ok(retiredAppVersions);
  }

  /** `run`: no Retired version means an early return with no request;
      otherwise each one is unretired once, in ascending id order, and a reply
      other than 202 is logged and passed over. */
  method Run(listing: Listing, host: string, replies: nat -> int) returns (r: Result<Batch>)
    ensures listing.code != 200 ==> r == Err(UserError(LIST_ERROR))
    ensures listing.code == 200 && AppVersions(listing.apps, "Retired") == [] ==> r == Ok(Batch([], []))
    ensures listing.code == 200 ==>
              r.Ok? && BatchOf(Unretire, host, Ids(AppVersions(listing.apps, "Retired")), replies, r.value)
  {
    var found := FindApp(listing);
    if found.Err? {
      return Err(found.error);
    }
    var retiredAppVersions := found.value;
    if |retiredAppVersions| <= 0 {
      return Ok(Batch([], []));
    }
    var b := ApplyAll(Unretire, host, Ids(retiredAppVersions), replies);
    return Ok(b);
  }

  /** The ids are unretired in ascending order. */
  lemma UnretireOrder(apps: seq<App>)
    ensures var ids := Ids(AppVersions(apps, "Retired"));
            forall i, j :: 0 <= i < j < |ids| ==> ids[i] <= ids[j]
  {
    var sorted := AppVersions(apps, "Retired");
    forall i, j | 0 <= i < j < |sorted|
      ensures Ids(sorted)[i] <= Ids(sorted)[j]
    {
      assert Ids(sorted)[i] == sorted[i].id && Ids(sorted)[j] == sorted[j].id;
    }
  }

  /** An id is unretired exactly when some app of the listing with that id has
      `Status` "Retired". */
  lemma UnretireTargets(apps: seq<App>, id: int)
    ensures id in Ids(AppVersions(apps, "Retired"))
        <==> exists k :: 0 <= k < |apps| && apps[k].status == "Retired" && apps[k].id == id
  {
    var sorted := AppVersions(apps, "Retired");
    var ids := Ids(sorted);
    if id in ids {
      var i :| 0 <= i < |ids| && ids[i] == id;
      AppVersionsElement(apps, "Retired", i);
    }
    if exists k :: 0 <= k < |apps| && apps[k].status == "Retired" && apps[k].id == id {
      var k :| 0 <= k < |apps| && apps[k].status == "Retired" && apps[k].id == id;
      AppVersionsIncludes(apps, "Retired", k);
      var i :| 0 <= i < |sorted| && sorted[i] == ConstructAppVersion(apps[k]);
      assert ids[i] == id;
    }
  }
}
