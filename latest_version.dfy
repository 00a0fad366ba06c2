/** `latest_version`: list the app's versions three times (all, Active,
    Retired) and publish their labels in the lane context. */
module LatestVersion {
  import opened Basics
  import opened Helper

  /** The shared-value keys; the third keeps the source's spelling. */
  const LATEST_VERSION_NUMBER := "LATEST_VERSION_NUMBER"
  const ACTIVE_VERSION_NUMBERS := "ACTIVE_VERSION_NUMBERS"
  const RETIRED_VERSION_NUMEBRS := "RETIRED_VERSION_NUMEBRS"

  /** A value stored in the lane context: a list of labels, or one label that
      may be absent (Ruby's `nil`). */
  datatype LaneValue = LabelList(labels: seq<string>) | MaybeLabel(maybe: Option<string>)

  /** `.last` of the labels: absent for an empty list. */
  function Latest(vs: seq<AppVersion>): (r: Option<string>)
    ensures r.None? <==> vs == []
    ensures r.Some? ==> r.value == Labels(vs)[|vs| - 1]
  {
    if vs == [] then None else Some(vs[|vs| - 1].version)
  }

  /** The latest label is that of an app whose id is the highest of the
      catalog; an empty catalog has no latest label. */
  lemma LatestIsHighestId(apps: seq<App>)
    ensures Latest(AppVersions(apps, "None")).None? <==> apps == []
    ensures Latest(AppVersions(apps, "None")).Some? ==>
              exists k :: 0 <= k < |apps| && apps[k].appVersion == Latest(AppVersions(apps, "None")).value
                          && forall j :: 0 <= j < |apps| ==> apps[j].id <= apps[k].id
  {
    var vs := AppVersions(apps, "None");
    SelectedAny(apps, "None");
    assert |vs| == |apps| by {
      assert |multiset(vs)| == |multiset(Versions(apps))|;
    }
    if apps != [] {
      AppVersionsElement(apps, "None", |vs| - 1);
      var k :| 0 <= k < |apps| && Matches("None", apps[k]) && vs[|vs| - 1] == ConstructAppVersion(apps[k]);
      forall j | 0 <= j < |apps|
        ensures apps[j].id <= apps[k].id
      {
        AppVersionsIncludes(apps, "None", j);
        var i :| 0 <= i < |vs| && vs[i] == ConstructAppVersion(apps[j]);
        assert i == |vs| - 1 || vs[i].id <= vs[|vs| - 1].id;
      }
    }
  }

  /** The labels stored for an Active or Retired selection are ascending in id
      and are exactly the labels of the apps with that status. */
  lemma StatusLabels(apps: seq<App>, appStatus: string, versionLabel: string)
    requires appStatus == "Active" || appStatus == "Retired"
    ensures SortedById(AppVersions(apps, appStatus))
    ensures versionLabel in Labels(AppVersions(apps, appStatus))
        <==> exists k :: 0 <= k < |apps| && apps[k].status == appStatus && apps[k].appVersion == versionLabel
  {
    var vs := AppVersions(apps, appStatus);
    if versionLabel in Labels(vs) {
      var i :| 0 <= i < |vs| && Labels(vs)[i] == versionLabel;
      AppVersionsElement(apps, appStatus, i);
    }
    if exists k :: 0 <= k < |apps| && apps[k].status == appStatus && apps[k].appVersion == versionLabel {
      var k :| 0 <= k < |apps| && apps[k].status == appStatus && apps[k].appVersion == versionLabel;
      AppVersionsIncludes(apps, appStatus, k);
      var i :| 0 <= i < |vs| && vs[i] == ConstructAppVersion(apps[k]);
      assert Labels(vs)[i] == versionLabel;
    }
  }

  /** Fastlane's `lane_context`, the dictionary actions publish their outputs in. */
  class LaneContext {
    var values: map<string, LaneValue>

    constructor ()
      ensures values == map[]
    {
      values := map[];
    }
  }

  /** `run`: each listing is one request. A failed listing stops the action
      with what was already stored left in place: the Active labels are stored
      before the Retired listing is made, and the latest label last; the value
      returned is the one stored under `LATEST_VERSION_NUMBER`. */
  method Run(ctx: LaneContext, all: Listing, active: Listing, retired: Listing) returns (r: Result<Option<string>>)
    modifies ctx
    ensures all.code != 200 ==> r == Err(UserError(LIST_ERROR)) && ctx.values == old(ctx.values)
    ensures all.code == 200 && active.code != 200 ==> r == Err(UserError(LIST_ERROR)) && ctx.values == old(ctx.values)
    ensures all.code == 200 && active.code == 200 && retired.code != 200 ==>
              r == Err(UserError(LIST_ERROR))
              && ctx.values == old(ctx.values)[ACTIVE_VERSION_NUMBERS := LabelList(Labels(AppVersions(active.apps, "Active")))]
    ensures all.code == 200 && active.code == 200 && retired.code == 200 ==>
              r == Ok(Latest(AppVersions(all.apps, "None")))
              && ctx.values == old(ctx.values)[ACTIVE_VERSION_NUMBERS := LabelList(Labels(AppVersions(active.apps, "Active")))]
                                              [RETIRED_VERSION_NUMEBRS := LabelList(Labels(AppVersions(retired.apps, "Retired")))]
                                              [LATEST_VERSION_NUMBER := MaybeLabel(r.value)]
  {
    var appVersions := FindAppVersions(all, "None");
    if appVersions.Err? {
      return Err(appVersions.error);
    }
    var activeAppVersions := FindAppVersions(active, "Active");
    if activeAppVersions.Err? {
      return Err(activeAppVersions.error);
    }
    ctx.values := ctx.values[ACTIVE_VERSION_NUMBERS := LabelList(Labels(activeAppVersions.value))];
    var retiredAppVersions := FindAppVersions(retired, "Retired");
    if retiredAppVersions.Err? {
      return Err(retiredAppVersions.error);
    }
    ctx.values := ctx.values[RETIRED_VERSION_NUMEBRS := LabelList(Labels(retiredAppVersions.value))];
    var latest := Latest(appVersions.value);
    ctx.values := ctx.values[LATEST_VERSION_NUMBER := MaybeLabel(latest)];
    return Ok(latest);
  }
}
