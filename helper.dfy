/** The shared helper of the actions (`AirwatchWorkspaceoneHelper`): turning a
    console app listing into version records, selecting them by status, sorting
    them by id, and the per-version delete / retire / unretire requests with the
    reply codes that count as success. */
module Helper {
  import opened Basics
  import opened Decimal

  /** One entry of an app version's `SmartGroups` array. */
  datatype SmartGroupRef = SmartGroupRef(id: int, name: string)

  /** One element of the listing's `Application` array, as parsed: `Id.Value`,
      `AppVersion`, `Status` and `SmartGroups`. */
  datatype App = App(id: int, appVersion: string, status: string, smartGroups: seq<SmartGroupRef>)

  /** The two-key record `{'Id' => ..., 'Version' => ...}` the actions work on. */
  datatype AppVersion = AppVersion(id: int, version: string)

  /** A reply to an app search: its status code and the parsed `Application` array. */
  datatype Listing = Listing(code: int, apps: seq<App>)

  const LIST_ERROR := "There was an error in finding app versions. One possible reason is that an app with the bundle identifier given does not exist on Console."

  /** `construct_app_version`: the record keeps exactly the id and the version label. */
  function ConstructAppVersion(app: App): AppVersion
  {
    AppVersion(app.id, app.appVersion)
  }

  /** Whether `find_app_versions` keeps `app` for the status argument `appStatus`:
      `'Active'` and `'Retired'` select by exact status, anything else keeps all. */
  predicate Matches(appStatus: string, app: App)
  {
    if appStatus == "Active" then app.status == "Active"
    else if appStatus == "Retired" then app.status == "Retired"
    else true
  }

  /** The records of the apps `appStatus` selects, in response order. */
  function Selected(apps: seq<App>, appStatus: string): seq<AppVersion>
  {
    if apps == [] then []
    else
      Selected(apps[..|apps| - 1], appStatus)
      + (if Matches(appStatus, apps[|apps| - 1]) then [ConstructAppVersion(apps[|apps| - 1])] else [])
  }

  /** Every app of the listing as a record, in response order, unfiltered. */
  function Versions(apps: seq<App>): (r: seq<AppVersion>)
    ensures |r| == |apps|
  {
    seq(|apps|, i requires 0 <= i < |apps| => ConstructAppVersion(apps[i]))
  }

  function Ids(vs: seq<AppVersion>): (r: seq<int>)
    ensures |r| == |vs|
  {
    seq(|vs|, i requires 0 <= i < |vs| => vs[i].id)
  }

  /** `map { |v| v.values[1] }`: the version labels, in order. */
  function Labels(vs: seq<AppVersion>): (r: seq<string>)
    ensures |r| == |vs|
  {
    seq(|vs|, i requires 0 <= i < |vs| => vs[i].version)
  }

  /** A record is selected exactly when some app of that status produced it. */
  lemma {:induction false} SelectedMembership(apps: seq<App>, appStatus: string, v: AppVersion)
    ensures v in Selected(apps, appStatus)
        <==> exists k :: 0 <= k < |apps| && Matches(appStatus, apps[k]) && v == ConstructAppVersion(apps[k])
  {
    if apps != [] {
      var init := apps[..|apps| - 1];
      SelectedMembership(init, appStatus, v);
      assert forall k :: 0 <= k < |init| ==> init[k] == apps[k];
      if v in Selected(init, appStatus) {
        var k :| 0 <= k < |init| && Matches(appStatus, init[k]) && v == ConstructAppVersion(init[k]);
        assert Matches(appStatus, apps[k]) && v == ConstructAppVersion(apps[k]);
      }
    }
  }

  /** The selection of one app: its record when its `Status` matches, else nothing. */
  lemma SelectedSingle(app: App, appStatus: string)
    ensures Selected([app], appStatus) == if Matches(appStatus, app) then [ConstructAppVersion(app)] else []
  {
    assert [app][..0] == [];
  }

  /** Selection works app by app: selecting from two listings run together gives
      the two selections run together. With `SelectedSingle` this says the
      selection holds exactly one record per matching app, in response order,
      and nothing else. */
  lemma {:induction false} SelectedAppend(xs: seq<App>, ys: seq<App>, appStatus: string)
    ensures Selected(xs + ys, appStatus) == Selected(xs, appStatus) + Selected(ys, appStatus)
  {
    if ys == [] {
      assert xs + ys == xs;
    } else {
      var init := ys[..|ys| - 1];
      assert (xs + ys)[..|xs + ys| - 1] == xs + init;
      assert (xs + ys)[|xs + ys| - 1] == ys[|ys| - 1];
      SelectedAppend(xs, init, appStatus);
    }
  }

  /** Selecting keeps at most every app, all of them when every app matches,
      and none when none does. */
  lemma {:induction false} SelectedLength(apps: seq<App>, appStatus: string)
    ensures |Selected(apps, appStatus)| <= |apps|
    ensures (forall k :: 0 <= k < |apps| ==> Matches(appStatus, apps[k])) ==> Selected(apps, appStatus) == Versions(apps)
    ensures (forall k :: 0 <= k < |apps| ==> !Matches(appStatus, apps[k])) ==> Selected(apps, appStatus) == []
  {
    if apps != [] {
      var init := apps[..|apps| - 1];
      assert forall k :: 0 <= k < |init| ==> init[k] == apps[k];
      SelectedLength(init, appStatus);
      if forall k :: 0 <= k < |apps| ==> Matches(appStatus, apps[k]) {
        assert Versions(apps) == Versions(init) + [ConstructAppVersion(apps[|apps| - 1])];
      }
    }
  }

  /** A status argument other than `'Active'` and `'Retired'` (such as `'None'`)
      keeps every app of the catalog. */
  lemma SelectedAny(apps: seq<App>, appStatus: string)
    requires appStatus != "Active" && appStatus != "Retired"
    ensures Selected(apps, appStatus) == Versions(apps)
  {
    SelectedLength(apps, appStatus);
  }

  predicate SortedById(s: seq<AppVersion>)
  {
    forall i, j :: 0 <= i < j < |s| ==> s[i].id <= s[j].id
  }

  predicate DistinctIds(s: seq<AppVersion>)
  {
    forall i, j :: 0 <= i < j < |s| ==> s[i].id != s[j].id
  }

  function InsertById(v: AppVersion, s: seq<AppVersion>): (r: seq<AppVersion>)
    requires SortedById(s)
    ensures SortedById(r)
    ensures multiset(r) == multiset(s) + multiset{v}
  {
    if s == [] then [v]
    else if v.id <= s[0].id then
      PrependSorted(v, s);
      [v] + s
    else
      var rest := InsertById(v, s[1..]);
      assert s == [s[0]] + s[1..];
      LowerBound(s[0], v, s[1..], rest);
      PrependSorted(s[0], rest);
      [s[0]] + rest
  }

  /** A bound below `v` and below every element of `t` is below every element
      of a permutation of `t` with `v` added. */
  lemma LowerBound(x: AppVersion, v: AppVersion, t: seq<AppVersion>, r: seq<AppVersion>)
    requires SortedById([x] + t) && x.id <= v.id
    requires multiset(r) == multiset(t) + multiset{v}
    ensures forall i :: 0 <= i < |r| ==> x.id <= r[i].id
  {
    forall i | 0 <= i < |r|
      ensures x.id <= r[i].id
    {
      assert r[i] in multiset(r);
      if r[i] != v {
        assert r[i] in multiset(t);
        var j :| 0 <= j < |t| && t[j] == r[i];
        assert ([x] + t)[0] == x && ([x] + t)[j + 1] == t[j];
      }
    }
  }

  lemma PrependSorted(x: AppVersion, t: seq<AppVersion>)
    requires SortedById(t)
    requires forall i :: 0 <= i < |t| ==> x.id <= t[i].id
    ensures SortedById([x] + t)
  {
    var r := [x] + t;
    forall i, j | 0 <= i < j < |r|
      ensures r[i].id <= r[j].id
    {
      assert r[j] == t[j - 1];
      if i > 0 {
        assert r[i] == t[i - 1];
      }
    }
  }

  /** `sort_by! { |v| v["Id"] }`: ascending by id, a permutation of the input. */
  function SortById(s: seq<AppVersion>): (r: seq<AppVersion>)
    ensures SortedById(r)
    ensures multiset(r) == multiset(s)
  {
    if s == [] then []
    else
      assert s == [s[0]] + s[1..];
      InsertById(s[0], SortById(s[1..]))
  }

  lemma HeadsAgree(a: seq<AppVersion>, b: seq<AppVersion>)
    requires SortedById(a) && SortedById(b) && DistinctIds(a)
    requires multiset(a) == multiset(b) && a != []
    ensures b != [] && a[0] == b[0]
  {
    assert a[0] in multiset(b);
    var k :| 0 <= k < |b| && b[k] == a[0];
    assert b[0] in multiset(a);
    var j :| 0 <= j < |a| && a[j] == b[0];
    assert a[0].id <= a[j].id == b[0].id <= b[k].id == a[0].id;
  }

  lemma TailsAgree(a: seq<AppVersion>, b: seq<AppVersion>)
    requires SortedById(a) && SortedById(b) && DistinctIds(a)
    requires multiset(a) == multiset(b) && a != [] && b != [] && a[0] == b[0]
    ensures SortedById(a[1..]) && SortedById(b[1..]) && DistinctIds(a[1..])
    ensures multiset(a[1..]) == multiset(b[1..])
  {
    TailOrdered(a);
    TailOrdered(b);
    TailMultiset(a);
    TailMultiset(b);
  }

  lemma TailMultiset(a: seq<AppVersion>)
    requires a != []
    ensures multiset(a[1..]) == multiset(a) - multiset{a[0]}
  {
    assert a == [a[0]] + a[1..];
  }

  /** Dropping the first record keeps a list sorted, and keeps its ids distinct. */
  lemma TailOrdered(a: seq<AppVersion>)
    requires a != []
    ensures SortedById(a) ==> SortedById(a[1..])
    ensures DistinctIds(a) ==> DistinctIds(a[1..])
  {
    forall i | 0 <= i < |a| - 1
      ensures a[1..][i] == a[i + 1]
    {
    }
  }

  /** Ruby's `sort_by!` is not stable, but ids are unique per version on the
      console, and then any sort by id gives the result `SortById` gives. */
  lemma {:induction false} SortedPermutationUnique(a: seq<AppVersion>, b: seq<AppVersion>)
    requires SortedById(a) && SortedById(b) && DistinctIds(a)
    requires multiset(a) == multiset(b)
    ensures a == b
  {
    if a == [] {
      assert |b| == |multiset(b)| == 0;
    } else {
      HeadsAgree(a, b);
      TailsAgree(a, b);
      SortedPermutationUnique(a[1..], b[1..]);
      assert a == [a[0]] + a[1..] && b == [b[0]] + b[1..];
    }
  }

  /** What `find_app_versions` returns for a listing whose code is 200. */
  function AppVersions(apps: seq<App>, appStatus: string): seq<AppVersion>
  {
    SortById(Selected(apps, appStatus))
  }

  /** The result holds exactly the selected records, each as often as it was
      selected, in ascending id order. */
  lemma AppVersionsContents(apps: seq<App>, appStatus: string, v: AppVersion)
    ensures SortedById(AppVersions(apps, appStatus))
    ensures multiset(AppVersions(apps, appStatus))[v] == multiset(Selected(apps, appStatus))[v]
    ensures v in AppVersions(apps, appStatus)
        <==> exists k :: 0 <= k < |apps| && Matches(appStatus, apps[k]) && v == ConstructAppVersion(apps[k])
  {
    var sel := Selected(apps, appStatus);
    SelectedMembership(apps, appStatus, v);
    assert v in AppVersions(apps, appStatus) <==> v in multiset(sel);
  }

  /** The result is assembled app by app: the records of two listings run
      together are the records of each, counted with multiplicity, and one app
      contributes its own record exactly when its `Status` matches. */
  lemma AppVersionsAppend(xs: seq<App>, ys: seq<App>, appStatus: string)
    ensures multiset(AppVersions(xs + ys, appStatus))
         == multiset(AppVersions(xs, appStatus)) + multiset(AppVersions(ys, appStatus))
  {
    SelectedAppend(xs, ys, appStatus);
  }

  lemma AppVersionsSingle(app: App, appStatus: string)
    ensures AppVersions([app], appStatus) == if Matches(appStatus, app) then [ConstructAppVersion(app)] else []
  {
    SelectedSingle(app, appStatus);
    var v := ConstructAppVersion(app);
    assert SortById([v]) == InsertById(v, SortById([]));
  }

  /** Each record of the result comes from an app of the matching status. */
  lemma AppVersionsElement(apps: seq<App>, appStatus: string, i: int)
    requires 0 <= i < |AppVersions(apps, appStatus)|
    ensures exists k :: 0 <= k < |apps| && Matches(appStatus, apps[k])
                        && AppVersions(apps, appStatus)[i] == ConstructAppVersion(apps[k])
  {
    AppVersionsContents(apps, appStatus, AppVersions(apps, appStatus)[i]);
  }

  /** Each app of the matching status has its record somewhere in the result. */
  lemma AppVersionsIncludes(apps: seq<App>, appStatus: string, k: int)
    requires 0 <= k < |apps| && Matches(appStatus, apps[k])
    ensures exists i :: 0 <= i < |AppVersions(apps, appStatus)|
                        && AppVersions(apps, appStatus)[i] == ConstructAppVersion(apps[k])
  {
    AppVersionsContents(apps, appStatus, ConstructAppVersion(apps[k]));
  }

  /** `list_app_versions` then `find_app_versions`: a listing reply other than
      200 is a user error and nothing is filtered; otherwise the apps are walked
      in response order, the selected ones appended, and the result sorted. */
  method FindAppVersions(listing: Listing, appStatus: string) returns (r: Result<seq<AppVersion>>)
    ensures listing.code != 200 ==> r == Err(UserError(LIST_ERROR))
    ensures listing.code == 200 ==> r == Ok(AppVersions(listing.apps, appStatus))
  {
    if listing.code != 200 {
      return Err(UserError(LIST_ERROR));
    }
    var apps := listing.apps;
    var appVersions: seq<AppVersion> := [];
    var i := 0;
    while i < |apps|
      invariant 0 <= i <= |apps|
      invariant appVersions == Selected(apps[..i], appStatus)
    {
      var app := apps[i];
      assert apps[..i + 1][..i] == apps[..i];
      if appStatus == "Active" {
        if app.status == "Active" {
          appVersions := appVersions + [ConstructAppVersion(app)];
        }
      } else if appStatus == "Retired" {
        if app.status == "Retired" {
          appVersions := appVersions + [ConstructAppVersion(app)];
        }
      } else {
        appVersions := appVersions + [ConstructAppVersion(app)];
      }
      i := i + 1;
    }
    assert apps[..i] == apps;
    appVersions := SortById(appVersions);
    return Ok(appVersions);
  }

  /** The three per-version actions of the console. */
  datatype Action = Delete | Retire | Unretire

  const INTERNAL_APP_PREFIX := "/API/mam/apps/internal/"

  function Suffix(action: Action): string
  {
    match action
    case Delete => ""
    case Retire => "/retire"
    case Unretire => "/unretire"
  }

  /** `INTERNAL_APP_DELETE_SUFFIX`, `INTERNAL_APP_RETIRE_SUFFIX` and
      `INTERNAL_APP_UNRETIRE_SUFFIX` formatted with the version id. */
  function ActionUrl(action: Action, host: string, id: int): string
  {
    host + INTERNAL_APP_PREFIX + Format(id) + Suffix(action)
  }

  /** Delete sends no body; retire and unretire send `{"applicationid": id}`. */
  function ActionRequest(action: Action, host: string, id: int): Request
  {
    if action == Delete then Request(DELETE, ActionUrl(action, host, id), NoPayload)
    else Request(POST, ActionUrl(action, host, id), JsonBody(JObj([("applicationid", JInt(id))])))
  }

  /** The only reply code taken as success: 204 for delete, 202 for retire and unretire. */
  function SuccessCode(action: Action): int
  {
    if action == Delete then 204 else 202
  }

  /** The position of the first `/` in `w`, or `|w|` when there is none. */
  function UpToSlash(w: string): (n: nat)
    ensures n <= |w|
  {
    if w == [] || w[0] == '/' then 0 else 1 + UpToSlash(w[1..])
  }

  lemma {:induction false} UpToSlashAppend(x: string, s: string)
    requires forall i :: 0 <= i < |x| ==> x[i] != '/'
    requires s == [] || s[0] == '/'
    ensures UpToSlash(x + s) == |x|
  {
    if x != [] {
      assert (x + s)[1..] == x[1..] + s;
      UpToSlashAppend(x[1..], s);
    }
  }

  lemma SplitAtSlash(x: string, s: string, y: string, t: string)
    requires forall i :: 0 <= i < |x| ==> x[i] != '/'
    requires forall i :: 0 <= i < |y| ==> y[i] != '/'
    requires s == [] || s[0] == '/'
    requires t == [] || t[0] == '/'
    requires x + s == y + t
    ensures x == y && s == t
  {
    UpToSlashAppend(x, s);
    UpToSlashAppend(y, t);
    assert x == (x + s)[..|x|] && y == (y + t)[..|y|];
    assert s == (x + s)[|x|..] && t == (y + t)[|y|..];
  }

  lemma CancelPrefix(p: string, u: string, w: string)
    requires p + u == p + w
    ensures u == w
  {
    assert u == (p + u)[|p|..];
    assert w == (p + w)[|p|..];
  }

  /** The text after the host and the fixed prefix determines the id and the suffix. */
  lemma IdAndSuffix(a: Action, b: Action, m: int, n: int)
    requires Format(m) + Suffix(a) == Format(n) + Suffix(b)
    ensures a == b && m == n
  {
    FormatCharacters(m);
    FormatCharacters(n);
    SplitAtSlash(Format(m), Suffix(a), Format(n), Suffix(b));
    FormatInjective(m, n);
  }

  /** An action URL determines both the action and the version id: requests for
      different versions, or different actions, never share a URL. */
  lemma ActionUrlInjective(a: Action, b: Action, host: string, m: int, n: int)
    requires ActionUrl(a, host, m) == ActionUrl(b, host, n)
    ensures a == b && m == n
  {
    var p := host + INTERNAL_APP_PREFIX;
    var u, w := Format(m) + Suffix(a), Format(n) + Suffix(b);
    var fm, sa, fn, sb := Format(m), Suffix(a), Format(n), Suffix(b);
    assert p + fm + sa == p + (fm + sa);
    assert p + fn + sb == p + (fn + sb);
    CancelPrefix(p, u, w);
    IdAndSuffix(a, b, m, n);
  }

  /** How one request of a batch ended: the version, the reply code, and whether
      the code was the action's success code. */
  datatype Outcome = Outcome(id: int, code: int, succeeded: bool)

  /** The requests a batch sent and the outcome of each. */
  datatype Batch = Batch(sent: seq<Request>, outcomes: seq<Outcome>)

  /** `ids.each { |id| <action>_app(id) }` with replies `replies(k)` to the k-th
      request: one request per id in order, a failure logged and passed over. */
  ghost predicate BatchOf(action: Action, host: string, ids: seq<int>, replies: nat -> int, b: Batch)
  {
    && |b.sent| == |ids|
    && |b.outcomes| == |ids|
    && (forall k {:trigger b.sent[k]} :: 0 <= k < |ids| ==> b.sent[k] == ActionRequest(action, host, ids[k]))
    && (forall k {:trigger b.outcomes[k]} :: 0 <= k < |ids| ==>
          b.outcomes[k] == Outcome(ids[k], replies(k), replies(k) == SuccessCode(action)))
  }

  /** The loop the actions run over their selection: every id is sent exactly
      once, in order, and no failure stops the loop. */
  method ApplyAll(action: Action, host: string, ids: seq<int>, replies: nat -> int) returns (b: Batch)
    ensures BatchOf(action, host, ids, replies, b)
  {
    b := Batch([], []);
    var k := 0;
    while k < |ids|
      invariant 0 <= k <= |ids|
      invariant BatchOf(action, host, ids[..k], replies, b)
    {
      var request := ActionRequest(action, host, ids[k]);
      var code := replies(k);
      BatchStep(action, host, ids, replies, b, k);
      b := Batch(b.sent + [request], b.outcomes + [Outcome(ids[k], code, code == SuccessCode(action))]);
      k := k + 1;
    }
    assert ids[..k] == ids;
  }

  /** One more request and its outcome extend a batch over a prefix of the ids
      to a batch over the next longer prefix. */
  lemma BatchStep(action: Action, host: string, ids: seq<int>, replies: nat -> int, b: Batch, k: int)
    requires 0 <= k < |ids|
    requires BatchOf(action, host, ids[..k], replies, b)
    ensures BatchOf(action, host, ids[..k + 1], replies,
                    Batch(b.sent + [ActionRequest(action, host, ids[k])],
                          b.outcomes + [Outcome(ids[k], replies(k), replies(k) == SuccessCode(action))]))
  {
    var prefix := ids[..k + 1];
    var sent := b.sent + [ActionRequest(action, host, ids[k])];
    var outcomes := b.outcomes + [Outcome(ids[k], replies(k), replies(k) == SuccessCode(action))];
    forall j | 0 <= j < k + 1
      ensures sent[j] == ActionRequest(action, host, prefix[j])
      ensures outcomes[j] == Outcome(prefix[j], replies(j), replies(j) == SuccessCode(action))
    {
      if j < k {
        assert prefix[j] == ids[..k][j];
        assert sent[j] == b.sent[j] && outcomes[j] == b.outcomes[j];
      }
    }
  }

  /** A batch never issues anything beyond its selection: the k-th request names
      the k-th id in its URL (and, for retire and unretire, in its body). */
  lemma BatchTargets(action: Action, host: string, ids: seq<int>, replies: nat -> int, b: Batch, k: int, id: int)
    requires BatchOf(action, host, ids, replies, b)
    requires 0 <= k < |b.sent| && b.sent[k].url == ActionUrl(action, host, id)
    ensures id == ids[k]
    ensures b.outcomes[k].succeeded <==> b.outcomes[k].code == SuccessCode(action)
  {
    ActionUrlInjective(action, action, host, ids[k], id);
  }
}
