/** `retire_previous_versions`: retire every Active version of the app except
    the last Active one in response order. */
module RetirePreviousVersions {
  import opened Basics
  import opened Helper

  /** The ids of the Active apps, in response order. */
  function ActiveIds(apps: seq<App>): seq<int>
  {
    if apps == [] then []
    else ActiveIds(apps[..|apps| - 1]) + (if apps[|apps| - 1].status == "Active" then [apps[|apps| - 1].id] else [])
  }

  /** What `find_app` returns: the Active ids with the last one popped (popping
      an empty array leaves it empty). No sort is applied. */
  function RetireCandidates(apps: seq<App>): (r: seq<int>)
    ensures ActiveIds(apps) == [] ==> r == []
    ensures ActiveIds(apps) != [] ==> r + [ActiveIds(apps)[|ActiveIds(apps)| - 1]] == ActiveIds(apps)
    ensures |ActiveIds(apps)| <= 1 ==> r == []
  {
    var active := ActiveIds(apps);
    if active == [] then [] else active[..|active| - 1]
  }

  lemma {:induction false} ActiveIdsMembership(apps: seq<App>, id: int)
    ensures id in ActiveIds(apps) <==> exists k :: 0 <= k < |apps| && apps[k].status == "Active" && apps[k].id == id
  {
    if apps != [] {
      var init := apps[..|apps| - 1];
      assert forall k :: 0 <= k < |init| ==> init[k] == apps[k];
      ActiveIdsMembership(init, id);
    }
  }

  lemma {:induction false} ActiveIdsAppend(xs: seq<App>, ys: seq<App>)
    ensures ActiveIds(xs + ys) == ActiveIds(xs) + ActiveIds(ys)
  {
    if ys != [] {
      var init := ys[..|ys| - 1];
      assert (xs + ys)[..|xs + ys| - 1] == xs + init;
      assert (xs + ys)[|xs + ys| - 1] == ys[|ys| - 1];
      ActiveIdsAppend(xs, init);
    } else {
      assert xs + ys == xs;
    }
  }

  lemma {:induction false} NoActiveIds(apps: seq<App>)
    requires forall k :: 0 <= k < |apps| ==> apps[k].status != "Active"
    ensures ActiveIds(apps) == []
  {
    if apps != [] {
      var init := apps[..|apps| - 1];
      assert forall k :: 0 <= k < |init| ==> init[k] == apps[k];
      NoActiveIds(init);
    }
  }

  /** When `apps[last]` is the last Active app of the response, exactly the
      Active apps before it are retired, and it is spared. */
  lemma LastActiveSpared(apps: seq<App>, last: int)
    requires 0 <= last < |apps| && apps[last].status == "Active"
    requires forall k :: last < k < |apps| ==> apps[k].status != "Active"
    ensures RetireCandidates(apps) == ActiveIds(apps[..last])
  {
    var before, rest := apps[..last], apps[last + 1..];
    assert apps == before + [apps[last]] + rest;
    ActiveIdsAppend(before + [apps[last]], rest);
    ActiveIdsAppend(before, [apps[last]]);
    assert ActiveIds([apps[last]]) == [apps[last].id] by {
      assert [apps[last]][..0] == [];
    }
    NoActiveIds(rest);
  }

  /** `find_app`: collect the Active ids in response order, then `pop`. The
      listing's reply code is not checked. */
  method FindApp(listing: Listing) returns (activeAppVersionIds: seq<int>)
    ensures activeAppVersionIds == RetireCandidates(listing.apps)
  {
    var apps := listing.apps;
    activeAppVersionIds := [];
    var i := 0;
    while i < |apps|
      invariant 0 <= i <= |apps|
      invariant activeAppVersionIds == ActiveIds(apps[..i])
    {
      assert apps[..i + 1][..i] == apps[..i];
      if apps[i].status == "Active" {
        activeAppVersionIds := activeAppVersionIds + [apps[i].id];
      }
      i := i + 1;
    }
    assert apps[..i] == apps;
    if activeAppVersionIds != [] {
      activeAppVersionIds := activeAppVersionIds[..|activeAppVersionIds| - 1];
    }
  }

  /** `run`: each candidate id is retired exactly once, in order, with
      `{"applicationid": id}`; a reply other than 202 is logged and passed over. */
  method Run(listing: Listing, host: string, replies: nat -> int) returns (b: Batch)
    ensures BatchOf(Retire, host, RetireCandidates(listing.apps), replies, b)
  {
    var appIds := FindApp(listing);
    b := ApplyAll(Retire, host, appIds, replies);
  }

  /** Every retired id belongs to an Active app of the listing. */
  lemma RetiredAreActive(apps: seq<App>, id: int)
    requires id in RetireCandidates(apps)
    ensures exists k :: 0 <= k < |apps| && apps[k].status == "Active" && apps[k].id == id
  {
    var active := ActiveIds(apps);
    assert id in active by {
      assert RetireCandidates(apps) + [active[|active| - 1]] == active;
    }
    ActiveIdsMembership(apps, id);
  }
}
