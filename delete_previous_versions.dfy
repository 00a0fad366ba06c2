/** `delete_previous_versions`: list every version of the app, keep the latest
    `keep_latest_versions_count` of them in response order, delete the rest. */
module DeletePreviousVersions {
  import opened Basics
  import opened Decimal
  import opened Helper

  const KEEP_COUNT_ERROR := "The number of latest versions to keep can not be zero or negative"

  /** The option's default value. */
  const DEFAULT_KEEP_COUNT := "0"

  /** The option's `verify_block`: the text must read as a number of at least 0
      under `to_i`; text with no digits reads as 0. */
  function ValidateKeepCount(value: string): Result<nat>
  {
    if ToI(value) >= 0 then Ok(ToI(value)) else Err(UserError(KEEP_COUNT_ERROR))
  }

  /** A count written in decimal is accepted exactly when it is not negative,
      and then it is the count used. */
  lemma ValidateFormattedCount(n: int)
    ensures n >= 0 ==> ValidateKeepCount(Format(n)) == Ok(n)
    ensures n < 0 ==> ValidateKeepCount(Format(n)) == Err(UserError(KEEP_COUNT_ERROR))
  {
    FormatRoundTrip(n);
  }

  /** The default, and any text without a digit in it, keep nothing. */
  lemma DefaultKeepsNothing(value: string)
    requires NoDigits(value)
    ensures ValidateKeepCount(DEFAULT_KEEP_COUNT) == Ok(0)
    ensures ValidateKeepCount(value) == Ok(0)
  {
    assert DigitPrefix("0") == "0";
    NoDigitsReadsZero(value);
  }

  /** The versions `run` deletes, by the rule of lines 52-59: a keep count larger
      than the number of versions becomes 0 (everything is deleted); otherwise
      `pop(keep)` spares the last `keep` versions in response order. */
  function ToDelete(appVersions: seq<AppVersion>, keep: nat): (r: seq<AppVersion>)
    ensures |appVersions| < keep ==> r == appVersions
    ensures keep <= |appVersions| ==> |r| == |appVersions| - keep
    ensures keep <= |appVersions| ==> r + appVersions[|appVersions| - keep..] == appVersions
    ensures keep == |appVersions| ==> r == []
  {
    if |appVersions| < keep then appVersions else appVersions[..|appVersions| - keep]
  }

  /** `find_app`: every app of the listing becomes a record, in response order,
      with no status filter and no sort (and no check of the reply code). */
  method FindApp(listing: Listing) returns (appVersions: seq<AppVersion>)
    ensures appVersions == Versions(listing.apps)
  {
    var apps := listing.apps;
    appVersions := [];
    var i := 0;
    while i < |apps|
      invariant 0 <= i <= |apps|
      invariant |appVersions| == i
      invariant forall j :: 0 <= j < i ==> appVersions[j] == ConstructAppVersion(apps[j])
    {
      appVersions := appVersions + [ConstructAppVersion(apps[i])];
      i := i + 1;
    }
  }

  /** `run`: an invalid keep count is refused before anything is listed; then
      every version chosen by `ToDelete` is deleted, one request each, in
      response order, and a reply other than 204 is logged and passed over. */
  method Run(listing: Listing, keepCount: string, host: string, replies: nat -> int) returns (r: Result<Batch>)
    ensures ToI(keepCount) < 0 ==> r == Err(UserError(KEEP_COUNT_ERROR))
    ensures ToI(keepCount) >= 0 ==>
              r.Ok? && BatchOf(Delete, host, Ids(ToDelete(Versions(listing.apps), ToI(keepCount))), replies, r.value)
  {
    var validated := ValidateKeepCount(keepCount);
    if validated.Err? {
      return Err(validated.error);
    }
    var appVersions := FindApp(listing);
    var keepLatestVersionsCountInt := ToI(keepCount);
    if |appVersions| < keepLatestVersionsCountInt {
      keepLatestVersionsCountInt := 0;
    }
    appVersions := appVersions[..|appVersions| - keepLatestVersionsCountInt];
    var b := ApplyAll(Delete, host, Ids(appVersions), replies);
    return Ok(b);
  }

  /** With the default keep count every version of the listing is deleted, in
      response order. */
  lemma DefaultDeletesAll(listing: Listing, host: string, replies: nat -> int, b: Batch)
    requires BatchOf(Delete, host, Ids(ToDelete(Versions(listing.apps), ToI(DEFAULT_KEEP_COUNT))), replies, b)
    ensures |b.sent| == |listing.apps|
    ensures forall k :: 0 <= k < |listing.apps| ==> b.sent[k] == ActionRequest(Delete, host, listing.apps[k].id)
  {
    DefaultKeepsNothing("");
    assert ToDelete(Versions(listing.apps), 0) == Versions(listing.apps);
  }

  /** Keeping exactly as many versions as exist deletes nothing, whereas keeping
      one more deletes every version. */
  lemma KeepBoundary(appVersions: seq<AppVersion>)
    ensures ToDelete(appVersions, |appVersions|) == []
    ensures ToDelete(appVersions, |appVersions| + 1) == appVersions
  {
  }
}
