# fastlane-plugin-airwatch_workspaceone, modelled in Dafny

The plugin adds fastlane actions that manage internal apps on an AirWatch /
Workspace ONE console through its REST API: upload and register a build
(`deploy_build`), report the latest, Active and Retired version labels
(`latest_version`), delete older versions (`delete_previous_versions`),
retire all Active versions but one (`retire_previous_versions`), unretire
every Retired version (`unretire_all_versions`), and add or update smart-group
assignments of the latest version (`add_or_update_assignments`).

The model covers the decisions those actions take. The console's replies are
inputs: a listing is a status code plus the parsed `Application` array
(`Helper.Listing`); each per-version request of a loop gets the reply
`replies(k)`; a smart-group search reply is `lookup(name)`; the upload's
`Value` is a parameter. The actions' outputs are the requests they send, in
order (`Basics.Request`), and the state they write.

| file | module | models |
|---|---|---|
| basics.dfy | Basics | `Option`, `Result` (a `UI.user_error!` is `Err`), JSON values with ordered keys, requests |
| decimal.dfy | Decimal | `%d` / `to_s` formatting of integers and the part of Ruby's `String#to_i` the actions rely on |
| helper.dfy | Helper | the shared helper: building version records, status filtering, the sort by id, version URLs and the per-version request loop |
| delete_previous_versions.dfy | DeletePreviousVersions | keep-count check, keep-latest-N selection, delete loop |
| retire_previous_versions.dfy | RetirePreviousVersions | Active ids, `pop` of the last one, retire loop |
| unretire_all_versions.dfy | UnretireAllVersions | Retired selection, early return, unretire loop |
| add_or_update_assignments.dfy | AddOrUpdateAssignments | smart-group id resolution, update/add partition, PUT/POST requests |
| deploy_build.dfy | DeployBuild | device-type detection, supported models, upload and registration requests, the action's globals as the class `Deployment` |
| latest_version.dfy | LatestVersion | the three listings and the writes to the lane context (class `LaneContext`) |

Some of what the code does, and the model with it, that a reader might not
expect:

- `deploy_build` sends no compensating delete of the uploaded blob when the
  registration fails.
- A keep count larger than the number of versions deletes everything, while a
  keep count equal to it deletes nothing (the comparison is strict).
- The listings used by `delete_previous_versions` and
  `retire_previous_versions` do not check the reply code.
- The registration body has exactly six keys, with no `AppVersion` and no
  `CarryOverAssignments`.
- `retire_previous_versions` does not sort: it spares the last Active version
  in response order.
- The keep-count check accepts 0, although its message says the count "can
  not be zero or negative".

## Model

| member | source | states |
|---|---|---|
| Decimal.FormatRoundTrip | lib/fastlane/plugin/airwatch_workspaceone/actions/delete_previous_versions_action.rb:52 | `to_i` of the decimal text of any integer gives that integer back |
| Decimal.FormatInjective | lib/fastlane/plugin/airwatch_workspaceone/helper/airwatch_workspaceone_helper.rb:13-15 | two different ids are never formatted into the same text |
| Decimal.FormatCharacters | lib/fastlane/plugin/airwatch_workspaceone/actions/deploy_build_action.rb:168 | the decimal text is non-empty and made of digits, apart from a leading minus sign |
| Decimal.NoDigitsReadsZero | lib/fastlane/plugin/airwatch_workspaceone/actions/delete_previous_versions_action.rb:185-187 | `to_i` of any text that contains no digit is 0 |
| Decimal.RadixPrefixSkipped | lib/fastlane/plugin/airwatch_workspaceone/actions/delete_previous_versions_action.rb:185-187 | the `0d` radix prefix is skipped: `"0d"` followed by the decimal digits of any natural number reads as that number |
| Decimal.NatDigitsValue | lib/fastlane/plugin/airwatch_workspaceone/helper/airwatch_workspaceone_helper.rb:84 | the digits written for a natural number read back as that number |
| Helper.FindAppVersions | lib/fastlane/plugin/airwatch_workspaceone/helper/airwatch_workspaceone_helper.rb:28-77 | a listing reply other than 200 is the user error with the exact message; otherwise the result is the status selection, sorted by id |
| Helper.AppVersionsElement | lib/fastlane/plugin/airwatch_workspaceone/helper/airwatch_workspaceone_helper.rb:33-55 | every record of the result comes from an app of the matching status |
| Helper.AppVersionsIncludes | lib/fastlane/plugin/airwatch_workspaceone/helper/airwatch_workspaceone_helper.rb:33-55 | every app of the matching status has its record in the result |
| Helper.AppVersionsContents | lib/fastlane/plugin/airwatch_workspaceone/helper/airwatch_workspaceone_helper.rb:21-56 | the result is sorted by id, holds each selected record as often as it was selected, and a record is in it iff an app of the matching status produced it |
| Helper.SelectedMembership | lib/fastlane/plugin/airwatch_workspaceone/helper/airwatch_workspaceone_helper.rb:33-52 | a record is selected iff some app of the listing matches the status and yields that record |
| Helper.SelectedLength | lib/fastlane/plugin/airwatch_workspaceone/helper/airwatch_workspaceone_helper.rb:35-51 | the selection is never longer than the listing; it is every app when all match and empty when none match |
| Helper.SelectedSingle | lib/fastlane/plugin/airwatch_workspaceone/helper/airwatch_workspaceone_helper.rb:35-51 | one app yields its own record when its status matches and nothing otherwise |
| Helper.SelectedAppend | lib/fastlane/plugin/airwatch_workspaceone/helper/airwatch_workspaceone_helper.rb:35-51 | selecting from two listings run together gives the two selections run together, so the selection is one record per matching app, in response order, and nothing else |
| Helper.AppVersionsSingle | lib/fastlane/plugin/airwatch_workspaceone/helper/airwatch_workspaceone_helper.rb:33-55 | the result for a single app is its record when its status matches and empty otherwise |
| Helper.AppVersionsAppend | lib/fastlane/plugin/airwatch_workspaceone/helper/airwatch_workspaceone_helper.rb:33-55 | the result for two listings run together holds, counted with multiplicity, exactly the records of each: one record per matching app |
| Helper.SelectedAny | lib/fastlane/plugin/airwatch_workspaceone/helper/airwatch_workspaceone_helper.rb:48-51 | a status argument other than `Active` and `Retired` keeps every app, in response order |
| Helper.SortById | lib/fastlane/plugin/airwatch_workspaceone/helper/airwatch_workspaceone_helper.rb:54 | the sorted list is ascending in id and a permutation of its input |
| Helper.InsertById | lib/fastlane/plugin/airwatch_workspaceone/helper/airwatch_workspaceone_helper.rb:54 | inserting into a sorted list keeps it sorted and adds exactly the one record |
| Helper.SortedPermutationUnique | lib/fastlane/plugin/airwatch_workspaceone/helper/airwatch_workspaceone_helper.rb:54 | with distinct ids, any two id-sorted permutations of the same records are equal, so any sort gives the same result |
| Helper.ActionUrlInjective | lib/fastlane/plugin/airwatch_workspaceone/helper/airwatch_workspaceone_helper.rb:13-15 | a delete, retire or unretire URL determines both the action and the version id |
| Helper.ApplyAll | lib/fastlane/plugin/airwatch_workspaceone/helper/airwatch_workspaceone_helper.rb:79-140 | one request per id, in order: DELETE without a body, or POST with `{"applicationid": id}`; success is exactly 204 for delete and 202 otherwise; a failure does not stop the loop |
| Helper.BatchTargets | lib/fastlane/plugin/airwatch_workspaceone/helper/airwatch_workspaceone_helper.rb:79-140 | the k-th request of a batch names exactly the k-th id, and it counts as a success iff its reply is the action's success code |
| DeletePreviousVersions.ValidateFormattedCount | lib/fastlane/plugin/airwatch_workspaceone/actions/delete_previous_versions_action.rb:185-187 | a count written in decimal is accepted with its value iff it is not negative, and refused with the exact message otherwise |
| DeletePreviousVersions.DefaultKeepsNothing | lib/fastlane/plugin/airwatch_workspaceone/actions/delete_previous_versions_action.rb:185-187 | the default `"0"`, and any text that contains no digit, is accepted as a keep count of 0 |
| DeletePreviousVersions.ToDelete | lib/fastlane/plugin/airwatch_workspaceone/actions/delete_previous_versions_action.rb:52-59 | keep larger than the count deletes everything; otherwise the deleted versions followed by the last `keep` versions are the whole list, and keep equal to the count deletes nothing |
| DeletePreviousVersions.FindApp | lib/fastlane/plugin/airwatch_workspaceone/actions/delete_previous_versions_action.rb:67-80 | every app becomes a record, in response order, with no filter and no sort |
| DeletePreviousVersions.Run | lib/fastlane/plugin/airwatch_workspaceone/actions/delete_previous_versions_action.rb:43-62 | a negative keep count is a user error; otherwise the batch deletes exactly the versions `ToDelete` chooses, in order |
| DeletePreviousVersions.DefaultDeletesAll | lib/fastlane/plugin/airwatch_workspaceone/actions/delete_previous_versions_action.rb:52-62 | with the default keep count every listed version is deleted, one request each, in response order |
| DeletePreviousVersions.KeepBoundary | lib/fastlane/plugin/airwatch_workspaceone/actions/delete_previous_versions_action.rb:53-59 | keeping exactly the count deletes nothing; keeping one more deletes everything |
| RetirePreviousVersions.RetireCandidates | lib/fastlane/plugin/airwatch_workspaceone/actions/retire_previous_versions_action.rb:65-72 | the candidates followed by the last Active id are all Active ids; no Active app, or only one, retires nothing |
| RetirePreviousVersions.ActiveIdsMembership | lib/fastlane/plugin/airwatch_workspaceone/actions/retire_previous_versions_action.rb:65-69 | an id is collected iff some app of the listing is Active with that id |
| RetirePreviousVersions.ActiveIdsAppend | lib/fastlane/plugin/airwatch_workspaceone/actions/retire_previous_versions_action.rb:65-69 | collecting Active ids distributes over concatenation of listings |
| RetirePreviousVersions.NoActiveIds | lib/fastlane/plugin/airwatch_workspaceone/actions/retire_previous_versions_action.rb:65-69 | a listing without Active apps collects no id |
| RetirePreviousVersions.LastActiveSpared | lib/fastlane/plugin/airwatch_workspaceone/actions/retire_previous_versions_action.rb:65-72 | exactly the Active apps before the last Active one are retired, and that one is spared |
| RetirePreviousVersions.RetiredAreActive | lib/fastlane/plugin/airwatch_workspaceone/actions/retire_previous_versions_action.rb:65-72 | every retired id is that of an Active app of the listing |
| RetirePreviousVersions.FindApp | lib/fastlane/plugin/airwatch_workspaceone/actions/retire_previous_versions_action.rb:60-73 | the loop and the `pop` return exactly the candidates |
| RetirePreviousVersions.Run | lib/fastlane/plugin/airwatch_workspaceone/actions/retire_previous_versions_action.rb:41-55 | each candidate is retired once, in order, with `{"applicationid": id}`, success being 202 |
| UnretireAllVersions.FindApp | lib/fastlane/plugin/airwatch_workspaceone/actions/unretire_all_versions.rb:59-96 | a listing reply other than 200 is the user error; otherwise the Retired apps as records, sorted by id |
| UnretireAllVersions.Run | lib/fastlane/plugin/airwatch_workspaceone/actions/unretire_all_versions.rb:39-55 | listing error propagates; no Retired version sends nothing; otherwise each record of the Retired selection gets one unretire request, ascending by id, success being 202 |
| UnretireAllVersions.UnretireOrder | lib/fastlane/plugin/airwatch_workspaceone/actions/unretire_all_versions.rb:73 | the unretired ids are ascending |
| UnretireAllVersions.UnretireTargets | lib/fastlane/plugin/airwatch_workspaceone/actions/unretire_all_versions.rb:64-73 | an id is unretired iff some app with that id is Retired |
| AddOrUpdateAssignments.FindSmartGroupId | lib/fastlane/plugin/airwatch_workspaceone/actions/add_or_update_assignments_action.rb:142-170 | a search reply other than 200, or one listing no group, resolves to -1; otherwise the id of the last group listed |
| AddOrUpdateAssignments.PartitionExact | lib/fastlane/plugin/airwatch_workspaceone/actions/add_or_update_assignments_action.rb:61-77 | every resolved group lands in exactly one list, as often as requested, an unresolved one in neither; update only if its id is assigned, add only if not |
| AddOrUpdateAssignments.PairsAreResolutions | lib/fastlane/plugin/airwatch_workspaceone/actions/add_or_update_assignments_action.rb:61-75 | each id/name pair of either list is a requested name with the id its search resolved to, never -1 |
| AddOrUpdateAssignments.Partition | lib/fastlane/plugin/airwatch_workspaceone/actions/add_or_update_assignments_action.rb:56-77 | the four arrays are the ids and names of the update and add lists, in request order |
| AddOrUpdateAssignments.FindAppSmartGroups | lib/fastlane/plugin/airwatch_workspaceone/actions/add_or_update_assignments_action.rb:104-140 | a listing reply other than 200 and an empty listing are user errors with their messages; a 200 reply with a non-empty listing always succeeds, with the last version's id and smart groups |
| AddOrUpdateAssignments.AssignmentBody | lib/fastlane/plugin/airwatch_workspaceone/actions/add_or_update_assignments_action.rb:180-183 | the body has exactly the keys `SmartGroupIds` and `DeploymentParameters`, the ids in order and the parameters unchanged |
| AddOrUpdateAssignments.AssignmentRequests | lib/fastlane/plugin/airwatch_workspaceone/actions/add_or_update_assignments_action.rb:84-100 | a PUT is sent iff the update list is non-empty and a POST iff the add list is, each with its list's body, the PUT first, and no request of any other verb |
| AddOrUpdateAssignments.Run | lib/fastlane/plugin/airwatch_workspaceone/actions/add_or_update_assignments_action.rb:47-101 | a failed app lookup stops the action with its error; otherwise the requests are those of the partition of the resolved names |
| DeployBuild.Includes | lib/fastlane/plugin/airwatch_workspaceone/actions/deploy_build_action.rb:87-89 | the substring test holds iff the pattern occurs somewhere in the name |
| DeployBuild.FindDeviceType | lib/fastlane/plugin/airwatch_workspaceone/actions/deploy_build_action.rb:86-95 | Apple iff `.ipa` occurs anywhere; Android iff `.ipa` does not and `.apk` does; otherwise the user error with the exact message |
| DeployBuild.ModelsProperties | lib/fastlane/plugin/airwatch_workspaceone/actions/deploy_build_action.rb:101-121 | each model list is non-empty with ascending ids; Android gets only model 5 whatever the classification; Apple lists never hold 5 and are parts of the universal list |
| DeployBuild.ModelNamesAgree | lib/fastlane/plugin/airwatch_workspaceone/actions/deploy_build_action.rb:101-121 | a model id is always sent with the same name, whichever file type and classification listed it |
| DeployBuild.CreateModelFor | lib/fastlane/plugin/airwatch_workspaceone/actions/deploy_build_action.rb:128-134 | the hash has exactly the keys `ModelId` and `ModelName`, holding the given id and name |
| DeployBuild.DeployBody | lib/fastlane/plugin/airwatch_workspaceone/actions/deploy_build_action.rb:167-174 | exactly six keys in order, with the blob id as decimal text, the device type name, the app name, the models, the push mode and the organization group id |
| DeployBuild.BlobIdRoundTrip | lib/fastlane/plugin/airwatch_workspaceone/actions/deploy_build_action.rb:159-168 | the `BlobId` text reads back as the blob id the upload returned |
| DeployBuild.Deployment.constructor | lib/fastlane/plugin/airwatch_workspaceone/actions/deploy_build_action.rb:12-13 | the globals start as `"Apple"` and an empty hash |
| DeployBuild.Deployment.FindSupportedDeviceModels | lib/fastlane/plugin/airwatch_workspaceone/actions/deploy_build_action.rb:97-126 | the models for the current device type are stored under `Model`, nothing else changes, and the hash is returned |
| DeployBuild.Deployment.Run | lib/fastlane/plugin/airwatch_workspaceone/actions/deploy_build_action.rb:44-84 | a wrong file type sends nothing and changes nothing; otherwise the device type and models are stored, then exactly the upload and then the registration are sent |
| LatestVersion.Latest | lib/fastlane/plugin/airwatch_workspaceone/actions/latest_version_action.rb:82 | absent iff there is no version; otherwise the label of the last version |
| LatestVersion.LatestIsHighestId | lib/fastlane/plugin/airwatch_workspaceone/actions/latest_version_action.rb:44-48 | the latest label belongs to an app whose id is the highest of the catalog; an empty catalog has none |
| LatestVersion.StatusLabels | lib/fastlane/plugin/airwatch_workspaceone/actions/latest_version_action.rb:57-75 | the stored Active and Retired labels come in ascending id order, and a label is there iff some app of that status has it |
| LatestVersion.Run | lib/fastlane/plugin/airwatch_workspaceone/actions/latest_version_action.rb:44-82 | a failed listing stops the action with the earlier writes in place; otherwise the three keys are written and the returned value is the stored latest label |

## Left out

- HTTP transport, headers, authentication and file streaming: replies and the upload's `Value` are parameters.
- JSON parsing of reply bodies: listings and search replies arrive parsed; the ids are taken to be integers.
- `AppInfo.parse`, a foreign library: its classification is the input `DeployBuild.IpaKind`.
- Logging, `UI.message`/`UI.success` output and the debug flag: they do not affect what is sent.
- The option `verify_block`s that only reject an empty string (host, tenant code, names, paths).
- The listing and smart-group search URLs (with the unescaped bundle id and group name) are not modelled; the listing is the reply itself.
- The `exit` after `UI.user_error!`: an error ends the action, which `Err` models.
- `RestClient` raising on some non-2xx replies: a reply code is taken as returned.
- `Decimal.ToI`: does not model `to_i`'s underscores between digits.
- `Helper.ApplyAll`: does not model that, for retire and unretire, a reply other than 202 has its body parsed as JSON, which raises on a body that is not JSON and then ends the loop and the action; the model records the failure and goes on with the next id. A failed delete is only reported, as in the model.
- `RetirePreviousVersions.Run`: does not model the same JSON parse of a failed retire reply's body, which can end the loop early.
- `UnretireAllVersions.Run`: does not model the same JSON parse of a failed unretire reply's body, which can end the loop early.
- `LatestVersion.Run`: does not model that the organization group id option is a string put into the listing URL with `%d`, which raises for text that is not a number before any request; the listing URL itself is not modelled.
- `AddOrUpdateAssignments.Run`: does not model that the organization group id is put into the smart-group search URL with `%d`, which raises for text that is not a number at the first search, after the listing request and before any PUT or POST; the model then returns the PUT/POST requests of the partition.
- `Helper.SortById`: Ruby's `sort_by!` is not stable; with duplicate ids the order among equal ids is that of an insertion sort, and `Helper.SortedPermutationUnique` covers only distinct ids.
- `values[0]` and `values[1]` of a record or smart group are taken to be its id and name.
