/** `deploy_build`: upload an IPA or APK file as a blob, then register it as a
    new internal app version. The action's globals `$device_type` and
    `$supported_device_models` are the fields of a `Deployment` object. */
module DeployBuild {
  import opened Basics
  import opened Decimal

  const UPLOAD_BLOB_PATH := "/API/mam/blobs/uploadblob?fileName="
  const UPLOAD_BLOB_ORG_GROUP := "&organizationGroupId="
  const BEGIN_INSTALL_SUFFIX := "/API/mam/apps/internal/begininstall"
  const WRONG_FILE_TYPE := "Wrong file type provided. Please provide an IPA or APK file."

  /** The platform of the file, and its name as the console expects it. */
  datatype DeviceType = Apple | Android

  function DeviceTypeName(t: DeviceType): string
  {
    match t
    case Apple => "Apple"
    case Android => "Android"
  }

  /** `sub` occurs in `s` starting at index `i`. */
  ghost predicate OccursAt(sub: string, s: string, i: int)
  {
    0 <= i && i + |sub| <= |s| && s[i..i + |sub|] == sub
  }

  /** Ruby's `String#include?`: a substring test anywhere in the string. */
  function Includes(s: string, sub: string): (b: bool)
    ensures b <==> exists i :: OccursAt(sub, s, i)
    decreases |s|
  {
    if |s| < |sub| then false
    else if s[..|sub|] == sub then (assert OccursAt(sub, s, 0); true)
    else IncludesStep(s, sub); Includes(s[1..], sub)
  }

  /** An occurrence in `s` that is not at the start is an occurrence in `s[1..]`. */
  lemma IncludesStep(s: string, sub: string)
    requires |sub| <= |s| && s[..|sub|] != sub
    ensures (exists i :: OccursAt(sub, s, i)) <==> exists i :: OccursAt(sub, s[1..], i)
  {
    if exists i :: OccursAt(sub, s, i) {
      var i :| OccursAt(sub, s, i);
      assert i != 0;
      assert s[1..][i - 1..i - 1 + |sub|] == s[i..i + |sub|];
      assert OccursAt(sub, s[1..], i - 1);
    }
    if exists i :: OccursAt(sub, s[1..], i) {
      var i :| OccursAt(sub, s[1..], i);
      assert s[1..][i..i + |sub|] == s[i + 1..i + 1 + |sub|];
      assert OccursAt(sub, s, i + 1);
    }
  }

  /** `find_device_type`: `.ipa` anywhere in the name means Apple, checked
      first; otherwise `.apk` anywhere means Android; anything else is a user
      error. */
  function FindDeviceType(fileName: string): (r: Result<DeviceType>)
    ensures r == Ok(Apple) <==> exists i :: OccursAt(".ipa", fileName, i)
    ensures r == Ok(Android) <==>
              (!exists i :: OccursAt(".ipa", fileName, i)) && exists i :: OccursAt(".apk", fileName, i)
    ensures r.Err? <==>
              (!exists i :: OccursAt(".ipa", fileName, i)) && !exists i :: OccursAt(".apk", fileName, i)
    ensures r.Err? ==> r.error == UserError(WRONG_FILE_TYPE)
  {
    if Includes(fileName, ".ipa") then Ok(Apple)
    else if Includes(fileName, ".apk") then Ok(Android)
    else Err(UserError(WRONG_FILE_TYPE))
  }

  /** The classification `AppInfo.parse` gives an IPA: universal, iPhone only,
      or anything else (treated as iPad only). */
  datatype IpaKind = Universal | IPhone | IPad

  /** A supported device model: the console's model id and its name. */
  datatype DeviceModel = DeviceModel(modelId: int, modelName: string)

  /** The models `find_supported_device_models` lists, in the order it appends
      them. The IPA classification is consulted only for Apple files. */
  function ModelsFor(t: DeviceType, kind: IpaKind): seq<DeviceModel>
  {
    if t == Android then [DeviceModel(5, "Android")]
    else match kind
      case Universal => [DeviceModel(1, "iPhone"), DeviceModel(2, "iPad"), DeviceModel(3, "iPod Touch")]
      case IPhone => [DeviceModel(1, "iPhone"), DeviceModel(3, "iPod Touch")]
      case IPad => [DeviceModel(2, "iPad")]
  }

  /** Every list of models is non-empty with strictly ascending ids, Android
      files get exactly model 5 whatever the classification, Apple files never
      get it, and the iPhone-only and iPad-only lists are parts of the
      universal one. */
  lemma ModelsProperties(t: DeviceType, kind: IpaKind)
    ensures var ms := ModelsFor(t, kind);
            |ms| > 0 && (forall i, j :: 0 <= i < j < |ms| ==> ms[i].modelId < ms[j].modelId)
    ensures t == Android ==> ModelsFor(t, kind) == [DeviceModel(5, "Android")]
    ensures t == Apple ==> forall m :: m in ModelsFor(t, kind) ==> m.modelId != 5
    ensures t == Apple ==> forall m :: m in ModelsFor(t, kind) ==> m in ModelsFor(Apple, Universal)
  {
  }

  /** A model id is sent with the same name whichever file and classification
      listed it. */
  lemma ModelNamesAgree(t1: DeviceType, k1: IpaKind, t2: DeviceType, k2: IpaKind)
    ensures forall m1, m2 ::
              m1 in ModelsFor(t1, k1) && m2 in ModelsFor(t2, k2) && m1.modelId == m2.modelId ==> m1 == m2
  {
  }

  /** `create_model_for`: a hash with exactly the keys `ModelId` and
      `ModelName`, in that order. */
  function CreateModelFor(modelId: int, modelName: string): (j: Json)
    ensures Keys(j) == ["ModelId", "ModelName"]
    ensures Get(j, "ModelId") == Some(JInt(modelId))
    ensures Get(j, "ModelName") == Some(JStr(modelName))
  {
    var fields := [("ModelId", JInt(modelId)), ("ModelName", JStr(modelName))];
    LookupDistinct(fields, 0);
    LookupDistinct(fields, 1);
    JObj(fields)
  }

  function ModelsJson(ms: seq<DeviceModel>): (r: seq<Json>)
    ensures |r| == |ms|
    ensures forall k :: 0 <= k < |ms| ==> r[k] == CreateModelFor(ms[k].modelId, ms[k].modelName)
  {
    seq(|ms|, k requires 0 <= k < |ms| => CreateModelFor(ms[k].modelId, ms[k].modelName))
  }

  /** The `$supported_device_models` hash as JSON; its only possible key is
      `Model`. */
  function SupportedModelsJson(m: map<string, seq<Json>>): Json
    requires m.Keys <= {"Model"}
  {
    if "Model" in m then JObj([("Model", JArr(m["Model"]))]) else JObj([])
  }

  /** `upload_blob`: the file name and the organization group id are put into
      the URL as they are; the body is the raw file. */
  function UploadRequest(host: string, fileName: string, orgGroupId: string, pathToFile: string): Request
  {
    Request(POST, host + UPLOAD_BLOB_PATH + fileName + UPLOAD_BLOB_ORG_GROUP + orgGroupId, FileBody(pathToFile))
  }

  /** The body of `deploy_app`: exactly six keys in this order; the blob id is
      sent as its decimal string, and the organization group id doubles as the
      location group id. */
  function DeployBody(blobId: int, t: DeviceType, appName: string, supportedModels: Json,
                      pushMode: string, orgGroupId: string): (j: Json)
    ensures Keys(j) == ["BlobId", "DeviceType", "ApplicationName", "SupportedModels", "PushMode", "LocationGroupId"]
    ensures Get(j, "BlobId") == Some(JStr(Format(blobId)))
    ensures Get(j, "DeviceType") == Some(JStr(DeviceTypeName(t)))
    ensures Get(j, "ApplicationName") == Some(JStr(appName))
    ensures Get(j, "SupportedModels") == Some(supportedModels)
    ensures Get(j, "PushMode") == Some(JStr(pushMode))
    ensures Get(j, "LocationGroupId") == Some(JStr(orgGroupId))
  {
    var fields := [("BlobId", JStr(Format(blobId))), ("DeviceType", JStr(DeviceTypeName(t))),
                   ("ApplicationName", JStr(appName)), ("SupportedModels", supportedModels),
                   ("PushMode", JStr(pushMode)), ("LocationGroupId", JStr(orgGroupId))];
    DistinctInitials(fields, "BDASPL");
    LookupDistinct(fields, 0);
    LookupDistinct(fields, 1);
    LookupDistinct(fields, 2);
    LookupDistinct(fields, 3);
    LookupDistinct(fields, 4);
    LookupDistinct(fields, 5);
    JObj(fields)
  }

  /** Keys with pairwise different first letters are pairwise different. */
  lemma DistinctInitials(fields: seq<(string, Json)>, initials: string)
    requires |initials| == |fields|
    requires forall i :: 0 <= i < |fields| ==> |fields[i].0| > 0 && fields[i].0[0] == initials[i]
    requires forall i, j :: 0 <= i < j < |initials| ==> initials[i] != initials[j]
    ensures forall i, j :: 0 <= i < j < |fields| ==> fields[i].0 != fields[j].0
  {
    forall i, j | 0 <= i < j < |fields|
      ensures fields[i].0 != fields[j].0
    {
      assert fields[i].0[0] != fields[j].0[0];
    }
  }

  /** The console reads the `BlobId` string back as the blob id it returned. */
  lemma BlobIdRoundTrip(blobId: int, t: DeviceType, appName: string, supportedModels: Json,
                        pushMode: string, orgGroupId: string)
    ensures var b := Get(DeployBody(blobId, t, appName, supportedModels, pushMode, orgGroupId), "BlobId");
            b.Some? && b.value.JStr? && ToI(b.value.s) == blobId
  {
    FormatRoundTrip(blobId);
  }

  /** The action's global state: `$device_type` and `$supported_device_models`. */
  class Deployment {
    var deviceType: DeviceType
    var supportedDeviceModels: map<string, seq<Json>>

    /** The hash is only ever written under `Model`. */
    predicate Valid()
      reads this
    {
      supportedDeviceModels.Keys <= {"Model"}
    }

    /** The globals' initial values: `"Apple"` and an empty hash. */
    constructor ()
      ensures Valid()
      ensures deviceType == Apple && supportedDeviceModels == map[]
    {
      deviceType := Apple;
      supportedDeviceModels := map[];
    }

    /** `find_supported_device_models`: the models for the current device type
      (and, for Apple, the IPA's classification) are stored under `Model`; the
      hash itself is returned. */
    method FindSupportedDeviceModels(kind: IpaKind) returns (models: map<string, seq<Json>>)
      requires Valid()
      modifies this
      ensures Valid()
      ensures deviceType == old(deviceType)
      ensures supportedDeviceModels == old(supportedDeviceModels)["Model" := ModelsJson(ModelsFor(deviceType, kind))]
      ensures models == supportedDeviceModels
    {
      var deviceModels: seq<Json> := [];
      if deviceType == Android {
        deviceModels := deviceModels + [CreateModelFor(5, "Android")];
      } else {
        match kind
        case Universal =>
          deviceModels := deviceModels + [CreateModelFor(1, "iPhone")];
          deviceModels := deviceModels + [CreateModelFor(2, "iPad")];
          deviceModels := deviceModels + [CreateModelFor(3, "iPod Touch")];
        case IPhone =>
          deviceModels := deviceModels + [CreateModelFor(1, "iPhone")];
          deviceModels := deviceModels + [CreateModelFor(3, "iPod Touch")];
        case IPad =>
          deviceModels := deviceModels + [CreateModelFor(2, "iPad")];
      }
      assert deviceModels == ModelsJson(ModelsFor(deviceType, kind));
      supportedDeviceModels := supportedDeviceModels["Model" := deviceModels];
      models := supportedDeviceModels;
    }

    /** `run`: (1) the device type from the file name, a wrong type stopping the
      action with nothing sent and nothing changed; (2) the supported models;
      (3) the upload of the file, whose reply's `Value` is `blobValue`; (4) the
      registration request. The upload is sent once, before the registration. */
    method Run(fileName: string, pathToFile: string, kind: IpaKind, appName: string, pushMode: string,
               host: string, orgGroupId: string, blobValue: int) returns (r: Result<seq<Request>>)
      requires Valid()
      modifies this
      ensures Valid()
      ensures FindDeviceType(fileName).Err? ==>
                r == Err(UserError(WRONG_FILE_TYPE)) && unchanged(this)
      ensures FindDeviceType(fileName).Ok? ==>
                deviceType == FindDeviceType(fileName).value
                && supportedDeviceModels == old(supportedDeviceModels)["Model" := ModelsJson(ModelsFor(deviceType, kind))]
                && r == Ok([UploadRequest(host, fileName, orgGroupId, pathToFile),
                            Request(POST, host + BEGIN_INSTALL_SUFFIX,
                                    JsonBody(DeployBody(blobValue, deviceType, appName,
                                                        JObj([("Model", JArr(ModelsJson(ModelsFor(deviceType, kind))))]),
                                                        pushMode, orgGroupId)))])
    {
      var found := FindDeviceType(fileName);
      if found.Err? {
        return Err(found.error);
      }
      deviceType := found.value;
      var models := FindSupportedDeviceModels(kind);
      supportedDeviceModels := models;
      var sent: seq<Request> := [UploadRequest(host, fileName, orgGroupId, pathToFile)];
      var blobID := blobValue;
      assert SupportedModelsJson(supportedDeviceModels) == JObj([("Model", JArr(ModelsJson(ModelsFor(deviceType, kind))))]);
      var body := DeployBody(blobID, deviceType, appName, SupportedModelsJson(supportedDeviceModels), pushMode, orgGroupId);
      sent := sent + [Request(POST, host + BEGIN_INSTALL_SUFFIX, JsonBody(body))];
      assert sent == [UploadRequest(host, fileName, orgGroupId, pathToFile), Request(POST, host + BEGIN_INSTALL_SUFFIX, JsonBody(body))];
      return Ok(sent);
    }
  }
}
