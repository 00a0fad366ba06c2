/** Value types shared by every action: results of a step that may raise a
    user error, the parsed-JSON values the actions build as request bodies,
    and the HTTP requests they issue. */
module Basics {

  datatype Option<T> = None | Some(value: T)

  /** `UI.user_error!` aborts the action with a message. */
  datatype Error = UserError(message: string)

  datatype Result<T> = Ok(value: T) | Err(error: Error)

  /** A JSON value as Ruby builds it before `to_json`; an object keeps its keys
      in insertion order, as a Ruby Hash does. */
  datatype Json =
    | JNull
    | JInt(i: int)
    | JStr(s: string)
    | JArr(items: seq<Json>)
    | JObj(fields: seq<(string, Json)>)

  /** The keys of an object, in insertion order. */
  function Keys(j: Json): seq<string>
  {
    if j.JObj? then seq(|j.fields|, i requires 0 <= i < |j.fields| => j.fields[i].0) else []
  }

  function Lookup(fields: seq<(string, Json)>, key: string): Option<Json>
  {
    if fields == [] then None
    else if fields[0].0 == key then Some(fields[0].1)
    else Lookup(fields[1..], key)
  }

  /** In an object whose keys are pairwise distinct, each key reads back the
      value stored under it. */
  lemma {:induction false} LookupDistinct(fields: seq<(string, Json)>, k: int)
    requires 0 <= k < |fields|
    requires forall i, j :: 0 <= i < j < |fields| ==> fields[i].0 != fields[j].0
    ensures Lookup(fields, fields[k].0) == Some(fields[k].1)
  {
    if k > 0 {
      assert fields[0].0 != fields[k].0;
      assert fields[1..][k - 1] == fields[k];
      LookupDistinct(fields[1..], k - 1);
    }
  }

  /** The value stored under `key` in an object (`hash[key]`). */
  function Get(j: Json, key: string): Option<Json>
  {
    if j.JObj? then Lookup(j.fields, key) else None
  }

  datatype Verb = GET | POST | PUT | DELETE

  /** What a request carries: nothing, a JSON body, or the raw bytes of a file. */
  datatype Payload = NoPayload | JsonBody(json: Json) | FileBody(path: string)

  /** One HTTP request as the actions issue it; the fixed headers (tenant code,
      Basic authorization, accept/content type) are the same on every request
      and are not part of the model. */
  datatype Request = Request(verb: Verb, url: string, payload: Payload)
}
