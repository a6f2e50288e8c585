/** The JSON tree that `json_tokener_parse` hands to the printer, reduced to the
    distinctions the printer makes. */
module Json {
  import opened Wrappers

  /** Strings, arrays and objects are kept. Inside a document, numbers, booleans
      and `null` are all `JOther`, since no check in the printer tells them apart.
      A whole document that is just `null` parses to a NULL pointer, which is
      `None` rather than `Some(JOther)`, so at the root `JOther` stands only for a
      number or a boolean. */
  datatype Json =
    | JString(text: string)
    | JArray(items: seq<Json>)
    | JObject(members: map<string, Json>)
    | JOther

  /** `json_object_object_get_ex(j, key, &v)`: `v` is set only when `j` is an
      object holding `key`; on any other container, or a missing key, it is NULL. */
  function Get(j: Json, key: string): Option<Json>
  {
    if j.JObject? && key in j.members then Some(j.members[key]) else None
  }
}
