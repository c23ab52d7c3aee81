/**
  The Pingdom side: a check as listed by `GET /checks` and as returned in
  detail by `GET /checks/{id}`. Only the fields the translator reads are kept.
 */
module Pingdom {

  datatype Option<T> = None | Some(value: T)

  /** A tag record; only its name is read. */
  datatype Tag = Tag(name: string)

  /**
    The `type.http` object of an HTTP check. `requestHeaders` lists the
    entries of the `requestheaders` object in `Object.keys` order.
   */
  datatype HttpSettings = HttpSettings(
    port: int,
    url: string,
    shouldContain: Option<string>,
    shouldNotContain: Option<string>,
    requestHeaders: seq<(string, string)>)

  /** A detail record. `http` is `type.http`, absent for every other check type. */
  datatype PingdomCheck = PingdomCheck(
    id: int,
    name: string,
    status: string,
    hostname: string,
    resolution: int,
    probeFilters: seq<string>,
    tags: seq<Tag>,
    http: Option<HttpSettings>)

  /** An entry of the check listing: the driver reads only its id and status. */
  datatype CheckSummary = CheckSummary(id: int, status: string)

  /** JavaScript truthiness of an optional string: absent and "" are both false. */
  predicate Truthy(s: Option<string>) {
    s.Some? && s.value != ""
  }
}
