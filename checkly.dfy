/**
  The Checkly side: the body posted to `POST /checks` for an API check.
  The request's `method` property is called `requestMethod` here, since
  `method` is a Dafny keyword.
 */
module Checkly {

  datatype Assertion = Assertion(source: string, target: string, property: string, comparison: string)

  datatype Header = Header(key: string, value: string)

  datatype Request = Request(
    url: string,
    requestMethod: string,
    assertions: seq<Assertion>,
    headers: seq<Header>)

  datatype ChecklyCheck = ChecklyCheck(
    name: string,
    checkType: string,
    frequency: int,
    activated: bool,
    request: Request,
    locations: seq<string>,
    tags: seq<string>)
}
