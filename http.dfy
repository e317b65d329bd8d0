/** The slice of HTTP the development server's routing decision looks at. */
module Http {

  datatype Method = Get | Head | Post | Put | Delete | Options | Patch | Other(token: string)

  /** A request, reduced to its method and the path of its URI. */
  datatype Request = Request(verb: Method, path: string)

  datatype Status = OK | NOT_FOUND

  /** A response: `Response::new(body)` has status OK unless it is changed. */
  datatype Response = Response(status: Status, body: string)
}
