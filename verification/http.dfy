/** The HTTP requests the hooks issue through the shared axios client. */
module Http {
  datatype Method = Get | Post | Put | Patch | Delete

  /** A request: its verb and its path relative to the API base URL. */
  datatype Request = Request(verb: Method, path: string)
}
