// What the i18n package sees of its host, the buffalo request context: the
// request's cookies, session, Accept-Language header, route parameters and URL
// path, and the logger, reduced to the fact that a line was emitted.

module Host {

  /** The request-side signals an extractor may read. Values of the session
      are strings: the session extractor asserts that type. */
  datatype Request = Request(
    cookies: map<string, string>,
    session: map<string, string>,
    acceptLanguage: string,
    params: map<string, string>,
    path: string)

  /** c.Param(name): the empty string when the request has no such parameter. */
  function Param(req: Request, name: string): string
  {
    if name in req.params then req.params[name] else ""
  }

  /** One line written to the context's logger; `subject` is the file or option it is about. */
  datatype LogLine = LogInfo(subject: string) | LogError(subject: string)
}
