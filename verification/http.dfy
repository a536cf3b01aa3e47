/** PSR-7 requests and responses, reduced to what the middleware reads and writes. */
module Http {

  /** An inbound request: its cookie parameters and its query parameters. */
  datatype HttpRequest = HttpRequest(cookies: map<string, string>, query: map<string, string>)

  /** A response: status code, header lines by name, body. */
  datatype HttpResponse = HttpResponse(status: int, headers: map<string, seq<string>>, body: string)

  const SetCookie: string := "Set-Cookie"

  /** All values of one header, in the order they were added. */
  function HeaderValues(response: HttpResponse, name: string): seq<string> {
    if name in response.headers then response.headers[name] else []
  }

  /** `$response->withAddedHeader($name, $value)`. */
  function WithAddedHeader(response: HttpResponse, name: string, value: string): (r: HttpResponse)
    ensures HeaderValues(r, name) == HeaderValues(response, name) + [value]
    ensures forall other :: other != name ==> HeaderValues(r, other) == HeaderValues(response, other)
    ensures r.status == response.status && r.body == response.body
  {
    response.(headers := response.headers[name := HeaderValues(response, name) + [value]])
  }

  /** `new RedirectResponse($uri, $status, $headers)`: empty body, the given headers plus `location`. */
  function RedirectResponse(location: string, status: int, headers: map<string, seq<string>>): (r: HttpResponse)
    ensures r.status == status && r.body == ""
    ensures HeaderValues(r, "location") == [location]
    ensures forall other :: other != "location" ==> HeaderValues(r, other) == (if other in headers then headers[other] else [])
  {
    HttpResponse(status, headers["location" := [location]], "")
  }
}
