/** The `MethodInterceptor` middleware of Sources/App/middleware.swift: a form
    POST whose body starts with `data_method=<value>` is turned into a PATCH or
    DELETE request before it is passed on to the next responder. */
module MethodOverride {
  import opened Outcomes
  import opened Strings

  datatype HttpMethod = GET | HEAD | POST | PUT | PATCH | DELETE | Other(name: string)

  /** The form field that names the intended method. */
  const OverrideKey: string := "data_method"

  /** What the middleware does with a request: pass it on with a method, or
      trap on `components(separatedBy: "=")[1]` out of range. */
  datatype Interception = Forward(httpMethod: HttpMethod) | Trap

  /** `fields.first(where: { $0.contains(key) })` */
  function FirstContaining(fields: seq<string>, key: string): (r: Option<string>)
    ensures r.Some? ==> r.value in fields && Contains(r.value, key)
    ensures r.None? <==> forall f :: f in fields ==> !Contains(f, key)
    ensures fields != [] && Contains(fields[0], key) ==> r == Some(fields[0])
    ensures r.Some? ==> exists i :: 0 <= i < |fields| && fields[i] == r.value &&
                          forall j :: 0 <= j < i ==> !Contains(fields[j], key)
  {
    if fields == [] then None
    else if Contains(fields[0], key) then Some(fields[0])
    else
      var rest := FirstContaining(fields[1..], key);
      assert forall f :: f in fields ==> f == fields[0] || f in fields[1..];
      rest
  }

  /** The `switch` on the extracted value: an exact, case-sensitive match. */
  function Requested(value: string): (m: HttpMethod)
    ensures m == PATCH <==> value == "patch"
    ensures m == DELETE <==> value == "delete"
    ensures m == POST <==> value != "patch" && value != "delete"
  {
    if value == "patch" then PATCH
    else if value == "delete" then DELETE
    else POST
  }

  /** The method the request leaves the middleware with, given the method
      and the body text it arrives with. */
  function Intercept(httpMethod: HttpMethod, body: string): (r: Interception)
    ensures httpMethod != POST ==> r == Forward(httpMethod)
    ensures httpMethod == POST && !HasPrefix(body, OverrideKey) ==> r == Forward(POST)
    ensures r.Forward? ==> r.httpMethod == httpMethod || (httpMethod == POST && r.httpMethod in {PATCH, DELETE})
    ensures r.Trap? ==> httpMethod == POST && HasPrefix(body, OverrideKey)
  {
    if httpMethod != POST then Forward(httpMethod)
    else if !HasPrefix(body, OverrideKey) then Forward(POST)
    else
      match FirstContaining(Split(body, '&'), OverrideKey)
      case None => Forward(POST)
      case Some(query) =>
        var parts := Split(query, '=');
        if |parts| < 2 then Trap else Forward(Requested(parts[1]))
  }

  /** Given the prefix check, the field the middleware picks is always the
      first `&`-separated field: the text before the first `&`. */
  lemma OverrideFieldIsFirst(body: string)
    requires HasPrefix(body, OverrideKey)
    ensures FirstContaining(Split(body, '&'), OverrideKey) == Some(body[..IndexOf(body, '&')])
  {
    assert forall k :: 0 <= k < |OverrideKey| ==> body[k] != '&';
    var first := body[..IndexOf(body, '&')];
    assert first[..|OverrideKey|] == OverrideKey;
    assert Contains(first, OverrideKey);
  }

  /** On a POST with the override prefix, the outcome is decided by the text
      between the first and the second `=` of the first field; a first field
      without `=` traps. */
  lemma InterceptReadsFirstField(body: string)
    requires HasPrefix(body, OverrideKey)
    ensures var first := body[..IndexOf(body, '&')];
            var eq := IndexOf(first, '=');
            && (eq == |first| <==> Intercept(POST, body) == Trap)
            && (eq < |first| ==>
                  var after := first[eq + 1..];
                  Intercept(POST, body) == Forward(Requested(after[..IndexOf(after, '=')])))
  {
    OverrideFieldIsFirst(body);
    var first := body[..IndexOf(body, '&')];
    var eq := IndexOf(first, '=');
    var parts := Split(first, '=');
    assert Intercept(POST, body) == (if |parts| < 2 then Trap else Forward(Requested(parts[1])));
    if eq < |first| {
      var after := first[eq + 1..];
      assert parts == [first[..eq]] + Split(after, '=');
      assert parts[1] == Split(after, '=')[0] == after[..IndexOf(after, '=')];
    }
  }

  /** A request as the middleware sees it: its method, which the middleware
      may overwrite, and the text of its body. */
  class Request {
    var httpMethod: HttpMethod
    const body: string

    constructor (httpMethod: HttpMethod, body: string)
      ensures this.httpMethod == httpMethod && this.body == body
    {
      this.httpMethod := httpMethod;
      this.body := body;
    }
  }

  /** `MethodInterceptor.respond(to:chainingTo:)`. Returns whether the request
      reaches the next responder; only its method can change. */
  method Respond(request: Request) returns (forwarded: bool)
    modifies request
    ensures var outcome := Intercept(old(request.httpMethod), request.body);
            && forwarded == outcome.Forward?
            && request.httpMethod == (if forwarded then outcome.httpMethod else old(request.httpMethod))
  {
    if request.httpMethod == POST {
      var description := request.body;
      if HasPrefix(description, OverrideKey) {
        var query := FirstContaining(Split(description, '&'), OverrideKey);
        if query.Some? {
          var parts := Split(query.value, '=');
          if |parts| < 2 {
            return false;
          }
          match parts[1]
          case "patch" => request.httpMethod := PATCH;
          case "delete" => request.httpMethod := DELETE;
          case _ =>
        }
      }
    }
    return true;
  }
}
