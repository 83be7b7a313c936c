/** The HTTP router: route templates compiled once, requests matched segment by segment. */
module Router {
  import opened Getline

  datatype Verb = Get | Post | Put | Delete

  type PathParams = seq<(string, string)>

  /** A compiled route: parallel vectors over the segments. The handler is known by a number. */
  datatype Route = Route(verb: Verb, segments: seq<string>, paramNames: seq<string>, isDynamic: seq<bool>, handler: nat)

  /** `originForm` is the verdict of the URL parser on the target. */
  datatype Request = Request(verb: Verb, target: string, originForm: bool)

  datatype Response = Handled(handler: nat, params: PathParams) | NotFound | BadRequest

  /** A registration as the controllers write it. */
  datatype Registration = Registration(verb: Verb, template: string, handler: nat)

  function ExtractPath(target: string): string {
    target[..Find(target, '?')]
  }

  /** The segments of a path or a template; one leading slash is discarded. */
  function Segments(path: string): seq<string> {
    Split(if path != "" && path[0] == '/' then path[1..] else path, '/')
  }

  predicate IsDynamicParameter(segment: string) {
    segment != "" && segment[0] == '{' && segment[|segment| - 1] == '}'
  }

  function ParamName(segment: string): string
    requires IsDynamicParameter(segment)
  {
    segment[1..|segment| - 1]
  }

  /** A parameter is a name in braces. */
  lemma ParameterExactly(segment: string, name: string)
    ensures IsDynamicParameter(segment) && ParamName(segment) == name <==> segment == "{" + name + "}"
  {
    if IsDynamicParameter(segment) {
      assert segment == "{" + segment[1..|segment| - 1] + "}";
    }
    var braced := "{" + name + "}";
    assert braced[0] == '{' && braced[|braced| - 1] == '}' && braced[1..|braced| - 1] == name;
  }

  /** One slash in front makes no difference to the segments, a second one is an empty segment. */
  lemma LeadingSlash(path: string)
    ensures Segments("/" + path) == Split(path, '/')
    ensures path == "" || path[0] != '/' ==> Segments(path) == Split(path, '/')
  {
    assert ("/" + path)[1..] == path;
  }

  /** The text that a segment must equal; a parameter has none. */
  function StaticText(segment: string): string {
    if IsDynamicParameter(segment) then "" else segment
  }

  function NameOrEmpty(segment: string): string {
    if IsDynamicParameter(segment) then ParamName(segment) else ""
  }

  /** `route` is the compiled form of the registration. */
  predicate IsCompiled(route: Route, r: Registration) {
    var segments := Segments(r.template);
    && route.verb == r.verb && route.handler == r.handler
    && |route.segments| == |route.paramNames| == |route.isDynamic| == |segments|
    && forall i :: 0 <= i < |segments| ==>
         && route.segments[i] == StaticText(segments[i])
         && route.paramNames[i] == NameOrEmpty(segments[i])
         && route.isDynamic[i] == IsDynamicParameter(segments[i])
  }

  /** What it means for a request to match a registration: the same verb and, segment by segment,
      a parameter or the same text. */
  predicate Matches(r: Registration, verb: Verb, request: seq<string>) {
    && r.verb == verb
    && |Segments(r.template)| == |request|
    && forall i :: 0 <= i < |request| ==> IsDynamicParameter(Segments(r.template)[i]) || Segments(r.template)[i] == request[i]
  }

  /** The dynamic positions of the template, in order, with the text of the request. */
  function Bindings(template: seq<string>, request: seq<string>): PathParams
    requires |template| == |request|
    decreases |template|
  {
    if template == [] then []
    else Bindings(template[..|template| - 1], request[..|request| - 1]) +
         (var last := template[|template| - 1];
          if IsDynamicParameter(last) then [(ParamName(last), request[|request| - 1])] else [])
  }

  lemma BindingsSnoc(template: seq<string>, request: seq<string>, i: nat)
    requires i < |template| == |request|
    ensures Bindings(template[..i + 1], request[..i + 1])
            == Bindings(template[..i], request[..i]) + (if IsDynamicParameter(template[i]) then [(ParamName(template[i]), request[i])] else [])
  {
    assert template[..i + 1][..i] == template[..i] && request[..i + 1][..i] == request[..i];
  }

  /** Dispatch as promised: the earliest registration that matches. */
  function Dispatch(registrations: seq<Registration>, verb: Verb, request: seq<string>): Response
    decreases |registrations|
  {
    if registrations == [] then NotFound
    else if Matches(registrations[0], verb, request)
    then Handled(registrations[0].handler, Bindings(Segments(registrations[0].template), request))
    else Dispatch(registrations[1..], verb, request)
  }

  class Router {
    var routes: seq<Route>
    ghost var registrations: seq<Registration>

    ghost predicate Valid()
      reads this
    {
      |routes| == |registrations| && forall i :: 0 <= i < |routes| ==> IsCompiled(routes[i], registrations[i])
    }

    constructor ()
      ensures Valid() && registrations == []
    {
      routes, registrations := [], [];
    }

    method AddRoute(verb: Verb, pathTemplate: string, handler: nat)
      requires Valid()
      modifies this
      ensures Valid() && registrations == old(registrations) + [Registration(verb, pathTemplate, handler)]
    {
      var route := ProcessRouteTemplate(Registration(verb, pathTemplate, handler));
      routes := routes + [route];
      registrations := registrations + [Registration(verb, pathTemplate, handler)];
    }

    static method ProcessRouteTemplate(r: Registration) returns (route: Route)
      ensures IsCompiled(route, r)
    {
      var pieces := ReadAll(if r.template != "" && r.template[0] == '/' then r.template[1..] else r.template, '/');
      var segments, names, dynamic := [], [], [];
      for i := 0 to |pieces|
        invariant |segments| == |names| == |dynamic| == i
        invariant forall k :: 0 <= k < i ==> segments[k] == StaticText(pieces[k]) && names[k] == NameOrEmpty(pieces[k])
                                             && dynamic[k] == IsDynamicParameter(pieces[k])
      {
        if IsDynamicParameter(pieces[i]) {
          segments, names, dynamic := segments + [""], names + [ParamName(pieces[i])], dynamic + [true];
        } else {
          segments, names, dynamic := segments + [pieces[i]], names + [""], dynamic + [false];
        }
      }
      route := Route(r.verb, segments, names, dynamic, r.handler);
    }

    static method TryExtractParams(route: Route, ghost r: Registration, request: seq<string>) returns (matched: bool, params: PathParams)
      requires IsCompiled(route, r) && |route.segments| == |request|
      ensures matched <==> Matches(r, r.verb, request)
      ensures matched ==> params == Bindings(Segments(r.template), request)
    {
      ghost var template := Segments(r.template);
      params := [];
      for i := 0 to |route.segments|
        invariant params == Bindings(template[..i], request[..i])
        invariant forall k :: 0 <= k < i ==> IsDynamicParameter(template[k]) || template[k] == request[k]
      {
        BindingsSnoc(template, request, i);
        if route.isDynamic[i] {
          params := params + [(route.paramNames[i], request[i])];
        } else if route.segments[i] != request[i] {
          return false, params;
        }
      }
      assert template[..|template|] == template && request[..|request|] == request;
      matched := true;
    }

    /** First match wins, its parameters are its own, and 404 means that nothing matches. */
    method RouteRequest(req: Request) returns (r: Response)
      requires Valid()
      ensures r == if !req.originForm then BadRequest else Dispatch(registrations, req.verb, Segments(ExtractPath(req.target)))
    {
      if !req.originForm {
        return BadRequest;
      }
      var path := ExtractPath(req.target);
      var request := ReadAll(if path != "" && path[0] == '/' then path[1..] else path, '/');
      for i := 0 to |routes|
        invariant Dispatch(registrations, req.verb, request) == Dispatch(registrations[i..], req.verb, request)
      {
        assert registrations[i..][0] == registrations[i] && registrations[i..][1..] == registrations[i + 1..];
        if req.verb == routes[i].verb && |request| == |routes[i].segments| {
          var matched, params := TryExtractParams(routes[i], registrations[i], request);
          if matched {
            return Handled(routes[i].handler, params);
          }
        }
      }
      assert registrations[|routes|..] == [];
      r := NotFound;
    }
  }

  predicate IsFirstMatch(registrations: seq<Registration>, verb: Verb, request: seq<string>, i: int) {
    && 0 <= i < |registrations| && Matches(registrations[i], verb, request)
    && forall j :: 0 <= j < i ==> !Matches(registrations[j], verb, request)
  }

  /** Dispatch in terms of positions: the handler called is that of a matching registration before
      which none matches, with exactly its bindings; 404 exactly when no registration matches. */
  lemma {:induction false} DispatchIsFirstMatch(registrations: seq<Registration>, verb: Verb, request: seq<string>)
    ensures var r := Dispatch(registrations, verb, request);
            && !r.BadRequest?
            && (r.NotFound? <==> forall i :: 0 <= i < |registrations| ==> !Matches(registrations[i], verb, request))
            && (r.Handled? ==> exists i :: IsFirstMatch(registrations, verb, request, i)
                                           && r == Handled(registrations[i].handler, Bindings(Segments(registrations[i].template), request)))
    decreases |registrations|
  {
    if registrations != [] {
      var rest := registrations[1..];
      DispatchIsFirstMatch(rest, verb, request);
      assert forall i :: 0 <= i < |rest| ==> rest[i] == registrations[i + 1];
      if Matches(registrations[0], verb, request) {
        assert IsFirstMatch(registrations, verb, request, 0);
      } else {
        assert forall i :: 0 < i < |registrations| ==> registrations[i] == rest[i - 1];
        var r := Dispatch(rest, verb, request);
        if r.Handled? {
          var i :| IsFirstMatch(rest, verb, request, i)
            && r == Handled(rest[i].handler, Bindings(Segments(rest[i].template), request));
          assert IsFirstMatch(registrations, verb, request, i + 1);
        }
      }
    }
  }

  /** The dynamic positions of a template, in ascending order. */
  function DynamicPositions(template: seq<string>): seq<nat>
    decreases |template|
  {
    if template == [] then []
    else DynamicPositions(template[..|template| - 1]) +
         (if IsDynamicParameter(template[|template| - 1]) then [|template| - 1] else [])
  }

  lemma {:induction false} PositionsAreExactlyTheDynamic(template: seq<string>)
    ensures forall i :: i in DynamicPositions(template) <==> 0 <= i < |template| && IsDynamicParameter(template[i])
    ensures forall k, l :: 0 <= k < l < |DynamicPositions(template)| ==> DynamicPositions(template)[k] < DynamicPositions(template)[l]
    decreases |template|
  {
    if template != [] {
      var n := |template| - 1;
      PositionsAreExactlyTheDynamic(template[..n]);
      var before := DynamicPositions(template[..n]);
      assert forall k :: 0 <= k < |before| ==> before[k] in before;
      assert forall i :: 0 <= i < n ==> template[..n][i] == template[i];
    }
  }

  /** The k-th parameter of a match is the k-th dynamic position: its name and the request's text. */
  lemma {:induction false} BindingsFollowThePositions(template: seq<string>, request: seq<string>, k: nat)
    requires |template| == |request|
    ensures |Bindings(template, request)| == |DynamicPositions(template)|
    ensures k < |DynamicPositions(template)| ==>
            var i := DynamicPositions(template)[k];
            i < |template| && IsDynamicParameter(template[i]) && Bindings(template, request)[k] == (ParamName(template[i]), request[i])
    decreases |template|
  {
    if template != [] {
      var n := |template| - 1;
      BindingsFollowThePositions(template[..n], request[..n], k);
    }
  }
}
