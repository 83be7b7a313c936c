/** The client's substitution of an id into a route template, and the server's router: one undoes
    the other. */
module RouteTemplates {
  import opened Wrappers
  import opened Getline
  import opened Router

  /** std::string::find for a substring. */
  function FindText(s: string, text: string): Option<nat> {
    if text <= s then Some(0)
    else if s == "" then None
    else match FindText(s[1..], text)
      case None => None
      case Some(i) => Some(i + 1)
  }

  lemma {:induction false} FindTextBounds(s: string, text: string)
    ensures var r := FindText(s, text); r.Some? ==> r.value + |text| <= |s| && s[r.value..r.value + |text|] == text
  {
    if !(text <= s) && s != "" {
      FindTextBounds(s[1..], text);
    }
  }

  predicate OccursAt(s: string, text: string, i: nat) {
    i + |text| <= |s| && s[i..i + |text|] == text
  }

  /** `find` answers the first occurrence, or that there is none. */
  lemma {:induction false} FindTextIsFirst(s: string, text: string)
    ensures match FindText(s, text)
            case None => forall i: nat :: !OccursAt(s, text, i)
            case Some(pos) => OccursAt(s, text, pos) && forall i: nat :: i < pos ==> !OccursAt(s, text, i)
    decreases |s|
  {
    assert text <= s <==> OccursAt(s, text, 0);
    if !(text <= s) && s != "" {
      FindTextIsFirst(s[1..], text);
      forall i: nat ensures OccursAt(s, text, i) <==> i > 0 && OccursAt(s[1..], text, i - 1) {
        if i > 0 && i + |text| <= |s| {
          assert s[i..i + |text|] == s[1..][i - 1..i - 1 + |text|];
        }
      }
    }
  }

  function Resolved(template: string, id: string, name: string): string {
    var target := "{" + name + "}";
    FindTextBounds(template, target);
    match FindText(template, target)
    case None => template
    case Some(pos) => template[..pos] + id + template[pos + |target|..]
  }

  /** A text whose first occurrence of `target` has become `id`, the rest as it was; the text
      itself where `target` does not occur. */
  ghost predicate FirstReplaced(text: string, target: string, id: string, r: string) {
    || ((forall i: nat :: !OccursAt(text, target, i)) && r == text)
    || exists a, c :: text == a + target + c && r == a + id + c && forall i: nat :: i < |a| ==> !OccursAt(text, target, i)
  }

  /** Edits a copy of the template in place. */
  method ResolveIdRoute(routeTemplate: string, idValue: string, idParamName: string) returns (resolved: string)
    ensures FirstReplaced(routeTemplate, "{" + idParamName + "}", idValue, resolved)
    ensures resolved == Resolved(routeTemplate, idValue, idParamName)
  {
    resolved := routeTemplate;
    var target := "{" + idParamName + "}";
    var pos := FindText(resolved, target);
    FindTextBounds(resolved, target);
    FindTextIsFirst(resolved, target);
    if pos.Some? {
      resolved := resolved[..pos.value] + idValue + resolved[pos.value + |target|..];
      ReplacedAt(routeTemplate, target, idValue, pos.value);
    }
  }

  lemma ReplacedAt(text: string, target: string, id: string, pos: nat)
    requires OccursAt(text, target, pos) && forall i: nat :: i < pos ==> !OccursAt(text, target, i)
    ensures FirstReplaced(text, target, id, text[..pos] + id + text[pos + |target|..])
  {
    var a, c := text[..pos], text[pos + |target|..];
    assert text == a + target + c;
  }

  /** The pieces, each followed by a slash. */
  function Slashed(pieces: seq<string>): string {
    if pieces == [] then "" else pieces[0] + "/" + Slashed(pieces[1..])
  }

  predicate Contains(s: string, text: string) {
    FindText(s, text).Some?
  }

  predicate Without(s: string, d: char) {
    d !in s
  }

  /** The template with parameter `name` between the segments `before` and `after`. */
  function Template(before: seq<string>, name: string, after: seq<string>): string {
    "/" + Slashed(before) + "{" + name + "}" + Tail(after)
  }

  /** Each piece after its slash. */
  function Tail(pieces: seq<string>): string {
    if pieces == [] then "" else "/" + pieces[0] + Tail(pieces[1..])
  }

  /** A well-formed template: static segments without slashes, none of those before the parameter
      contains its placeholder, and the last one is not empty. */
  predicate WellFormed(before: seq<string>, name: string, after: seq<string>) {
    && Without(name, '/') && Without(name, '?')
    && (forall p :: p in before + after ==> Without(p, '/') && Without(p, '?') && !IsDynamicParameter(p))
    && (forall p :: p in before ==> !Contains(p, "{" + name + "}"))
    && (after != [] ==> after[|after| - 1] != "")
  }

  lemma PrefixCases(piece: string, more: string, text: string)
    requires text <= piece + "/" + more
    ensures text <= piece || '/' in text
  {
    if |text| <= |piece| {
      assert text == (piece + "/" + more)[..|text|] == piece[..|text|];
    } else {
      assert text[|piece|] == '/';
    }
  }

  lemma {:induction false} SkipPiece(piece: string, more: string, text: string)
    requires Without(piece, '/') && Without(text, '/') && text != "" && !Contains(piece, text)
    ensures FindText(piece + "/" + more, text) == match FindText(more, text) { case None => None case Some(i) => Some(|piece| + 1 + i) }
    decreases |piece|
  {
    var s := piece + "/" + more;
    if text <= s { PrefixCases(piece, more, text); }
    if piece == "" {
      assert s[1..] == more;
    } else {
      assert s[1..] == piece[1..] + "/" + more;
      SkipPiece(piece[1..], more, text);
    }
  }

  /** The placeholder is found where the template has its parameter, not inside a segment. */
  lemma {:induction false} FindPlaceholder(before: seq<string>, text: string, more: string)
    requires Without(text, '/') && text != ""
    requires forall p :: p in before ==> Without(p, '/') && !Contains(p, text)
    ensures FindText(Slashed(before) + text + more, text) == Some(|Slashed(before)|)
    decreases |before|
  {
    if before == [] {
      assert Slashed(before) + text + more == text + more;
      assert text <= text + more;
    } else {
      var rest := Slashed(before[1..]) + text + more;
      assert Slashed(before) + text + more == before[0] + "/" + rest;
      SkipPiece(before[0], rest, text);
      FindPlaceholder(before[1..], text, more);
    }
  }

  lemma FindInTemplate(before: seq<string>, name: string, after: seq<string>)
    requires WellFormed(before, name, after)
    ensures FindText(Template(before, name, after), "{" + name + "}") == Some(|Slashed(before)| + 1)
  {
    var target, t := "{" + name + "}", Template(before, name, after);
    assert Without(target, '/');
    assert forall p :: p in before ==> p in before + after;
    var body := Slashed(before) + target + Tail(after);
    FindPlaceholder(before, target, Tail(after));
    assert t == "/" + body;
    FindAfterSlash(body, target);
  }

  lemma FindAfterSlash(body: string, text: string)
    requires text != "" && Without(text, '/')
    ensures FindText("/" + body, text) == match FindText(body, text) { case None => None case Some(i) => Some(i + 1) }
  {
    var s := "/" + body;
    assert s[1..] == body && s[0] == '/';
    assert text[0] in text;
  }

  lemma ResolveTemplate(before: seq<string>, name: string, after: seq<string>, id: string)
    requires WellFormed(before, name, after)
    ensures Resolved(Template(before, name, after), id, name) == "/" + Slashed(before) + id + Tail(after)
  {
    var a, target, c := "/" + Slashed(before), "{" + name + "}", Tail(after);
    FindInTemplate(before, name, after);
    assert Template(before, name, after) == a + target + c;
    Cut(a, target, c, id);
  }

  lemma Cut(a: string, b: string, c: string, id: string)
    ensures (a + b + c)[..|a|] + id + (a + b + c)[|a| + |b|..] == a + id + c
  {
    assert (a + b + c)[..|a|] == a && (a + b + c)[|a| + |b|..] == c;
  }

  lemma {:induction false} SplitTail(middle: string, after: seq<string>)
    requires Without(middle, '/') && forall p :: p in after ==> Without(p, '/')
    requires after != [] ==> after[|after| - 1] != ""
    ensures Split(middle + Tail(after), '/') == if middle == "" && after == [] then [] else [middle] + after
    decreases |after|
  {
    if after != [] {
      var rest := after[0] + Tail(after[1..]);
      assert after == [after[0]] + after[1..];
      assert middle + Tail(after) == middle + ['/'] + rest by {
        assert Tail(after) == ['/'] + rest;
      }
      SplitCons(middle, rest, '/');
      SplitTail(after[0], after[1..]);
    } else {
      assert middle + Tail(after) == middle;
      if middle != "" { SplitOne(middle, '/'); }
    }
  }

  /** Splitting a path into the segments it was put together from. */
  lemma {:induction false} SplitPath(before: seq<string>, middle: string, after: seq<string>)
    requires Without(middle, '/')
    requires (forall p :: p in before ==> Without(p, '/')) && forall p :: p in after ==> Without(p, '/')
    requires after != [] ==> after[|after| - 1] != ""
    ensures Split(Slashed(before) + middle + Tail(after), '/') == before + (if middle == "" && after == [] then [] else [middle] + after)
    decreases |before|
  {
    if before != [] {
      var rest := Slashed(before[1..]) + middle + Tail(after);
      assert before == [before[0]] + before[1..];
      assert Slashed(before) + middle + Tail(after) == before[0] + ['/'] + rest;
      assert before[0] in before && Without(before[0], '/');
      SplitCons(before[0], rest, '/');
      SplitPath(before[1..], middle, after);
    } else {
      assert Slashed(before) + middle + Tail(after) == middle + Tail(after);
      SplitTail(middle, after);
    }
  }

  lemma WellFormedSides(before: seq<string>, name: string, after: seq<string>)
    requires WellFormed(before, name, after)
    ensures forall p :: p in before ==> Without(p, '/')
    ensures forall p :: p in after ==> Without(p, '/')
  {
    assert forall p :: p in before || p in after ==> p in before + after;
  }

  lemma {:induction false} NoQuestionMark(before: seq<string>, middle: string, after: seq<string>)
    requires Without(middle, '?') && forall p :: p in before + after ==> Without(p, '?')
    ensures Without(Slashed(before) + middle + Tail(after), '?')
    decreases |before|, |after|
  {
    if before != [] {
      assert before[0] in before + after;
      assert forall p :: p in before[1..] + after ==> p in before + after;
      NoQuestionMark(before[1..], middle, after);
      assert Slashed(before) + middle + Tail(after) == before[0] + "/" + (Slashed(before[1..]) + middle + Tail(after));
    } else if after != [] {
      assert after[0] in before + after;
      assert forall p :: p in [] + after[1..] ==> p in before + after;
      NoQuestionMark([], after[0], after[1..]);
      assert Slashed(before) + middle + Tail(after) == middle + "/" + (Slashed([]) + after[0] + Tail(after[1..]));
    }
  }

  /** The segments that the server sees of a resolved template, with or without a query string. */
  lemma RequestSegments(before: seq<string>, name: string, after: seq<string>, id: string, query: string)
    requires WellFormed(before, name, after) && Without(id, '/') && Without(id, '?')
    requires query == "" || query[0] == '?'
    ensures Segments(ExtractPath(Resolved(Template(before, name, after), id, name) + query))
            == before + (if id == "" && after == [] then [] else [id] + after)
  {
    ResolveTemplate(before, name, after, id);
    var body := Slashed(before) + id + Tail(after);
    NoQuestionMark(before, id, after);
    assert Resolved(Template(before, name, after), id, name) == "/" + body;
    PathOf(body, query);
    WellFormedSides(before, name, after);
    SplitPath(before, id, after);
  }

  lemma PathOf(body: string, query: string)
    requires Without(body, '?') && (query == "" || query[0] == '?')
    ensures Segments(ExtractPath("/" + body + query)) == Split(body, '/')
  {
    var path := "/" + body;
    assert (path + query)[..|path|] == path;
    FindAt(path + query, '?', |path|);
    assert path[1..] == body;
  }

  lemma TemplateSegments(before: seq<string>, name: string, after: seq<string>)
    requires WellFormed(before, name, after)
    ensures Segments(Template(before, name, after)) == before + ["{" + name + "}"] + after
  {
    var target := "{" + name + "}";
    assert target != "" && Without(target, '/');
    assert Template(before, name, after) == "/" + (Slashed(before) + target + Tail(after));
    WellFormedSides(before, name, after);
    SlashedSegments(before, target, after);
  }

  lemma SlashedSegments(before: seq<string>, middle: string, after: seq<string>)
    requires Without(middle, '/') && middle != ""
    requires (forall p :: p in before ==> Without(p, '/')) && forall p :: p in after ==> Without(p, '/')
    requires after != [] ==> after[|after| - 1] != ""
    ensures Segments("/" + (Slashed(before) + middle + Tail(after))) == before + [middle] + after
  {
    var body := Slashed(before) + middle + Tail(after);
    assert ("/" + body)[1..] == body;
    SplitPath(before, middle, after);
    assert before + ([middle] + after) == before + [middle] + after;
  }

  lemma {:induction false} StaticBindings(template: seq<string>, request: seq<string>)
    requires |template| == |request| && forall p :: p in template ==> !IsDynamicParameter(p)
    ensures Bindings(template, request) == []
    decreases |template|
  {
    if template != [] {
      var n := |template| - 1;
      assert template[n] in template;
      StaticBindings(template[..n], request[..n]);
    }
  }

  lemma {:induction false} OneBinding(before: seq<string>, segment: string, after: seq<string>, id: string)
    requires IsDynamicParameter(segment) && forall p :: p in before + after ==> !IsDynamicParameter(p)
    ensures Bindings(before + [segment] + after, before + [id] + after) == [(ParamName(segment), id)]
    decreases |after|
  {
    var t, r := before + [segment] + after, before + [id] + after;
    if after == [] {
      assert t[..|t| - 1] == before && r[..|r| - 1] == before;
      assert forall p :: p in before ==> p in before + after;
      StaticBindings(before, before);
    } else {
      var n := |after| - 1;
      assert after[n] in before + after;
      assert forall p :: p in before + after[..n] ==> p in before + after;
      assert t[..|t| - 1] == before + [segment] + after[..n] && r[..|r| - 1] == before + [id] + after[..n];
      OneBinding(before, segment, after[..n], id);
    }
  }

  /** A router with any routes, of which number i is the template's: a resolved path, whatever the
      query string, matches that route unless its id is empty and at the end of the path, and where
      no earlier route matches, the answer is that route's handler with exactly the name and the id. */
  lemma ResolvedPathRoutesBack(registrations: seq<Registration>, i: nat,
      before: seq<string>, name: string, after: seq<string>, id: string, query: string)
    requires i < |registrations| && registrations[i].template == Template(before, name, after)
    requires WellFormed(before, name, after) && Without(id, '/') && Without(id, '?')
    requires query == "" || query[0] == '?'
    ensures var verb := registrations[i].verb;
            var request := Segments(ExtractPath(Resolved(Template(before, name, after), id, name) + query));
            && (Matches(registrations[i], verb, request) <==> id != "" || after != [])
            && (IsFirstMatch(registrations, verb, request, i) ==> Dispatch(registrations, verb, request) == Handled(registrations[i].handler, [(name, id)]))
  {
    var r := registrations[i];
    RequestSegments(before, name, after, id, query);
    Answer(r, before, name, after, id);
    var request := before + (if id == "" && after == [] then [] else [id] + after);
    if IsFirstMatch(registrations, r.verb, request, i) {
      FirstMatchAnswers(registrations, r.verb, request, i);
    }
  }

  /** Only one position can be the first match, so its handler answers. */
  lemma FirstMatchAnswers(registrations: seq<Registration>, verb: Verb, request: seq<string>, i: nat)
    requires IsFirstMatch(registrations, verb, request, i)
    ensures Dispatch(registrations, verb, request) == Handled(registrations[i].handler, Bindings(Segments(registrations[i].template), request))
  {
    DispatchIsFirstMatch(registrations, verb, request);
  }

  lemma Answer(r: Registration, before: seq<string>, name: string, after: seq<string>, id: string)
    requires WellFormed(before, name, after) && r.template == Template(before, name, after)
    ensures var request := before + (if id == "" && after == [] then [] else [id] + after);
            && (Matches(r, r.verb, request) <==> id != "" || after != [])
            && (Matches(r, r.verb, request) ==> Bindings(Segments(r.template), request) == [(name, id)])
  {
    var segment := "{" + name + "}";
    TemplateSegments(before, name, after);
    assert IsDynamicParameter(segment) && ParamName(segment) == name;
    if id != "" || after != [] {
      assert before + ([id] + after) == before + [id] + after;
      MatchesItself(r, before, segment, after, id);
      OneBinding(before, segment, after, id);
    } else {
      assert |before + [segment] + after| != |before + []|;
    }
  }

  lemma MatchesItself(r: Registration, before: seq<string>, segment: string, after: seq<string>, id: string)
    requires Segments(r.template) == before + [segment] + after && IsDynamicParameter(segment)
    ensures Matches(r, r.verb, before + [id] + after)
  {
    var template, request := before + [segment] + after, before + [id] + after;
    assert forall i :: 0 <= i < |request| && i != |before| ==> template[i] == request[i];
  }
}
