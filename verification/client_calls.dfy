/** The requests that the client's services make, and whether they reach the handlers they are for. */
module ClientCalls {
  import opened Getline
  import opened Router
  import opened RouteTemplates
  import opened ServerRoutes

  /** The requests of the client. */
  datatype ClientCall =
    | RegisterUser
    | LogIn
    | LogOut
    | FindUsers
    | GetUser
    | GetChats
    | CreateChat
    | GetChat
    | GetParticipants
    | SendMessage
    | GetHistory
    | GetKey
    | MarkAsRead
    | GetUndelivered

  /** The verb and the template that the client uses; `id` below is what it puts into the template. */
  function Used(c: ClientCall): Entry {
    match c
    case RegisterUser => Entry(Post, [Static(Auth), Static(Register)])
    case LogIn => Entry(Post, [Static(Auth), Static(Login)])
    case LogOut => Entry(Post, [Static(Auth), Static(Login)])
    case FindUsers => Entry(Get, [Static(Users), Static(Search)])
    case GetUser => Entry(Get, [Static(Users), Param(IdName)])
    case GetChats => Entry(Get, [Static(Chats)])
    case CreateChat => Entry(Post, [Static(Chats)])
    case GetChat => Entry(Get, [Static(Chats), Param(IdName)])
    case GetParticipants => Entry(Get, [Static(Chats), Param(IdName), Static(Participants)])
    case SendMessage => Entry(Post, [Static(Chats), Param(IdName), Static(Messages)])
    case GetHistory => Entry(Get, [Static(Chats), Param(IdName), Static(Messages)])
    case GetKey => Entry(Get, [Static(Messages), Param(IdName), Static(Key)])
    case MarkAsRead => Entry(Post, READ_TEMPLATE)
    case GetUndelivered => Entry(Get, [Static(Messages), Static(Undelivered)])
  }

  /** The number of the server's handler for it. */
  function Meant(c: ClientCall): nat {
    match c
    case RegisterUser => 0
    case LogIn => 1
    case LogOut => 2
    case FindUsers => SEARCH_USERS
    case GetUser => GET_BY_ID
    case CreateChat => 8
    case GetChats => 9
    case GetChat => 10
    case GetParticipants => 11
    case SendMessage => 15
    case GetHistory => 16
    case GetKey => 17
    case MarkAsRead => READ_MESSAGE
    case GetUndelivered => 19
  }

  predicate HasId(c: ClientCall) {
    c.GetUser? || c.GetChat? || c.GetParticipants? || c.SendMessage? || c.GetHistory? || c.GetKey? || c.MarkAsRead?
  }

  /** The target of the request, with its query string. */
  function Target(c: ClientCall, id: string, query: string): string {
    var template := TemplateText(Used(c).segs);
    (if HasId(c) then Resolved(template, id, "id") else template) + query
  }

  /** The server's answer, once the target parses. */
  function AnswerTo(c: ClientCall, id: string, query: string): Response {
    Dispatch(Server(), Used(c).verb, Segments(ExtractPath(Target(c, id, query))))
  }

  /** Ids and query strings as they can be in a request. */
  predicate IsRequest(id: string, query: string) {
    Without(id, '/') && Without(id, '?') && (query == "" || query[0] == '?')
  }

  lemma {:induction false} NoQuestionInTail(pieces: seq<string>)
    requires forall i :: 0 <= i < |pieces| ==> Without(pieces[i], '?')
    ensures Without(Tail(pieces), '?')
  {
    if pieces != [] {
      NoQuestionInTail(pieces[1..]);
    }
  }

  lemma PathOfTail(first: string, more: string, query: string)
    requires Without(first, '?') && Without(more, '?') && (query == "" || query[0] == '?')
    ensures Segments(ExtractPath("/" + first + more + query)) == Split(first + more, '/')
  {
    assert "/" + first + more == "/" + (first + more);
    PathOf(first + more, query);
  }

  lemma PathOfPieces(pieces: seq<string>, query: string)
    requires pieces != [] && (forall i :: 0 <= i < |pieces| ==> Without(pieces[i], '?')) && (query == "" || query[0] == '?')
    ensures Segments(ExtractPath(Tail(pieces) + query)) == Split(pieces[0] + Tail(pieces[1..]), '/')
  {
    NoQuestionInTail(pieces[1..]);
    PathOfTail(pieces[0], Tail(pieces[1..]), query);
  }

  lemma StaticRequest(words: seq<Word>, query: string)
    requires words != [] && (query == "" || query[0] == '?')
    ensures Segments(ExtractPath(TemplateText(Words(words)) + query)) == WordTexts(words)
  {
    var texts := WordTexts(words);
    forall i | 0 <= i < |texts| ensures Plain(texts[i]) {
      TextsArePlain(words[i]);
    }
    PathOfPieces(texts, query);
    SplitPieces(texts);
  }

  lemma StaticCall(k: nat, words: seq<Word>, query: string)
    requires k < ROUTE_COUNT && words != [] && ServerRoutes.Route(k).segs == Words(words) && (query == "" || query[0] == '?')
    ensures Dispatch(Server(), ServerRoutes.Route(k).verb, Segments(ExtractPath(TemplateText(Words(words)) + query))) == Handled(k, [])
  {
    StaticRequest(words, query);
    var segs, request := ServerRoutes.Route(k).segs, WordTexts(words);
    assert Fits(segs, request);
    assert forall i :: 0 <= i < |segs| ==> segs[i].Static?;
    ServerAnswersExactly(k, request);
    assert !Taken(k, request) by { OnlyParametersAreTaken(k, request); }
    forall p | p in Texts(segs) ensures !IsDynamicParameter(p) {
      WordTextsArePlain(words, p);
    }
    StaticBindings(Texts(segs), request);
  }

  lemma OnlyParametersAreTaken(k: nat, request: seq<string>)
    requires k < ROUTE_COUNT && forall i :: 0 <= i < |ServerRoutes.Route(k).segs| ==> ServerRoutes.Route(k).segs[i].Static?
    ensures !Taken(k, request)
  {
    assert |ServerRoutes.Route(k).segs| > 1 ==> ServerRoutes.Route(k).segs[1].Static?;
  }

  lemma IdCall(k: nat, before: seq<Word>, after: seq<Word>, c: ClientCall, id: string, query: string)
    requires k < ROUTE_COUNT && ServerRoutes.Route(k) == Used(c) && HasId(c) && IsRequest(id, query)
    requires Used(c).segs == Words(before) + [Param(IdName)] + Words(after)
    ensures AnswerTo(c, id, query) == Handled(k, [("id", id)]) <==> (id != "" || after != []) && !Shadowed(k, id)
  {
    ReachedExactly(k, before, IdName, after, id, query);
  }

  lemma WithoutId(c: ClientCall, id: string, query: string)
    requires !HasId(c) && IsRequest(id, query)
    ensures AnswerTo(c, id, query) == Handled(if c.LogOut? then 1 else Meant(c), [])
  {
    var k := if c.LogOut? then 1 else Meant(c);
    var words := StaticWords(c);
    assert ServerRoutes.Route(k) == Used(c);
    StaticCall(k, words, query);
  }

  lemma StaticWords(c: ClientCall) returns (words: seq<Word>)
    requires !HasId(c)
    ensures words != [] && Used(c).segs == Words(words)
  {
    match c
    case RegisterUser => words := [Auth, Register];
    case LogIn => words := [Auth, Login];
    case LogOut => words := [Auth, Login];
    case FindUsers => words := [Users, Search];
    case GetChats => words := [Chats];
    case CreateChat => words := [Chats];
    case GetUndelivered => words := [Messages, Undelivered];
  }

  lemma AroundId(c: ClientCall) returns (before: seq<Word>, after: seq<Word>)
    requires HasId(c)
    ensures Used(c).segs == Words(before) + [Param(IdName)] + Words(after)
    ensures after == [] <==> c.GetUser? || c.GetChat?
  {
    match c
    case GetUser => before, after := [Users], [];
    case GetChat => before, after := [Chats], [];
    case GetParticipants => before, after := [Chats], [Participants];
    case SendMessage => before, after := [Chats], [Messages];
    case GetHistory => before, after := [Chats], [Messages];
    case GetKey => before, after := [Messages], [Key];
    case MarkAsRead => before, after := [Messages], [Read];
  }

  lemma WithId(c: ClientCall, id: string, query: string)
    requires HasId(c) && !c.MarkAsRead? && IsRequest(id, query)
    ensures AnswerTo(c, id, query) == Handled(Meant(c), [("id", id)])
            <==> !GoesWrong(c, id)
  {
    var before, after := AroundId(c);
    assert ServerRoutes.Route(Meant(c)) == Used(c);
    IdCall(Meant(c), before, after, c, id, query);
  }

  /** The requests that do not arrive where they should. */
  predicate GoesWrong(c: ClientCall, id: string) {
    c.LogOut? || c.MarkAsRead? || (c.GetUser? && (id == "" || id == "search")) || (c.GetChat? && id == "")
  }

  lemma AnswerIs(c: ClientCall, id: string, query: string)
    requires HasId(c)
    ensures AnswerTo(c, id, query) == Dispatch(Server(), Used(c).verb, Sent(Used(c).segs, IdName, id, query))
  {
  }

  lemma MarkingIsNotFound(c: ClientCall, id: string, query: string)
    requires c.MarkAsRead? && IsRequest(id, query)
    ensures AnswerTo(c, id, query) == NotFound
  {
    UnknownVerb(c, Used(c).segs, Used(c).verb, id, query);
  }

  lemma UnknownVerb(c: ClientCall, segs: seq<Seg>, verb: Verb, id: string, query: string)
    requires HasId(c) && Used(c) == Entry(verb, segs) && segs == READ_TEMPLATE && verb != Put && IsRequest(id, query)
    ensures AnswerTo(c, id, query) == NotFound
  {
    AnswerIs(c, id, query);
    OnlyPutReads(segs, verb, id, query);
  }

  /** Which of the client's requests reach the handler that they are for, with their id as its only
      parameter: all but logging out, which reaches the handler of logging in; marking as read, which is
      not found; and three ids in requests that end in the id. */
  lemma CallsReachExactly(c: ClientCall, id: string, query: string)
    requires IsRequest(id, query)
    ensures AnswerTo(c, id, query) == Handled(Meant(c), if HasId(c) then [("id", id)] else []) <==> !GoesWrong(c, id)
    ensures c.LogOut? ==> AnswerTo(c, id, query) == Handled(Meant(LogIn), [])
    ensures c.MarkAsRead? ==> AnswerTo(c, id, query) == NotFound
  {
    if !HasId(c) {
      WithoutId(c, id, query);
    } else if c.MarkAsRead? {
      MarkingIsNotFound(c, id, query);
    } else {
      WithId(c, id, query);
    }
  }
}
