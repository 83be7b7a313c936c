/** The server's own routes, in the order in which its controllers register them, and what the
    client's resolved templates reach. A handler's number is the position of its registration. */
module ServerRoutes {
  import opened Getline
  import opened Router
  import opened RouteTemplates

  datatype Word =
    | Auth | Register | Login | Logout | Password
    | Users | Search | ByTag | PublicKey
    | Chats | Participants
    | Messages | Key | Read | Undelivered

  datatype Name = IdName | UserIdName | TagName

  /** A segment of a template. */
  datatype Seg = Static(word: Word) | Param(name: Name)

  datatype Entry = Entry(verb: Verb, segs: seq<Seg>)

  function Text(w: Word): string {
    match w
    case Auth => "auth"
    case Register => "register"
    case Login => "login"
    case Logout => "logout"
    case Password => "password"
    case Users => "users"
    case Search => "search"
    case ByTag => "tag"
    case PublicKey => "public-key"
    case Chats => "chats"
    case Participants => "participants"
    case Messages => "messages"
    case Key => "key"
    case Read => "read"
    case Undelivered => "undelivered"
  }

  function NameText(n: Name): string {
    match n
    case IdName => "id"
    case UserIdName => "user_id"
    case TagName => "tag"
  }

  function SegText(s: Seg): string {
    match s
    case Static(w) => Text(w)
    case Param(n) => "{" + NameText(n) + "}"
  }

  function Texts(segs: seq<Seg>): seq<string> {
    seq(|segs|, i requires 0 <= i < |segs| => SegText(segs[i]))
  }

  /** Each segment after its slash. */
  function TemplateText(segs: seq<Seg>): string {
    Tail(Texts(segs))
  }

  const READ_TEMPLATE := [Static(Messages), Param(IdName), Static(Read)]

  /** The registrations of AuthController, UserController, ChatController and MessageController. */
  function Route(i: nat): Entry
    requires i < ROUTE_COUNT
  {
    match i
    case 0 => Entry(Post, [Static(Auth), Static(Register)])
    case 1 => Entry(Post, [Static(Auth), Static(Login)])
    case 2 => Entry(Post, [Static(Auth), Static(Logout)])
    case 3 => Entry(Put, [Static(Auth), Static(Password)])
    case 4 => Entry(Get, [Static(Users), Static(Search)])
    case 5 => Entry(Get, [Static(Users), Param(IdName)])
    case 6 => Entry(Get, [Static(Users), Static(ByTag), Param(TagName)])
    case 7 => Entry(Get, [Static(Users), Param(IdName), Static(PublicKey)])
    case 8 => Entry(Post, [Static(Chats)])
    case 9 => Entry(Get, [Static(Chats)])
    case 10 => Entry(Get, [Static(Chats), Param(IdName)])
    case 11 => Entry(Get, [Static(Chats), Param(IdName), Static(Participants)])
    case 12 => Entry(Post, [Static(Chats), Param(IdName), Static(Participants)])
    case 13 => Entry(Delete, [Static(Chats), Param(IdName), Static(Participants), Param(UserIdName)])
    case 14 => Entry(Delete, [Static(Chats), Param(IdName)])
    case 15 => Entry(Post, [Static(Chats), Param(IdName), Static(Messages)])
    case 16 => Entry(Get, [Static(Chats), Param(IdName), Static(Messages)])
    case 17 => Entry(Get, [Static(Messages), Param(IdName), Static(Key)])
    case 18 => Entry(Put, READ_TEMPLATE)
    case 19 => Entry(Get, [Static(Messages), Static(Undelivered)])
    case _ => Entry(Delete, [Static(Messages), Param(IdName)])
  }

  const ROUTE_COUNT: nat := 21

  function Routes(): seq<Entry> {
    seq(ROUTE_COUNT, i requires 0 <= i < ROUTE_COUNT => Route(i))
  }

  const SEARCH_USERS: nat := 4
  const GET_BY_ID: nat := 5
  const GET_BY_TAG: nat := 6
  const GET_PUBLIC_KEY: nat := 7
  const READ_MESSAGE: nat := 18

  /** What AddRoute has been called with. */
  function Registered(entries: seq<Entry>): seq<Registration> {
    seq(|entries|, i requires 0 <= i < |entries| => Registration(entries[i].verb, TemplateText(entries[i].segs), i))
  }

  predicate Plain(s: string) {
    s != "" && Without(s, '/') && Without(s, '?') && Without(s, '{')
  }

  function Code(w: Word): (int, char) {
    (|Text(w)|, Text(w)[0])
  }

  lemma TextsArePlain(w: Word)
    ensures Plain(Text(w))
  {
  }

  lemma TextInjective(v: Word, w: Word)
    ensures Text(v) == Text(w) ==> v == w
  {
    if Text(v) == Text(w) {
      assert Code(v) == Code(w);
    }
  }

  /** A request that a template matches, segment by segment. */
  predicate Fits(segs: seq<Seg>, request: seq<string>) {
    |segs| == |request| && forall p :: 0 <= p < |segs| ==> segs[p].Param? || Text(segs[p].word) == request[p]
  }

  lemma SegShape(s: Seg)
    ensures SegText(s) != "" && Without(SegText(s), '/')
    ensures IsDynamicParameter(SegText(s)) <==> s.Param?
  {
    match s
    case Static(w) => TextsArePlain(w);
    case Param(n) =>
      assert Without(NameText(n), '/');
      assert Without("{", '/') && Without("}", '/');
  }

  lemma SegmentsOfTemplate(segs: seq<Seg>)
    requires segs != []
    ensures Segments(TemplateText(segs)) == Texts(segs)
  {
    var texts := Texts(segs);
    forall i | 0 <= i < |texts| ensures Without(texts[i], '/') && texts[i] != "" {
      SegShape(segs[i]);
    }
    SplitPieces(texts);
    SlashedHead(texts);
    LeadingSlash(texts[0] + Tail(texts[1..]));
  }

  lemma SlashedHead(pieces: seq<string>)
    requires pieces != []
    ensures Tail(pieces) == "/" + (pieces[0] + Tail(pieces[1..]))
  {
  }

  lemma SplitPieces(pieces: seq<string>)
    requires pieces != [] && forall i :: 0 <= i < |pieces| ==> Without(pieces[i], '/') && pieces[i] != ""
    ensures Split(pieces[0] + Tail(pieces[1..]), '/') == pieces
  {
    var rest := pieces[1..];
    forall p | p in rest ensures Without(p, '/') {
      var i :| 0 <= i < |rest| && rest[i] == p;
      assert p == pieces[i + 1];
    }
    assert rest != [] ==> rest[|rest| - 1] == pieces[|pieces| - 1];
    SplitTail(pieces[0], rest);
  }

  lemma MatchesExactly(entries: seq<Entry>, i: nat, verb: Verb, request: seq<string>)
    requires i < |entries| && entries[i].segs != []
    ensures Matches(Registered(entries)[i], verb, request) <==> entries[i].verb == verb && Fits(entries[i].segs, request)
  {
    var segs := entries[i].segs;
    SegmentsOfTemplate(segs);
    forall p | 0 <= p < |segs| ensures IsDynamicParameter(Texts(segs)[p]) <==> segs[p].Param? {
      SegShape(segs[p]);
    }
  }

  /** Some request may match both templates. */
  predicate Overlap(a: seq<Seg>, b: seq<Seg>) {
    |a| == |b| && forall p :: 0 <= p < |a| ==> Meet(a, b, p)
  }

  predicate Meet(a: seq<Seg>, b: seq<Seg>, p: nat)
    requires p < |a| == |b|
  {
    a[p].Param? || b[p].Param? || a[p] == b[p]
  }

  lemma BothFit(a: seq<Seg>, b: seq<Seg>, request: seq<string>)
    requires Fits(a, request) && Fits(b, request)
    ensures Overlap(a, b)
  {
    forall p | 0 <= p < |a| && a[p].Static? && b[p].Static? ensures a[p] == b[p] {
      TextInjective(a[p].word, b[p].word);
    }
  }

  /** Where the overlap of two templates is decided: no template has static text beyond the third
      segment. */
  lemma OverlapByParts(a: seq<Seg>, b: seq<Seg>)
    requires |a| == |b| && forall p :: 3 <= p < |a| ==> a[p].Param?
    ensures Overlap(a, b) <==> && (|a| > 0 ==> Meet(a, b, 0)) && (|a| > 1 ==> Meet(a, b, 1)) && (|a| > 2 ==> Meet(a, b, 2))
  {
  }

  lemma RouteShape(i: nat)
    requires i < ROUTE_COUNT
    ensures 1 <= |Route(i).segs| <= 4 && Route(i).segs[0].Static?
    ensures |Route(i).segs| == 4 ==> Route(i).segs[3].Param?
  {
  }

  /** Among all routes of one verb only two pairs overlap. */
  lemma OverlapsExactly(i: nat, k: nat)
    requires i < k < ROUTE_COUNT
    ensures Route(i).verb == Route(k).verb && Overlap(Route(i).segs, Route(k).segs)
            <==> (i == SEARCH_USERS && k == GET_BY_ID) || (i == GET_BY_TAG && k == GET_PUBLIC_KEY)
  {
    RouteShape(i);
    if |Route(i).segs| == |Route(k).segs| {
      OverlapByParts(Route(i).segs, Route(k).segs);
    }
  }

  lemma ReadOverlapsExactly(i: nat)
    requires i < ROUTE_COUNT
    ensures Overlap(Route(i).segs, READ_TEMPLATE) <==> i == READ_MESSAGE
  {
    RouteShape(i);
    if |Route(i).segs| == 3 {
      OverlapByParts(Route(i).segs, READ_TEMPLATE);
    }
  }

  /** The texts that a template with one parameter has around it. */
  function Words(words: seq<Word>): seq<Seg> {
    seq(|words|, i requires 0 <= i < |words| => Static(words[i]))
  }

  function WordTexts(words: seq<Word>): seq<string> {
    Texts(Words(words))
  }

  lemma FirstCharOccurs(s: string, text: string, i: nat)
    requires OccursAt(s, text, i) && text != ""
    ensures text[0] in s
  {
    assert s[i] == s[i..i + |text|][0];
  }

  lemma NoBraceNoPlaceholder(s: string, name: string)
    requires Without(s, '{')
    ensures !Contains(s, "{" + name + "}")
  {
    var target := "{" + name + "}";
    FindTextIsFirst(s, target);
    if FindText(s, target).Some? { FirstCharOccurs(s, target, FindText(s, target).value); }
  }

  lemma WordTextsArePlain(words: seq<Word>, p: string)
    requires p in WordTexts(words)
    ensures Plain(p) && !IsDynamicParameter(p)
  {
    var i :| 0 <= i < |words| && p == Text(words[i]);
    TextsArePlain(words[i]);
  }

  lemma WellFormedWords(before: seq<Word>, n: Name, after: seq<Word>)
    ensures WellFormed(WordTexts(before), NameText(n), WordTexts(after))
  {
    var b, a := WordTexts(before), WordTexts(after);
    forall p | p in b + a ensures Plain(p) && !IsDynamicParameter(p) {
      if p in b { WordTextsArePlain(before, p); } else { WordTextsArePlain(after, p); }
    }
    forall p | p in b ensures !Contains(p, "{" + NameText(n) + "}") {
      WordTextsArePlain(before, p);
      NoBraceNoPlaceholder(p, NameText(n));
    }
    assert a != [] ==> a[|a| - 1] in b + a;
    assert Without("id", '/') && Without("id", '?');
  }

  lemma {:induction false} TailOfParts(before: seq<string>, middle: string, after: seq<string>)
    ensures Tail(before + [middle] + after) == "/" + Slashed(before) + middle + Tail(after)
    decreases |before|
  {
    if before == [] {
      assert [] + [middle] + after == [middle] + after;
    } else {
      TailOfParts(before[1..], middle, after);
      var all := before + [middle] + after;
      assert all[1..] == before[1..] + [middle] + after && all[0] == before[0];
      assert Slashed(before) == before[0] + "/" + Slashed(before[1..]);
    }
  }

  /** A route with one parameter has a template of the form that the client resolves. */
  lemma OneParameter(before: seq<Word>, n: Name, after: seq<Word>)
    ensures TemplateText(Words(before) + [Param(n)] + Words(after)) == Template(WordTexts(before), NameText(n), WordTexts(after))
  {
    var segs := Words(before) + [Param(n)] + Words(after);
    assert Texts(segs) == WordTexts(before) + [SegText(Param(n))] + WordTexts(after);
    TailOfParts(WordTexts(before), SegText(Param(n)), WordTexts(after));
  }

  /** What the server makes of a resolved template. */
  function RequestFor(before: seq<Word>, id: string, after: seq<Word>): seq<string> {
    WordTexts(before) + if id == "" && after == [] then [] else [id] + WordTexts(after)
  }

  predicate Sendable(id: string, query: string) {
    Without(id, '/') && Without(id, '?') && (query == "" || query[0] == '?')
  }

  function Sent(segs: seq<Seg>, n: Name, id: string, query: string): seq<string> {
    Segments(ExtractPath(Resolved(TemplateText(segs), id, NameText(n)) + query))
  }

  lemma SentIs(before: seq<Word>, n: Name, after: seq<Word>, id: string, query: string)
    requires Sendable(id, query)
    ensures Sent(Words(before) + [Param(n)] + Words(after), n, id, query) == RequestFor(before, id, after)
  {
    OneParameter(before, n, after);
    WellFormedWords(before, n, after);
    RequestSegments(WordTexts(before), NameText(n), WordTexts(after), id, query);
  }

  lemma FitsItself(before: seq<Word>, n: Name, after: seq<Word>, id: string)
    ensures Fits(Words(before) + [Param(n)] + Words(after), RequestFor(before, id, after)) <==> id != "" || after != []
  {
  }

  /** The two overlaps, by the ids that fall into them. */
  predicate Shadowed(k: nat, id: string) {
    (k == GET_BY_ID && id == "search") || (k == GET_PUBLIC_KEY && id == "tag")
  }

  function Server(): seq<Registration> {
    Registered(Routes())
  }

  lemma RouteMatches(i: nat, verb: Verb, request: seq<string>)
    requires i < ROUTE_COUNT
    ensures Matches(Server()[i], verb, request) <==> Route(i).verb == verb && Fits(Route(i).segs, request)
  {
    RouteShape(i);
    MatchesExactly(Routes(), i, verb, request);
  }

  /** The parameter of the two routes that are shadowed is the second segment. */
  lemma ParameterPlace(before: seq<Word>, n: Name, after: seq<Word>, id: string)
    requires id != "" || after != []
    ensures var segs, request := Words(before) + [Param(n)] + Words(after), RequestFor(before, id, after);
            && |request| == |segs|
            && (|segs| >= 2 && segs[1].Param? ==> request[1] == id)
  {
  }

  /** An earlier route takes the request exactly in the two cases of Shadowed. */
  lemma EarlierFitExactly(i: nat, k: nat, before: seq<Word>, n: Name, after: seq<Word>, id: string)
    requires i < k < ROUTE_COUNT && Route(k).segs == Words(before) + [Param(n)] + Words(after)
    requires id != "" || after != []
    ensures Route(i).verb == Route(k).verb && Fits(Route(i).segs, RequestFor(before, id, after))
            <==> Shadowed(k, id) && i == k - 1
  {
    var request := RequestFor(before, id, after);
    FitsItself(before, n, after, id);
    ParameterPlace(before, n, after, id);
    OverlapsExactly(i, k);
    if Fits(Route(i).segs, request) {
      BothFit(Route(i).segs, Route(k).segs, request);
    }
  }

  lemma FirstUnlessBefore(k: nat, verb: Verb, request: seq<string>, shadowed: bool)
    requires k < ROUTE_COUNT && Matches(Server()[k], verb, request) && (shadowed ==> k > 0)
    requires forall i :: 0 <= i < k ==> (Matches(Server()[i], verb, request) <==> shadowed && i == k - 1)
    ensures IsFirstMatch(Server(), verb, request, k) <==> !shadowed
  {
    assert shadowed ==> Matches(Server()[k - 1], verb, request);
  }

  lemma FirstMatchExactly(k: nat, before: seq<Word>, n: Name, after: seq<Word>, id: string)
    requires k < ROUTE_COUNT && Route(k).segs == Words(before) + [Param(n)] + Words(after)
    ensures IsFirstMatch(Server(), Route(k).verb, RequestFor(before, id, after), k) <==> (id != "" || after != []) && !Shadowed(k, id)
  {
    var verb, request := Route(k).verb, RequestFor(before, id, after);
    RouteMatches(k, verb, request);
    FitsItself(before, n, after, id);
    if id != "" || after != [] {
      forall i | 0 <= i < k ensures Matches(Server()[i], verb, request) <==> Shadowed(k, id) && i == k - 1 {
        RouteMatches(i, verb, request);
        EarlierFitExactly(i, k, before, n, after, id);
      }
      FirstUnlessBefore(k, verb, request, Shadowed(k, id));
    }
  }

  /** Positions are handler numbers, so the k-th handler is called only for a first match at k. */
  lemma CalledForFirstMatch(k: nat, verb: Verb, request: seq<string>, params: PathParams)
    requires k < ROUTE_COUNT && Dispatch(Server(), verb, request) == Handled(k, params)
    ensures IsFirstMatch(Server(), verb, request, k)
  {
    DispatchIsFirstMatch(Server(), verb, request);
  }

  lemma FirstMatchGetsId(k: nat, before: seq<Word>, n: Name, after: seq<Word>, id: string, query: string)
    requires k < ROUTE_COUNT && Route(k).segs == Words(before) + [Param(n)] + Words(after) && Sendable(id, query)
    requires IsFirstMatch(Server(), Route(k).verb, Sent(Route(k).segs, n, id, query), k)
    ensures Dispatch(Server(), Route(k).verb, Sent(Route(k).segs, n, id, query)) == Handled(k, [(NameText(n), id)])
  {
    OneParameter(before, n, after);
    WellFormedWords(before, n, after);
    ResolvedPathRoutesBack(Server(), k, WordTexts(before), NameText(n), WordTexts(after), id, query);
  }

  /** For every route with one parameter and every id: the client's resolved template reaches that
      route's handler with this id, unless the id is empty at the end of the path or is the word of
      an earlier route, "search" or "tag". */
  lemma ReachedExactly(k: nat, before: seq<Word>, n: Name, after: seq<Word>, id: string, query: string)
    requires k < ROUTE_COUNT && Route(k).segs == Words(before) + [Param(n)] + Words(after) && Sendable(id, query)
    ensures Dispatch(Server(), Route(k).verb, Sent(Route(k).segs, n, id, query)) == Handled(k, [(NameText(n), id)])
            <==> (id != "" || after != []) && !Shadowed(k, id)
  {
    var verb, request := Route(k).verb, Sent(Route(k).segs, n, id, query);
    SentIs(before, n, after, id, query);
    FirstMatchExactly(k, before, n, after, id);
    if IsFirstMatch(Server(), verb, request, k) {
      FirstMatchGetsId(k, before, n, after, id, query);
    }
    if Dispatch(Server(), verb, request) == Handled(k, [(NameText(n), id)]) {
      CalledForFirstMatch(k, verb, request, [(NameText(n), id)]);
    }
  }

  lemma OnlyPutFits(i: nat, verb: Verb, request: seq<string>)
    requires i < ROUTE_COUNT && verb != Put && Fits(READ_TEMPLATE, request)
    ensures !Matches(Server()[i], verb, request)
  {
    RouteMatches(i, verb, request);
    ReadOverlapsExactly(i);
    if Fits(Route(i).segs, request) { BothFit(Route(i).segs, READ_TEMPLATE, request); }
  }

  lemma NoneIsNotFound(verb: Verb, request: seq<string>)
    requires forall i :: 0 <= i < ROUTE_COUNT ==> !Matches(Server()[i], verb, request)
    ensures Dispatch(Server(), verb, request) == NotFound
  {
    DispatchIsFirstMatch(Server(), verb, request);
  }

  lemma NothingElseReads(before: seq<Word>, after: seq<Word>, verb: Verb, id: string)
    requires READ_TEMPLATE == Words(before) + [Param(IdName)] + Words(after) && after != [] && verb != Put
    ensures Dispatch(Server(), verb, RequestFor(before, id, after)) == NotFound
  {
    var request := RequestFor(before, id, after);
    FitsItself(before, IdName, after, id);
    forall i | 0 <= i < ROUTE_COUNT ensures !Matches(Server()[i], verb, request) {
      OnlyPutFits(i, verb, request);
    }
    NoneIsNotFound(verb, request);
  }

  lemma ReadParts() returns (before: seq<Word>, after: seq<Word>)
    ensures READ_TEMPLATE == Words(before) + [Param(IdName)] + Words(after) && after != []
  {
    before, after := [Messages], [Read];
  }

  lemma PutReads(id: string, query: string)
    requires Sendable(id, query)
    ensures Dispatch(Server(), Put, Sent(READ_TEMPLATE, IdName, id, query)) == Handled(READ_MESSAGE, [("id", id)])
  {
    var before, after := ReadParts();
    assert Route(READ_MESSAGE) == Entry(Put, READ_TEMPLATE);
    ReachedExactly(READ_MESSAGE, before, IdName, after, id, query);
  }

  lemma OnlyPutReads(segs: seq<Seg>, verb: Verb, id: string, query: string)
    requires segs == READ_TEMPLATE && verb != Put && Sendable(id, query)
    ensures Dispatch(Server(), verb, Sent(segs, IdName, id, query)) == NotFound
  {
    var before, after := ReadParts();
    SentIs(before, IdName, after, id, query);
    NothingElseReads(before, after, verb, id);
  }

  /** The read route answers PUT only. The client sends POST, which is not found for any id. */
  lemma ReadNeedsPut(verb: Verb, id: string, query: string)
    requires Sendable(id, query)
    ensures Dispatch(Server(), verb, Sent(READ_TEMPLATE, IdName, id, query))
            == if verb == Put then Handled(READ_MESSAGE, [("id", id)]) else NotFound
  {
    if verb == Put {
      PutReads(id, query);
    } else {
      OnlyPutReads(READ_TEMPLATE, verb, id, query);
    }
  }

  /** The request is for a route that an earlier one of the same verb takes. */
  predicate Taken(k: nat, request: seq<string>) {
    |request| > 1 && ((k == GET_BY_ID && request[1] == "search") || (k == GET_PUBLIC_KEY && request[1] == "tag"))
  }

  lemma EarlierFits(i: nat, k: nat, request: seq<string>)
    requires i < k < ROUTE_COUNT && Fits(Route(k).segs, request)
    ensures Route(i).verb == Route(k).verb && Fits(Route(i).segs, request) <==> Taken(k, request) && i == k - 1
  {
    OverlapsExactly(i, k);
    if Fits(Route(i).segs, request) {
      BothFit(Route(i).segs, Route(k).segs, request);
    }
  }

  lemma FirstFit(k: nat, request: seq<string>)
    requires k < ROUTE_COUNT && Fits(Route(k).segs, request)
    ensures IsFirstMatch(Server(), Route(k).verb, request, k) <==> !Taken(k, request)
  {
    var verb := Route(k).verb;
    RouteMatches(k, verb, request);
    forall i | 0 <= i < k ensures Matches(Server()[i], verb, request) <==> Taken(k, request) && i == k - 1 {
      RouteMatches(i, verb, request);
      EarlierFits(i, k, request);
    }
    FirstUnlessBefore(k, verb, request, Taken(k, request));
  }

  /** The server's routing as a whole: a request whose verb and segments fit one of the 21 routes is
      answered by that route's handler with its own bindings, but for the two ids that earlier routes
      take, and a request that fits none is not found. */
  lemma ServerAnswersExactly(k: nat, request: seq<string>)
    requires k < ROUTE_COUNT && Fits(Route(k).segs, request)
    ensures Dispatch(Server(), Route(k).verb, request) == Handled(k, Bindings(Texts(Route(k).segs), request)) <==> !Taken(k, request)
  {
    FirstFit(k, request);
    RouteShape(k);
    SegmentsOfTemplate(Route(k).segs);
    if IsFirstMatch(Server(), Route(k).verb, request, k) {
      FirstMatchAnswers(Server(), Route(k).verb, request, k);
    }
    if Dispatch(Server(), Route(k).verb, request) == Handled(k, Bindings(Texts(Route(k).segs), request)) {
      CalledForFirstMatch(k, Route(k).verb, request, Bindings(Texts(Route(k).segs), request));
    }
  }

  lemma NotFoundExactly(verb: Verb, request: seq<string>)
    ensures Dispatch(Server(), verb, request) == NotFound <==> forall k: nat :: k < ROUTE_COUNT ==> !(Route(k).verb == verb && Fits(Route(k).segs, request))
  {
    DispatchIsFirstMatch(Server(), verb, request);
    forall k: nat | k < ROUTE_COUNT ensures Matches(Server()[k], verb, request) <==> Route(k).verb == verb && Fits(Route(k).segs, request) {
      RouteMatches(k, verb, request);
    }
  }
}
