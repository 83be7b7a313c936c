/** User ids are UUID columns in the database, but plain texts in the program. A request may spell a
    UUID in several ways; the database takes each of them for the same id and always answers with
    one, while the program compares the texts. */
module Uuids {
  import opened Wrappers
  import opened Sequences
  import opened SymbolicCrypto
  import opened Tables

  /** The spelling with which the database answers. */
  type Canon = UserId -> UserId

  ghost predicate IsCanon(canon: Canon) {
    forall u :: canon(canon(u)) == canon(u)
  }

  /** The stored ids are spelled as the database spells them. */
  ghost predicate StoredCanonically(t: Tables, canon: Canon) {
    forall u :: u in t.users ==> canon(u) == u
  }

  function Images(canon: Canon, users: seq<UserId>): (r: seq<UserId>)
    ensures |r| == |users|
  {
    seq(|users|, i requires 0 <= i < |users| => canon(users[i]))
  }

  function Image(canon: Canon, users: set<UserId>): set<UserId> {
    set u | u in users :: canon(u)
  }

  /** No id is there in two spellings. */
  predicate OneSpelling(canon: Canon, users: set<UserId>) {
    forall u, v :: u in users && v in users && canon(u) == canon(v) ==> u == v
  }

  /** A list of distinct texts is a list of distinct ids exactly when no id is spelled in two ways. */
  lemma DistinctImages(canon: Canon, users: seq<UserId>)
    requires Distinct(users)
    ensures Elements(Images(canon, users)) == Image(canon, Elements(users))
    ensures Distinct(Images(canon, users)) <==> OneSpelling(canon, Elements(users))
  {
    var images := Images(canon, users);
    forall c | c in Image(canon, Elements(users)) ensures c in images {
      var u :| u in Elements(users) && canon(u) == c;
      var i :| 0 <= i < |users| && users[i] == u;
      assert images[i] == c;
    }
    forall i | 0 <= i < |users| ensures images[i] in Image(canon, Elements(users)) {
      assert users[i] in Elements(users);
    }
    if Distinct(images) {
      forall u, v | u in Elements(users) && v in Elements(users) && canon(u) == canon(v) ensures u == v {
        var i, j :| 0 <= i < |users| && users[i] == u && 0 <= j < |users| && users[j] == v;
        assert images[i] == images[j];
      }
    } else {
      var i, j :| 0 <= i < j < |images| && images[i] == images[j];
      assert users[i] in Elements(users) && users[j] in Elements(users);
    }
  }

  lemma {:induction false} ImageSize(canon: Canon, users: set<UserId>)
    requires OneSpelling(canon, users)
    ensures |Image(canon, users)| == |users|
    decreases |users|
  {
    if users != {} {
      var u :| u in users;
      ImageSize(canon, users - {u});
      assert Image(canon, users) == Image(canon, users - {u}) + {canon(u)};
    }
  }

  lemma ImageOfCanonical(canon: Canon, users: set<UserId>)
    requires forall u :: u in users ==> canon(u) == u
    ensures Image(canon, users) == users && OneSpelling(canon, users)
  {
    forall u | u in users ensures u in Image(canon, users) {
      assert canon(u) == u;
    }
  }

  ghost function SpellingOf(canon: Canon, users: set<UserId>, c: UserId): (u: UserId)
    requires c in Image(canon, users)
    ensures u in users && canon(u) == c
  {
    var u :| u in users && canon(u) == c;
    u
  }

  /** The wrapped keys of a request as the database sees them. */
  ghost function Canonical(canon: Canon, keys: map<UserId, Term>): (r: map<UserId, Term>)
    ensures r.Keys == Image(canon, keys.Keys)
    ensures OneSpelling(canon, keys.Keys) ==> forall u :: u in keys ==> canon(u) in r && r[canon(u)] == keys[u]
  {
    map c | c in Image(canon, keys.Keys) :: keys[SpellingOf(canon, keys.Keys, c)]
  }

  function KeyStatements(canon: Canon, id: MessageId, keys: map<UserId, Term>, order: seq<UserId>): seq<Statement>
    requires forall u :: u in order ==> u in keys
  {
    seq(|order|, i requires 0 <= i < |order| => InsertKey(id, canon(order[i]), keys[order[i]]))
  }

  /** The transaction of PqxxMessageRepository::Add for the texts of a request. */
  function AddTextsScript(canon: Canon, m: Message, keys: map<UserId, Term>, order: seq<UserId>): seq<Statement>
    requires forall u :: u in order ==> u in keys
  {
    [InsertMessage(m)] + KeyStatements(canon, m.id, keys, order)
  }

  ghost predicate OnlyKeys(script: seq<Statement>) {
    forall i :: 0 <= i < |script| ==> script[i].InsertKey?
  }

  lemma {:induction false} TakenKeyFails(script: seq<Statement>, t: Tables, j: nat)
    requires OnlyKeys(script) && j < |script| && (script[j].id, script[j].user) in t.keys
    ensures Replay(script, t) == None
    decreases |script|
  {
    if j > 0 && Exec(script[0], t).Some? {
      TakenKeyFails(script[1..], Exec(script[0], t).value, j - 1);
    }
  }

  lemma {:induction false} RepeatedKeyFails(script: seq<Statement>, t: Tables, i: nat, j: nat)
    requires OnlyKeys(script) && i < j < |script| && script[i].id == script[j].id && script[i].user == script[j].user
    ensures Replay(script, t) == None
    decreases |script|
  {
    if Exec(script[0], t).Some? {
      var t1 := Exec(script[0], t).value;
      if i == 0 {
        TakenKeyFails(script[1..], t1, j - 1);
      } else {
        RepeatedKeyFails(script[1..], t1, i - 1, j - 1);
      }
    }
  }

  lemma SameScript(canon: Canon, m: Message, keys: map<UserId, Term>, order: seq<UserId>)
    requires Distinct(order) && Elements(order) == keys.Keys && OneSpelling(canon, keys.Keys)
    ensures forall u :: u in order ==> u in keys
    ensures forall u :: u in Images(canon, order) ==> u in Canonical(canon, keys)
    ensures AddTextsScript(canon, m, keys, order) == AddMessageScript(m, Canonical(canon, keys), Images(canon, order))
  {
    assert forall u :: u in order ==> u in Elements(order);
    DistinctImages(canon, order);
    assert forall u :: u in Images(canon, order) ==> u in Elements(Images(canon, order));
    assert KeyStatements(canon, m.id, keys, order) == KeyScript(m.id, Canonical(canon, keys), Images(canon, order));
  }

  lemma RepeatedUserFails(canon: Canon, m: Message, keys: map<UserId, Term>, order: seq<UserId>, t: Tables)
    requires Distinct(order) && (forall u :: u in order ==> u in keys) && !Distinct(Images(canon, order))
    ensures Replay(AddTextsScript(canon, m, keys, order), t) == None
  {
    var script := KeyStatements(canon, m.id, keys, order);
    assert AddTextsScript(canon, m, keys, order)[1..] == script;
    var i, j :| 0 <= i < j < |order| && Images(canon, order)[i] == Images(canon, order)[j];
    if Exec(InsertMessage(m), t).Some? {
      RepeatedKeyFails(script, Exec(InsertMessage(m), t).value, i, j);
    }
  }

  /** A send whose keys are texts of a request: all or nothing, and it also fails exactly when two of
      the texts spell one id. */
  lemma AddTextsAllOrNothing(canon: Canon, t: Tables, m: Message, keys: map<UserId, Term>, order: seq<UserId>)
    requires ForeignKeys(t) && Distinct(order) && Elements(order) == keys.Keys && forall u :: u in order ==> u in keys
    ensures var r := Replay(AddTextsScript(canon, m, keys, order), t);
            && (r.Some? <==> OneSpelling(canon, keys.Keys) && m.id !in t.messages && m.chat in t.chats && m.sender in t.users
                             && Image(canon, keys.Keys) <= t.users.Keys)
            && (r.Some? ==> r.value == WithMessage(t, m, Canonical(canon, keys)))
  {
    DistinctImages(canon, order);
    if OneSpelling(canon, keys.Keys) {
      SameScript(canon, m, keys, order);
      AddMessageAllOrNothing(t, m, Canonical(canon, keys), Images(canon, order));
    } else {
      RepeatedUserFails(canon, m, keys, order, t);
    }
  }
}

/** How PostgreSQL reads and writes a UUID: digits of either case, braces or none, and a hyphen or none
    after each four digits; written in lower case, unbraced, with four hyphens. */
module PostgresUuids {
  import opened Wrappers
  import opened Tables
  import opened Uuids

  newtype Digit = x: int | 0 <= x < 16

  const SIZE: nat := 32

  function HexChar(d: Digit, upper: bool): char {
    if d < 10 then ('0' as int + d as int) as char
    else if upper then ('A' as int + d as int - 10) as char
    else ('a' as int + d as int - 10) as char
  }

  function HexValue(c: char): Option<Digit> {
    if '0' <= c <= '9' then Some((c as int - '0' as int) as Digit)
    else if 'A' <= c <= 'F' then Some((c as int - 'A' as int + 10) as Digit)
    else if 'a' <= c <= 'f' then Some((c as int - 'a' as int + 10) as Digit)
    else None
  }

  lemma HexRoundTrip(d: Digit, upper: bool)
    ensures HexValue(HexChar(d, upper)) == Some(d) && HexChar(d, upper) != '-' && HexChar(d, upper) != '{'
  {
  }

  /** The digits from number i on. */
  function ReadFrom(s: string, i: nat): Option<seq<Digit>>
    requires i <= SIZE
    decreases SIZE - i
  {
    if i == SIZE then if s == "" then Some([]) else None
    else if s == "" || HexValue(s[0]).None? then None
    else
      match ReadFrom(SkipHyphen(s[1..], i), i + 1)
      case None => None
      case Some(rest) => Some([HexValue(s[0]).value] + rest)
  }

  function SkipHyphen(s: string, i: nat): string {
    if s != "" && s[0] == '-' && i % 4 == 3 && i < SIZE - 1 then s[1..] else s
  }

  function Read(s: string): Option<seq<Digit>> {
    if s != "" && s[0] == '{' then
      if |s| >= 2 && s[|s| - 1] == '}' then ReadFrom(s[1..|s| - 1], 0) else None
    else ReadFrom(s, 0)
  }

  /** The hyphen after digit number i. */
  function Hyphen(i: nat): string {
    if i == 7 || i == 11 || i == 15 || i == 19 then "-" else ""
  }

  function WriteFrom(digits: seq<Digit>, i: nat, upper: bool): string
    requires |digits| == SIZE && i <= SIZE
    decreases SIZE - i
  {
    if i == SIZE then "" else [HexChar(digits[i], upper)] + (Hyphen(i) + WriteFrom(digits, i + 1, upper))
  }

  lemma StartsWithDigit(digits: seq<Digit>, i: nat, upper: bool)
    requires |digits| == SIZE && i <= SIZE
    ensures var s := WriteFrom(digits, i, upper);
            if i == SIZE then s == "" else s != "" && s[0] == HexChar(digits[i], upper) && s[0] != '-' && s[0] != '{'
                                           && s[1..] == Hyphen(i) + WriteFrom(digits, i + 1, upper)
  {
    if i < SIZE { HexRoundTrip(digits[i], upper); }
  }

  lemma SkipsTheHyphen(s: string, i: nat)
    requires i < SIZE && (s != "" ==> s[0] != '-')
    ensures SkipHyphen(Hyphen(i) + s, i) == s
  {
    if Hyphen(i) == "" { assert Hyphen(i) + s == s; } else { assert (Hyphen(i) + s)[1..] == s; }
  }

  lemma ReadDigit(s: string, i: nat, d: Digit, rest: seq<Digit>)
    requires i < SIZE && s != "" && HexValue(s[0]) == Some(d) && ReadFrom(SkipHyphen(s[1..], i), i + 1) == Some(rest)
    ensures ReadFrom(s, i) == Some([d] + rest)
  {
  }

  lemma ReadWritten(s: string, tail: string, i: nat, d: Digit, upper: bool, rest: seq<Digit>)
    requires i < SIZE && s != "" && s[0] == HexChar(d, upper) && s[1..] == Hyphen(i) + tail && (tail != "" ==> tail[0] != '-')
    requires ReadFrom(tail, i + 1) == Some(rest)
    ensures ReadFrom(s, i) == Some([d] + rest)
  {
    HexRoundTrip(d, upper);
    SkipsTheHyphen(tail, i);
    ReadDigit(s, i, d, rest);
  }

  lemma ReadOneMore(digits: seq<Digit>, i: nat, upper: bool)
    requires |digits| == SIZE && i < SIZE && ReadFrom(WriteFrom(digits, i + 1, upper), i + 1) == Some(digits[i + 1..])
    ensures ReadFrom(WriteFrom(digits, i, upper), i) == Some([digits[i]] + digits[i + 1..])
  {
    StartsWithDigit(digits, i, upper);
    StartsWithDigit(digits, i + 1, upper);
    ReadWritten(WriteFrom(digits, i, upper), WriteFrom(digits, i + 1, upper), i, digits[i], upper, digits[i + 1..]);
  }

  /** Reading undoes writing, in either case of letters. */
  lemma {:induction false} ReadOfWrite(digits: seq<Digit>, i: nat, upper: bool)
    requires |digits| == SIZE && i <= SIZE
    ensures ReadFrom(WriteFrom(digits, i, upper), i) == Some(digits[i..])
    decreases SIZE - i
  {
    if i == SIZE {
      NothingToRead(digits, i, upper);
    } else {
      ReadOfWrite(digits, i + 1, upper);
      ReadOneMore(digits, i, upper);
      DropOne(digits, i);
    }
  }

  lemma NothingToRead(digits: seq<Digit>, i: nat, upper: bool)
    requires |digits| == SIZE == i
    ensures ReadFrom(WriteFrom(digits, i, upper), i) == Some(digits[i..])
  {
    assert digits[i..] == [];
  }

  lemma DropOne<K>(s: seq<K>, i: nat)
    requires i < |s|
    ensures s[i..] == [s[i]] + s[i + 1..]
  {
  }

  /** The id as the database answers it. A text that is no UUID makes the query fail; no stored id
      is one. */
  function Spelled(u: UserId): UserId {
    match Read(u.text)
    case None => u
    case Some(digits) => if |digits| == SIZE then UserId(WriteFrom(digits, 0, false)) else u
  }

  lemma SpelledOfWrite(digits: seq<Digit>, upper: bool)
    requires |digits| == SIZE
    ensures Spelled(UserId(WriteFrom(digits, 0, upper))) == UserId(WriteFrom(digits, 0, false))
  {
    StartsWithDigit(digits, 0, upper);
    ReadOfWrite(digits, 0, upper);
    assert digits[0..] == digits;
    ReadUnbraced(WriteFrom(digits, 0, upper), digits);
  }

  lemma ReadUnbraced(s: string, digits: seq<Digit>)
    requires s != "" && s[0] != '{' && ReadFrom(s, 0) == Some(digits) && |digits| == SIZE
    ensures Spelled(UserId(s)) == UserId(WriteFrom(digits, 0, false))
  {
  }

  lemma SpelledTwice(u: UserId)
    ensures Spelled(Spelled(u)) == Spelled(u)
  {
    match Read(u.text)
    case None =>
    case Some(digits) => if |digits| == SIZE { SpelledOfWrite(digits, false); }
  }

  /** The database's spelling is a fixed one. */
  lemma SpelledIsCanon()
    ensures IsCanon(Spelled)
  {
    forall u ensures Spelled(Spelled(u)) == Spelled(u) {
      SpelledTwice(u);
    }
  }

  /** A UUID that starts with a letter has a second spelling, in upper case. */
  lemma TwoSpellings(digits: seq<Digit>)
    requires |digits| == SIZE && digits[0] >= 10
    ensures var lower, upper := UserId(WriteFrom(digits, 0, false)), UserId(WriteFrom(digits, 0, true));
            lower != upper && Spelled(lower) == lower && Spelled(upper) == lower
  {
    SpelledOfWrite(digits, false);
    SpelledOfWrite(digits, true);
    StartsWithDigit(digits, 0, false);
    StartsWithDigit(digits, 0, true);
    assert HexChar(digits[0], false) != HexChar(digits[0], true);
  }

  lemma ReadBraced(inner: string)
    ensures Read("{" + inner + "}") == ReadFrom(inner, 0)
  {
    var s := "{" + inner + "}";
    assert s[1..|s| - 1] == inner;
  }

  lemma SpelledAs(s: string, digits: seq<Digit>)
    requires Read(s) == Some(digits) && |digits| == SIZE
    ensures Spelled(UserId(s)) == UserId(WriteFrom(digits, 0, false))
  {
  }

  /** Any UUID has another one, the same text in braces. */
  lemma BracedSpelling(digits: seq<Digit>, upper: bool)
    requires |digits| == SIZE
    ensures Spelled(UserId("{" + WriteFrom(digits, 0, upper) + "}")) == UserId(WriteFrom(digits, 0, false))
  {
    var inner := WriteFrom(digits, 0, upper);
    ReadBraced(inner);
    ReadOfWrite(digits, 0, upper);
    assert digits[0..] == digits;
    SpelledAs("{" + inner + "}", digits);
  }
}
