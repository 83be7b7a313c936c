/** Reading a string stream piece by piece with std::getline, and the join that it undoes. */
module Getline {
  /** All pieces that `while (std::getline(stream, piece, d))` reads. Nothing follows a final
      delimiter, so a string that ends in one yields no empty last piece. */
  function Split(s: string, d: char): seq<string>
    decreases |s|
  {
    if s == "" then []
    else
      var i := Find(s, d);
      if i == |s| then [s] else [s[..i]] + Split(s[i + 1..], d)
  }

  /** The position of the first `d`, or the length. */
  function Find(s: string, d: char): (i: nat)
    ensures i <= |s| && d !in s[..i] && (i < |s| ==> s[i] == d)
  {
    if s == "" || s[0] == d then 0
    else
      assert s[..1 + Find(s[1..], d)] == [s[0]] + s[1..][..Find(s[1..], d)];
      1 + Find(s[1..], d)
  }

  function Join(pieces: seq<string>, d: char): string
    decreases |pieces|
  {
    if pieces == [] then ""
    else if |pieces| == 1 then pieces[0]
    else pieces[0] + [d] + Join(pieces[1..], d)
  }

  lemma FindAt(s: string, d: char, i: nat)
    requires i <= |s| && d !in s[..i] && (i < |s| ==> s[i] == d)
    ensures Find(s, d) == i
  {
    if i > 0 {
      assert s[..i] == [s[0]] + s[1..][..i - 1];
      FindAt(s[1..], d, i - 1);
    }
  }

  /** What is left of the stream after one getline. */
  function AfterPiece(s: string, d: char): string {
    if Find(s, d) == |s| then "" else s[Find(s, d) + 1..]
  }

  lemma SplitStep(done: seq<string>, s: string, d: char)
    requires s != ""
    ensures done + [s[..Find(s, d)]] + Split(AfterPiece(s, d), d) == done + Split(s, d)
  {
    assert s[..|s|] == s;
    assert Split(s, d) == [s[..Find(s, d)]] + Split(AfterPiece(s, d), d);
  }

  /** The stream read by a loop. */
  method ReadAll(s: string, d: char) returns (pieces: seq<string>)
    ensures pieces == Split(s, d)
  {
    pieces := [];
    var rest := s;
    while rest != ""
      invariant pieces + Split(rest, d) == Split(s, d)
      decreases |rest|
    {
      SplitStep(pieces, rest, d);
      pieces := pieces + [rest[..Find(rest, d)]];
      rest := AfterPiece(rest, d);
    }
  }

  lemma SplitCons(first: string, rest: string, d: char)
    requires d !in first
    ensures Split(first + [d] + rest, d) == [first] + Split(rest, d)
  {
    var s := first + [d] + rest;
    assert s[..|first|] == first && s[|first| + 1..] == rest;
    FindAt(s, d, |first|);
  }

  lemma SplitOne(s: string, d: char)
    requires d !in s && s != ""
    ensures Split(s, d) == [s]
  {
    assert s[..|s|] == s;
    FindAt(s, d, |s|);
  }

  /** Reading back a join gives the pieces, except that an empty last piece is lost. */
  lemma {:induction false} SplitOfJoin(pieces: seq<string>, d: char)
    requires pieces != [] && forall p :: p in pieces ==> d !in p
    ensures Split(Join(pieces, d), d) == if pieces[|pieces| - 1] == "" then pieces[..|pieces| - 1] else pieces
    decreases |pieces|
  {
    assert pieces == [pieces[0]] + pieces[1..];
    if |pieces| == 1 {
      if pieces[0] != "" { SplitOne(pieces[0], d); }
    } else {
      SplitCons(pieces[0], Join(pieces[1..], d), d);
      SplitOfJoin(pieces[1..], d);
    }
  }

  /** Joining what was read gives the string back, up to a final delimiter. */
  lemma {:induction false} JoinOfSplit(s: string, d: char)
    ensures forall p :: p in Split(s, d) ==> d !in p
    ensures s == Join(Split(s, d), d) || s == Join(Split(s, d), d) + [d]
    decreases |s|
  {
    if s != "" {
      var i := Find(s, d);
      if i < |s| {
        assert s == s[..i] + [d] + s[i + 1..];
        JoinOfSplit(s[i + 1..], d);
        assert Split(s, d)[1..] == Split(s[i + 1..], d);
        if s[i + 1..] != "" { assert Split(s[i + 1..], d) != []; }
      }
    }
  }
}
