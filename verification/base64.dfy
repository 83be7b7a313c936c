/** Base64 as in section 4 of RFC 4648, over buffers of the sizes that the server allocates. The
    block codec behaves as OpenSSL documents it: encoding pads and appends a NUL, decoding trims
    white space and yields three bytes for every four characters, '=' counting as zero bits. */
module Base64 {
  import opened Wrappers

  type Byte = x: int | 0 <= x < 256

  type Sextet = x: int | 0 <= x < 64

  const INT_MAX: nat := 0x7fff_ffff

  function EncodeSextet(v: Sextet): char {
    if v < 26 then 'A' + v as char
    else if v < 52 then 'a' + (v - 26) as char
    else if v < 62 then '0' + (v - 52) as char
    else if v == 62 then '+'
    else '/'
  }

  function DecodeChar(c: char): Option<Sextet> {
    if 'A' <= c <= 'Z' then Some((c - 'A') as int)
    else if 'a' <= c <= 'z' then Some((c - 'a') as int + 26)
    else if '0' <= c <= '9' then Some((c - '0') as int + 52)
    else if c == '+' then Some(62)
    else if c == '/' then Some(63)
    else if c == '=' then Some(0)
    else None
  }

  /** Table 1 of RFC 4648: where its runs of letters and digits start and end, and that within a run
      each value has the next character. */
  lemma AlphabetExactly(v: Sextet)
    ensures EncodeSextet(0) == 'A' && EncodeSextet(25) == 'Z' && EncodeSextet(26) == 'a' && EncodeSextet(51) == 'z'
    ensures EncodeSextet(52) == '0' && EncodeSextet(61) == '9' && EncodeSextet(62) == '+' && EncodeSextet(63) == '/'
    ensures v < 61 && v != 25 && v != 51 ==> EncodeSextet(v + 1) as int == EncodeSextet(v) as int + 1
  {
  }

  /** What can be decoded: the characters of the alphabet, and the padding. */
  lemma DecodableExactly(c: char)
    ensures DecodeChar(c).Some? <==> c == '=' || exists v: Sextet :: EncodeSextet(v) == c
  {
    if DecodeChar(c).Some? && c != '=' {
      assert EncodeSextet(DecodeChar(c).value) == c;
    }
  }

  predicate IsLeadingSpace(c: char) {
    c == ' ' || c == '\t'
  }

  predicate IsTrailingSpace(c: char) {
    c == ' ' || c == '\t' || c == '\n' || c == '\r' || c == '-'
  }

  /** Neither padding, nor trimmed, nor the separator of a password record. */
  predicate IsPlain(c: char) {
    c != '=' && c != '$' && !IsLeadingSpace(c) && !IsTrailingSpace(c)
  }

  lemma CharRoundTrip(v: Sextet)
    ensures DecodeChar(EncodeSextet(v)) == Some(v)
    ensures IsPlain(EncodeSextet(v))
  {
  }

  function Quad(a: Byte, b: Byte, c: Byte): seq<Sextet> {
    [a / 4, a % 4 * 16 + b / 16, b % 16 * 4 + c / 64, c % 64]
  }

  function Triple(p: Sextet, q: Sextet, r: Sextet, s: Sextet): seq<Byte> {
    [p * 4 + q / 16, q % 16 * 16 + r / 4, r % 4 * 64 + s]
  }

  lemma QuadRoundTrip(a: Byte, b: Byte, c: Byte)
    ensures var q := Quad(a, b, c); Triple(q[0], q[1], q[2], q[3]) == [a, b, c]
  {
  }

  /** How many padding characters an encoding ends in. */
  function Missing(n: nat): nat {
    (3 - n % 3) % 3
  }

  /** The bytes with zeros up to the next multiple of three. */
  function Padded(bytes: seq<Byte>): (r: seq<Byte>)
    ensures |r| == |bytes| + Missing(|bytes|) && |r| % 3 == 0
  {
    bytes + seq(Missing(|bytes|), _ => 0)
  }

  /** Regrouping: three bytes are four sextets. */
  function ToSextets(bytes: seq<Byte>): (r: seq<Sextet>)
    requires |bytes| % 3 == 0
    ensures |r| == |bytes| / 3 * 4
  {
    if bytes == [] then [] else Quad(bytes[0], bytes[1], bytes[2]) + ToSextets(bytes[3..])
  }

  function ToBytes(sextets: seq<Sextet>): (r: seq<Byte>)
    requires |sextets| % 4 == 0
    ensures |r| == |sextets| / 4 * 3
  {
    if sextets == [] then [] else Triple(sextets[0], sextets[1], sextets[2], sextets[3]) + ToBytes(sextets[4..])
  }

  lemma {:induction false} RegroupRoundTrip(bytes: seq<Byte>)
    requires |bytes| % 3 == 0
    ensures ToBytes(ToSextets(bytes)) == bytes
    decreases |bytes|
  {
    if bytes != [] {
      var q := Quad(bytes[0], bytes[1], bytes[2]);
      QuadRoundTrip(bytes[0], bytes[1], bytes[2]);
      RegroupRoundTrip(bytes[3..]);
      assert ToSextets(bytes)[4..] == ToSextets(bytes[3..]);
      assert bytes == [bytes[0], bytes[1], bytes[2]] + bytes[3..];
    }
  }

  /** The encoding: a character for each sextet, '=' in the place of those that hold no byte. */
  function Encode(bytes: seq<Byte>): (s: string)
    ensures |s| == 4 * ((|bytes| + 2) / 3)
  {
    var sextets := ToSextets(Padded(bytes));
    seq(|sextets|, i requires 0 <= i < |sextets| =>
      if i < |sextets| - Missing(|bytes|) then EncodeSextet(sextets[i]) else '=')
  }

  /** Every character's sextet, None when one of them is outside the alphabet. */
  function ValuesOf(s: string): (r: Option<seq<Sextet>>)
    ensures r.Some? ==> |r.value| == |s|
  {
    if forall i :: 0 <= i < |s| ==> DecodeChar(s[i]).Some?
    then Some(seq(|s|, i requires 0 <= i < |s| => DecodeChar(s[i]).value))
    else None
  }

  function TrimStart(s: string): string {
    if s != "" && IsLeadingSpace(s[0]) then TrimStart(s[1..]) else s
  }

  /** Stops at three characters. */
  function TrimEnd(s: string): string {
    if |s| > 3 && IsTrailingSpace(s[|s| - 1]) then TrimEnd(s[..|s| - 1]) else s
  }

  lemma {:induction false} TrimShortens(s: string)
    ensures |TrimStart(s)| <= |s| && |TrimEnd(s)| <= |s|
    decreases |s|
  {
    if s != "" {
      TrimShortens(s[1..]);
      TrimShortens(s[..|s| - 1]);
    }
  }

  /** EVP_DecodeBlock. */
  function DecodeBlock(s: string): (r: Option<seq<Byte>>)
    ensures r.Some? ==> |r.value| <= |s|
  {
    var trimmed := TrimEnd(TrimStart(s));
    TrimShortens(s);
    TrimShortens(TrimStart(s));
    if |trimmed| % 4 != 0 || ValuesOf(trimmed).None? then None else Some(ToBytes(ValuesOf(trimmed).value))
  }

  lemma {:induction false} TrimStartOfMore(s: string, c: char)
    requires TrimStart(s) != ""
    ensures TrimStart(s + [c]) == TrimStart(s) + [c]
    decreases |s|
  {
    if s != "" && IsLeadingSpace(s[0]) {
      assert (s + [c])[1..] == s[1..] + [c];
      TrimStartOfMore(s[1..], c);
    }
  }

  /** Blanks in front and white space or '-' at the end make no difference. */
  lemma DecodeBlockTrims(s: string, c: char)
    ensures IsLeadingSpace(c) ==> DecodeBlock([c] + s) == DecodeBlock(s)
    ensures IsTrailingSpace(c) && |TrimStart(s)| >= 3 ==> DecodeBlock(s + [c]) == DecodeBlock(s)
  {
    if IsLeadingSpace(c) {
      assert ([c] + s)[1..] == s;
    }
    if IsTrailingSpace(c) && |TrimStart(s)| >= 3 {
      TrimStartOfMore(s, c);
      var t := TrimStart(s) + [c];
      assert t[..|t| - 1] == TrimStart(s);
    }
  }

  /** A text with any other character in it is refused. */
  lemma BadTextIsRefused(s: string, i: nat)
    requires var trimmed := TrimEnd(TrimStart(s)); i < |trimmed| && DecodeChar(trimmed[i]).None?
    ensures DecodeBlock(s).None?
  {
  }

  /** GetSanitizedDecodedTextLength takes one off for each '=' among the last two characters. */
  function SanitizedLength(text: string, dirty: int): int {
    dirty - (if |text| > 0 && text[|text| - 1] == '=' then 1 else 0) - (if |text| > 1 && text[|text| - 2] == '=' then 1 else 0)
  }

  /** Base64Decode: the block decoded and cut to its true length. */
  function Decoded(input: string): Result<seq<Byte>, string> {
    if input == "" then Ok([])
    else if |input| > INT_MAX then Err("Input exceeds maximum supported OpenSSL decode size.")
    else match DecodeBlock(input)
      case None => Err("Failed to decode Base64 string")
      case Some(block) =>
        var length := SanitizedLength(input, |block|);
        if length < 0 then Ok([]) else Ok(block[..length])
  }

  /** The correction never takes off more than there is: the code's answer for a negative length is
      never given. */
  lemma CorrectionFits(input: string)
    requires DecodeBlock(input).Some?
    ensures 0 <= SanitizedLength(input, |DecodeBlock(input).value|) <= |DecodeBlock(input).value|
  {
    if TrimEnd(TrimStart(input)) == "" {
      OnlyBlanks(input);
    }
  }

  lemma {:induction false} OnlyBlanks(s: string)
    requires TrimEnd(TrimStart(s)) == ""
    ensures forall i :: 0 <= i < |s| ==> IsLeadingSpace(s[i])
    decreases |s|
  {
    if s != "" {
      if !IsLeadingSpace(s[0]) {
        TrimEndNotEmpty(s);
      } else {
        OnlyBlanks(s[1..]);
        assert forall i :: 1 <= i < |s| ==> s[i] == s[1..][i - 1];
      }
    }
  }

  lemma {:induction false} TrimEndNotEmpty(s: string)
    requires s != ""
    ensures TrimEnd(s) != ""
    decreases |s|
  {
    if |s| > 3 && IsTrailingSpace(s[|s| - 1]) {
      TrimEndNotEmpty(s[..|s| - 1]);
    }
  }

  /** What Base64Decode returns: nothing for nothing, otherwise the block without as many bytes as there
      are '=' among the last two characters. */
  lemma DecodedExactly(input: string, bytes: seq<Byte>)
    ensures Decoded(input) == Ok(bytes)
            <==> if input == "" then bytes == []
                 else |input| <= 0x7fff_ffff && exists cut :: |cut| == Pads(input) && DecodeBlock(input) == Some(bytes + cut)
  {
    if input != "" && DecodeBlock(input).Some? {
      CorrectionFits(input);
      PadsAreCut(input, |DecodeBlock(input).value|);
      var block := DecodeBlock(input).value;
      var n := |block| - Pads(input);
      assert block == block[..n] + block[n..];
      assert forall cut: seq<Byte> :: |cut| == Pads(input) && block == bytes + cut ==> bytes == block[..n];
    }
  }

  /** How many of the last two characters are padding. */
  function Pads(text: string): nat {
    multiset(if |text| > 2 then text[|text| - 2..] else text)['=']
  }

  lemma PadsAreCut(text: string, dirty: int)
    ensures SanitizedLength(text, dirty) == dirty - Pads(text)
  {
    var end := if |text| > 2 then text[|text| - 2..] else text;
    assert end == if |end| == 0 then [] else if |end| == 1 then [end[0]] else [end[0], end[1]];
  }

  /** The sextets in the place of the padding are zero. */
  lemma {:induction false} PaddingIsZero(bytes: seq<Byte>, i: nat)
    requires var n := 4 * ((|bytes| + 2) / 3); n - Missing(|bytes|) <= i < n
    ensures ToSextets(Padded(bytes))[i] == 0
    decreases |bytes|
  {
    if |bytes| > 3 {
      assert Padded(bytes)[3..] == Padded(bytes[3..]);
      PaddingIsZero(bytes[3..], i - 4);
    } else {
      var p := Padded(bytes);
      assert p[3..] == [];
      assert ToSextets(p) == Quad(p[0], p[1], p[2]) + [];
    }
  }

  lemma ValuesOfEncode(bytes: seq<Byte>)
    ensures ValuesOf(Encode(bytes)) == Some(ToSextets(Padded(bytes)))
    ensures var s := Encode(bytes); forall i :: 0 <= i < |s| - Missing(|bytes|) ==> IsPlain(s[i])
  {
    var s, sextets := Encode(bytes), ToSextets(Padded(bytes));
    forall i | 0 <= i < |s|
      ensures DecodeChar(s[i]) == Some(sextets[i])
      ensures i < |s| - Missing(|bytes|) ==> IsPlain(s[i])
    {
      if i < |s| - Missing(|bytes|) {
        CharRoundTrip(sextets[i]);
      } else {
        PaddingIsZero(bytes, i);
      }
    }
    assert ValuesOf(s).Some? && ValuesOf(s).value == sextets;
  }

  /** Trimming leaves such a text alone, its padding is counted right, and it contains no '$'. */
  lemma PaddedText(s: string, pads: nat, dirty: int)
    requires pads <= 2 && |s| >= 4
    requires forall i :: 0 <= i < |s| - pads ==> IsPlain(s[i])
    requires forall i :: |s| - pads <= i < |s| ==> s[i] == '='
    ensures TrimStart(s) == s && TrimEnd(s) == s
    ensures SanitizedLength(s, dirty) == dirty - pads
    ensures '$' !in s
  {
    assert IsPlain(s[0]);
    assert pads < 1 ==> IsPlain(s[|s| - 1]);
    assert pads < 2 ==> IsPlain(s[|s| - 2]);
  }

  lemma EncodeShape(bytes: seq<Byte>)
    ensures TrimEnd(TrimStart(Encode(bytes))) == Encode(bytes)
    ensures SanitizedLength(Encode(bytes), |Padded(bytes)|) == |bytes|
    ensures '$' !in Encode(bytes)
  {
    ValuesOfEncode(bytes);
    if bytes != [] {
      PaddedText(Encode(bytes), Missing(|bytes|), |Padded(bytes)|);
    }
  }

  lemma DecodeBlockOfEncode(bytes: seq<Byte>)
    ensures DecodeBlock(Encode(bytes)) == Some(Padded(bytes))
  {
    EncodeShape(bytes);
    ValuesOfEncode(bytes);
    RegroupRoundTrip(Padded(bytes));
  }

  /** The longest input whose encoding has a length that fits an int. */
  const MAX_ENCODABLE: nat := 1610612733

  lemma MaxEncodable(n: nat)
    ensures 4 * ((n + 2) / 3) <= INT_MAX <==> n <= MAX_ENCODABLE
  {
  }

  /** Base64Encode: besides the length check of the code, the int that counts the output must not
      overflow. */
  function Encoded(bytes: seq<Byte>): Result<string, string> {
    if |bytes| > INT_MAX then Err("Buffer exceeds maximum supported OpenSSL encode size.")
    else if 4 * ((|bytes| + 2) / 3) > INT_MAX then Err("The output length does not fit an int.")
    else Ok(Encode(bytes))
  }

  lemma DecodedCut(s: string, block: seq<Byte>, bytes: seq<Byte>)
    requires s != "" && |s| <= INT_MAX && DecodeBlock(s) == Some(block)
    requires SanitizedLength(s, |block|) == |bytes| && bytes <= block
    ensures Decoded(s) == Ok(bytes)
  {
    assert block[..|bytes|] == bytes;
  }

  lemma CutPadded(bytes: seq<Byte>, s: string)
    requires s != "" && |s| <= INT_MAX && DecodeBlock(s) == Some(Padded(bytes))
    requires SanitizedLength(s, |Padded(bytes)|) == |bytes|
    ensures Decoded(s) == Ok(bytes)
  {
    assert Padded(bytes)[..|bytes|] == bytes;
    DecodedCut(s, Padded(bytes), bytes);
  }

  lemma DecodedEncode(bytes: seq<Byte>, s: string)
    requires s == Encode(bytes) && |s| <= INT_MAX
    ensures Decoded(s) == Ok(bytes)
  {
    if bytes != [] {
      assert |s| >= 4;
      assert DecodeBlock(s) == Some(Padded(bytes)) by { DecodeBlockOfEncode(bytes); }
      assert SanitizedLength(s, |Padded(bytes)|) == |bytes| by { EncodeShape(bytes); }
      CutPadded(bytes, s);
    }
  }

  lemma EncodeGroup(a: Byte, b: Byte, c: Byte)
    ensures ToSextets([a, b, c]) == [a / 4, a % 4 * 16 + b / 16, b % 16 * 4 + c / 64, c % 64]
  {
    assert [a, b, c][3..] == [];
  }

  /** The last group of an encoding, of one, two or three bytes. */
  lemma EncodeLast(a: Byte, b: Byte, c: Byte)
    ensures Encode([a]) == [EncodeSextet(a / 4), EncodeSextet(a % 4 * 16), '=', '=']
    ensures Encode([a, b]) == [EncodeSextet(a / 4), EncodeSextet(a % 4 * 16 + b / 16), EncodeSextet(b % 16 * 4), '=']
    ensures Encode([a, b, c]) == [EncodeSextet(a / 4), EncodeSextet(a % 4 * 16 + b / 16), EncodeSextet(b % 16 * 4 + c / 64), EncodeSextet(c % 64)]
  {
    EncodeGroup(a, 0, 0);
    EncodeGroup(a, b, 0);
    EncodeGroup(a, b, c);
    assert Padded([a]) == [a, 0, 0] && Padded([a, b]) == [a, b, 0] && Padded([a, b, c]) == [a, b, c];
  }

  /** The padding is counted on the untrimmed text: with a newline behind it, one '=' of two is missed
      and the decoded text has a zero byte too many. */
  lemma NewlineAddsAByte(a: Byte)
    ensures Decoded(Encode([a])) == Ok([a])
    ensures Decoded(Encode([a]) + ['\n']) == Ok([a, 0])
  {
    var s := Encode([a]);
    var t := s + ['\n'];
    DecodedEncode([a], s);
    DecodeBlockOfEncode([a]);
    EncodeShape([a]);
    EncodeLast(a, 0, 0);
    EvenTrimmed(s);
    DecodeBlockTrims(s, '\n');
    assert DecodeBlock(t) == Some([a, 0, 0]) by { assert Padded([a]) == [a, 0, 0]; }
    assert SanitizedLength(t, 3) == 2;
    assert [a, 0, 0][..2] == [a, 0];
  }

  lemma EvenTrimmed(s: string)
    requires |s| == 4 && TrimEnd(TrimStart(s)) == s
    ensures |TrimStart(s)| >= 3
  {
    TrimShortens(TrimStart(s));
  }

  /** The groups before it are encoded one by one. */
  lemma EncodeFirst(a: Byte, b: Byte, c: Byte, rest: seq<Byte>)
    ensures Encode([a, b, c] + rest) == Encode([a, b, c]) + Encode(rest)
  {
    var all := [a, b, c] + rest;
    assert all[..3] == [a, b, c] && all[3..] == rest;
    assert Padded(all)[3..] == Padded(rest);
    EncodeLast(a, b, c);
  }

  lemma TooLongToDecode(s: string)
    requires |s| > INT_MAX
    ensures Decoded(s).Err?
  {
  }

  /** Decoding an encoding gives the bytes back exactly up to 1610612733 of them, three quarters of
      what the encoder's length check admits: beyond, the decoder refuses the text as too long. */
  lemma RoundTrip(bytes: seq<Byte>)
    ensures Decoded(Encode(bytes)) == Ok(bytes) <==> |bytes| <= MAX_ENCODABLE
    ensures |bytes| <= MAX_ENCODABLE ==> Encoded(bytes) == Ok(Encode(bytes))
  {
    var s := Encode(bytes);
    MaxEncodable(|bytes|);
    if |bytes| <= MAX_ENCODABLE {
      DecodedEncode(bytes, s);
    } else {
      TooLongToDecode(s);
    }
  }

  /** The four characters of one group at position n, '=' from position `stop` on. */
  function QuadText(quad: seq<Sextet>, n: nat, stop: int): string
    requires |quad| == 4
  {
    seq(4, k requires 0 <= k < 4 => if n + k < stop then EncodeSextet(quad[k]) else '=')
  }

  lemma GroupOfEncode(f: seq<Byte>, n: nat, quad: seq<Sextet>)
    requires |quad| == 4 && n + 4 <= |Encode(f)| && |ToSextets(Padded(f))| == |Encode(f)|
    requires ToSextets(Padded(f))[n..n + 4] == quad
    ensures Encode(f)[..n + 4] == Encode(f)[..n] + QuadText(quad, n, |Encode(f)| - Missing(|f|))
  {
    var whole := ToSextets(Padded(f));
    var group := whole[n..n + 4];
    assert forall k :: 0 <= k < 4 ==> group[k] == whole[n + k];
  }

  lemma NextGroup(f: seq<Byte>, left: seq<Byte>, n: nat)
    requires left != [] && |left| % 3 == 0 && n + |left| / 3 * 4 == |Encode(f)| == |ToSextets(Padded(f))|
    requires ToSextets(Padded(f))[n..] == ToSextets(left)
    ensures n + 4 <= |Encode(f)| && ToSextets(Padded(f))[n + 4..] == ToSextets(left[3..])
    ensures Encode(f)[..n + 4] == Encode(f)[..n] + QuadText(Quad(left[0], left[1], left[2]), n, |Encode(f)| - Missing(|f|))
  {
    var quad := Quad(left[0], left[1], left[2]);
    SliceHead(ToSextets(Padded(f)), n, quad, ToSextets(left[3..]));
    GroupOfEncode(f, n, quad);
  }

  lemma SliceHead<K>(whole: seq<K>, n: nat, head: seq<K>, rest: seq<K>)
    requires n <= |whole| && whole[n..] == head + rest
    ensures n + |head| <= |whole| && whole[n..n + |head|] == head && whole[n + |head|..] == rest
  {
    assert whole[n..n + |head|] == whole[n..][..|head|] && whole[n + |head|..] == whole[n..][|head|..];
  }

  method WriteQuad(t: array<char>, n: nat, text: string)
    requires |text| == 4 && n + 4 <= t.Length
    modifies t
    ensures t[..n + 4] == old(t[..n]) + text && t[n + 4..] == old(t[n + 4..])
  {
    t[n], t[n + 1], t[n + 2], t[n + 3] := text[0], text[1], text[2], text[3];
    assert t[..n + 4] == t[..n] + t[n..n + 4];
  }

  /** EVP_EncodeBlock into `t`: the characters and a NUL after them, and nothing behind. */
  method EvpEncodeBlock(t: array<char>, f: seq<Byte>) returns (n: nat)
    requires t.Length >= 4 * ((|f| + 2) / 3) + 1
    modifies t
    ensures n == |Encode(f)| && t[..n] == Encode(f) && t[n] == '\0'
    ensures t[n + 1..] == old(t[n + 1..])
  {
    ghost var whole, text := ToSextets(Padded(f)), Encode(f);
    var left, size := Padded(f), 4 * ((|f| + 2) / 3);
    n := 0;
    while left != []
      invariant |left| % 3 == 0 && n + |left| / 3 * 4 == size
      invariant whole[n..] == ToSextets(left)
      invariant t[..n] == text[..n] && t[n..] == old(t[n..])
      decreases |left|
    {
      NextGroup(f, left, n);
      ghost var behind := t[n..];
      WriteQuad(t, n, QuadText(Quad(left[0], left[1], left[2]), n, size - Missing(|f|)));
      assert t[n + 4..] == behind[4..] == old(t[n..])[4..] == old(t[n + 4..]);
      left := left[3..];
      n := n + 4;
    }
    t[n] := '\0';
  }

  /** The server's encoder: a buffer of GetMaxBase64StrSize, then the string of its first part. */
  method Base64Encode(buffer: seq<Byte>) returns (r: Result<string, string>)
    ensures r == Encoded(buffer)
  {
    if |buffer| > INT_MAX {
      return Err("Buffer exceeds maximum supported OpenSSL encode size.");
    }
    if 4 * ((|buffer| + 2) / 3) > INT_MAX {
      return Err("The output length does not fit an int.");
    }
    var encoded := new char[4 * ((|buffer| + 2) / 3) + 1];
    var length := EvpEncodeBlock(encoded, buffer);
    r := Ok(encoded[..length]);
  }

  method WriteTriple(t: array<Byte>, n: nat, triple: seq<Byte>)
    requires |triple| == 3 && n + 3 <= t.Length
    modifies t
    ensures t[..n + 3] == old(t[..n]) + triple
  {
    t[n], t[n + 1], t[n + 2] := triple[0], triple[1], triple[2];
    assert t[..n + 3] == t[..n] + t[n..n + 3];
  }

  method WriteBytes(t: array<Byte>, sextets: seq<Sextet>) returns (n: nat)
    requires |sextets| % 4 == 0 && t.Length >= |sextets|
    modifies t
    ensures n == |ToBytes(sextets)| && t[..n] == ToBytes(sextets)
  {
    ghost var whole := ToBytes(sextets);
    var left := sextets;
    n := 0;
    while left != []
      invariant |left| % 4 == 0 && n + |left| / 4 * 3 == |whole| <= t.Length
      invariant whole == t[..n] + ToBytes(left)
      decreases |left|
    {
      var triple := Triple(left[0], left[1], left[2], left[3]);
      ghost var before := t[..n];
      assert before + ToBytes(left) == before + triple + ToBytes(left[4..]);
      WriteTriple(t, n, triple);
      left := left[4..];
      n := n + 3;
    }
  }

  /** EVP_DecodeBlock into `t`, -1 on malformed input. A buffer of the input's size is enough. */
  method EvpDecodeBlock(t: array<Byte>, f: string) returns (n: int)
    requires t.Length >= |f|
    modifies t
    ensures n < 0 <==> DecodeBlock(f).None?
    ensures n >= 0 ==> n == |DecodeBlock(f).value| <= t.Length && t[..n] == DecodeBlock(f).value
  {
    TrimShortens(f);
    TrimShortens(TrimStart(f));
    var trimmed := TrimEnd(TrimStart(f));
    if |trimmed| % 4 != 0 {
      return -1;
    }
    var values := ValuesOf(trimmed);
    if values.None? {
      return -1;
    }
    n := WriteBytes(t, values.value);
  }

  /** The server's decoder: a buffer of the input's size, resized to the true length. */
  method Base64Decode(input: string) returns (r: Result<seq<Byte>, string>)
    ensures r == Decoded(input)
  {
    if input == "" {
      return Ok([]);
    }
    if |input| > INT_MAX {
      return Err("Input exceeds maximum supported OpenSSL decode size.");
    }
    var decoded := new Byte[|input|](_ => 0);
    var length := EvpDecodeBlock(decoded, input);
    if length < 0 {
      return Err("Failed to decode Base64 string");
    }
    var outLength := SanitizedLength(input, length);
    if outLength < 0 {
      return Ok([]);
    }
    assert decoded[..length][..outLength] == decoded[..outLength];
    r := Ok(decoded[..outLength]);
  }
}
