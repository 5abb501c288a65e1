/** Percent encoding and decoding (URLFunctions::encode, URLFunctions::decode). */
module UrlCodec {
  import opened ByteStrings
  import opened Sequences

  // The unreserved bytes of section 2.3 of RFC 3986.
  predicate Unreserved(c: Byte) {
    IsAlnum(c) || c == '-' || c == '_' || c == '.' || c == '~'
  }

  function EncodeByte(c: Byte): Bytes {
    if Unreserved(c) then [c]
    else ['%', UPPER_XDIGITS[c as int / 16], UPPER_XDIGITS[c as int % 16]]
  }

  function Encode(s: Bytes): Bytes {
    if s == [] then [] else EncodeByte(s[0]) + Encode(s[1..])
  }

  // A complete escape of section 2.1 of RFC 3986 stands at the head of t.
  predicate EscapeAt(t: Bytes) {
    |t| >= 3 && t[0] == '%' && IsHex(t[1]) && IsHex(t[2])
  }

  function EscapeValue(t: Bytes): Byte
    requires EscapeAt(t)
  {
    ByteOf(16 * HexValue(t[1]) + HexValue(t[2]))
  }

  // A byte outside an escape: '+' stands for a space, anything else for itself.
  function Plain(c: Byte): Byte {
    if c == '+' then ' ' else c
  }

  function Decode(t: Bytes): Bytes {
    if t == [] then []
    else if EscapeAt(t) then [EscapeValue(t)] + Decode(t[3..])
    else [Plain(t[0])] + Decode(t[1..])
  }

  // ---------- The loops of the original ----------

  method EncodeLoop(decodedUrl: Bytes) returns (result: Bytes)
    ensures result == Encode(decodedUrl)
  {
    result := [];
    for i := 0 to |decodedUrl|
      invariant result + Encode(decodedUrl[i..]) == Encode(decodedUrl)
    {
      var c := decodedUrl[i];
      ghost var before := result;
      if IsAlnum(c) || c == '-' || c == '_' || c == '.' || c == '~' {
        result := result + [c];
      } else {
        result := result + ['%'];
        result := result + [UPPER_XDIGITS[c as int / 16]];
        result := result + [UPPER_XDIGITS[c as int % 16]];
      }
      assert result == before + EncodeByte(c);
      EncodeFrom(decodedUrl, i, before);
    }
  }

  lemma EncodeFrom(s: Bytes, i: nat, done: Bytes)
    requires i < |s|
    ensures done + Encode(s[i..]) == done + EncodeByte(s[i]) + Encode(s[i + 1..])
  {
    DropTwice(s, i, 1);
    Assoc(done, EncodeByte(s[i]), Encode(s[i + 1..]));
  }

  lemma DecodeFrom(t: Bytes, i: nat, done: Bytes)
    requires i < |t|
    ensures EscapeAt(t[i..]) ==> done + Decode(t[i..]) == done + [EscapeValue(t[i..])] + Decode(t[i + 3..])
    ensures !EscapeAt(t[i..]) ==> done + Decode(t[i..]) == done + [Plain(t[i])] + Decode(t[i + 1..])
  {
    DropTwice(t, i, 1);
    if EscapeAt(t[i..]) {
      DropTwice(t, i, 3);
      Assoc(done, [EscapeValue(t[i..])], Decode(t[i + 3..]));
    } else {
      Assoc(done, [Plain(t[i])], Decode(t[i + 1..]));
    }
  }

  // std::string::operator[]: reading at the length yields the terminating NUL.
  function CharAt(s: Bytes, i: nat): Byte
    requires i <= |s|
  {
    if i < |s| then s[i] else '\0'
  }

  // std::string::substr(pos, n): clipped at the end of the string.
  function Substr(s: Bytes, pos: nat, n: nat): Bytes
    requires pos <= |s|
  {
    if pos + n <= |s| then s[pos..pos + n] else s[pos..]
  }

  // The test made on the two bytes after a '%' finds exactly the complete escapes.
  lemma SubstrAtEscape(t: Bytes, i: nat)
    requires i + 2 <= |t| && t[i] == '%'
    ensures var hex := Substr(t, i + 1, 2);
            (IsHex(CharAt(hex, 0)) && IsHex(CharAt(hex, 1)) <==> EscapeAt(t[i..])) &&
            (EscapeAt(t[i..]) ==> i + 3 <= |t| && hex == [t[i + 1], t[i + 2]])
  {}

  method DecodeLoop(encodedUrl: Bytes) returns (result: Bytes)
    ensures result == Decode(encodedUrl)
  {
    result := [];
    var i := 0;
    while i < |encodedUrl|
      invariant 0 <= i <= |encodedUrl|
      invariant result + Decode(encodedUrl[i..]) == Decode(encodedUrl)
    {
      var ch := encodedUrl[i];
      DecodeFrom(encodedUrl, i, result);
      if ch == '%' && i + 2 <= |encodedUrl| {
        var hex := Substr(encodedUrl, i + 1, 2);
        SubstrAtEscape(encodedUrl, i);
        if IsHex(CharAt(hex, 0)) && IsHex(CharAt(hex, 1)) {
          var dec := ByteOf(16 * HexValue(hex[0]) + HexValue(hex[1]));
          result := result + [dec];
          i := i + 2;
        } else {
          result := result + [ch];
        }
      } else if ch == '+' {
        result := result + [' '];
      } else {
        result := result + [ch];
      }
      i := i + 1;
    }
  }

  // ---------- Decoding undoes encoding ----------

  lemma EncodedByteDecodes(c: Byte, t: Bytes)
    ensures Decode(EncodeByte(c) + t) == [c] + Decode(t)
  {
    var e := EncodeByte(c) + t;
    if Unreserved(c) {
      assert e[1..] == t;
    } else {
      HexDigitsRoundTrip(c);
      assert EscapeAt(e) && e[3..] == t;
    }
  }

  lemma HexDigitsRoundTrip(c: Byte)
    ensures var h, l := UPPER_XDIGITS[c as int / 16], UPPER_XDIGITS[c as int % 16];
            IsHex(h) && IsHex(l) && 16 * HexValue(h) + HexValue(l) == c as int
  {
    UpperDigitsRoundTrip(c as int / 16);
    UpperDigitsRoundTrip(c as int % 16);
  }

  lemma UpperDigitsRoundTrip(n: nat)
    requires n < 16
    ensures IsHex(UPPER_XDIGITS[n]) && HexValue(UPPER_XDIGITS[n]) == n
    ensures IsDigit(UPPER_XDIGITS[n]) || 'A' <= UPPER_XDIGITS[n] <= 'F'
  {}

  /** Encoding writes no '+', which decoding would read as a space. */
  lemma {:induction false} EncodedHasNoPlus(s: Bytes)
    ensures '+' !in Encode(s)
  {
    if s != [] {
      EncodedHasNoPlus(s[1..]);
      UpperDigitsRoundTrip(s[0] as int / 16);
      UpperDigitsRoundTrip(s[0] as int % 16);
    }
  }

  /** Encoded text decodes to its source whatever follows it. */
  lemma {:induction false} DecodeUndoesEncode(s: Bytes, t: Bytes)
    ensures Decode(Encode(s) + t) == s + Decode(t)
    decreases |s|
  {
    if s == [] {
      assert Encode(s) + t == t;
    } else {
      var c, e, d := s[0], Encode(s[1..]), Decode(t);
      Assoc(EncodeByte(c), e, t);
      EncodedByteDecodes(c, e + t);
      DecodeUndoesEncode(s[1..], t);
      Assoc([c], s[1..], d);
      HeadTail(s);
    }
  }

  lemma DecodeEncode(s: Bytes)
    ensures Decode(Encode(s)) == s
  {
    DecodeUndoesEncode(s, []);
    assert Encode(s) + [] == Encode(s);
    assert s + Decode([]) == s;
  }

  lemma EncodeInjective(a: Bytes, b: Bytes)
    requires Encode(a) == Encode(b)
    ensures a == b
  {
    DecodeEncode(a);
    DecodeEncode(b);
  }

  // ---------- What each byte becomes ----------

  /** Encoding keeps letters, digits and the four marks of section 2.3 of RFC 3986; any other byte becomes
      a percent sign and the two upper-case digits of its value. */
  lemma EncodedByte(c: Byte)
    ensures var e := Encode([c]);
            if 'A' <= c <= 'Z' || 'a' <= c <= 'z' || '0' <= c <= '9' || c == '-' || c == '.' || c == '_' || c == '~'
            then e == [c]
            else
              |e| == 3 && e[0] == '%' && UpperDigit(e[1]) && UpperDigit(e[2]) &&
              16 * HexValue(e[1]) + HexValue(e[2]) == c as int
  {
    assert Encode([c]) == EncodeByte(c) + [] == EncodeByte(c);
    HexDigitsRoundTrip(c);
    UpperDigitsRoundTrip(c as int / 16);
    UpperDigitsRoundTrip(c as int % 16);
  }

  predicate UpperDigit(c: Byte) {
    '0' <= c <= '9' || 'A' <= c <= 'F'
  }

  // No complete escape anywhere; a percent sign may well be there.
  predicate NoEscape(t: Bytes) {
    forall i | 0 <= i < |t| :: !EscapeAt(t[i..])
  }

  /** Text without a complete escape is decoded byte by byte, to itself but for a space for each plus. */
  lemma {:induction false} DecodeWithoutEscapes(t: Bytes, i: nat)
    requires NoEscape(t) && i < |t|
    ensures |Decode(t)| == |t| && Decode(t)[i] == if t[i] == '+' then ' ' else t[i]
    decreases |t|
  {
    assert t[0..] == t;
    if |t| > 1 {
      forall j | 0 <= j < |t| - 1
        ensures !EscapeAt(t[1..][j..])
      {
        DropTwice(t, 1, j);
      }
      DecodeWithoutEscapes(t[1..], if i == 0 then 0 else i - 1);
    }
  }

  /** A complete escape decodes to the byte of its two digits, in either case of letters. */
  lemma EscapeDecodes(c: Byte, h: Byte, l: Byte, t: Bytes)
    requires h == UPPER_XDIGITS[c as int / 16] || h == LOWER_XDIGITS[c as int / 16]
    requires l == UPPER_XDIGITS[c as int % 16] || l == LOWER_XDIGITS[c as int % 16]
    ensures Decode(['%', h, l] + t) == [c] + Decode(t)
  {
    var e := ['%', h, l] + t;
    UpperDigitsRoundTrip(c as int / 16);
    UpperDigitsRoundTrip(c as int % 16);
    LowerDigitsRoundTrip(c as int / 16);
    LowerDigitsRoundTrip(c as int % 16);
    assert e[3..] == t && EscapeAt(e);
  }

  // The encoding of HTML forms, which writes a plus for a space.
  function FormEncode(s: Bytes): Bytes {
    if s == [] then [] else (if s[0] == ' ' then ['+'] else EncodeByte(s[0])) + FormEncode(s[1..])
  }

  /** Decoding undoes the encoding of forms as well. */
  lemma {:induction false} DecodeUndoesFormEncode(s: Bytes, t: Bytes)
    ensures Decode(FormEncode(s) + t) == s + Decode(t)
    decreases |s|
  {
    if s == [] {
      assert FormEncode(s) + t == t;
    } else {
      var c, e := s[0], FormEncode(s[1..]);
      DecodeUndoesFormEncode(s[1..], t);
      if c == ' ' {
        Assoc(['+'], e, t);
        assert (['+'] + (e + t))[1..] == e + t;
      } else {
        Assoc(EncodeByte(c), e, t);
        EncodedByteDecodes(c, e + t);
      }
      Assoc([c], s[1..], Decode(t));
      HeadTail(s);
    }
  }

  // ---------- Canonical forms ----------

  // Unreserved bytes, and upper-case triples of bytes that are not unreserved.
  predicate Canonical(t: Bytes) {
    t == []
    || (Unreserved(t[0]) && Canonical(t[1..]))
    || (EscapeAt(t) && UpperDigit(t[1]) && UpperDigit(t[2]) && !Unreserved(EscapeValue(t)) && Canonical(t[3..]))
  }

  lemma {:induction false} EncodeIsCanonical(s: Bytes)
    ensures Canonical(Encode(s))
    decreases |s|
  {
    if s != [] {
      EncodeIsCanonical(s[1..]);
      var e := Encode(s);
      if Unreserved(s[0]) {
        assert e[1..] == Encode(s[1..]);
      } else {
        UpperDigitsRoundTrip(s[0] as int / 16);
        UpperDigitsRoundTrip(s[0] as int % 16);
        assert e[3..] == Encode(s[1..]);
        assert EscapeAt(e) && EscapeValue(e) as int == s[0] as int;
      }
    }
  }

  lemma EncodeCons(c: Byte, s: Bytes)
    ensures Encode([c] + s) == EncodeByte(c) + Encode(s)
  {
    assert ([c] + s)[1..] == s;
  }

  lemma UpperTriple(t: Bytes)
    requires EscapeAt(t) && UpperDigit(t[1]) && UpperDigit(t[2]) && !Unreserved(EscapeValue(t))
    ensures EncodeByte(EscapeValue(t)) == t[..3]
  {
    var v := EscapeValue(t) as int;
    assert v / 16 == HexValue(t[1]) && v % 16 == HexValue(t[2]);
  }

  lemma {:induction false} CanonicalSurvives(t: Bytes)
    requires Canonical(t)
    ensures Encode(Decode(t)) == t
    decreases |t|
  {
    if t == [] {
    } else if Unreserved(t[0]) {
      CanonicalSurvives(t[1..]);
      EncodeCons(t[0], Decode(t[1..]));
      HeadTail(t);
    } else {
      CanonicalSurvives(t[3..]);
      EncodeCons(EscapeValue(t), Decode(t[3..]));
      UpperTriple(t);
      assert t[..3] + t[3..] == t;
    }
  }

  /** Re-encoding decoded text restores it exactly when it was in canonical form. */
  lemma EncodeRestoresIffCanonical(t: Bytes)
    ensures Encode(Decode(t)) == t <==> Canonical(t)
  {
    EncodeIsCanonical(Decode(t));
    if Canonical(t) {
      CanonicalSurvives(t);
    }
  }

  /** Text that decodes alike is brought to one canonical text, and that text decodes as they did. */
  lemma CanonicalRepresentative(t: Bytes)
    ensures Decode(Encode(Decode(t))) == Decode(t)
    ensures forall u :: Canonical(u) && Decode(u) == Decode(t) ==> u == Encode(Decode(t))
  {
    DecodeEncode(Decode(t));
    forall u | Canonical(u) && Decode(u) == Decode(t)
      ensures u == Encode(Decode(t))
    {
      CanonicalSurvives(u);
    }
  }

  // ---------- Lengths ----------

  function ReservedCount(s: Bytes): nat {
    if s == [] then 0 else (if Unreserved(s[0]) then 0 else 1) + ReservedCount(s[1..])
  }

  function EscapeCount(t: Bytes): nat {
    if t == [] then 0
    else if EscapeAt(t) then 1 + EscapeCount(t[3..])
    else EscapeCount(t[1..])
  }

  /** The space reserved by encode, three bytes for each input byte, is never exceeded. */
  lemma {:induction false} EncodedLength(s: Bytes)
    ensures |Encode(s)| == |s| + 2 * ReservedCount(s) <= 3 * |s|
    decreases |s|
  {
    if s != [] {
      EncodedLength(s[1..]);
    }
  }

  /** The space reserved by decode, one byte for each input byte, is never exceeded. */
  lemma {:induction false} DecodedLength(t: Bytes)
    ensures |Decode(t)| == |t| - 2 * EscapeCount(t) <= |t|
    decreases |t|
  {
    if t == [] {
    } else if EscapeAt(t) {
      DecodedLength(t[3..]);
    } else {
      DecodedLength(t[1..]);
    }
  }

  // ---------- Decoding in pieces ----------

  // The cut between a and b falls inside an escape.
  predicate CutsEscape(a: Bytes, b: Bytes) {
    || (|a| >= 1 && a[|a| - 1] == '%' && |b| >= 2 && IsHex(b[0]) && IsHex(b[1]))
    || (|a| >= 2 && a[|a| - 2] == '%' && IsHex(a[|a| - 1]) && |b| >= 1 && IsHex(b[0]))
  }

  // Joining two pieces completes one escape when the cut is inside it, and none otherwise.
  lemma {:induction false} EscapesOfPieces(a: Bytes, b: Bytes)
    ensures EscapeCount(a + b) == EscapeCount(a) + EscapeCount(b) + (if CutsEscape(a, b) then 1 else 0)
    ensures !CutsEscape(a, b) ==> Decode(a + b) == Decode(a) + Decode(b)
    decreases |a|
  {
    if a == [] {
      assert a + b == b;
    } else if EscapeAt(a) {
      DropFromSum(a, b, 3);
      assert EscapeAt(a + b) && EscapeValue(a + b) == EscapeValue(a);
      EscapesOfPieces(a[3..], b);
      CutPastEscape(a, b);
      Assoc([EscapeValue(a)], Decode(a[3..]), Decode(b));
    } else if EscapeAt(a + b) {
      EscapeOverCut(a, b);
    } else {
      DropFromSum(a, b, 1);
      EscapesOfPieces(a[1..], b);
      Assoc([Plain(a[0])], Decode(a[1..]), Decode(b));
    }
  }

  // The digits of an escape at the head of a cannot take part in another.
  lemma CutPastEscape(a: Bytes, b: Bytes)
    requires EscapeAt(a)
    ensures CutsEscape(a, b) == CutsEscape(a[3..], b)
  {}

  // An escape that starts in a and ends in b: what it takes from b is digits, never another escape.
  lemma EscapeOverCut(a: Bytes, b: Bytes)
    requires a != [] && !EscapeAt(a) && EscapeAt(a + b)
    ensures CutsEscape(a, b)
    ensures EscapeCount(a + b) == EscapeCount(a) + EscapeCount(b) + 1
  {
    var t := a + b;
    if |a| == 1 {
      assert t[3..] == b[2..] == b[1..][1..];
      assert EscapeCount(b) == EscapeCount(b[1..]) == EscapeCount(b[2..]);
      assert a[1..] == [];
    } else {
      assert |a| == 2 && t[3..] == b[1..];
      assert EscapeCount(b) == EscapeCount(b[1..]);
      assert a[1..][1..] == [] && !EscapeAt(a[1..]);
      assert EscapeCount(a) == EscapeCount(a[1..]) == 0;
    }
  }

  /** Decoding two pieces apart gives the decoding of the whole exactly when no escape is cut. */
  lemma DecodeInPieces(a: Bytes, b: Bytes)
    ensures Decode(a + b) == Decode(a) + Decode(b) <==> !CutsEscape(a, b)
  {
    EscapesOfPieces(a, b);
    DecodedLength(a + b);
    DecodedLength(a);
    DecodedLength(b);
  }
}
