/** The JSON body of an error response: escaping of the cause, and the strings it stands for. */
module JsonCause {
  import opened ByteStrings
  import opened Sequences

  // ---------- The printer (Http2Server::receiveError) ----------

  function EscapeByte(c: Byte): Bytes {
    match c
    case '"' => ['\\', '"']
    case '\\' => ['\\', '\\']
    case '\n' => ['\\', 'n']
    case '\r' => ['\\', 'r']
    case '\t' => ['\\', 't']
    case '\U{0008}' => ['\\', 'b']
    case '\U{000C}' => ['\\', 'f']
    case _ =>
      if c as int < 0x20 then
        ['\\', 'u', '0', '0', LOWER_XDIGITS[c as int / 16], LOWER_XDIGITS[c as int % 16]]
      else [c]
  }

  function Escape(s: Bytes): Bytes {
    if s == [] then [] else EscapeByte(s[0]) + Escape(s[1..])
  }

  const OPENING: Bytes := ['{', '"', 'c', 'a', 'u', 's', 'e', '"', ':', '"']

  const CLOSING: Bytes := ['"', '}']

  const EMPTY_DOCUMENT: Bytes := ['{', '}']

  function Body(cause: Bytes): Bytes {
    if cause == [] then EMPTY_DOCUMENT else OPENING + Escape(cause) + CLOSING
  }

  // The switch of the printing loop; its hexadecimal digits come from shifts and masks of the byte.
  method AppendEscaped(done: Bytes, c: Byte) returns (escaped: Bytes)
    ensures escaped == done + EscapeByte(c)
  {
    escaped := done;
    match c {
      case '"' => escaped := escaped + ['\\', '"'];
      case '\\' => escaped := escaped + ['\\', '\\'];
      case '\n' => escaped := escaped + ['\\', 'n'];
      case '\r' => escaped := escaped + ['\\', 'r'];
      case '\t' => escaped := escaped + ['\\', 't'];
      case '\U{0008}' => escaped := escaped + ['\\', 'b'];
      case '\U{000C}' => escaped := escaped + ['\\', 'f'];
      case _ =>
        if c as int < 0x20 {
          escaped := escaped + ['\\', 'u', '0', '0'];
          escaped := escaped + [LOWER_XDIGITS[(c as int / 16) % 16]];
          escaped := escaped + [LOWER_XDIGITS[c as int % 16]];
        } else {
          escaped := escaped + [c];
        }
    }
  }

  method EscapeLoop(cause: Bytes) returns (escaped: Bytes)
    ensures escaped == Escape(cause)
  {
    escaped := [];
    for i := 0 to |cause|
      invariant escaped + Escape(cause[i..]) == Escape(cause)
    {
      EscapeFrom(cause, i, escaped);
      escaped := AppendEscaped(escaped, cause[i]);
    }
  }

  lemma EscapeFrom(s: Bytes, i: nat, done: Bytes)
    requires i < |s|
    ensures done + Escape(s[i..]) == done + EscapeByte(s[i]) + Escape(s[i + 1..])
  {
    DropTwice(s, i, 1);
    Assoc(done, EscapeByte(s[i]), Escape(s[i + 1..]));
  }

  // ---------- A reader of JSON strings (section 7 of RFC 8259) ----------

  datatype Option<+T> = None | Some(value: T)

  datatype Parsed = Parsed(text: Bytes, rest: Bytes)

  predicate FourHex(t: Bytes) {
    |t| >= 4 && forall i | 0 <= i < 4 :: IsHex(t[i])
  }

  function FourHexValue(t: Bytes): (n: nat)
    requires FourHex(t)
    ensures n < 0x10000
  {
    4096 * HexValue(t[0]) + 256 * HexValue(t[1]) + 16 * HexValue(t[2]) + HexValue(t[3])
  }

  // The UTF-8 form of a code point (section 3 of RFC 3629).
  function Utf8(cp: nat): Bytes
    requires cp < 0x110000
  {
    if cp < 0x80 then [ByteOf(cp)]
    else if cp < 0x800 then [ByteOf(0xC0 + cp / 64), ByteOf(0x80 + cp % 64)]
    else if cp < 0x10000 then
      [ByteOf(0xE0 + cp / 4096), ByteOf(0x80 + cp / 64 % 64), ByteOf(0x80 + cp % 64)]
    else
      [ByteOf(0xF0 + cp / 262144), ByteOf(0x80 + cp / 4096 % 64), ByteOf(0x80 + cp / 64 % 64), ByteOf(0x80 + cp % 64)]
  }

  // What follows a backslash: the bytes it stands for and the text after it.
  function ParseEscape(t: Bytes): (r: Option<Parsed>)
    ensures r.Some? ==> |r.value.rest| < |t|
  {
    if t == [] then None
    else
      match t[0]
      case '"' => Some(Parsed(['"'], t[1..]))
      case '\\' => Some(Parsed(['\\'], t[1..]))
      case '/' => Some(Parsed(['/'], t[1..]))
      case 'b' => Some(Parsed(['\U{0008}'], t[1..]))
      case 'f' => Some(Parsed(['\U{000C}'], t[1..]))
      case 'n' => Some(Parsed(['\n'], t[1..]))
      case 'r' => Some(Parsed(['\r'], t[1..]))
      case 't' => Some(Parsed(['\t'], t[1..]))
      case 'u' => ParseUnicode(t[1..])
      case _ => None
  }

  // Four digits, or a surrogate pair of two such escapes.
  function ParseUnicode(t: Bytes): (r: Option<Parsed>)
    ensures r.Some? ==> |r.value.rest| < |t|
  {
    if !FourHex(t) then None
    else
      var high := FourHexValue(t);
      if high < 0xD800 || 0xE000 <= high then Some(Parsed(Utf8(high), t[4..]))
      else if high < 0xDC00 && |t| >= 6 && t[4] == '\\' && t[5] == 'u' && FourHex(t[6..]) then
        var low := FourHexValue(t[6..]);
        if 0xDC00 <= low < 0xE000 then
          Some(Parsed(Utf8(0x10000 + 1024 * (high - 0xD800) + (low - 0xDC00)), t[10..]))
        else None
      else None
  }

  function Prepend(text: Bytes, r: Option<Parsed>): Option<Parsed> {
    if r.None? then None else Some(Parsed(text + r.value.text, r.value.rest))
  }

  // The text of a string whose opening quote has been read, and what follows its closing quote.
  function ParseString(t: Bytes): Option<Parsed>
    decreases |t|
  {
    if t == [] then None
    else if t[0] == '"' then Some(Parsed([], t[1..]))
    else if t[0] == '\\' then
      var e := ParseEscape(t[1..]);
      if e.None? then None else Prepend(e.value.text, ParseString(e.value.rest))
    else if t[0] as int < 0x20 then None
    else Prepend([t[0]], ParseString(t[1..]))
  }

  // The cause carried by an error body, if it has one.
  function ParseBody(body: Bytes): Option<Bytes> {
    if !(OPENING <= body) then None
    else
      var r := ParseString(body[|OPENING|..]);
      if r.Some? && r.value.rest == ['}'] then Some(r.value.text) else None
  }

  // ---------- Round trip ----------

  lemma ControlDigits(c: Byte)
    requires c as int < 0x20
    ensures var h, l := LOWER_XDIGITS[c as int / 16], LOWER_XDIGITS[c as int % 16];
            IsHex(h) && IsHex(l) && 16 * HexValue(h) + HexValue(l) == c as int
  {
    LowerDigitsRoundTrip(c as int / 16);
    LowerDigitsRoundTrip(c as int % 16);
  }

  lemma UnicodeEscapeParses(c: Byte, t: Bytes)
    requires c as int < 0x20
    ensures ParseUnicode(['0', '0', LOWER_XDIGITS[c as int / 16], LOWER_XDIGITS[c as int % 16]] + t)
            == Some(Parsed([c], t))
  {
    var u := ['0', '0', LOWER_XDIGITS[c as int / 16], LOWER_XDIGITS[c as int % 16]] + t;
    ControlDigits(c);
    assert FourHex(u) && FourHexValue(u) == c as int;
    assert u[4..] == t;
  }

  lemma ShortEscapeParses(b: Bytes, c: Byte, t: Bytes)
    requires |b| == 2 && b[0] == '\\' && ParseEscape([b[1]] + t) == Some(Parsed([c], t))
    ensures ParseString(b + t) == Prepend([c], ParseString(t))
  {
    DropFromSum(b, t, 1);
    assert b[1..] == [b[1]];
  }

  lemma EscapedByteParses(c: Byte, t: Bytes)
    ensures ParseString(EscapeByte(c) + t) == Prepend([c], ParseString(t))
  {
    var b := EscapeByte(c);
    if |b| == 1 {
      assert (b + t)[1..] == t;
    } else if |b| == 2 {
      assert ([b[1]] + t)[1..] == t;
      ShortEscapeParses(b, c, t);
    } else {
      var u := ['0', '0', LOWER_XDIGITS[c as int / 16], LOWER_XDIGITS[c as int % 16]];
      UnicodeEscapeParses(c, t);
      assert b == ['\\', 'u'] + u;
      LongEscapeParses(u, c, t);
    }
  }

  lemma LongEscapeParses(u: Bytes, c: Byte, t: Bytes)
    requires ParseUnicode(u + t) == Some(Parsed([c], t))
    ensures ParseString(['\\', 'u'] + u + t) == Prepend([c], ParseString(t))
  {
    var e := ['\\', 'u'] + u + t;
    assert e[1..] == ['u'] + (u + t);
    assert e[1..][1..] == u + t;
  }

  /** Whatever follows it, the escaped cause is read back whole and reading stops at the closing quote. */
  lemma {:induction false} EscapeRoundTrip(cause: Bytes, t: Bytes)
    ensures ParseString(Escape(cause) + ['"'] + t) == Some(Parsed(cause, t))
    decreases |cause|
  {
    var q := ['"'] + t;
    Assoc(Escape(cause), ['"'], t);
    if cause == [] {
      assert Escape(cause) + q == q;
    } else {
      var c, e := cause[0], Escape(cause[1..]);
      Assoc(EscapeByte(c), e, q);
      EscapedByteParses(c, e + q);
      Assoc(e, ['"'], t);
      EscapeRoundTrip(cause[1..], t);
      HeadTail(cause);
    }
  }

  /** The printed body is an object whose one member holds the cause, and is read back as the cause;
      without a cause it is the empty document. */
  lemma BodyRoundTrip(cause: Bytes)
    ensures ParseBody(Body(cause)) == if cause == [] then None else Some(cause)
    ensures cause == [] ==> Body(cause) == "{}"
    ensures cause != [] ==> Body(cause) == "{\"cause\":\"" + Escape(cause) + "\"}"
  {
    assert EMPTY_DOCUMENT == "{}" && OPENING == "{\"cause\":\"" && CLOSING == "\"}";
    if cause != [] {
      EscapeRoundTrip(cause, ['}']);
      var b, e := Body(cause), Escape(cause);
      assert ['"'] + ['}'] == CLOSING;
      Assoc(e, ['"'], ['}']);
      Assoc(OPENING, e, CLOSING);
      DropFromSum(OPENING, e + CLOSING, |OPENING|);
      assert OPENING <= b;
      assert b[|OPENING|..] == e + CLOSING;
    }
  }

  lemma BodyInjective(a: Bytes, b: Bytes)
    requires Body(a) == Body(b)
    ensures a == b
  {
    BodyRoundTrip(a);
    BodyRoundTrip(b);
  }

  predicate Printable(s: Bytes) {
    forall i | 0 <= i < |s| :: s[i] as int >= 0x20
  }

  lemma PrintableByte(c: Byte)
    ensures Printable(EscapeByte(c)) && 1 <= |EscapeByte(c)| <= 6
  {}

  lemma PrintableSum(a: Bytes, b: Bytes)
    requires Printable(a) && Printable(b)
    ensures Printable(a + b)
  {}

  /** No raw control byte is printed, and at most six bytes for each byte of the cause. */
  lemma {:induction false} EscapeIsPrintable(s: Bytes)
    ensures |s| <= |Escape(s)| <= 6 * |s|
    ensures Printable(Escape(s))
    decreases |s|
  {
    if s != [] {
      EscapeIsPrintable(s[1..]);
      PrintableByte(s[0]);
      PrintableSum(EscapeByte(s[0]), Escape(s[1..]));
    }
  }

  // The quote, the backslash and the five control bytes that have a short escape.
  predicate HasShortEscape(c: Byte) {
    c == '"' || c == '\\' || c as int == 8 || c as int == 9 || c as int == 10 || c as int == 12 || c as int == 13
  }

  function ExtraLength(s: Bytes): nat {
    if s == [] then 0
    else (if HasShortEscape(s[0]) then 1 else if s[0] as int < 0x20 then 5 else 0) + ExtraLength(s[1..])
  }

  /** No byte is escaped without need: a short escape adds one byte, one of the other control bytes
      five, and any other byte is printed as it is. */
  lemma {:induction false} EscapedLength(s: Bytes)
    ensures |Escape(s)| == |s| + ExtraLength(s)
    ensures ExtraLength(s) == 0 <==> Escape(s) == s
    decreases |s|
  {
    if s != [] {
      EscapedLength(s[1..]);
      EscapedByteLength(s[0]);
      if ExtraLength(s) == 0 {
        HeadTail(s);
      }
    }
  }

  lemma EscapedByteLength(c: Byte)
    ensures |EscapeByte(c)| == 1 + ExtraLength([c])
    ensures ExtraLength([c]) == 0 ==> EscapeByte(c) == [c]
  {}

  // ---------- Well-formed UTF-8 (section 4 of RFC 3629) ----------

  predicate Within(c: Byte, lo: int, hi: int) {
    lo <= c as int <= hi
  }

  // The bytes that may follow a leading byte.
  predicate Follows(lead: Byte, c: Byte) {
    if Within(lead, 0xE0, 0xE0) then Within(c, 0xA0, 0xBF)
    else if Within(lead, 0xED, 0xED) then Within(c, 0x80, 0x9F)
    else if Within(lead, 0xF0, 0xF0) then Within(c, 0x90, 0xBF)
    else if Within(lead, 0xF4, 0xF4) then Within(c, 0x80, 0x8F)
    else Within(lead, 0xC2, 0xF4) && Within(c, 0x80, 0xBF)
  }

  predicate WellFormed(s: Bytes)
    decreases |s|, 0
  {
    s == []
    || (Within(s[0], 0, 0x7F) && WellFormed(s[1..]))
    || (|s| >= 2 && Follows(s[0], s[1]) && TailsThen(s[2..], Extra(s[0])))
  }

  // The number of bytes after the second.
  function Extra(lead: Byte): nat {
    if Within(lead, 0xE0, 0xEF) then 1 else if Within(lead, 0xF0, 0xF4) then 2 else 0
  }

  predicate TailsThen(s: Bytes, n: nat)
    decreases |s|, 1
  {
    if n == 0 then WellFormed(s) else s != [] && Within(s[0], 0x80, 0xBF) && TailsThen(s[1..], n - 1)
  }

  // Escaping leaves bytes of 0x80 and above where they are, and turns the others into ASCII.
  lemma EscapeKeepsHighBytes(s: Bytes)
    requires s != []
    ensures Escape(s) != []
    ensures s[0] as int >= 0x80 ==> Escape(s)[0] == s[0] && Escape(s)[1..] == Escape(s[1..])
    ensures s[0] as int < 0x80 ==> Escape(s)[0] as int < 0x80
  {
    if s[0] as int >= 0x80 {
      assert EscapeByte(s[0]) == [s[0]];
    }
  }

  lemma {:induction false} AsciiPrefix(a: Bytes, t: Bytes)
    requires forall i | 0 <= i < |a| :: Within(a[i], 0, 0x7F)
    ensures WellFormed(a + t) == WellFormed(t)
    decreases |a|
  {
    if a == [] {
      assert a + t == t;
    } else {
      DropFromSum(a, t, 1);
      AsciiPrefix(a[1..], t);
    }
  }

  lemma EscapeIsAscii(c: Byte)
    requires Within(c, 0, 0x7F)
    ensures forall i | 0 <= i < |EscapeByte(c)| :: Within(EscapeByte(c)[i], 0, 0x7F)
  {}

  // Text that starts with an ASCII byte, and its escape, are well-formed if what follows is.
  lemma AsciiLead(s: Bytes)
    requires s != [] && Within(s[0], 0, 0x7F)
    ensures WellFormed(s) == WellFormed(s[1..])
    ensures WellFormed(Escape(s)) == WellFormed(Escape(s[1..]))
  {
    var e, rest := EscapeByte(s[0]), Escape(s[1..]);
    EscapeIsAscii(s[0]);
    AsciiPrefix(e, rest);
    assert Escape(s) == e + rest;
  }

  /** The printed cause is well-formed UTF-8 exactly when the cause is. */
  lemma {:induction false} EscapePreservesUtf8(s: Bytes)
    ensures WellFormed(Escape(s)) <==> WellFormed(s)
    decreases |s|, 0
  {
    if s == [] {
    } else if Within(s[0], 0, 0x7F) {
      AsciiLead(s);
      EscapePreservesUtf8(s[1..]);
    } else {
      HighLead(s);
      if |s| >= 2 {
        EscapePreservesTails(s[2..], Extra(s[0]));
        EscapeKeepsTwoHighBytes(s);
        HighLead(Escape(s));
      } else {
        assert Escape(s) == s;
      }
    }
  }

  // Text that starts with a high byte is well-formed by its first two bytes and the tails after them.
  lemma HighLead(s: Bytes)
    requires s != [] && s[0] as int >= 0x80
    ensures WellFormed(s) <==>
            |s| >= 2 && s[1] as int >= 0x80 && Follows(s[0], s[1]) && TailsThen(s[2..], Extra(s[0]))
  {}

  lemma EscapeKeepsTwoHighBytes(s: Bytes)
    requires |s| >= 2 && s[0] as int >= 0x80
    ensures |Escape(s)| >= 2 && Escape(s)[0] == s[0]
    ensures s[1] as int >= 0x80 ==> Escape(s)[1] == s[1] && Escape(s)[2..] == Escape(s[2..])
    ensures s[1] as int < 0x80 ==> Escape(s)[1] as int < 0x80
  {
    EscapeKeepsHighBytes(s);
    EscapeKeepsHighBytes(s[1..]);
    DropTwice(s, 1, 1);
    DropTwice(Escape(s), 1, 1);
  }

  lemma {:induction false} EscapePreservesTails(s: Bytes, n: nat)
    ensures TailsThen(Escape(s), n) <==> TailsThen(s, n)
    decreases |s|, 1
  {
    if n == 0 {
      EscapePreservesUtf8(s);
    } else if s != [] {
      EscapeKeepsHighBytes(s);
      EscapePreservesTails(s[1..], n - 1);
    }
  }
}
