/** Building response headers (Http2Headers), and reading back the values built. */
module HeaderMap {
  import opened Sequences

  datatype HeaderValue = HeaderValue(value: string, sensitive: bool)

  // nghttp2's header_map is a multimap: equal keys keep their values in order of insertion.
  type HeaderMap = map<string, seq<HeaderValue>>

  function Emplaced(h: HeaderMap, key: string, value: string, sensitive: bool): HeaderMap {
    if value == "" then h
    else h[key := (if key in h then h[key] else []) + [HeaderValue(value, sensitive)]]
  }

  // ---------- What a series of insertions leads to ----------

  datatype Entry = Entry(key: string, value: string, sensitive: bool)

  function AllEmplaced(entries: seq<Entry>): HeaderMap {
    if entries == [] then map[]
    else Emplaced(AllEmplaced(Front(entries)), Last(entries).key, Last(entries).value, Last(entries).sensitive)
  }

  // The values given for a key, in order and without the empty ones.
  function ValuesFor(entries: seq<Entry>, key: string): seq<HeaderValue> {
    if entries == [] then []
    else
      var e := Last(entries);
      ValuesFor(Front(entries), key) + if e.key == key && e.value != "" then [HeaderValue(e.value, e.sensitive)] else []
  }

  /** After any series of insertions a key holds exactly the values given for it, in order; a key that was
      given no value, or only empty ones, is absent. */
  lemma {:induction false} ValuesInOrder(entries: seq<Entry>, key: string)
    ensures key in AllEmplaced(entries) <==> ValuesFor(entries, key) != []
    ensures key in AllEmplaced(entries) ==> AllEmplaced(entries)[key] == ValuesFor(entries, key)
  {
    if entries != [] {
      ValuesInOrder(Front(entries), key);
    }
  }

  // ---------- Lists and numerals as header values ----------

  function Joined(tokens: seq<string>): string {
    if tokens == [] then "" else tokens[0] + JoinedRest(tokens[1..])
  }

  function JoinedRest(tokens: seq<string>): string {
    if tokens == [] then "" else ", " + tokens[0] + JoinedRest(tokens[1..])
  }

  function DecimalDigit(n: nat): char
    requires n < 10
  {
    "0123456789"[n]
  }

  // std::to_string
  function Decimal(n: nat): string {
    if n < 10 then [DecimalDigit(n)] else Decimal(n / 10) + [DecimalDigit(n % 10)]
  }

  class Http2Headers {
    var headers: HeaderMap

    constructor ()
      ensures headers == map[]
    {
      headers := map[];
    }

    method Emplace(key: string, value: string, sensitive: bool := false)
      modifies this
      ensures headers == Emplaced(old(headers), key, value, sensitive)
    {
      if |value| > 0 {
        headers := headers[key := (if key in headers then headers[key] else []) + [HeaderValue(value, sensitive)]];
      }
    }

    method AddAllowedMethods(value: seq<string>, header: string := "Allow")
      modifies this
      ensures headers == Emplaced(old(headers), header, Joined(value), false)
    {
      if value == [] {
        return;
      }
      var serialized := value[0];
      var i := 1;
      while i < |value|
        invariant 1 <= i <= |value|
        invariant serialized + JoinedRest(value[i..]) == Joined(value)
        invariant headers == old(headers)
      {
        JoinedFrom(value, i, serialized);
        serialized := serialized + ", " + value[i];
        i := i + 1;
      }
      assert serialized == Joined(value);
      Emplace(header, serialized);
    }

    method AddContentLength(value: nat, header: string := "content-length")
      modifies this
      ensures headers == Emplaced(old(headers), header, Decimal(value), false)
    {
      Emplace(header, Decimal(value));
    }
  }

  lemma JoinedFrom(tokens: seq<string>, i: nat, done: string)
    requires i < |tokens|
    ensures done + JoinedRest(tokens[i..]) == done + ", " + tokens[i] + JoinedRest(tokens[i + 1..])
  {
    DropTwice(tokens, i, 1);
    var r := JoinedRest(tokens[i + 1..]);
    Assoc(done, ", " + tokens[i], r);
    Assoc(done, ", ", tokens[i]);
  }

  // ---------- Reading a list ----------

  predicate HasSeparator(s: string) {
    exists i :: 0 <= i < |s| - 1 && s[i] == ',' && s[i + 1] == ' '
  }

  // The pieces of s between separators, taken from the left.
  function Split(s: string): (pieces: seq<string>)
    ensures pieces != []
  {
    if |s| < 2 then [s]
    else if s[0] == ',' && s[1] == ' ' then [""] + Split(s[2..])
    else
      var rest := Split(s[1..]);
      [[s[0]] + rest[0]] + rest[1..]
  }

  lemma CleanTail(t: string)
    requires t != "" && !HasSeparator(t)
    ensures !HasSeparator(t[1..])
  {}

  lemma {:induction false} SplitPastToken(t: string, rest: string)
    requires !HasSeparator(t)
    ensures Split(t + (", " + rest)) == [t] + Split(rest)
    decreases |t|
  {
    var s := t + (", " + rest);
    if t == "" {
      assert s == ", " + rest;
      assert s[2..] == rest;
    } else {
      DropFromSum(t, ", " + rest, 1);
      CleanTail(t);
      SplitPastToken(t[1..], rest);
      HeadTail(t);
    }
  }

  lemma {:induction false} SplitToken(t: string)
    requires !HasSeparator(t)
    ensures Split(t) == [t]
    decreases |t|
  {
    if |t| >= 2 {
      CleanTail(t);
      SplitToken(t[1..]);
      HeadTail(t);
    }
  }

  lemma {:induction false} SplitJoined(tokens: seq<string>)
    requires tokens != [] && forall i | 0 <= i < |tokens| :: !HasSeparator(tokens[i])
    ensures Split(Joined(tokens)) == tokens
    decreases |tokens|
  {
    if |tokens| == 1 {
      assert Joined(tokens) == tokens[0];
      SplitToken(tokens[0]);
    } else {
      var t, rest := tokens[0], tokens[1..];
      assert JoinedRest(rest) == ", " + Joined(rest) by {
        Assoc(", ", rest[0], JoinedRest(rest[1..]));
      }
      SplitPastToken(t, Joined(rest));
      SplitJoined(rest);
      HeadTail(tokens);
    }
  }

  lemma {:induction false} PiecesAreClean(s: string, i: nat)
    requires i < |Split(s)|
    ensures !HasSeparator(Split(s)[i])
    decreases |s|
  {
    if |s| >= 2 {
      if s[0] == ',' && s[1] == ' ' {
        if i > 0 {
          PiecesAreClean(s[2..], i - 1);
        }
      } else {
        PiecesAreClean(s[1..], i);
        if i == 0 {
          FirstPieceStarts(s[1..]);
          CleanCons(s[0], Split(s[1..])[0]);
        }
      }
    }
  }

  lemma FirstPieceStarts(s: string)
    requires s != ""
    ensures Split(s)[0] != "" ==> Split(s)[0][0] == s[0]
  {}

  lemma CleanCons(c: char, t: string)
    requires !HasSeparator(t) && (t != "" ==> !(c == ',' && t[0] == ' '))
    ensures !HasSeparator([c] + t)
  {}

  /** A joined list is read back as it was exactly when no token holds the separator. */
  lemma JoinedSplitsBack(tokens: seq<string>)
    requires tokens != []
    ensures Split(Joined(tokens)) == tokens <==> forall i | 0 <= i < |tokens| :: !HasSeparator(tokens[i])
  {
    if forall i | 0 <= i < |tokens| :: !HasSeparator(tokens[i]) {
      SplitJoined(tokens);
    }
    if Split(Joined(tokens)) == tokens {
      forall i | 0 <= i < |tokens|
        ensures !HasSeparator(tokens[i])
      {
        PiecesAreClean(Joined(tokens), i);
      }
    }
  }

  // A list joins to nothing only if it is empty or a single empty token.
  lemma JoinedEmpty(tokens: seq<string>)
    ensures Joined(tokens) == "" <==> tokens == [] || tokens == [""]
  {
    if |tokens| > 1 {
      assert |JoinedRest(tokens[1..])| >= 2;
    }
  }

  // ---------- Reading a numeral ----------

  function DecimalValue(s: string): (n: int)
    ensures n >= -1
  {
    if s == "" then 0
    else
      var high, c := DecimalValue(s[..|s| - 1]), s[|s| - 1];
      if high < 0 || !('0' <= c <= '9') then -1 else 10 * high + (c as int - '0' as int)
  }

  /** A numeral reads back as its number, and starts with a zero only if it is "0". */
  lemma {:induction false} DecimalRoundTrip(n: nat)
    ensures DecimalValue(Decimal(n)) == n && Decimal(n) != ""
    ensures Decimal(n)[0] == '0' ==> Decimal(n) == "0"
  {
    if n >= 10 {
      DecimalRoundTrip(n / 10);
      assert Decimal(n)[..|Decimal(n)| - 1] == Decimal(n / 10);
    }
  }
}
