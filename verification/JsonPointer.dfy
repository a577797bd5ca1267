/** Reference tokens as packages/golib/jsonpatch/jsonpatch.go reads them (RFC 6901), and the array
    indexes it takes from them with strconv.Atoi. */
module JsonPointer {
  import opened Decimal
  import opened GoInts
  import opened Wrappers

  /** strconv.Atoi: an optional sign and decimal digits, within int64. */
  function Atoi(s: string): Option<int> {
    var negative := s != [] && s[0] == '-';
    var body := if s != [] && (s[0] == '-' || s[0] == '+') then s[1..] else s;
    if body == [] || !AllDigits(body) then None
    else
      var v: int := Value(body);
      if negative then (if v <= MAX63 then Some(-v) else None)
      else if v < MAX63 then Some(v) else None
  }

  lemma AtoiOfDigits(n: nat)
    requires n < MAX63
    ensures Atoi(Digits(n)) == Some(n) && Digits(n) != "-"
  {
    DigitsRoundTrip(n);
    assert IsDigit(Digits(n)[0]);
  }

  /** Any digits are read, leading zeros and a sign too; 2^63 is in range only with the minus. */
  lemma AtoiOfSigned(digits: string)
    requires digits != [] && AllDigits(digits)
    ensures Atoi(digits) == Atoi(['+'] + digits) == if Value(digits) < MAX63 then Some(Value(digits)) else None
    ensures Atoi(['-'] + digits) == if Value(digits) <= MAX63 then Some(-(Value(digits) as int)) else None
  {
    hide Value;
    assert (['+'] + digits)[1..] == digits && (['-'] + digits)[1..] == digits;
    assert IsDigit(digits[0]);
  }

  /** strings.Split(s, "/"). */
  function Split(s: string): (parts: seq<string>)
    ensures parts != []
  {
    if s == [] then [[]]
    else if s[0] == '/' then [[]] + Split(s[1..])
    else
      var rest := Split(s[1..]);
      [[s[0]] + rest[0]] + rest[1..]
  }

  /** strings.ReplaceAll(s, "~" + c, with). */
  function ReplaceAll(s: string, c: char, with: char): string {
    if s == [] then []
    else if |s| >= 2 && s[0] == '~' && s[1] == c then [with] + ReplaceAll(s[2..], c, with)
    else [s[0]] + ReplaceAll(s[1..], c, with)
  }

  function Unescape(s: string): string {
    ReplaceAll(ReplaceAll(s, '1', '/'), '0', '~')
  }

  function UnescapeAll(parts: seq<string>): seq<string> {
    if parts == [] then [] else [Unescape(parts[0])] + UnescapeAll(parts[1..])
  }

  /** parsePath. */
  function Parse(path: string): seq<string> {
    if path == "" || path == "/" then []
    else UnescapeAll(Split(if path[0] == '/' then path[1..] else path))
  }

  method ParsePath(path: string) returns (parts: seq<string>)
    ensures parts == Parse(path)
  {
    if path == "" || path == "/" {
      return [];
    }
    var raw := Split(if path[0] == '/' then path[1..] else path);
    parts := [];
    for i := 0 to |raw|
      invariant parts + UnescapeAll(raw[i..]) == UnescapeAll(raw)
    {
      assert raw[i..][1..] == raw[i + 1..];
      parts := parts + [Unescape(raw[i])];
    }
  }

  // The inverse, as sections 3 and 4 of RFC 6901 define it.

  function Escape(token: string): string {
    if token == [] then []
    else (if token[0] == '~' then "~0" else if token[0] == '/' then "~1" else [token[0]]) + Escape(token[1..])
  }

  function Format(tokens: seq<string>): string {
    if tokens == [] then "" else "/" + Joined(tokens)
  }

  function Joined(tokens: seq<string>): string
    requires tokens != []
  {
    if |tokens| == 1 then Escape(tokens[0]) else Escape(tokens[0]) + "/" + Joined(tokens[1..])
  }

  /** The first replacement pass leaves only the tildes escaped. */
  function EscapeTildes(token: string): string {
    if token == [] then [] else (if token[0] == '~' then "~0" else [token[0]]) + EscapeTildes(token[1..])
  }

  /** What a pass does at the front of a text. */
  lemma PassPlain(x: char, rest: string, c: char, with: char)
    requires x != '~'
    ensures ReplaceAll([x] + rest, c, with) == [x] + ReplaceAll(rest, c, with)
  {
    assert ([x] + rest)[1..] == rest;
  }

  lemma PassEscaped(x: char, rest: string, c: char, with: char)
    requires c != '~' && x != '~'
    ensures ReplaceAll(['~', x] + rest, c, with) ==
            if x == c then [with] + ReplaceAll(rest, c, with) else ['~', x] + ReplaceAll(rest, c, with)
  {
    var s := ['~', x] + rest;
    assert s[2..] == rest && s[1..] == [x] + rest;
    PassPlain(x, rest, c, with);
    assert x != c ==> ReplaceAll(s, c, with) == ['~'] + ReplaceAll([x] + rest, c, with);
  }

  lemma {:induction false} FirstPass(token: string)
    ensures ReplaceAll(Escape(token), '1', '/') == EscapeTildes(token)
  {
    if token != [] {
      hide ReplaceAll;
      var rest := Escape(token[1..]);
      FirstPass(token[1..]);
      PassEscaped('0', rest, '1', '/');
      PassEscaped('1', rest, '1', '/');
      if token[0] != '~' {
        PassPlain(token[0], rest, '1', '/');
      }
    }
  }

  lemma {:induction false} SecondPass(token: string)
    ensures ReplaceAll(EscapeTildes(token), '0', '~') == token
  {
    if token != [] {
      hide ReplaceAll;
      var rest := EscapeTildes(token[1..]);
      SecondPass(token[1..]);
      PassEscaped('0', rest, '0', '~');
      if token[0] != '~' {
        PassPlain(token[0], rest, '0', '~');
      }
    }
  }

  lemma UnescapeEscape(token: string)
    ensures Unescape(Escape(token)) == token
  {
    FirstPass(token);
    SecondPass(token);
  }

  lemma {:induction false} EscapeHasNoSlash(token: string)
    ensures '/' !in Escape(token)
  {
    if token != [] {
      EscapeHasNoSlash(token[1..]);
    }
  }

  lemma {:induction false} SplitAtSlash(s: string, rest: string)
    requires '/' !in s
    ensures Split(s) == [s] && Split(s + "/" + rest) == [s] + Split(rest)
  {
    if s == [] {
      assert s + "/" + rest == "/" + rest;
    } else {
      assert s[0] in s && s == [s[0]] + s[1..];
      SplitAtSlash(s[1..], rest);
      assert (s + "/" + rest)[1..] == s[1..] + "/" + rest;
    }
  }

  function EscapeAll(tokens: seq<string>): seq<string> {
    if tokens == [] then [] else [Escape(tokens[0])] + EscapeAll(tokens[1..])
  }

  lemma {:induction false} UnescapeEscapeAll(tokens: seq<string>)
    ensures UnescapeAll(EscapeAll(tokens)) == tokens
  {
    if tokens != [] {
      UnescapeEscape(tokens[0]);
      UnescapeEscapeAll(tokens[1..]);
      assert EscapeAll(tokens)[1..] == EscapeAll(tokens[1..]);
    }
  }

  lemma {:induction false} SplitJoined(tokens: seq<string>)
    requires tokens != []
    ensures Split(Joined(tokens)) == EscapeAll(tokens)
  {
    EscapeHasNoSlash(tokens[0]);
    if |tokens| == 1 {
      SplitAtSlash(Escape(tokens[0]), []);
      assert EscapeAll(tokens[1..]) == [];
    } else {
      SplitJoined(tokens[1..]);
      SplitAtSlash(Escape(tokens[0]), Joined(tokens[1..]));
    }
  }

  /** Escaped tokens parse back to themselves, all lists of them except the single empty token: the
      path "/" is read as the whole document. */
  lemma ParseFormat(tokens: seq<string>)
    ensures Parse(Format(tokens)) == tokens <==> tokens != [""]
  {
    if tokens == [""] {
      assert Format(tokens) == "/";
    } else if tokens != [] {
      var path := Format(tokens);
      assert path[1..] == Joined(tokens);
      SplitJoined(tokens);
      UnescapeEscapeAll(tokens);
    }
  }
}
