/** The texts that packages/golib/durationfmt/durationfmt.go parses, and the duration each one means. */
module DurationGrammar {
  import opened Decimal
  import opened DurationFmt
  import opened DurationPanics
  import opened DurationRoundTrip
  import opened GoInts
  import opened Trimming
  import opened Wrappers

  const MILLI := 1_000_000
  const SEC := 1000 * MILLI
  const MINUTE := 60 * SEC
  const HOUR := 60 * MINUTE
  const DAY := 24 * HOUR

  function Nanos(unit: string): Option<int> {
    if unit == "d" then Some(DAY) else if unit == "h" then Some(HOUR) else if unit == "m" then Some(MINUTE)
    else if unit == "s" then Some(SEC) else if unit == "ms" then Some(MILLI) else None
  }

  datatype Piece = Piece(digits: string, unit: string)

  /** A number that int64 holds, leading zeros allowed, and one of the five units. */
  predicate Readable(p: Piece) {
    p.digits != [] && AllDigits(p.digits) && Value(p.digits) < MAX63 && Nanos(p.unit).Some?
  }

  predicate AllReadable(ps: seq<Piece>) {
    ps == [] || (Readable(ps[0]) && AllReadable(ps[1..]))
  }

  function Spell(ps: seq<Piece>): string {
    if ps == [] then [] else ps[0].digits + (ps[0].unit + Spell(ps[1..]))
  }

  /** The sum of what the pieces are worth, in nanoseconds. */
  function Total(ps: seq<Piece>): int
    requires AllReadable(ps)
  {
    if ps == [] then 0 else Value(ps[0].digits) * Nanos(ps[0].unit).value + Total(ps[1..])
  }

  // Wrap-around.

  ghost predicate Same64(x: int, y: int) {
    exists k :: x - y == k * MAX64
  }

  lemma {:induction false} WrapIs(x: int)
    ensures -MAX63 <= Wrap(x) < MAX63 && Same64(Wrap(x), x)
    decreases if -MAX63 <= x < MAX63 then 0 else if x < 0 then -x else x
  {
    if x >= MAX63 {
      WrapIs(x - MAX64);
      var k :| Wrap(x - MAX64) - (x - MAX64) == k * MAX64;
      assert Wrap(x) - x == (k - 1) * MAX64;
    } else if x < -MAX63 {
      WrapIs(x + MAX64);
      var k :| Wrap(x + MAX64) - (x + MAX64) == k * MAX64;
      assert Wrap(x) - x == (k + 1) * MAX64;
    } else {
      assert Wrap(x) - x == 0 * MAX64;
    }
  }

  lemma WrapUnique(x: int, y: int)
    requires -MAX63 <= y < MAX63 && Same64(y, x)
    ensures Wrap(x) == y
  {
    WrapIs(x);
    var k :| Wrap(x) - x == k * MAX64;
    var l :| y - x == l * MAX64;
    assert Wrap(x) - y == (k - l) * MAX64;
  }

  /** Adding wrapped numbers is adding and wrapping. */
  lemma WrapAdds(a: int, b: int)
    ensures Wrap(Wrap(a) + b) == Wrap(a + b) && Wrap(a + Wrap(b)) == Wrap(a + b)
  {
    WrapIs(a);
    WrapIs(b);
    WrapIs(a + b);
    var i :| Wrap(a) - a == i * MAX64;
    var j :| Wrap(b) - b == j * MAX64;
    var k :| Wrap(a + b) - (a + b) == k * MAX64;
    assert Wrap(a + b) - (Wrap(a) + b) == (k - i) * MAX64;
    assert Wrap(a + b) - (a + Wrap(b)) == (k - j) * MAX64;
    WrapUnique(Wrap(a) + b, Wrap(a + b));
    WrapUnique(a + Wrap(b), Wrap(a + b));
  }

  lemma ScaledIsWorth(n: nat, unit: string)
    ensures Scaled(n, unit) == if Nanos(unit).Some? then Some(Wrap(n * Nanos(unit).value)) else None
  {
  }

  lemma SpellStartsPart(ps: seq<Piece>)
    requires AllReadable(ps)
    ensures EndsUnit(Spell(ps))
  {
    if ps != [] {
      assert Spell(ps)[0] == ps[0].digits[0];
    }
  }

  /** What is spelled is read, piece by piece, and added up in int64. */
  lemma {:induction false} SpelledParses(ps: seq<Piece>, total: int)
    requires AllReadable(ps) && -MAX63 <= total < MAX63
    ensures ParseRest(Spell(ps), total) == Ok(Wrap(total + Total(ps)))
    decreases |ps|
  {
    hide ReadChunk, ParseRest, Scaled, Value, Wrap, Nanos;
    ParseStep(Spell(ps), total);
    WrapInside(total);
    if ps != [] {
      var p, rest := ps[0], Spell(ps[1..]);
      var n := Value(p.digits);
      ScaledIsWorth(n, p.unit);
      SpellStartsPart(ps[1..]);
      ReadPlain(p.digits, p.unit, rest);
      var worth := n * Nanos(p.unit).value;
      WrapAdds(total, worth);
      WrapAdds(total + worth, Total(ps[1..]));
      WrapIs(total + Wrap(worth));
      SpelledParses(ps[1..], Wrap(total + Wrap(worth)));
      assert Spell(ps) != [] && Wrap(Wrap(total + worth) + Total(ps[1..])) == Wrap(total + worth + Total(ps[1..]));
    }
  }

  lemma WrapInside(x: int)
    requires -MAX63 <= x < MAX63
    ensures Wrap(x) == x
  {
  }

  lemma {:induction false} ParsedIsSpelled(s: string, total: int) returns (ps: seq<Piece>)
    requires ParseRest(s, total).Ok?
    ensures AllReadable(ps) && s == Spell(ps)
    decreases |s|
  {
    hide ReadChunk, ParseRest, Scaled, Value, Wrap, Nanos;
    ParseStep(s, total);
    if s == [] {
      ps := [];
    } else {
      var d, u, rest := ChunkParts(s);
      ScaledIsWorth(Value(d), u);
      var more := ParsedIsSpelled(rest, Wrap(total + ReadChunk(s).value.nanos));
      ps := [Piece(d, u)] + more;
      assert ps[1..] == more;
    }
  }

  predicate Negative(text: string) {
    var t := TrimSpace(text);
    t != [] && t[0] == '-'
  }

  ghost predicate Means(text: string, ps: seq<Piece>) {
    AllReadable(ps) && TrimSpace(text) != [] && Unsigned(text) == Spell(ps)
  }

  /** A text parses exactly when, trimmed, it is not empty and spells numbers with units after an optional
      sign, and then to their sum, in int64. */
  lemma ParsesExactly(text: string)
    ensures ParseText(text).Ok? <==> exists ps :: Means(text, ps)
    ensures forall ps | Means(text, ps) ::
              ParseText(text) == Ok(if Negative(text) then Wrap(-Wrap(Total(ps))) else Wrap(Total(ps)))
  {
    hide ParseRest, TrimSpace, Wrap, Total, Spell, AllReadable;
    forall ps | Means(text, ps)
      ensures ParseText(text) == Ok(if Negative(text) then Wrap(-Wrap(Total(ps))) else Wrap(Total(ps)))
    {
      SpelledParses(ps, 0);
    }
    if ParseText(text).Ok? {
      var ps := ParsedIsSpelled(Unsigned(text), 0);
      assert Means(text, ps);
    }
  }

  // Texts that do not parse: the first piece that cannot be read decides.

  lemma {:induction false} ErrorAfterPieces(ps: seq<Piece>, rest: string, total: int)
    requires AllReadable(ps) && rest != [] && EndsUnit(rest) && ReadChunk(rest).Err?
    ensures ParseRest(Spell(ps) + rest, total) == Err(ReadChunk(rest).error)
    decreases |ps|
  {
    hide ReadChunk, ParseRest, Scaled, Value, Wrap, Nanos, EndsUnit;
    var s := Spell(ps) + rest;
    ParseStep(s, total);
    if ps == [] {
      assert s == rest;
    } else {
      var p, more := ps[0], Spell(ps[1..]) + rest;
      ScaledIsWorth(Value(p.digits), p.unit);
      ContinuesPart(ps[1..], rest);
      ReadPlain(p.digits, p.unit, more);
      assert s == p.digits + (p.unit + more);
      ErrorAfterPieces(ps[1..], rest, Wrap(total + Wrap(Value(p.digits) * Nanos(p.unit).value)));
    }
  }

  lemma ContinuesPart(ps: seq<Piece>, rest: string)
    requires AllReadable(ps) && EndsUnit(rest)
    ensures EndsUnit(Spell(ps) + rest)
  {
    if ps == [] {
      assert Spell(ps) + rest == rest;
    } else {
      assert (Spell(ps) + rest)[0] == ps[0].digits[0];
    }
  }

  lemma ReadErrors(digits: string, letters: string, rest: string)
    requires AllDigits(digits) && AllLower(letters) && EndsUnit(rest) && (letters == [] ==> rest == [] || !IsDigit(rest[0]))
    requires digits == [] ==> letters == []
    ensures ReadChunk(digits + (letters + rest)) ==
            if digits == [] then Err(ExpectedNumber)
            else if Value(digits) >= MAX63 then Err(InvalidNumber)
            else if letters == [] then Err(ExpectedUnit)
            else if Nanos(letters) == None then Err(UnknownUnit)
            else ReadChunk(digits + (letters + rest))
  {
    hide Value, Nanos, Scaled, UnitLength;
    var tail := letters + rest;
    LeadingDigitsOf(digits, tail);
    assert (digits + tail)[..|digits|] == digits && (digits + tail)[|digits|..] == tail;
    PlainUnit(letters, rest);
    assert tail[..|letters|] == letters;
    ScaledIsWorth(Value(digits), letters);
  }

  /** After readable pieces, a number expected and not found, one too large, one without a unit, or an unknown
      unit each give their own error. */
  lemma FirstErrorDecides(ps: seq<Piece>, digits: string, letters: string, rest: string)
    requires AllReadable(ps) && AllDigits(digits) && AllLower(letters) && EndsUnit(rest)
    requires (letters == [] ==> rest == [] || !IsDigit(rest[0])) && (digits == [] ==> letters == [] && rest != [])
    ensures var r := ParseRest(Spell(ps) + (digits + (letters + rest)), 0);
            && (digits == [] ==> r == Err(ExpectedNumber))
            && (digits != [] && Value(digits) >= MAX63 ==> r == Err(InvalidNumber))
            && (digits != [] && Value(digits) < MAX63 && letters == [] ==> r == Err(ExpectedUnit))
            && (digits != [] && Value(digits) < MAX63 && letters != [] && Nanos(letters) == None ==> r == Err(UnknownUnit))
  {
    hide ReadChunk, ParseRest, Value, Nanos, Spell, AllReadable;
    var s := digits + (letters + rest);
    ReadErrors(digits, letters, rest);
    assert digits == [] ==> s == rest;
    assert digits != [] ==> s[0] == digits[0];
    if ReadChunk(s).Err? {
      ErrorAfterPieces(ps, s, 0);
    }
  }

  /** What Format prints of a positive number of seconds: days, hours below 24, minutes and seconds below
      60, in this order, the zeros left out; a minus sign before it for the negative ones. */
  lemma PrintsNormalForm(seconds: nat) returns (d: nat, h: nat, m: nat, s: nat)
    requires seconds > 0
    ensures seconds == 86400 * d + 3600 * h + 60 * m + s && h < 24 && m < 60 && s < 60
    ensures Text(seconds) ==
            (if d > 0 then Digits(d) + "d" else "") + ((if h > 0 then Digits(h) + "h" else "") +
            ((if m > 0 then Digits(m) + "m" else "") + (if s > 0 then Digits(s) + "s" else "")))
    ensures Text(-(seconds as int)) == "-" + Text(seconds) && Text(0) == "0s"
  {
    SomePart(seconds);
    d, h, m, s := seconds / 86400, seconds / 3600 % 24, seconds / 60 % 60, seconds % 60;
  }
}
