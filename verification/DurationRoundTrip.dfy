/** Parsing what packages/golib/durationfmt/durationfmt.go printed. */
module DurationRoundTrip {
  import opened Decimal
  import opened DurationFmt
  import opened GoInts
  import opened Trimming
  import opened Wrappers

  lemma {:induction false} LeadingDigitsOf(digits: string, rest: string)
    requires AllDigits(digits) && (rest == [] || !IsDigit(rest[0]))
    ensures LeadingDigits(digits + rest) == |digits|
  {
    if digits != [] {
      assert (digits + rest)[1..] == digits[1..] + rest;
      LeadingDigitsOf(digits[1..], rest);
    } else {
      assert digits + rest == rest;
    }
  }

  /** What may follow a part: nothing, or the digits of the next part. */
  predicate StartsPart(s: string) {
    s == [] || IsDigit(s[0])
  }

  /** One printed part is read as its number times its unit. */
  lemma ReadPart(n: nat, unit: char, nanos: int, rest: string)
    requires n < MAX63 && IsLower(unit) && Scaled(n, [unit]) == Some(nanos) && StartsPart(rest)
    ensures ReadChunk(Digits(n) + ([unit] + rest)) == Ok(Chunk(nanos, rest))
  {
    var tail := [unit] + rest;
    var s := Digits(n) + tail;
    DigitsRoundTrip(n);
    LeadingDigitsOf(Digits(n), tail);
    assert s[..|Digits(n)|] == Digits(n) && s[|Digits(n)|..] == tail;
    UnitOf(unit, rest);
    assert tail[..1] == [unit] && tail[1..] == rest;
  }

  lemma UnitOf(unit: char, rest: string)
    requires IsLower(unit) && StartsPart(rest)
    ensures UnitLength([unit] + rest) == 1
  {
    var tail := [unit] + rest;
    assert tail[1..] == rest;
    assert LeadingLetters(rest) == 0;
  }

  lemma ParseChunk(s: string, nanos: nat, rest: string, total: nat)
    requires s != [] && ReadChunk(s) == Ok(Chunk(nanos, rest)) && total + nanos < MAX63
    ensures ParseRest(s, total) == ParseRest(rest, total + nanos)
  {
    hide ReadChunk;
  }

  lemma ParsePart(n: nat, unit: char, nanos: nat, rest: string, total: nat)
    requires n < MAX63 && IsLower(unit) && Scaled(n, [unit]) == Some(nanos) && StartsPart(rest)
    requires total + nanos < MAX63 && (n == 0 ==> nanos == 0)
    ensures ParseRest(Part(n, unit) + rest, total) == ParseRest(rest, total + nanos)
    ensures StartsPart(Part(n, unit) + rest)
  {
    hide ParseRest, ReadChunk, Scaled, Digits, Value;
    if n > 0 {
      DigitsRoundTrip(n);
      ReadPart(n, unit, nanos, rest);
      assert Part(n, unit) + rest == Digits(n) + ([unit] + rest);
      ParseChunk(Part(n, unit) + rest, nanos, rest, total);
    } else {
      assert Part(n, unit) + rest == rest;
    }
  }

  /** The reader takes p as nanos, whatever part follows it. */
  ghost predicate ReadsAt(reader: (string, int) -> Result<int, Error>, p: string, nanos: int, rest: string, total: int) {
    StartsPart(rest) && 0 <= total && total + nanos < MAX63 ==>
      StartsPart(p + rest) && reader(p + rest, total) == reader(rest, total + nanos)
  }

  ghost predicate Reads(reader: (string, int) -> Result<int, Error>, p: string, nanos: int) {
    forall rest, total :: ReadsAt(reader, p, nanos, rest, total)
  }

  lemma ReadsBothAt(reader: (string, int) -> Result<int, Error>, p: string, m: nat, q: string, n: nat, rest: string, total: int)
    requires Reads(reader, p, m) && Reads(reader, q, n)
    ensures ReadsAt(reader, p + q, m + n, rest, total)
  {
    assert ReadsAt(reader, q, n, rest, total + m);
    assert ReadsAt(reader, p, m, q + rest, total);
    assert (p + q) + rest == p + (q + rest);
  }

  lemma ReadsBoth(reader: (string, int) -> Result<int, Error>, p: string, m: nat, q: string, n: nat)
    requires Reads(reader, p, m) && Reads(reader, q, n)
    ensures Reads(reader, p + q, m + n)
  {
    var both, sum := p + q, m + n;
    forall rest, total ensures ReadsAt(reader, both, sum, rest, total) {
      ReadsBothAt(reader, p, m, q, n, rest, total);
    }
  }

  lemma PartReads(n: nat, unit: char, nanos: nat)
    requires n < MAX63 && IsLower(unit) && Scaled(n, [unit]) == Some(nanos) && (n == 0 ==> nanos == 0)
    ensures Reads(ParseRest, Part(n, unit), nanos)
  {
    forall rest, total ensures ReadsAt(ParseRest, Part(n, unit), nanos, rest, total) {
      if StartsPart(rest) && 0 <= total && total + nanos < MAX63 {
        ParsePart(n, unit, nanos, rest, total);
      }
    }
  }

  lemma UnitReads(n: nat, unit: char, nanos: nat)
    requires n * nanos < MAX63
    requires (unit, nanos) in {('d', 86_400_000_000_000), ('h', 3_600_000_000_000), ('m', 60_000_000_000), ('s', 1_000_000_000)}
    ensures Reads(ParseRest, Part(n, unit), n * nanos)
  {
    PartReads(n, unit, n * nanos);
  }

  lemma PartsRead(d: nat, h: nat, m: nat, s: nat)
    requires d * 86_400_000_000_000 + h * 3_600_000_000_000 + m * 60_000_000_000 + s * 1_000_000_000 < MAX63
    ensures Reads(ParseRest, Parts(d, h, m, s),
                  d * 86_400_000_000_000 + (h * 3_600_000_000_000 + (m * 60_000_000_000 + s * 1_000_000_000)))
  {
    hide Part, Reads;
    UnitReads(d, 'd', 86_400_000_000_000);
    UnitReads(h, 'h', 3_600_000_000_000);
    UnitReads(m, 'm', 60_000_000_000);
    UnitReads(s, 's', 1_000_000_000);
    ReadsBoth(ParseRest, Part(m, 'm'), m * 60_000_000_000, Part(s, 's'), s * 1_000_000_000);
    ReadsBoth(ParseRest, Part(h, 'h'), h * 3_600_000_000_000, Part(m, 'm') + Part(s, 's'), m * 60_000_000_000 + s * 1_000_000_000);
    ReadsBoth(ParseRest, Part(d, 'd'), d * 86_400_000_000_000, Part(h, 'h') + (Part(m, 'm') + Part(s, 's')),
              h * 3_600_000_000_000 + (m * 60_000_000_000 + s * 1_000_000_000));
  }

  lemma ReadsAlone(reader: (string, int) -> Result<int, Error>, p: string, nanos: nat)
    requires Reads(reader, p, nanos) && nanos < MAX63
    ensures reader(p, 0) == reader([], nanos)
  {
    assert ReadsAt(reader, p, nanos, [], 0);
    assert p + [] == p;
  }

  lemma PartsEnd(d: nat, h: nat, m: nat, s: nat)
    requires d + h + m + s > 0
    ensures var t := Parts(d, h, m, s); t != [] && IsDigit(t[0]) && IsLower(t[|t| - 1])
  {
    PartEnds(d, 'd');
    PartEnds(h, 'h');
    PartEnds(m, 'm');
    PartEnds(s, 's');
  }

  lemma ParseZero()
    ensures ParseText("0s") == Ok(0)
  {
    NothingToTrim("0s");
    assert "0s" == Digits(0) + (['s'] + []);
    ReadPart(0, 's', 0, []);
  }

  lemma TrimmedParses(t: string)
    requires t != [] && IsDigit(t[0])
    ensures ParseTrimmed(t) == ParseRest(t, 0) && ParseTrimmed("-" + t) == Negate(ParseRest(t, 0))
  {
    assert ("-" + t)[1..] == t;
  }

  lemma SignedText(t: string, v: int)
    requires t != [] && IsDigit(t[0]) && IsLower(t[|t| - 1]) && ParseRest(t, 0) == Ok(v) && 0 < v < MAX63
    ensures ParseText(t) == Ok(v) && ParseText("-" + t) == Ok(-v)
  {
    hide TrimSpace, ParseTrimmed, ParseRest;
    NothingToTrim(t);
    NothingToTrim("-" + t);
    TrimmedParses(t);
  }

  lemma PartsParseSigned(d: nat, h: nat, m: nat, s: nat, v: int)
    requires v == d * 86_400_000_000_000 + h * 3_600_000_000_000 + m * 60_000_000_000 + s * 1_000_000_000
    requires 0 < v < MAX63
    ensures ParseText(Parts(d, h, m, s)) == Ok(v) && ParseText("-" + Parts(d, h, m, s)) == Ok(-v)
  {
    hide ParseText, Wrap;
    var t := Parts(d, h, m, s);
    PartsEnd(d, h, m, s);
    PartsRead(d, h, m, s);
    ReadsAlone(ParseRest, t, v);
    assert ParseRest(t, 0) == Ok(v) by {
      hide Parts, Reads;
    }
    SignedText(t, v);
  }

  lemma UnitsParse(n: nat)
    requires 0 < n && n * SECOND < MAX63
    ensures ParseText(Units(n)) == Ok(n * SECOND) && ParseText("-" + Units(n)) == Ok(-(n * SECOND))
  {
    SomePart(n);
    PartsParseSigned(n / 86400, n / 3600 % 24, n / 60 % 60, n % 60, n * SECOND);
  }

  lemma NegativeText(seconds: int, n: nat)
    requires seconds < 0 && n == -seconds
    ensures Text(seconds) == "-" + Units(n)
  {
  }

  lemma NegativeParses(seconds: int)
    requires seconds < 0 && -MAX63 < seconds * SECOND
    ensures ParseText(Text(seconds)) == Ok(seconds * SECOND)
  {
    hide ParseText, ParseTrimmed;
    NegativeText(seconds, -seconds);
    UnitsParse(-seconds);
  }

  lemma PositiveParses(seconds: int)
    requires 0 < seconds && seconds * SECOND < MAX63
    ensures ParseText(Text(seconds)) == Ok(seconds * SECOND)
  {
    var t := Text(seconds);
    assert t == Units(seconds);
    UnitsParse(seconds);
  }

  /** Every duration that is a whole number of seconds, negative ones included, parses back from its text. */
  lemma ParseOfText(seconds: int)
    requires -MAX63 < seconds * SECOND < MAX63
    ensures ParseText(Text(seconds)) == Ok(seconds * SECOND)
  {
    if seconds < 0 {
      NegativeParses(seconds);
    } else if seconds > 0 {
      PositiveParses(seconds);
    } else {
      ParseZero();
    }
  }

  /** So no two such durations print alike. */
  lemma TextsDiffer(a: int, b: int)
    requires -MAX63 < a * SECOND < MAX63 && -MAX63 < b * SECOND < MAX63 && Text(a) == Text(b)
    ensures a == b
  {
    ParseOfText(a);
    ParseOfText(b);
  }
}
