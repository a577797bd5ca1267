/** When the parser of packages/golib/durationfmt/durationfmt.go panics: on a text that stops halfway
    through a micro sign. */
module DurationPanics {
  import opened Decimal
  import opened DurationFmt
  import opened DurationRoundTrip
  import opened GoInts
  import opened Trimming
  import opened Wrappers

  predicate AllLower(s: string) {
    forall i | 0 <= i < |s| :: IsLower(s[i])
  }

  const MICRO: string := ['\U{C2}']

  /** A number, any letters, and the first byte of the micro sign at the very end. */
  predicate HalfMicro(digits: string, letters: string) {
    digits != [] && AllDigits(digits) && Value(digits) < MAX63 && AllLower(letters)
  }

  ghost predicate Halves(s: string) {
    exists d, u :: HalfMicro(d, u) && s == d + (u + MICRO)
  }

  lemma {:induction false} LeadingAreDigits(s: string)
    ensures AllDigits(s[..LeadingDigits(s)])
    ensures LeadingDigits(s) < |s| ==> !IsDigit(s[LeadingDigits(s)])
  {
    if s != [] && IsDigit(s[0]) {
      LeadingAreDigits(s[1..]);
      var n := LeadingDigits(s[1..]);
      assert s[..n + 1] == [s[0]] + s[1..][..n];
    }
  }

  lemma {:induction false} LeadingAreLetters(s: string)
    ensures AllLower(s[..LeadingLetters(s)])
    ensures LeadingLetters(s) < |s| ==> !IsLower(s[LeadingLetters(s)])
  {
    if s != [] && IsLower(s[0]) {
      LeadingAreLetters(s[1..]);
      var n := LeadingLetters(s[1..]);
      assert s[..n + 1] == [s[0]] + s[1..][..n];
    }
  }

  lemma {:induction false} LeadingLettersOf(letters: string, rest: string)
    requires AllLower(letters) && (rest == [] || !IsLower(rest[0]))
    ensures LeadingLetters(letters + rest) == |letters|
  {
    if letters != [] {
      assert (letters + rest)[1..] == letters[1..] + rest;
      LeadingLettersOf(letters[1..], rest);
    } else {
      assert letters + rest == rest;
    }
  }

  /** What may follow a unit without becoming part of it. */
  predicate EndsUnit(rest: string) {
    rest == [] || (!IsLower(rest[0]) && rest[0] != '\U{C2}')
  }

  lemma UnitsAreLower(n: nat, unit: string)
    ensures Scaled(n, unit).Some? ==> unit != [] && AllLower(unit)
  {
  }

  lemma PlainUnit(unit: string, rest: string)
    requires AllLower(unit) && EndsUnit(rest)
    ensures UnitLength(unit + rest) == |unit|
  {
    LeadingLettersOf(unit, rest);
  }

  lemma HalfUnit(letters: string)
    requires AllLower(letters)
    ensures UnitLength(letters + MICRO) == |letters| + 2
  {
    LeadingLettersOf(letters, MICRO);
  }

  /** Reading digits and whatever follows them. */
  lemma ReadAfterDigits(digits: string, tail: string)
    requires digits != [] && AllDigits(digits) && Value(digits) < MAX63 && (tail == [] || !IsDigit(tail[0]))
    ensures ReadChunk(digits + tail) ==
            var j := UnitLength(tail);
            if j == 0 then Err(ExpectedUnit) else if j > |tail| then Err(Panic)
            else
              var nanos := Scaled(Value(digits), tail[..j]);
              if nanos.None? then Err(UnknownUnit) else Ok(Chunk(nanos.value, tail[j..]))
  {
    hide UnitLength, Scaled, Value;
    LeadingDigitsOf(digits, tail);
    assert (digits + tail)[..|digits|] == digits && (digits + tail)[|digits|..] == tail;
  }

  lemma ReadPlain(digits: string, unit: string, rest: string)
    requires digits != [] && AllDigits(digits) && Value(digits) < MAX63
    requires Scaled(Value(digits), unit).Some? && EndsUnit(rest)
    ensures ReadChunk(digits + (unit + rest)) == Ok(Chunk(Scaled(Value(digits), unit).value, rest))
  {
    hide UnitLength, Scaled, Value, ReadChunk;
    UnitsAreLower(Value(digits), unit);
    PlainUnit(unit, rest);
    ReadAfterDigits(digits, unit + rest);
    assert (unit + rest)[..|unit|] == unit && (unit + rest)[|unit|..] == rest;
  }

  lemma ReadHalf(digits: string, letters: string)
    requires HalfMicro(digits, letters)
    ensures ReadChunk(digits + (letters + MICRO)) == Err(Panic)
  {
    hide UnitLength, Scaled, Value, ReadChunk;
    HalfUnit(letters);
    ReadAfterDigits(digits, letters + MICRO);
  }

  /** A chunk that reads is digits and a unit, and the next begins after it. */
  lemma ChunkParts(s: string) returns (digits: string, unit: string, rest: string)
    requires ReadChunk(s).Ok?
    ensures s == digits + (unit + rest) && ReadChunk(s).value.rest == rest
    ensures digits != [] && AllDigits(digits) && Value(digits) < MAX63 && Scaled(Value(digits), unit).Some?
  {
    hide Scaled, Value;
    var i := LeadingDigits(s);
    LeadingAreDigits(s);
    var tail := s[i..];
    var j := UnitLength(tail);
    digits, unit, rest := s[..i], tail[..j], tail[j..];
    assert s == s[..i] + tail && tail == unit + rest;
  }

  lemma ChunkPanics(s: string)
    requires ReadChunk(s) == Err(Panic)
    ensures Halves(s)
  {
    hide Scaled, Value;
    var i := LeadingDigits(s);
    LeadingAreDigits(s);
    var tail := s[i..];
    var l := LeadingLetters(tail);
    LeadingAreLetters(tail);
    assert tail[l..] == MICRO;
    assert HalfMicro(s[..i], tail[..l]);
    assert s == s[..i] + (tail[..l] + MICRO);
  }

  lemma {:induction false} SumIrrelevant(s: string, a: int, b: int)
    ensures ParseRest(s, a).Ok? == ParseRest(s, b).Ok?
    ensures ParseRest(s, a).Err? ==> ParseRest(s, a) == ParseRest(s, b)
    decreases |s|
  {
    hide ReadChunk, Wrap;
    if s != [] && ReadChunk(s).Ok? {
      var c := ReadChunk(s).value;
      SumIrrelevant(c.rest, Wrap(a + c.nanos), Wrap(b + c.nanos));
    }
  }

  lemma ParsesFromDigit(s: string)
    ensures ParseRest(s, 0).Ok? ==> s == [] || (IsDigit(s[0]) && ReadChunk(s).Ok?)
  {
  }

  lemma ParseStep(s: string, total: int)
    ensures ParseRest(s, total) ==
            if s == [] then Ok(total) else
            var r := ReadChunk(s);
            if r.Err? then Err(r.error) else ParseRest(r.value.rest, Wrap(total + r.value.nanos))
  {
    hide ReadChunk, Wrap;
  }

  /** Something that parses, and then half a micro sign. */
  ghost predicate StopsHalfway(s: string) {
    exists x, c :: s == x + c && ParseRest(x, 0).Ok? && Halves(c)
  }

  lemma {:induction false} PanicStops(s: string, total: int)
    ensures ParseRest(s, total) == Err(Panic) ==> StopsHalfway(s)
    decreases |s|
  {
    hide ReadChunk, ParseRest, Scaled, Value, Wrap, Halves;
    if ParseRest(s, total) == Err(Panic) {
      ParseStep(s, total);
      if ReadChunk(s).Err? {
        ChunkPanics(s);
        ParseStep([], 0);
        assert s == [] + s;
      } else {
        var d, u, rest := ChunkParts(s);
        PanicStops(rest, Wrap(total + ReadChunk(s).value.nanos));
        var x, c :| rest == x + c && ParseRest(x, 0).Ok? && Halves(c);
        PrependChunk(d, u, x);
        assert s == (d + (u + x)) + c;
      }
    }
  }

  lemma PrependChunk(d: string, u: string, x: string)
    requires d != [] && AllDigits(d) && Value(d) < MAX63 && Scaled(Value(d), u).Some? && ParseRest(x, 0).Ok?
    ensures ParseRest(d + (u + x), 0).Ok?
  {
    hide ReadChunk, ParseRest, Scaled, Value, Wrap;
    ParsesFromDigit(x);
    ReadPlain(d, u, x);
    ParseStep(d + (u + x), 0);
    SumIrrelevant(x, 0, Wrap(0 + Scaled(Value(d), u).value));
  }

  lemma HalvesFromDigit(c: string)
    requires Halves(c)
    ensures c != [] && IsDigit(c[0]) && ReadChunk(c) == Err(Panic)
  {
    hide ReadChunk, Value;
    var d, u :| HalfMicro(d, u) && c == d + (u + MICRO);
    ReadHalf(d, u);
    assert c[0] == d[0];
  }

  lemma {:induction false} StopPanics(x: string, c: string, total: int)
    requires ParseRest(x, 0).Ok? && Halves(c)
    ensures ParseRest(x + c, total) == Err(Panic)
    decreases |x|
  {
    hide ReadChunk, ParseRest, Scaled, Value, Wrap, Halves;
    HalvesFromDigit(c);
    if x == [] {
      assert x + c == c;
      ParseStep(c, total);
    } else {
      ParsesFromDigit(x);
      var d, u, rest := ChunkParts(x);
      ParseStep(x, 0);
      SumIrrelevant(rest, 0, Wrap(0 + ReadChunk(x).value.nanos));
      ParsesFromDigit(rest);
      assert rest + c != [] && IsDigit((rest + c)[0]);
      ReadPlain(d, u, rest + c);
      assert x + c == d + (u + (rest + c));
      ParseStep(x + c, total);
      StopPanics(rest, c, Wrap(total + Scaled(Value(d), u).value));
    }
  }

  function Unsigned(text: string): string {
    var t := TrimSpace(text);
    if t != [] && t[0] == '-' then t[1..] else t
  }

  lemma UnsignedPanics(text: string)
    ensures ParseText(text) == Err(Panic) <==> ParseRest(Unsigned(text), 0) == Err(Panic)
  {
    hide ReadChunk, TrimSpace;
  }

  /** Parse panics if and only if the text, trimmed and without its sign, is something that parses, or
      nothing, followed by a number, any lower-case letters, and a last byte 0xC2. */
  lemma PanicsExactly(text: string)
    ensures ParseText(text) == Err(Panic) <==> StopsHalfway(Unsigned(text))
  {
    hide ParseText, ParseRest, Halves, Unsigned;
    var s := Unsigned(text);
    UnsignedPanics(text);
    if ParseRest(s, 0) == Err(Panic) {
      PanicStops(s, 0);
    }
    if StopsHalfway(s) {
      var x, c :| s == x + c && ParseRest(x, 0).Ok? && Halves(c);
      StopPanics(x, c, 0);
    }
  }
}
