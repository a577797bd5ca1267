/** packages/golib/durationfmt/durationfmt.go: printing and parsing durations. A duration is a number of
    nanoseconds in the range of int64; text is a string of bytes. */
module DurationFmt {
  import opened Decimal
  import opened GoInts
  import opened Trimming
  import opened Wrappers

  const SECOND := 1_000_000_000

  /** int64 arithmetic. */
  function Wrap(x: int): int
    decreases if -MAX63 <= x < MAX63 then 0 else if x < 0 then -x else x
  {
    if x >= MAX63 then Wrap(x - MAX64) else if x < -MAX63 then Wrap(x + MAX64) else x
  }

  datatype Error = Empty | ExpectedNumber | InvalidNumber | ExpectedUnit | UnknownUnit | Panic

  function Part(n: nat, unit: char): string {
    if n > 0 then Digits(n) + [unit] else []
  }

  function Parts(days: nat, hours: nat, minutes: nat, secs: nat): string {
    Part(days, 'd') + (Part(hours, 'h') + (Part(minutes, 'm') + Part(secs, 's')))
  }

  /** The text of a positive number of seconds. */
  function Units(seconds: nat): string {
    Parts(seconds / 86400, seconds / 3600 % 24, seconds / 60 % 60, seconds % 60)
  }

  /** What Format returns for a whole number of seconds. */
  function Text(seconds: int): string {
    if seconds == 0 then "0s" else if seconds < 0 then "-" + Units(-seconds) else Units(seconds)
  }

  /** Format on whole seconds, where the float conversions of the source are exact divisions. */
  method Format(d: int) returns (s: string)
    requires -MAX63 < d < MAX63 && d % SECOND == 0
    ensures s == Text(d / SECOND)
  {
    if d == 0 {
      return "0s";
    }
    var neg, abs := d < 0, if d < 0 then -d else d;
    var seconds := abs / SECOND;
    NestedDays(seconds);
    SomePart(seconds);
    s := Join(seconds / 3600 / 24, seconds / 3600 % 24, seconds / 60 % 60, seconds % 60);
    if neg {
      assert abs / SECOND == -(d / SECOND);
      s := "-" + s;
    }
  }

  /** The middle of Format: the parts that are not zero, the seconds when there is no other. */
  method Join(days: nat, hours: nat, minutes: nat, secs: nat) returns (s: string)
    requires days + hours + minutes + secs > 0
    ensures s == Parts(days, hours, minutes, secs)
  {
    s := AppendPart("", days, 'd');
    s := AppendPart(s, hours, 'h');
    s := AppendPart(s, minutes, 'm');
    PartEnds(days, 'd');
    PartEnds(hours, 'h');
    PartEnds(minutes, 'm');
    assert s == "" ==> secs > 0;
    s := AppendPart(s, secs, 's');
    Associate(Part(days, 'd'), Part(hours, 'h'), Part(minutes, 'm'), Part(secs, 's'));
  }

  lemma PartEnds(n: nat, unit: char)
    ensures n > 0 ==> Part(n, unit) != [] && IsDigit(Part(n, unit)[0]) && Part(n, unit)[|Part(n, unit)| - 1] == unit
    ensures n == 0 ==> Part(n, unit) == []
  {
    if n > 0 {
      DigitsRoundTrip(n);
    }
  }

  method AppendPart(s: string, n: nat, unit: char) returns (r: string)
    ensures r == s + Part(n, unit)
  {
    r := s;
    if n > 0 {
      r := r + (Digits(n) + [unit]);
    }
  }

  lemma Associate(a: string, b: string, c: string, d: string)
    ensures "" + a + b + c + d == a + (b + (c + d))
  {
  }

  lemma Nested(n: nat)
    ensures n / 3600 == n / 60 / 60
  {
  }

  lemma NestedDays(n: nat)
    ensures n / 86400 == n / 3600 / 24
  {
  }

  /** The four parts make up the whole, so for a positive number one of them is printed. */
  lemma SomePart(seconds: nat)
    ensures seconds == seconds / 86400 * 86400 + seconds / 3600 % 24 * 3600 + seconds / 60 % 60 * 60 + seconds % 60
  {
    Nested(seconds);
    NestedDays(seconds);
    var minutes, hours := seconds / 60, seconds / 3600;
    assert seconds == minutes * 60 + seconds % 60;
    assert minutes == hours * 60 + minutes % 60;
    assert hours == hours / 24 * 24 + hours % 24;
  }

  // Parsing.

  predicate IsLower(c: char) {
    'a' <= c <= 'z'
  }

  function LeadingDigits(s: string): (i: nat)
    ensures i <= |s|
  {
    if s != [] && IsDigit(s[0]) then 1 + LeadingDigits(s[1..]) else 0
  }

  function LeadingLetters(s: string): (i: nat)
    ensures i <= |s|
  {
    if s != [] && IsLower(s[0]) then 1 + LeadingLetters(s[1..]) else 0
  }

  /** The bytes of the unit: letters, then the two-byte micro sign and an s. The second byte is not
      looked at, so the count can pass the end. */
  function UnitLength(s: string): nat {
    var j := LeadingLetters(s);
    if j < |s| && s[j] == '\U{C2}' then (if j + 2 < |s| && s[j + 2] == 's' then j + 3 else j + 2) else j
  }

  /** The switch over units, with the products of int64 arithmetic. */
  function Scaled(n: nat, unit: string): Option<int> {
    if unit == "d" then Some(Wrap(n * 86_400_000_000_000))
    else if unit == "h" then Some(Wrap(n * 3_600_000_000_000))
    else if unit == "m" then Some(Wrap(n * 60_000_000_000))
    else if unit == "s" then Some(Wrap(n * 1_000_000_000))
    else if unit == "ms" then Some(Wrap(n * 1_000_000))
    else None
  }

  /** One round of the loop: a number and its unit, as nanoseconds, and what is left. */
  datatype Chunk = Chunk(nanos: int, rest: string)

  function ReadChunk(s: string): (r: Result<Chunk, Error>)
    ensures r.Ok? ==> |r.value.rest| < |s|
  {
    var i := LeadingDigits(s);
    if i == 0 then Err(ExpectedNumber)
    else if Value(s[..i]) >= MAX63 then Err(InvalidNumber)
    else
      var j := UnitLength(s[i..]);
      if j == 0 then Err(ExpectedUnit)
      else if j > |s| - i then Err(Panic)
      else
        var nanos := Scaled(Value(s[..i]), s[i..][..j]);
        if nanos.None? then Err(UnknownUnit) else Ok(Chunk(nanos.value, s[i..][j..]))
  }

  /** The parser's loop: sums the chunks until nothing is left. */
  function ParseRest(s: string, total: int): Result<int, Error>
    decreases |s|
  {
    if s == [] then Ok(total) else
    var r := ReadChunk(s);
    if r.Err? then Err(r.error) else ParseRest(r.value.rest, Wrap(total + r.value.nanos))
  }

  function ParseTrimmed(t: string): Result<int, Error> {
    if t == [] then Err(Empty)
    else if t[0] == '-' then Negate(ParseRest(t[1..], 0))
    else ParseRest(t, 0)
  }

  function Negate(r: Result<int, Error>): Result<int, Error> {
    if r.Err? then r else Ok(Wrap(-r.value))
  }

  function ParseText(s: string): Result<int, Error> {
    ParseTrimmed(TrimSpace(s))
  }

  method CountDigits(s: string) returns (i: nat)
    ensures i == LeadingDigits(s)
  {
    i := 0;
    while i < |s| && IsDigit(s[i])
      invariant i <= |s| && i + LeadingDigits(s[i..]) == LeadingDigits(s)
    {
      assert s[i..][1..] == s[i + 1..];
      i := i + 1;
    }
  }

  method CountUnit(s: string) returns (j: nat)
    ensures j == UnitLength(s)
  {
    j := 0;
    while j < |s| && IsLower(s[j])
      invariant j <= |s| && j + LeadingLetters(s[j..]) == LeadingLetters(s)
    {
      assert s[j..][1..] == s[j + 1..];
      j := j + 1;
    }
    if j < |s| && s[j] == '\U{C2}' {
      j := j + 2;
      if j < |s| && s[j] == 's' {
        j := j + 1;
      }
    }
  }

  method NextChunk(s: string) returns (r: Result<Chunk, Error>)
    ensures r == ReadChunk(s)
  {
    var i := CountDigits(s);
    if i == 0 {
      return Err(ExpectedNumber);
    }
    var num := Value(s[..i]);
    if num >= MAX63 {
      return Err(InvalidNumber);
    }
    var rest := s[i..];
    var j := CountUnit(rest);
    if j == 0 {
      return Err(ExpectedUnit);
    }
    if j > |rest| {
      return Err(Panic);
    }
    var nanos := Scaled(num, rest[..j]);
    if nanos.None? {
      return Err(UnknownUnit);
    }
    return Ok(Chunk(nanos.value, rest[j..]));
  }

  method Parse(text: string) returns (r: Result<int, Error>)
    ensures r == ParseText(text)
  {
    hide TrimSpace, ParseRest, Wrap;
    var s := TrimSpace(text);
    if s == "" {
      return Err(Empty);
    }
    var neg := false;
    if s[0] == '-' {
      neg := true;
      s := s[1..];
    }
    r := Sum(s);
    if r.Ok? && neg {
      r := Ok(Wrap(-r.value));
    }
  }

  /** Parse's outer loop. It terminates on every text: each round leaves less of it. */
  method Sum(s: string) returns (r: Result<int, Error>)
    ensures r == ParseRest(s, 0)
  {
    hide ReadChunk, Wrap;
    var total, remaining := 0, s;
    while |remaining| > 0
      invariant ParseRest(remaining, total) == ParseRest(s, 0)
      decreases |remaining|
    {
      var chunk := NextChunk(remaining);
      if chunk.Err? {
        return Err(chunk.error);
      }
      total := Wrap(total + chunk.value.nanos);
      remaining := chunk.value.rest;
    }
    return Ok(total);
  }
}
