/** strings.TrimSpace of the Go library on strings of bytes: the white space of Unicode, encoded in UTF-8. */
module Trimming {
  /** The encoding of one white-space character. */
  predicate IsSpace(t: string) {
    || (|t| == 1 && (t[0] == ' ' || '\t' <= t[0] <= '\r'))
    || (|t| == 2 && t[0] == '\U{C2}' && (t[1] == '\U{85}' || t[1] == '\U{A0}'))
    || (|t| == 3 &&
        (|| (t[0] == '\U{E1}' && t[1] == '\U{9A}' && t[2] == '\U{80}')
         || (t[0] == '\U{E2}' && t[1] == '\U{80}' && '\U{80}' <= t[2] <= '\U{8A}')
         || (t[0] == '\U{E2}' && t[1] == '\U{80}' && (t[2] == '\U{A8}' || t[2] == '\U{A9}' || t[2] == '\U{AF}'))
         || (t[0] == '\U{E2}' && t[1] == '\U{81}' && t[2] == '\U{9F}')
         || (t[0] == '\U{E3}' && t[1] == '\U{80}' && t[2] == '\U{80}')))
  }

  /** UTF-8 of the code points below 0x10000. */
  function Utf8(point: nat): string
    requires point < 0x10000 && !(0xD800 <= point < 0xE000)
  {
    if point < 0x80 then [point as char]
    else if point < 0x800 then [(0xC0 + point / 64) as char, (0x80 + point % 64) as char]
    else [(0xE0 + point / 4096) as char, (0x80 + point / 64 % 64) as char, (0x80 + point % 64) as char]
  }

  /** The code points with the property White_Space. */
  predicate WhiteSpace(point: nat) {
    9 <= point <= 13 || point in {0x20, 0x85, 0xA0, 0x1680, 0x2028, 0x2029, 0x202F, 0x205F, 0x3000} || 0x2000 <= point <= 0x200A
  }

  lemma SpacesAreUnicode(point: nat)
    requires point < 0x10000 && !(0xD800 <= point < 0xE000)
    ensures IsSpace(Utf8(point)) <==> WhiteSpace(point)
  {
  }

  /** The length of the white-space character a text begins with, or 0. */
  function LeadingSpace(s: string): (n: nat)
    ensures n <= |s| && (n > 0 ==> IsSpace(s[..n]))
  {
    if |s| >= 1 && IsSpace(s[..1]) then 1
    else if |s| >= 2 && IsSpace(s[..2]) then 2
    else if |s| >= 3 && IsSpace(s[..3]) then 3
    else 0
  }

  /** The length of the white-space character a text ends with, or 0. */
  function TrailingSpace(s: string): (n: nat)
    ensures n <= |s| && (n > 0 ==> IsSpace(s[|s| - n..]))
  {
    if |s| >= 1 && IsSpace(s[|s| - 1..]) then 1
    else if |s| >= 2 && IsSpace(s[|s| - 2..]) then 2
    else if |s| >= 3 && IsSpace(s[|s| - 3..]) then 3
    else 0
  }

  function TrimLeft(s: string): string {
    if LeadingSpace(s) > 0 then TrimLeft(s[LeadingSpace(s)..]) else s
  }

  function TrimRight(s: string): string {
    if TrailingSpace(s) > 0 then TrimRight(s[..|s| - TrailingSpace(s)]) else s
  }

  function TrimSpace(s: string): string {
    TrimRight(TrimLeft(s))
  }

  /** Nothing but white-space characters. */
  predicate Blank(s: string) {
    s == [] || (LeadingSpace(s) > 0 && Blank(s[LeadingSpace(s)..]))
  }

  /** What begins with a white-space character does so whatever follows. */
  lemma SpaceLeads(t: string, rest: string)
    requires IsSpace(t)
    ensures LeadingSpace(t + rest) == |t|
  {
    var s := t + rest;
    assert s[..|t|] == t;
    assert s[..1] == t[..1];
    assert |t| > 1 ==> s[..2] == t[..2];
  }

  lemma {:induction false} BlankGrows(a: string, t: string)
    requires Blank(a) && IsSpace(t)
    ensures Blank(a + t)
    decreases |a|
  {
    hide IsSpace, LeadingSpace;
    if a == [] {
      SpaceLeads(t, []);
      assert a + t == t && t + [] == t;
    } else {
      var n := LeadingSpace(a);
      SpaceLeads(a[..n], a[n..] + t);
      assert a[..n] + (a[n..] + t) == a + t;
      assert (a + t)[n..] == a[n..] + t;
      BlankGrows(a[n..], t);
    }
  }

  lemma BlankBefore(t: string, a: string)
    requires Blank(a) && IsSpace(t)
    ensures Blank(t + a)
  {
    hide IsSpace, LeadingSpace;
    SpaceLeads(t, a);
    assert (t + a)[|t|..] == a;
  }

  lemma EmptyIsBlank()
    ensures Blank([])
  {
  }

  lemma {:induction false} TrimsLeft(s: string) returns (a: string)
    ensures s == a + TrimLeft(s) && Blank(a) && LeadingSpace(TrimLeft(s)) == 0
  {
    hide IsSpace, LeadingSpace, Blank;
    var n := LeadingSpace(s);
    if n > 0 {
      var b := TrimsLeft(s[n..]);
      BlankBefore(s[..n], b);
      a := s[..n] + b;
    } else {
      EmptyIsBlank();
      a := [];
    }
  }

  lemma {:induction false} TrimsRight(s: string) returns (b: string)
    ensures s == TrimRight(s) + b && Blank(b) && TrailingSpace(TrimRight(s)) == 0
    decreases |s|
  {
    hide IsSpace, LeadingSpace, TrailingSpace, Blank;
    var n := TrailingSpace(s);
    if n > 0 {
      var c := TrimsRight(s[..|s| - n]);
      BlankGrows(c, s[|s| - n..]);
      b := c + s[|s| - n..];
    } else {
      EmptyIsBlank();
      b := [];
    }
  }

  lemma PrefixLeads(r: string, b: string)
    ensures LeadingSpace(r) > 0 ==> LeadingSpace(r + b) > 0
  {
    hide IsSpace, LeadingSpace;
    var n := LeadingSpace(r);
    if n > 0 {
      assert r[..n] + (r[n..] + b) == r + b;
      SpaceLeads(r[..n], r[n..] + b);
    }
  }

  /** Trimming takes away white space at both ends, all of it and nothing else. */
  lemma Trims(s: string) returns (a: string, b: string)
    ensures s == a + TrimSpace(s) + b && Blank(a) && Blank(b)
    ensures LeadingSpace(TrimSpace(s)) == 0 && TrailingSpace(TrimSpace(s)) == 0
  {
    hide IsSpace, LeadingSpace, TrailingSpace, Blank, TrimLeft, TrimRight;
    a := TrimsLeft(s);
    b := TrimsRight(TrimLeft(s));
    PrefixLeads(TrimSpace(s), b);
    assert s == a + (TrimSpace(s) + b);
  }

  /** A text that begins and ends in printable ASCII stays as it is. */
  lemma NothingToTrim(s: string)
    requires s != [] && ' ' < s[0] < '\U{80}' && ' ' < s[|s| - 1] < '\U{80}'
    ensures TrimSpace(s) == s
  {
    assert LeadingSpace(s) == 0 && TrailingSpace(s) == 0;
  }
}
