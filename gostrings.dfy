/**
  The two functions of Go's `strings` package that the server's decisions
  depend on: `TrimSpace` (with `unicode.IsSpace`) and `Split` on a one-character
  separator. Strings are sequences of code points.
 */
module GoStrings {

  /** `unicode.IsSpace`: the Latin-1 spaces plus the other White_Space code points. */
  predicate IsSpace(c: char) {
    || c == '\t' || c == '\n' || c == '\U{000B}' || c == '\U{000C}' || c == '\r' || c == ' '
    || c == '\U{0085}' || c == '\U{00A0}' || c == '\U{1680}'
    || ('\U{2000}' <= c <= '\U{200A}')
    || c == '\U{2028}' || c == '\U{2029}' || c == '\U{202F}' || c == '\U{205F}' || c == '\U{3000}'
  }

  /** Neither end of `s` is white space. */
  predicate IsTrimmed(s: string) {
    s == [] || (!IsSpace(s[0]) && !IsSpace(s[|s| - 1]))
  }

  /** Length of the longest all-space prefix. */
  function LeadingSpaces(s: string): (n: nat)
    ensures n <= |s|
    ensures forall k :: 0 <= k < n ==> IsSpace(s[k])
    ensures n < |s| ==> !IsSpace(s[n])
  {
    if s != [] && IsSpace(s[0]) then
      var n' := LeadingSpaces(s[1..]);
      assert forall k :: 1 <= k < n' + 1 ==> s[k] == s[1..][k - 1];
      1 + n'
    else 0
  }

  /** Length of the longest all-space suffix. */
  function TrailingSpaces(s: string): (n: nat)
    ensures n <= |s|
    ensures forall k :: |s| - n <= k < |s| ==> IsSpace(s[k])
    ensures n < |s| ==> !IsSpace(s[|s| - n - 1])
  {
    if s != [] && IsSpace(s[|s| - 1]) then
      var init := s[..|s| - 1];
      var n' := TrailingSpaces(init);
      assert forall k :: |s| - 1 - n' <= k < |s| - 1 ==> s[k] == init[k];
      1 + n'
    else 0
  }

  /** `strings.TrimSpace`: the result has no white space at either end. */
  function TrimSpace(s: string): (r: string)
    ensures IsTrimmed(r)
  {
    var t := s[LeadingSpaces(s)..];
    var r := t[..|t| - TrailingSpaces(t)];
    assert r != [] ==> r[0] == t[0];
    r
  }

  /** What trimming removes is white space at the two ends and nothing else. */
  lemma TrimSpaceIsSlice(s: string)
    ensures var r := TrimSpace(s); var a := LeadingSpaces(s);
      && a + |r| <= |s|
      && r == s[a..a + |r|]
      && (forall k :: 0 <= k < a ==> IsSpace(s[k]))
      && (forall k :: a + |r| <= k < |s| ==> IsSpace(s[k]))
  {
    var a := LeadingSpaces(s);
    var t := s[a..];
    var b := TrailingSpaces(t);
    var r := t[..|t| - b];
    assert TrimSpace(s) == r;
    assert r == s[a..a + |r|];
    forall k | a + |r| <= k < |s| ensures IsSpace(s[k]) {
      assert s[k] == t[k - a];
    }
  }

  /** An octet. */
  type Byte = x: int | 0 <= x < 0x100

  /** Bytes one code point takes in UTF-8. */
  function Utf8Width(c: char): (w: nat) {
    if c as int < 0x80 then 1
    else if c as int < 0x800 then 2
    else if c as int < 0x1_0000 then 3
    else 4
  }

  /**
    The UTF-8 encoding of one code point: a lead byte marking the width, then
    six bits per continuation byte.
   */
  function Utf8Rune(c: char): (b: seq<Byte>)
    ensures |b| == Utf8Width(c)
    ensures c as int < 0x80 ==> b == [c as int]
  {
    var v := c as int;
    if v < 0x80 then [v]
    else if v < 0x800 then [0xC0 + v / 0x40, 0x80 + v % 0x40]
    else if v < 0x1_0000 then
      var low := v % 0x1000;
      [0xE0 + v / 0x1000, 0x80 + low / 0x40, 0x80 + low % 0x40]
    else
      var mid := v % 0x4_0000;
      var low := mid % 0x1000;
      [0xF0 + v / 0x4_0000, 0x80 + mid / 0x1000, 0x80 + low / 0x40, 0x80 + low % 0x40]
  }

  /** `[]byte(s)`: the UTF-8 encoding of `s`, code point after code point. */
  function Utf8Encode(s: string): (b: seq<Byte>)
    ensures |b| == Utf8Length(s)
  {
    if s == [] then [] else Utf8Rune(s[0]) + Utf8Encode(s[1..])
  }

  /**
    `len([]byte(s))`: the length of `s` in UTF-8. It is between one and four
    bytes per code point, and exactly one per code point for ASCII text.
   */
  function Utf8Length(s: string): (n: nat)
    ensures |s| <= n <= 4 * |s|
    ensures (forall i :: 0 <= i < |s| ==> s[i] as int < 0x80) ==> n == |s|
  {
    if s == [] then 0
    else
      var rest := Utf8Length(s[1..]);
      assert forall i :: 0 <= i < |s[1..]| ==> s[1..][i] == s[i + 1];
      Utf8Width(s[0]) + rest
  }

  /** Encoding is a homomorphism: the bytes of `a + b` are the bytes of `a` followed by those of `b`. */
  lemma {:induction false} Utf8EncodeAppend(a: string, b: string)
    ensures Utf8Encode(a + b) == Utf8Encode(a) + Utf8Encode(b)
    ensures Utf8Length(a + b) == Utf8Length(a) + Utf8Length(b)
  {
    if a == [] {
      assert a + b == b;
    } else {
      var head := Utf8Rune(a[0]);
      assert (a + b)[0] == a[0];
      assert (a + b)[1..] == a[1..] + b;
      Utf8EncodeAppend(a[1..], b);
      calc {
        Utf8Encode(a + b);
        head + Utf8Encode(a[1..] + b);
        head + (Utf8Encode(a[1..]) + Utf8Encode(b));
        (head + Utf8Encode(a[1..])) + Utf8Encode(b);
        Utf8Encode(a) + Utf8Encode(b);
      }
    }
  }

  /** The first byte of a code point's encoding tells how many bytes it takes. */
  lemma LeadByteGivesWidth(c: char, d: char)
    requires Utf8Rune(c)[0] == Utf8Rune(d)[0]
    ensures Utf8Width(c) == Utf8Width(d)
  {
    LeadByteRange(c);
    LeadByteRange(d);
  }

  /** The range of lead bytes each width uses; the four ranges are disjoint. */
  lemma LeadByteRange(c: char)
    ensures Utf8Width(c) == 1 ==> Utf8Rune(c)[0] < 0x80
    ensures Utf8Width(c) == 2 ==> 0xC0 <= Utf8Rune(c)[0] < 0xE0
    ensures Utf8Width(c) == 3 ==> 0xE0 <= Utf8Rune(c)[0] < 0xF0
    ensures Utf8Width(c) == 4 ==> 0xF0 <= Utf8Rune(c)[0]
  {
  }

  /** Distinct code points have distinct encodings. */
  lemma Utf8RuneInjective(c: char, d: char)
    requires Utf8Rune(c) == Utf8Rune(d)
    ensures c == d
  {
    var v, w := c as int, d as int;
    var b := Utf8Rune(c);
    if Utf8Width(c) == 2 {
      assert v / 0x40 == w / 0x40 && v % 0x40 == w % 0x40;
    } else if Utf8Width(c) == 3 {
      assert (v % 0x1000) / 0x40 == (w % 0x1000) / 0x40 && (v % 0x1000) % 0x40 == (w % 0x1000) % 0x40;
      assert v % 0x1000 == w % 0x1000;
      assert v / 0x1000 == w / 0x1000;
    } else if Utf8Width(c) == 4 {
      var lv, lw := (v % 0x4_0000) % 0x1000, (w % 0x4_0000) % 0x1000;
      assert lv / 0x40 == lw / 0x40 && lv % 0x40 == lw % 0x40;
      assert lv == lw;
      assert (v % 0x4_0000) / 0x1000 == (w % 0x4_0000) / 0x1000;
      assert v % 0x4_0000 == w % 0x4_0000;
      assert v / 0x4_0000 == w / 0x4_0000;
    }
  }

  /** UTF-8 encoding loses nothing: equal bytes come from equal strings. */
  lemma {:induction false} Utf8EncodeInjective(s: string, t: string)
    requires Utf8Encode(s) == Utf8Encode(t)
    ensures s == t
  {
    if s != [] && t != [] {
      var e := Utf8Encode(s);
      var n := Utf8Width(s[0]);
      assert Utf8Rune(s[0])[0] == e[0] == Utf8Rune(t[0])[0];
      LeadByteGivesWidth(s[0], t[0]);
      assert Utf8Rune(s[0]) == e[..n] == Utf8Rune(t[0]);
      Utf8RuneInjective(s[0], t[0]);
      assert Utf8Encode(s[1..]) == e[n..] == Utf8Encode(t[1..]);
      Utf8EncodeInjective(s[1..], t[1..]);
      assert s == [s[0]] + s[1..] && t == [t[0]] + t[1..];
    }
  }

  /** A string without NUL encodes to bytes without a zero byte. */
  lemma {:induction false} Utf8EncodeHasNoZero(s: string)
    requires forall i :: 0 <= i < |s| ==> s[i] != '\0'
    ensures forall i :: 0 <= i < |Utf8Encode(s)| ==> Utf8Encode(s)[i] != 0
  {
    if s != [] {
      Utf8EncodeHasNoZero(s[1..]);
      var r := Utf8Rune(s[0]);
      assert forall i :: 0 <= i < |r| ==> r[i] != 0;
      assert Utf8Encode(s) == r + Utf8Encode(s[1..]);
    }
  }

  /** Number of occurrences of `c` in `s`. */
  function Count(s: string, c: char): (n: nat) {
    if s == [] then 0 else (if s[0] == c then 1 else 0) + Count(s[1..], c)
  }

  /**
    `strings.Split(s, string(sep))`: one piece per separator plus one, empty
    pieces included (the empty string gives one empty piece), and no piece
    contains the separator.
   */
  function Split(s: string, sep: char): (parts: seq<string>)
    ensures |parts| == Count(s, sep) + 1
    ensures forall i :: 0 <= i < |parts| ==> sep !in parts[i]
  {
    if s == [] then [[]]
    else
      var rest := Split(s[1..], sep);
      if s[0] == sep then [[]] + rest
      else [[s[0]] + rest[0]] + rest[1..]
  }

  /** `strings.Join(parts, string(sep))`, the inverse of `Split`. */
  function Join(parts: seq<string>, sep: char): (s: string) {
    if |parts| == 0 then []
    else if |parts| == 1 then parts[0]
    else parts[0] + [sep] + Join(parts[1..], sep)
  }

  /** Splitting loses nothing: joining the pieces back gives the original text. */
  lemma {:induction false} JoinSplit(s: string, sep: char)
    ensures Join(Split(s, sep), sep) == s
  {
    if s != [] {
      var rest := Split(s[1..], sep);
      JoinSplit(s[1..], sep);
      if s[0] != sep {
        var parts := Split(s, sep);
        assert parts[0] == [s[0]] + rest[0];
        assert parts[1..] == rest[1..];
        if |rest| > 1 {
          assert Join(rest, sep) == rest[0] + [sep] + Join(rest[1..], sep);
        }
      } else {
        assert Split(s, sep)[1..] == rest;
      }
    }
  }

  /** Joining pieces that contain no separator and splitting again gives the pieces back. */
  lemma {:induction false} SplitJoin(parts: seq<string>, sep: char)
    requires |parts| >= 1
    requires forall i :: 0 <= i < |parts| ==> sep !in parts[i]
    ensures Split(Join(parts, sep), sep) == parts
    decreases parts, 1
  {
    if |parts| == 1 {
      SplitNoSeparator(parts[0], sep);
    } else {
      SplitJoin(parts[1..], sep);
      SplitPrefix(parts[0], Join(parts[1..], sep), sep);
    }
  }

  /** A text without the separator splits into itself alone. */
  lemma {:induction false} SplitNoSeparator(s: string, sep: char)
    requires sep !in s
    ensures Split(s, sep) == [s]
  {
    if s != [] {
      assert sep !in s[1..];
      SplitNoSeparator(s[1..], sep);
      assert [s[0]] + s[1..] == s;
    }
  }

  /** A separator-free prefix followed by the separator becomes the first piece. */
  lemma {:induction false} SplitPrefix(p: string, t: string, sep: char)
    requires sep !in p
    ensures Split(p + [sep] + t, sep) == [p] + Split(t, sep)
  {
    if p == [] {
      assert p + [sep] + t == [sep] + t;
      assert ([sep] + t)[1..] == t;
    } else {
      assert sep !in p[1..];
      SplitPrefix(p[1..], t, sep);
      var whole := p + [sep] + t;
      assert whole[0] == p[0] && whole[1..] == p[1..] + [sep] + t;
      assert [p[0]] + p[1..] == p;
    }
  }
}
