/** The string functions of PHP's standard library that the client relies on,
    over Dafny strings. A PHP string is a byte string; a Dafny string stands
    for its UTF-8 encoding, so byte-level functions (`strlen`, `urlencode`)
    go through `Utf8Bytes`. */
module Strings {

  // ---------------------------------------------------------------------
  // implode / explode with a one-character separator

  /** `implode(sep, parts)`. */
  function Join(parts: seq<string>, sep: char): string {
    if |parts| == 0 then ""
    else if |parts| == 1 then parts[0]
    else parts[0] + [sep] + Join(parts[1..], sep)
  }

  /** `explode(sep, s)`: the maximal pieces of `s` between separators. */
  function Split(s: string, sep: char): (pieces: seq<string>)
    ensures |pieces| > 0
  {
    if |s| == 0 then [""]
    else
      var rest := Split(s[1..], sep);
      if s[0] == sep then [""] + rest else [[s[0]] + rest[0]] + rest[1..]
  }

  lemma {:induction false} SplitWithoutSeparator(s: string, sep: char)
    requires sep !in s
    ensures Split(s, sep) == [s]
  {
    if |s| > 0 {
      SplitWithoutSeparator(s[1..], sep);
      assert [s[0]] + s[1..] == s;
    }
  }

  lemma {:induction false} SplitAtSeparator(a: string, sep: char, b: string)
    requires sep !in a
    ensures Split(a + [sep] + b, sep) == [a] + Split(b, sep)
  {
    if |a| > 0 {
      assert (a + [sep] + b)[1..] == a[1..] + [sep] + b;
      SplitAtSeparator(a[1..], sep, b);
      assert [a[0]] + a[1..] == a;
    } else {
      assert (a + [sep] + b)[1..] == b;
    }
  }

  /** Splitting a joined list gives the list back when no part holds the
      separator. */
  lemma {:induction false} SplitJoin(parts: seq<string>, sep: char)
    requires |parts| > 0
    requires forall p :: p in parts ==> sep !in p
    ensures Split(Join(parts, sep), sep) == parts
  {
    if |parts| == 1 {
      SplitWithoutSeparator(parts[0], sep);
    } else {
      SplitJoin(parts[1..], sep);
      SplitAtSeparator(parts[0], sep, Join(parts[1..], sep));
      assert [parts[0]] + parts[1..] == parts;
    }
  }

  // ---------------------------------------------------------------------
  // decimal rendering of integers (PHP's int to string conversion)

  function DigitChar(d: nat): char
    requires d < 10
  {
    "0123456789"[d]
  }

  function NatToString(n: nat): (s: string)
    ensures |s| > 0
    decreases n
  {
    if n < 10 then [DigitChar(n)] else NatToString(n / 10) + [DigitChar(n % 10)]
  }

  function IntToString(i: int): string {
    if i < 0 then "-" + NatToString(-i) else NatToString(i)
  }

  // ---------------------------------------------------------------------
  // UTF-8: the bytes PHP sees for a string

  /** The UTF-8 encoding of one Unicode scalar value. */
  function Utf8(c: char): (bs: seq<int>)
    ensures 1 <= |bs| <= 4
    ensures forall i :: 0 <= i < |bs| ==> 0 <= bs[i] < 256
    ensures |bs| == 1 <==> c as int < 0x80
    ensures |bs| == 1 ==> bs[0] == c as int
  {
    var n := c as int;
    if n < 0x80 then [n]
    else if n < 0x800 then [0xC0 + n / 64, 0x80 + n % 64]
    else if n < 0x1_0000 then [0xE0 + n / 4096, 0x80 + (n / 64) % 64, 0x80 + n % 64]
    else [0xF0 + n / 262144, 0x80 + (n / 4096) % 64, 0x80 + (n / 64) % 64, 0x80 + n % 64]
  }

  function Utf8Bytes(s: string): seq<int> {
    if s == [] then [] else Utf8(s[0]) + Utf8Bytes(s[1..])
  }

  predicate IsByte(b: int) { 0 <= b < 256 }

  lemma {:induction false} Utf8BytesAreBytes(s: string)
    ensures forall i :: 0 <= i < |Utf8Bytes(s)| ==> IsByte(Utf8Bytes(s)[i])
  {
    if s != [] {
      Utf8BytesAreBytes(s[1..]);
    }
  }

  lemma {:induction false} Utf8BytesAppend(a: string, b: string)
    ensures Utf8Bytes(a + b) == Utf8Bytes(a) + Utf8Bytes(b)
  {
    if a != [] {
      assert (a + b)[1..] == a[1..] + b;
      Utf8BytesAppend(a[1..], b);
    } else {
      assert a + b == b;
    }
  }

  predicate IsAscii(s: string) {
    forall i :: 0 <= i < |s| ==> s[i] as int < 0x80
  }

  /** PHP's `strlen`: the number of bytes, not of characters. */
  function ByteLength(s: string): nat {
    |Utf8Bytes(s)|
  }

  /** A string has at least as many bytes as characters, and exactly as many
      when it is ASCII. */
  lemma {:induction false} ByteLengthBounds(s: string)
    ensures |s| <= ByteLength(s) <= 4 * |s|
    ensures IsAscii(s) ==> ByteLength(s) == |s|
    ensures ByteLength(s) == 0 <==> s == ""
  {
    if s != [] {
      ByteLengthBounds(s[1..]);
    }
  }

  // ---------------------------------------------------------------------
  // substr_count: non-overlapping occurrences, scanned left to right

  /** `substr_count($s, $needle)`: the occurrences counted do not overlap,
      so together they fit in `s`. */
  function Count(s: string, needle: string): (r: nat)
    requires needle != ""
    ensures r * |needle| <= |s|
    decreases |s|
  {
    if |s| < |needle| then 0
    else if s[..|needle|] == needle then 1 + Count(s[|needle|..], needle)
    else Count(s[1..], needle)
  }

  ghost predicate OccursAt(s: string, needle: string, i: int) {
    0 <= i && i + |needle| <= |s| && s[i..i + |needle|] == needle
  }

  lemma OccursAtShift(s: string, needle: string, k: nat, i: nat)
    requires k <= |s|
    ensures OccursAt(s, needle, i + k) <==> OccursAt(s[k..], needle, i)
  {
    if 0 <= i && i + |needle| <= |s| - k {
      assert s[k..][i..i + |needle|] == s[i + k..i + k + |needle|];
    }
  }

  /** `substr_count` finds an occurrence exactly when there is one. */
  lemma {:induction false} CountPositive(s: string, needle: string)
    requires needle != ""
    ensures Count(s, needle) >= 1 <==> exists i :: OccursAt(s, needle, i)
    decreases |s|
  {
    if |s| < |needle| {
      assert forall i :: !OccursAt(s, needle, i);
    } else if s[..|needle|] == needle {
      assert OccursAt(s, needle, 0);
    } else {
      CountPositive(s[1..], needle);
      if Count(s[1..], needle) >= 1 {
        var i :| OccursAt(s[1..], needle, i);
        OccursAtShift(s, needle, 1, i);
      }
      if i :| OccursAt(s, needle, i) {
        assert i != 0;
        OccursAtShift(s, needle, 1, i - 1);
      }
    }
  }

  /** Two occurrences of `needle` in `s` that do not overlap. */
  ghost predicate TwoApart(s: string, needle: string) {
    exists i, j :: OccursAt(s, needle, i) && OccursAt(s, needle, j) && i + |needle| <= j
  }

  /** `substr_count(s, needle) > 1` holds exactly when the needle occurs twice
      without overlap. */
  lemma {:induction false} CountAtLeastTwo(s: string, needle: string)
    requires needle != ""
    ensures Count(s, needle) >= 2 <==> TwoApart(s, needle)
    decreases |s|
  {
    var n := |needle|;
    if |s| < n {
      assert forall i :: !OccursAt(s, needle, i);
    } else if s[..n] == needle {
      TwoApartAtHead(s, needle);
    } else {
      CountAtLeastTwo(s[1..], needle);
      TwoApartPastHead(s, needle);
    }
  }

  /** When the needle starts `s`, a second occurrence after it is what counts. */
  lemma TwoApartAtHead(s: string, needle: string)
    requires needle != "" && |needle| <= |s| && s[..|needle|] == needle
    ensures Count(s, needle) >= 2 <==> TwoApart(s, needle)
  {
    var n := |needle|;
    assert Count(s, needle) == 1 + Count(s[n..], needle);
    CountPositive(s[n..], needle);
    if Count(s[n..], needle) >= 1 {
      AnotherAfterHead(s, needle);
    }
    if TwoApart(s, needle) {
      SecondPastHead(s, needle);
    }
  }

  lemma AnotherAfterHead(s: string, needle: string)
    requires |needle| <= |s| && s[..|needle|] == needle
    requires exists j :: OccursAt(s[|needle|..], needle, j)
    ensures TwoApart(s, needle)
  {
    var n := |needle|;
    var j :| OccursAt(s[n..], needle, j);
    OccursAtShift(s, needle, n, j);
    assert OccursAt(s, needle, 0) && OccursAt(s, needle, j + n) && 0 + n <= j + n;
  }

  lemma SecondPastHead(s: string, needle: string)
    requires |needle| <= |s| && TwoApart(s, needle)
    ensures exists j :: OccursAt(s[|needle|..], needle, j)
  {
    var n := |needle|;
    var i, j :| OccursAt(s, needle, i) && OccursAt(s, needle, j) && i + n <= j;
    OccursAtShift(s, needle, n, j - n);
  }

  /** When the needle does not start `s`, the occurrences are those of `s[1..]`. */
  lemma TwoApartPastHead(s: string, needle: string)
    requires needle != "" && |needle| <= |s| && s[..|needle|] != needle
    requires Count(s[1..], needle) >= 2 <==> TwoApart(s[1..], needle)
    ensures Count(s, needle) >= 2 <==> TwoApart(s, needle)
  {
    assert Count(s, needle) == Count(s[1..], needle);
    if TwoApart(s[1..], needle) {
      TwoApartShiftedUp(s, needle);
    }
    if TwoApart(s, needle) {
      TwoApartShiftedDown(s, needle);
    }
  }

  lemma TwoApartShiftedUp(s: string, needle: string)
    requires |s| >= 1 && TwoApart(s[1..], needle)
    ensures TwoApart(s, needle)
  {
    var n := |needle|;
    var i, j :| OccursAt(s[1..], needle, i) && OccursAt(s[1..], needle, j) && i + n <= j;
    OccursAtShift(s, needle, 1, i);
    OccursAtShift(s, needle, 1, j);
    assert OccursAt(s, needle, i + 1) && OccursAt(s, needle, j + 1) && (i + 1) + n <= j + 1;
  }

  lemma TwoApartShiftedDown(s: string, needle: string)
    requires needle != "" && |needle| <= |s| && s[..|needle|] != needle && TwoApart(s, needle)
    ensures TwoApart(s[1..], needle)
  {
    var n := |needle|;
    var i, j :| OccursAt(s, needle, i) && OccursAt(s, needle, j) && i + n <= j;
    assert i != 0;
    OccursAtShift(s, needle, 1, i - 1);
    OccursAtShift(s, needle, 1, j - 1);
    assert OccursAt(s[1..], needle, i - 1) && OccursAt(s[1..], needle, j - 1) && (i - 1) + n <= j - 1;
  }

  /** Counting a one-character needle counts that character. */
  lemma {:induction false} CountChar(s: string, c: char)
    ensures Count(s, [c]) == multiset(s)[c]
    decreases |s|
  {
    if s != [] {
      CountChar(s[1..], c);
      assert s == [s[0]] + s[1..];
      assert s[..1] == [s[0]];
    }
  }

  // ---------------------------------------------------------------------
  // upper-casing, restricted to ASCII letters

  predicate IsLowerAscii(c: char) { 'a' <= c <= 'z' }

  function UpperChar(c: char): char {
    if IsLowerAscii(c) then (c as int - 32) as char else c
  }

  /** Upper-casing works character by character and leaves no lower-case
      letter behind. */
  function ToUpperAscii(s: string): (r: string)
    ensures |r| == |s|
    ensures forall i :: 0 <= i < |s| ==> r[i] == UpperChar(s[i]) && !IsLowerAscii(r[i])
  {
    if s == [] then [] else [UpperChar(s[0])] + ToUpperAscii(s[1..])
  }

  predicate HasLowerAscii(s: string) {
    exists i :: 0 <= i < |s| && IsLowerAscii(s[i])
  }

  /** Upper-casing leaves a string unchanged exactly when it has no lower-case
      letter: the empty string and strings of digits included. */
  lemma {:induction false} UpperFixedIff(s: string)
    ensures ToUpperAscii(s) == s <==> !HasLowerAscii(s)
  {
    if s != [] {
      UpperFixedIff(s[1..]);
      assert s == [s[0]] + s[1..];
      if HasLowerAscii(s) && !IsLowerAscii(s[0]) {
        var i :| 0 <= i < |s| && IsLowerAscii(s[i]);
        assert IsLowerAscii(s[1..][i - 1]);
      }
      if HasLowerAscii(s[1..]) {
        var i :| 0 <= i < |s[1..]| && IsLowerAscii(s[1..][i]);
        assert IsLowerAscii(s[i + 1]);
      }
    }
  }
}
