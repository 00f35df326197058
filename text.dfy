/**
  The JavaScript string built-ins that the route handlers and the client
  rely on, stated on `seq<char>`: the whitespace class `\s` and `trim`,
  ASCII lower-casing, `startsWith` / `includes`, `split` / `join` on a
  literal separator, and `Number.prototype.toString` for naturals.
*/
module Text {

  /** A JavaScript `\s` character: the WhiteSpace and LineTerminator code
      points of ECMA-262, which are also what `String.prototype.trim` strips. */
  predicate IsSpace(c: char) {
    var n := c as int;
    || n == 0x09 || n == 0x0A || n == 0x0B || n == 0x0C || n == 0x0D || n == 0x20
    || n == 0xA0 || n == 0x1680 || (0x2000 <= n <= 0x200A)
    || n == 0x2028 || n == 0x2029 || n == 0x202F || n == 0x205F || n == 0x3000 || n == 0xFEFF
  }

  predicate IsBlank(s: string) {
    forall k :: 0 <= k < |s| ==> IsSpace(s[k])
  }

  predicate IsDigit(c: char) {
    '0' <= c <= '9'
  }

  /** The number of spaces `s` starts with. */
  function LeadingSpaces(s: string): (n: nat)
    ensures n <= |s|
  {
    if |s| > 0 && IsSpace(s[0]) then 1 + LeadingSpaces(s[1..]) else 0
  }

  /** The number of spaces `s` ends with. */
  function TrailingSpaces(s: string): (n: nat)
    ensures n <= |s|
  {
    if |s| > 0 && IsSpace(s[|s| - 1]) then 1 + TrailingSpaces(s[..|s| - 1]) else 0
  }

  lemma {:induction false} LeadingSpacesExact(s: string)
    ensures forall k :: 0 <= k < LeadingSpaces(s) ==> IsSpace(s[k])
    ensures LeadingSpaces(s) < |s| ==> !IsSpace(s[LeadingSpaces(s)])
    decreases |s|
  {
    if |s| > 0 && IsSpace(s[0]) {
      var t := s[1..];
      LeadingSpacesExact(t);
      forall k | 1 <= k < LeadingSpaces(s) ensures IsSpace(s[k]) {
        assert s[k] == t[k - 1];
      }
      assert LeadingSpaces(s) < |s| ==> s[LeadingSpaces(s)] == t[LeadingSpaces(t)];
    }
  }

  lemma {:induction false} TrailingSpacesExact(s: string)
    ensures forall k :: |s| - TrailingSpaces(s) <= k < |s| ==> IsSpace(s[k])
    ensures TrailingSpaces(s) < |s| ==> !IsSpace(s[|s| - 1 - TrailingSpaces(s)])
    decreases |s|
  {
    if |s| > 0 && IsSpace(s[|s| - 1]) {
      var t := s[..|s| - 1];
      TrailingSpacesExact(t);
      forall k | |s| - TrailingSpaces(s) <= k < |s| - 1 ensures IsSpace(s[k]) {
        assert s[k] == t[k];
      }
    }
  }

  /** `s.trimStart()`. */
  function TrimStart(s: string): string {
    s[LeadingSpaces(s)..]
  }

  /** `s.trimEnd()`. */
  function TrimEnd(s: string): string {
    s[..|s| - TrailingSpaces(s)]
  }

  /** `s.trim()`. */
  function Trim(s: string): string {
    TrimEnd(TrimStart(s))
  }

  /** Neither end of `s` is a space. */
  predicate IsTrimmed(s: string) {
    s == [] || (!IsSpace(s[0]) && !IsSpace(s[|s| - 1]))
  }

  /** `trim` leaves a trimmed string alone. */
  lemma TrimmedUnchanged(s: string)
    requires IsTrimmed(s)
    ensures Trim(s) == s
  {
    if s != [] {
      assert LeadingSpaces(s) == 0;
      assert TrailingSpaces(s) == 0;
    }
  }

  lemma BlankAppend(x: string, y: string)
    requires IsBlank(x) && IsBlank(y)
    ensures IsBlank(x + y)
  {
    forall k | 0 <= k < |x + y| ensures IsSpace((x + y)[k]) {
      if k >= |x| {
        assert (x + y)[k] == y[k - |x|];
      }
    }
  }

  /** `t` sits in `s` at offset `i` with nothing but spaces around it. */
  ghost predicate BlankMargins(s: string, t: string, i: int) {
    0 <= i <= |s| - |t| && t == s[i..i + |t|] && IsBlank(s[..i]) && IsBlank(s[i + |t|..])
  }

  /** What `trim` keeps is a slice of the input with blank margins and no
      space at either end, and it keeps nothing exactly when the input is blank. */
  lemma TrimIsBlankSlice(s: string)
    ensures exists i :: BlankMargins(s, Trim(s), i)
    ensures IsTrimmed(Trim(s))
    ensures Trim(s) == [] <==> IsBlank(s)
  {
    var i := LeadingSpaces(s);
    var a := s[i..];
    var m := TrailingSpaces(a);
    var j := |s| - m;
    LeadingSpacesExact(s);
    TrailingSpacesExact(a);
    assert Trim(s) == s[i..j];
    assert IsBlank(s[..i]) by {
      forall k | 0 <= k < i ensures IsSpace(s[..i][k]) {
        assert s[..i][k] == s[k];
      }
    }
    assert IsBlank(s[j..]) by {
      forall k | 0 <= k < |s| - j ensures IsSpace(s[j..][k]) {
        assert s[j..][k] == a[|a| - m + k];
      }
    }
    assert BlankMargins(s, Trim(s), i);
    if i < j {
      assert s[i..j][0] == s[i];
      assert s[i..j][j - i - 1] == a[|a| - 1 - m];
    }
    if IsBlank(s) {
      assert i == |s|;
    }
    if i == j {
      assert s == s[..i] + s[j..];
      BlankAppend(s[..i], s[j..]);
    }
  }

  lemma TrimEmptyIffBlank(s: string)
    ensures Trim(s) == [] <==> IsBlank(s)
  {
    TrimIsBlankSlice(s);
  }

  /** What `trim` returns is trimmed, so trimming twice is trimming once. */
  lemma TrimIdempotent(s: string)
    ensures IsTrimmed(Trim(s))
    ensures Trim(Trim(s)) == Trim(s)
  {
    TrimIsBlankSlice(s);
    TrimmedUnchanged(Trim(s));
  }

  function LowerChar(c: char): char {
    if 'A' <= c <= 'Z' then (c as int + 32) as char else c
  }

  /** `s.toLowerCase()` restricted to ASCII letters. */
  function Lower(s: string): (r: string)
    ensures |r| == |s|
    ensures forall k :: 0 <= k < |s| ==> r[k] == LowerChar(s[k])
  {
    seq(|s|, k requires 0 <= k < |s| => LowerChar(s[k]))
  }

  lemma LowerSlice(s: string, i: nat, j: nat)
    requires i <= j <= |s|
    ensures Lower(s[i..j]) == Lower(s)[i..j]
  {
  }

  /** Lower-casing and trimming commute, so the order in which a schema
      applies its `trim` and `lowercase` setters does not matter. */
  lemma LowerTrimCommute(s: string)
    ensures Lower(Trim(s)) == Trim(Lower(s))
  {
    LowerTrimStart(s);
    LowerTrimEnd(TrimStart(s));
  }

  /** Lower-casing touches no space, so it keeps the margins `trim` removes. */
  lemma {:induction false} LowerKeepsLeadingSpaces(s: string)
    ensures LeadingSpaces(Lower(s)) == LeadingSpaces(s)
    decreases |s|
  {
    if |s| > 0 {
      assert Lower(s)[1..] == Lower(s[1..]);
      LowerKeepsLeadingSpaces(s[1..]);
    }
  }

  lemma {:induction false} LowerKeepsTrailingSpaces(s: string)
    ensures TrailingSpaces(Lower(s)) == TrailingSpaces(s)
    decreases |s|
  {
    if |s| > 0 {
      assert Lower(s)[..|s| - 1] == Lower(s[..|s| - 1]);
      LowerKeepsTrailingSpaces(s[..|s| - 1]);
    }
  }

  lemma LowerTrimStart(s: string)
    ensures Lower(TrimStart(s)) == TrimStart(Lower(s))
  {
    LowerKeepsLeadingSpaces(s);
    LowerSlice(s, LeadingSpaces(s), |s|);
    assert s[LeadingSpaces(s)..] == s[LeadingSpaces(s)..|s|];
  }

  lemma LowerTrimEnd(s: string)
    ensures Lower(TrimEnd(s)) == TrimEnd(Lower(s))
  {
    LowerKeepsTrailingSpaces(s);
    LowerSlice(s, 0, |s| - TrailingSpaces(s));
    assert s[..|s| - TrailingSpaces(s)] == s[0..|s| - TrailingSpaces(s)];
  }

  predicate StartsWith(s: string, prefix: string) {
    |prefix| <= |s| && s[..|prefix|] == prefix
  }

  predicate OccursAt(s: string, pattern: string, i: int) {
    0 <= i && i + |pattern| <= |s| && s[i..i + |pattern|] == pattern
  }

  /** `s.includes(pattern)`. */
  predicate Contains(s: string, pattern: string) {
    exists i :: 0 <= i <= |s| - |pattern| && OccursAt(s, pattern, i)
  }

  /** `s.split(sep)` for a non-empty literal separator: the separators are
      found left to right without overlap and the text between them is kept,
      empty pieces included. */
  function Split(s: string, sep: string): (parts: seq<string>)
    requires sep != []
    ensures |parts| >= 1
    decreases |s|
  {
    if StartsWith(s, sep) then [""] + Split(s[|sep|..], sep)
    else if s == [] then [""]
    else
      var rest := Split(s[1..], sep);
      [[s[0]] + rest[0]] + rest[1..]
  }

  /** `parts.join(sep)`. */
  function Join(parts: seq<string>, sep: string): string {
    if |parts| == 0 then ""
    else if |parts| == 1 then parts[0]
    else parts[0] + sep + Join(parts[1..], sep)
  }

  /** `s.slice(0, n)`. */
  function Take<T>(s: seq<T>, n: nat): (r: seq<T>)
    ensures |r| <= n && |r| <= |s| && r == s[..|r|]
    ensures |r| == n || r == s
  {
    if |s| <= n then s else s[..n]
  }

  function Last<T>(s: seq<T>): T
    requires s != []
  {
    s[|s| - 1]
  }

  /** Putting a character in front of the first piece puts it in front of the join. */
  lemma JoinConsHead(c: char, parts: seq<string>, sep: string)
    requires |parts| >= 1
    ensures Join([[c] + parts[0]] + parts[1..], sep) == [c] + Join(parts, sep)
  {
    var p := [[c] + parts[0]] + parts[1..];
    assert p[1..] == parts[1..];
    if |parts| > 1 {
      assert Join(p, sep) == ([c] + parts[0]) + sep + Join(parts[1..], sep);
    }
  }

  /** Joining two non-empty lists of pieces puts one separator between their joins. */
  lemma {:induction false} JoinAppend(a: seq<string>, b: seq<string>, sep: string)
    requires |a| >= 1 && |b| >= 1
    ensures Join(a + b, sep) == Join(a, sep) + sep + Join(b, sep)
    decreases |a|
  {
    assert (a + b)[1..] == a[1..] + b;
    if |a| > 1 {
      JoinAppend(a[1..], b, sep);
    }
  }

  /** Joining the pieces of a split with the same separator gives the text back. */
  lemma {:induction false} JoinSplit(s: string, sep: string)
    requires sep != []
    ensures Join(Split(s, sep), sep) == s
    decreases |s|
  {
    if StartsWith(s, sep) {
      var t := s[|sep|..];
      JoinSplit(t, sep);
      assert Split(s, sep) == [""] + Split(t, sep);
      assert s == sep + t;
    } else if s != [] {
      JoinSplit(s[1..], sep);
      JoinConsHead(s[0], Split(s[1..], sep), sep);
      assert s == [s[0]] + s[1..];
    }
  }

  /** Splitting text in front of which stands a stretch free of the
      separator's first character extends the first piece only. */
  lemma {:induction false} SplitAfterFree(x: string, y: string, sep: string)
    requires sep != [] && sep[0] !in x
    ensures Split(x + y, sep) == [x + Split(y, sep)[0]] + Split(y, sep)[1..]
    decreases |x|
  {
    if x != [] {
      assert (x + y)[0] == x[0];
      assert !StartsWith(x + y, sep);
      assert (x + y)[1..] == x[1..] + y;
      SplitAfterFree(x[1..], y, sep);
      assert [x[0]] + (x[1..] + Split(y, sep)[0]) == x + Split(y, sep)[0];
    } else {
      assert x + y == y;
      assert x + Split(y, sep)[0] == Split(y, sep)[0];
      assert [Split(y, sep)[0]] + Split(y, sep)[1..] == Split(y, sep);
    }
  }

  /** One piece free of the separator's first character in front of a
      separator is split off as it is. */
  lemma SplitJoinStep(head: string, tail: string, rest: seq<string>, sep: string)
    requires sep != [] && sep[0] !in head && Split(tail, sep) == rest
    ensures Split(head + sep + tail, sep) == [head] + rest
  {
    assert StartsWith(sep + tail, sep);
    assert (sep + tail)[|sep|..] == tail;
    assert Split(sep + tail, sep) == [""] + rest;
    SplitAfterFree(head, sep + tail, sep);
    assert head + (sep + tail) == head + sep + tail;
    assert head + "" == head;
  }

  /** Round trip: pieces that avoid the separator's first character are
      recovered by splitting their join. */
  lemma {:induction false} SplitJoin(parts: seq<string>, sep: string)
    requires sep != [] && |parts| >= 1
    requires forall k :: 0 <= k < |parts| ==> sep[0] !in parts[k]
    ensures Split(Join(parts, sep), sep) == parts
    decreases |parts|
  {
    if |parts| == 1 {
      SplitAfterFree(parts[0], "", sep);
      assert parts[0] + "" == parts[0];
    } else {
      SplitJoin(parts[1..], sep);
      SplitJoinStep(parts[0], Join(parts[1..], sep), parts[1..], sep);
      assert [parts[0]] + parts[1..] == parts;
    }
  }

  /** No piece produced by a one-character split holds that character. */
  lemma {:induction false} SplitPartsFree(s: string, sep: string)
    requires |sep| == 1
    ensures forall k :: 0 <= k < |Split(s, sep)| ==> sep[0] !in Split(s, sep)[k]
    decreases |s|
  {
    if StartsWith(s, sep) {
      SplitPartsFree(s[1..], sep);
    } else if s != [] {
      SplitPartsFree(s[1..], sep);
      assert s[0] != sep[0];
    }
  }

  /** A character in neither the pieces nor the separator is not in their join. */
  lemma {:induction false} JoinAvoids(parts: seq<string>, sep: string, c: char)
    requires c !in sep && forall k :: 0 <= k < |parts| ==> c !in parts[k]
    ensures c !in Join(parts, sep)
    decreases |parts|
  {
    if |parts| > 1 {
      JoinAvoids(parts[1..], sep, c);
    }
  }

  /** A character other than the separator extends the first piece. */
  lemma SplitCons(c: char, z: string, sep: string)
    requires |sep| == 1 && c != sep[0]
    ensures Split([c] + z, sep) == [[c] + Split(z, sep)[0]] + Split(z, sep)[1..]
  {
    assert !StartsWith([c] + z, sep);
    assert ([c] + z)[1..] == z;
  }

  /** A new first piece in front of both sides of the incremental split
      keeps it incremental. */
  lemma ConsKeepsIncremental(h: string, p: seq<string>, a: seq<string>, q: seq<string>)
    requires |p| >= 1 && a == p[..|p| - 1] + q
    ensures [h] + a == ([h] + p)[..|[h] + p| - 1] + q && Last([h] + p) == Last(p)
  {
    assert ([h] + p)[..|[h] + p| - 1] == [h] + p[..|p| - 1];
  }

  /** Growing the first piece on both sides keeps the split incremental
      when that piece is complete. */
  lemma ExtendKeepsIncremental(c: char, p: seq<string>, a: seq<string>, q: seq<string>)
    requires |p| >= 2 && a == p[..|p| - 1] + q
    ensures [[c] + a[0]] + a[1..] == ([[c] + p[0]] + p[1..])[..|p| - 1] + q
    ensures Last([[c] + p[0]] + p[1..]) == Last(p)
  {
    assert a[0] == p[0];
    assert a[1..] == p[1..|p| - 1] + q;
    assert ([[c] + p[0]] + p[1..])[..|p| - 1] == [[c] + p[0]] + p[1..|p| - 1];
  }

  /** The step of `SplitConcat` for text that starts with the separator. */
  lemma SplitConcatSepStep(x: string, y: string, sep: string)
    requires |sep| == 1 && x != [] && x[0] == sep[0]
    requires var p := Split(x[1..], sep);
             Split(x[1..] + y, sep) == p[..|p| - 1] + Split(Last(p) + y, sep)
    ensures var px := Split(x, sep);
            Split(x + y, sep) == px[..|px| - 1] + Split(Last(px) + y, sep)
  {
    var p := Split(x[1..], sep);
    assert StartsWith(x, sep);
    assert Split(x, sep) == [""] + p;
    assert StartsWith(x + y, sep);
    assert (x + y)[1..] == x[1..] + y;
    assert Split(x + y, sep) == [""] + Split(x[1..] + y, sep);
    ConsKeepsIncremental("", p, Split(x[1..] + y, sep), Split(Last(p) + y, sep));
  }

  /** The step of `SplitConcat` for text that starts with another
      character, when `x'` has no separator: everything stays in the first
      piece. */
  lemma SplitConcatOnePieceStep(c: char, x': string, y: string, sep: string)
    requires |sep| == 1 && c != sep[0] && |Split(x', sep)| == 1
    requires Split(x' + y, sep) == Split(Split(x', sep)[0] + y, sep)
    ensures var px := Split([c] + x', sep);
            Split([c] + x' + y, sep) == px[..|px| - 1] + Split(Last(px) + y, sep)
  {
    var p0 := Split(x', sep)[0];
    SplitCons(c, x', sep);
    assert [c] + x' + y == [c] + (x' + y);
    SplitCons(c, x' + y, sep);
    assert [c] + p0 + y == [c] + (p0 + y);
    SplitCons(c, p0 + y, sep);
  }

  /** The step of `SplitConcat` for text that starts with another
      character, when `x'` holds a separator. */
  lemma SplitConcatManyPiecesStep(c: char, x': string, y: string, sep: string)
    requires |sep| == 1 && c != sep[0] && |Split(x', sep)| >= 2
    requires var p := Split(x', sep);
             Split(x' + y, sep) == p[..|p| - 1] + Split(Last(p) + y, sep)
    ensures var px := Split([c] + x', sep);
            Split([c] + x' + y, sep) == px[..|px| - 1] + Split(Last(px) + y, sep)
  {
    SplitCons(c, x', sep);
    assert [c] + x' + y == [c] + (x' + y);
    SplitCons(c, x' + y, sep);
    var p := Split(x', sep);
    ExtendKeepsIncremental(c, p, Split(x' + y, sep), Split(Last(p) + y, sep));
  }

  /** Splitting on one character can be done incrementally: the complete
      pieces of `x` stay, and its last piece is split again together with `y`. */
  lemma {:induction false} SplitConcat(x: string, y: string, sep: string)
    requires |sep| == 1
    ensures var px := Split(x, sep);
            Split(x + y, sep) == px[..|px| - 1] + Split(Last(px) + y, sep)
    decreases |x|
  {
    if x == [] {
      assert x + y == y;
    } else {
      SplitConcat(x[1..], y, sep);
      if x[0] == sep[0] {
        SplitConcatSepStep(x, y, sep);
      } else {
        assert x == [x[0]] + x[1..];
        var p := Split(x[1..], sep);
        if |p| == 1 {
          assert p[..0] == [];
          SplitConcatOnePieceStep(x[0], x[1..], y, sep);
        } else {
          SplitConcatManyPiecesStep(x[0], x[1..], y, sep);
        }
      }
    }
  }

  function DigitChar(d: nat): (c: char)
    requires d < 10
    ensures IsDigit(c)
  {
    ('0' as int + d) as char
  }

  /** `n.toString()` for a natural number. */
  function Decimal(n: nat): (s: string)
    ensures s != [] && forall k :: 0 <= k < |s| ==> IsDigit(s[k])
  {
    if n < 10 then [DigitChar(n)] else Decimal(n / 10) + [DigitChar(n % 10)]
  }

  /** The value of a string of decimal digits. */
  function DigitsValue(s: string): nat
    requires forall k :: 0 <= k < |s| ==> IsDigit(s[k])
  {
    if s == [] then 0
    else
      var last := s[|s| - 1];
      assert IsDigit(last);
      DigitsValue(s[..|s| - 1]) * 10 + (last as int - '0' as int)
  }

  function Pow10(k: nat): (p: nat)
    ensures p >= 1
  {
    if k == 0 then 1 else 10 * Pow10(k - 1)
  }

  /** Reading back the decimal string of `n` gives `n`. */
  lemma {:induction false} DecimalRoundTrip(n: nat)
    ensures DigitsValue(Decimal(n)) == n
  {
    if n >= 10 {
      DecimalRoundTrip(n / 10);
      var s := Decimal(n);
      assert s[..|s| - 1] == Decimal(n / 10);
    }
  }

  /** A number with exactly `k` significant digits is written with `k` characters. */
  lemma {:induction false} DecimalLength(n: nat, k: nat)
    requires 1 <= k && Pow10(k - 1) <= n < Pow10(k)
    ensures |Decimal(n)| == k
  {
    if k > 1 {
      DecimalLength(n / 10, k - 1);
    }
  }
}
