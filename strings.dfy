/**
 * String operations shared by the blog and the API: splitting on a fixed
 * separator (JavaScript `String.prototype.split` with a string argument and
 * Python `str.split(sep)` agree on it), joining, replacing every occurrence,
 * trimming whitespace and rendering integers in decimal.
 */
module Strings {

  /** `p` occurs in `s` starting at position `i`. */
  predicate OccursAt(p: string, s: string, i: nat) {
    i + |p| <= |s| && s[i..i + |p|] == p
  }

  /** `p` occurs somewhere in `s`. */
  predicate Occurs(p: string, s: string) {
    exists i: nat | i <= |s| :: OccursAt(p, s, i)
  }

  /**
   * Leftmost, non-overlapping split of `s` on the non-empty separator `sep`:
   * the pieces between occurrences, including empty pieces at either end.
   */
  function Split(s: string, sep: string): (parts: seq<string>)
    requires |sep| > 0
    ensures |parts| >= 1
    decreases |s|
  {
    if |s| < |sep| then [s]
    else if s[..|sep|] == sep then [""] + Split(s[|sep|..], sep)
    else
      var r := Split(s[1..], sep);
      [[s[0]] + r[0]] + r[1..]
  }

  /** The first piece of a split is a prefix of the input. */
  lemma {:induction false} SplitFirstIsPrefix(s: string, sep: string)
    requires |sep| > 0
    ensures Split(s, sep)[0] <= s
    decreases |s|
  {
    if |s| >= |sep| && s[..|sep|] != sep {
      SplitFirstIsPrefix(s[1..], sep);
    }
  }

  /** The pieces, with `sep` between every two neighbours. */
  function Join(parts: seq<string>, sep: string): string
    requires |parts| >= 1
  {
    if |parts| == 1 then parts[0] else parts[0] + sep + Join(parts[1..], sep)
  }

  /** The joined text starts with the first piece. */
  lemma JoinStartsWithFirst(parts: seq<string>, sep: string)
    requires |parts| >= 1
    ensures parts[0] <= Join(parts, sep)
  {
  }

  /** The joined text ends with the last character of a non-empty last piece. */
  lemma {:induction false} JoinEndsWithLast(parts: seq<string>, sep: string)
    requires |parts| >= 1 && parts[|parts| - 1] != ""
    ensures var j := Join(parts, sep); var last := parts[|parts| - 1];
      j != [] && j[|j| - 1] == last[|last| - 1]
    decreases |parts|
  {
    if |parts| > 1 {
      var rest := parts[1..];
      assert rest[|rest| - 1] == parts[|parts| - 1];
      JoinEndsWithLast(rest, sep);
      var j := Join(rest, sep);
      assert Join(parts, sep) == (parts[0] + sep) + j;
    }
  }

  /** Every non-overlapping occurrence of `key`, scanning left to right, replaced by `sym`. */
  function Replace(s: string, key: string, sym: string): string
    requires |key| > 0
    decreases |s|
  {
    if |s| < |key| then s
    else if s[..|key|] == key then sym + Replace(s[|key|..], key, sym)
    else [s[0]] + Replace(s[1..], key, sym)
  }

  /** Splitting on `key` and joining with `sym` is replacing every occurrence of `key` by `sym`. */
  lemma {:induction false} JoinSplitIsReplace(s: string, key: string, sym: string)
    requires |key| > 0
    ensures Join(Split(s, key), sym) == Replace(s, key, sym)
    decreases |s|
  {
    if |s| < |key| {
    } else if s[..|key|] == key {
      var r := Split(s[|key|..], key);
      assert Join(r, sym) == Replace(s[|key|..], key, sym) by {
        JoinSplitIsReplace(s[|key|..], key, sym);
      }
      assert Split(s, key) == [""] + r;
      assert Join([""] + r, sym) == sym + Join(r, sym);
    } else {
      var r := Split(s[1..], key);
      assert Join(r, sym) == Replace(s[1..], key, sym) by {
        JoinSplitIsReplace(s[1..], key, sym);
      }
      var parts := [[s[0]] + r[0]] + r[1..];
      assert Split(s, key) == parts;
      assert Join(parts, sym) == [s[0]] + Join(r, sym) by {
        if |r| > 1 {
          assert parts[1..] == r[1..];
          var tail := Join(r[1..], sym);
          assert ([s[0]] + r[0]) + sym + tail == [s[0]] + (r[0] + sym + tail);
        }
      }
    }
  }

  /** Replacing a key by itself changes nothing. */
  lemma {:induction false} ReplaceBySelf(s: string, key: string)
    requires |key| > 0
    ensures Replace(s, key, key) == s
    decreases |s|
  {
    if |s| < |key| {
    } else if s[..|key|] == key {
      ReplaceBySelf(s[|key|..], key);
      assert s == s[..|key|] + s[|key|..];
    } else {
      ReplaceBySelf(s[1..], key);
      assert s == [s[0]] + s[1..];
    }
  }

  /** Split and Join are inverse: joining the pieces with the separator gives the input back. */
  lemma SplitJoinRoundTrip(s: string, sep: string)
    requires |sep| > 0
    ensures Join(Split(s, sep), sep) == s
  {
    JoinSplitIsReplace(s, sep, sep);
    ReplaceBySelf(s, sep);
  }

  /** No piece of a split contains the separator. */
  lemma {:induction false} SplitPiecesFree(s: string, sep: string)
    requires |sep| > 0
    ensures forall k :: 0 <= k < |Split(s, sep)| ==> !Occurs(sep, Split(s, sep)[k])
    decreases |s|
  {
    var parts := Split(s, sep);
    if |s| < |sep| {
      assert parts == [s];
    } else if s[..|sep|] == sep {
      SplitPiecesFree(s[|sep|..], sep);
      assert parts == [""] + Split(s[|sep|..], sep);
      assert !Occurs(sep, "");
    } else {
      SplitPiecesFree(s[1..], sep);
      var r := Split(s[1..], sep);
      var p := [s[0]] + r[0];
      assert parts == [p] + r[1..];
      SplitFirstIsPrefix(s[1..], sep);
      assert p <= s;
      forall i: nat | OccursAt(sep, p, i) ensures false {
        if i > 0 {
          assert p[i..i + |sep|] == r[0][i - 1..i - 1 + |sep|];
          assert OccursAt(sep, r[0], i - 1);
        }
      }
      forall k | 0 <= k < |parts| ensures !Occurs(sep, parts[k]) {
        if k > 0 { assert parts[k] == r[k]; }
      }
    }
  }

  /** The pieces written one after the other. */
  function Concat(parts: seq<string>): string {
    if parts == [] then "" else parts[0] + Concat(parts[1..])
  }

  lemma ConcatCons(x: string, rest: seq<string>)
    ensures Concat([x] + rest) == x + Concat(rest)
  {
    assert ([x] + rest)[1..] == rest;
  }

  /** Text put in front of the first piece is put in front of the whole. */
  lemma ConcatPrefixHead(x: string, p: string, rest: seq<string>)
    ensures Concat([x + p] + rest) == x + Concat([p] + rest)
  {
    ConcatCons(x + p, rest);
    ConcatCons(p, rest);
  }

  /** Putting a character in front of the first piece puts it in front of the whole. */
  lemma ConcatGrowsHead(c: char, parts: seq<string>)
    requires |parts| >= 1
    ensures Concat([[c] + parts[0]] + parts[1..]) == [c] + Concat(parts)
  {
    ConcatPrefixHead([c], parts[0], parts[1..]);
    assert [parts[0]] + parts[1..] == parts;
  }

  /** Appending sequences is associative. */
  lemma AppendAssociates<T>(a: seq<T>, b: seq<T>, c: seq<T>)
    ensures a + (b + c) == (a + b) + c
  {
  }

  /** Concatenation of the pieces distributes over appending lists of pieces. */
  lemma {:induction false} ConcatAppend(a: seq<string>, b: seq<string>)
    ensures Concat(a + b) == Concat(a) + Concat(b)
    decreases |a|
  {
    if a == [] {
      assert a + b == b;
    } else {
      assert a + b == [a[0]] + (a[1..] + b);
      ConcatCons(a[0], a[1..] + b);
      ConcatAppend(a[1..], b);
    }
  }

  /** A one-character string occurs exactly where that character is. */
  lemma CharOccursAt(c: char, s: string, i: nat)
    requires i < |s|
    ensures OccursAt([c], s, i) <==> s[i] == c
  {
    assert s[i..i + 1] == [s[i]];
  }

  /** A piece free of the separator character is split off whole. */
  lemma {:induction false} SplitPieceThenSeparator(p: string, c: char, rest: string)
    requires c !in p
    ensures Split(p + [c] + rest, [c]) == [p] + Split(rest, [c])
    decreases |p|
  {
    var s := p + [c] + rest;
    if p == [] {
      assert s[..1] == [c] && s[1..] == rest;
    } else {
      assert p[0] in p;
      assert s[..1] == [p[0]];
      assert s[1..] == p[1..] + [c] + rest;
      SplitPieceThenSeparator(p[1..], c, rest);
      assert [s[0]] + p[1..] == p;
    }
  }

  /** Joining pieces free of a separator character and splitting again gives the pieces back. */
  lemma {:induction false} JoinSplitRoundTrip(parts: seq<string>, c: char)
    requires |parts| >= 1
    requires forall k :: 0 <= k < |parts| ==> c !in parts[k]
    ensures Split(Join(parts, [c]), [c]) == parts
    decreases |parts|
  {
    if |parts| == 1 {
      SplitOfFree(parts[0], c);
    } else {
      JoinSplitRoundTrip(parts[1..], c);
      SplitPieceThenSeparator(parts[0], c, Join(parts[1..], [c]));
    }
  }

  /** A piece without the separator splits into itself. */
  lemma {:induction false} SplitOfFree(p: string, c: char)
    requires c !in p
    ensures Split(p, [c]) == [p]
    decreases |p|
  {
    if p != [] {
      assert p[0] in p;
      assert p[..1] == [p[0]];
      SplitOfFree(p[1..], c);
      assert [p[0]] + p[1..] == p;
    }
  }

  /** `x` occurring in `t` also occurs in `a + t` and in `t + b`. */
  lemma OccursWithin(x: string, a: string, t: string, b: string)
    requires Occurs(x, t)
    ensures Occurs(x, a + t + b)
  {
    var i: nat :| i <= |t| && OccursAt(x, t, i);
    assert (a + t + b)[|a| + i..|a| + i + |x|] == t[i..i + |x|];
    assert OccursAt(x, a + t + b, |a| + i);
  }

  /**
   * A template with holes filled in, as a Python f-string or a JavaScript
   * template literal does: the fixed pieces with the values between them.
   */
  function Interpolate(pieces: seq<string>, values: seq<string>): (r: string)
    requires |pieces| == |values| + 1
    ensures pieces[0] <= r
    decreases |values|
  {
    if values == [] then pieces[0]
    else pieces[0] + values[0] + Interpolate(pieces[1..], values[1..])
  }

  /** Every value filled into a template occurs in the result. */
  lemma {:induction false} InterpolateShows(pieces: seq<string>, values: seq<string>, k: nat)
    requires |pieces| == |values| + 1 && k < |values|
    ensures Occurs(values[k], Interpolate(pieces, values))
    decreases k
  {
    var rest := Interpolate(pieces[1..], values[1..]);
    if k == 0 {
      var r := pieces[0] + values[0] + rest;
      assert r[|pieces[0]|..|pieces[0]| + |values[0]|] == values[0];
      assert OccursAt(values[0], r, |pieces[0]|);
    } else {
      InterpolateShows(pieces[1..], values[1..], k - 1);
      OccursWithin(values[k], pieces[0] + values[0], rest, "");
      assert pieces[0] + values[0] + rest + "" == pieces[0] + values[0] + rest;
    }
  }

  /** Changing one value changes the length of the result by the change in that value's length. */
  lemma {:induction false} InterpolateLength(pieces: seq<string>, values: seq<string>, k: nat, v: string)
    requires |pieces| == |values| + 1 && k < |values|
    ensures |Interpolate(pieces, values[k := v])| + |values[k]| == |Interpolate(pieces, values)| + |v|
    decreases k
  {
    if k > 0 {
      assert values[k := v][1..] == values[1..][k - 1 := v];
      InterpolateLength(pieces[1..], values[1..], k - 1, v);
    }
  }

  /** Number of occurrences of the character `c` in `s`. */
  function CountChar(s: string, c: char): nat {
    if s == [] then 0 else (if s[0] == c then 1 else 0) + CountChar(s[1..], c)
  }

  /** Splitting on a one-character separator yields one more piece than there are separators. */
  lemma {:induction false} SplitCount(s: string, c: char)
    ensures |Split(s, [c])| == CountChar(s, c) + 1
    decreases |s|
  {
    if |s| < 1 {
    } else if s[..1] == [c] {
      SplitCount(s[1..], c);
    } else {
      SplitCount(s[1..], c);
    }
  }

  /** The two notions of white space the system's code uses. */
  datatype Whitespace = JsWhitespace | PyWhitespace

  predicate IsSpace(ws: Whitespace, c: char) {
    match ws
    case JsWhitespace => IsJsWhitespace(c)
    case PyWhitespace => IsPyWhitespace(c)
  }

  /** Number of whitespace characters `s` starts with. */
  function TrimOffset(s: string, ws: Whitespace): (n: nat)
    ensures n <= |s|
    ensures n < |s| ==> !IsSpace(ws, s[n])
  {
    if s != [] && IsSpace(ws, s[0]) then
      var m := TrimOffset(s[1..], ws);
      1 + m
    else 0
  }

  /** Number of whitespace characters `s` ends with. */
  function TrailingSpace(s: string, ws: Whitespace): (n: nat)
    ensures n <= |s|
    ensures n < |s| ==> !IsSpace(ws, s[|s| - n - 1])
  {
    if s != [] && IsSpace(ws, s[|s| - 1]) then
      var init := s[..|s| - 1];
      var m := TrailingSpace(init, ws);
      assert m < |init| ==> s[|s| - 1 - m - 1] == init[|init| - m - 1];
      1 + m
    else 0
  }

  /** `s` with its leading white space removed. */
  function TrimStart(s: string, ws: Whitespace): (r: string)
    ensures r != [] ==> !IsSpace(ws, r[0])
  {
    s[TrimOffset(s, ws)..]
  }

  /** `s` with its trailing white space removed. */
  function TrimEnd(s: string, ws: Whitespace): (r: string)
    ensures r != [] ==> !IsSpace(ws, r[|r| - 1])
  {
    s[..|s| - TrailingSpace(s, ws)]
  }

  /**
   * `s` with whitespace removed from both ends; what remains neither starts
   * nor ends with whitespace.
   */
  function Trim(s: string, ws: Whitespace): (r: string)
    ensures |r| <= |s|
    ensures r != [] ==> !IsSpace(ws, r[0]) && !IsSpace(ws, r[|r| - 1])
  {
    var t := TrimStart(s, ws);
    var r := TrimEnd(t, ws);
    assert r != [] ==> r[0] == t[0];
    r
  }

  /**
   * The trimmed string is the stretch of `s` that starts at the first and
   * ends at the last non-whitespace character, and everything cut off on
   * either side is whitespace.
   */
  lemma {:induction false} TrimIsStretch(s: string, ws: Whitespace)
    ensures TrimOffset(s, ws) + |Trim(s, ws)| <= |s|
    ensures forall m :: 0 <= m < |Trim(s, ws)| ==> Trim(s, ws)[m] == s[TrimOffset(s, ws) + m]
    ensures forall k :: 0 <= k < TrimOffset(s, ws) ==> IsSpace(ws, s[k])
    ensures forall k :: TrimOffset(s, ws) + |Trim(s, ws)| <= k < |s| ==> IsSpace(ws, s[k])
  {
    TrimIsSlice(s, ws);
    LeadingAreSpace(s, ws);
    TrimTailIsSpace(s, ws);
  }

  /** The trimmed text is the slice of `s` that starts after the leading whitespace. */
  lemma {:induction false} TrimIsSlice(s: string, ws: Whitespace)
    ensures TrimOffset(s, ws) + |Trim(s, ws)| <= |s|
    ensures Trim(s, ws) == s[TrimOffset(s, ws)..TrimOffset(s, ws) + |Trim(s, ws)|]
  {
    var i := TrimOffset(s, ws);
    var t := s[i..];
    assert TrimStart(s, ws) == t;
    var r := Trim(s, ws);
    assert r == t[..|t| - TrailingSpace(t, ws)];
  }

  /** Everything after the trimmed stretch is whitespace. */
  lemma {:induction false} TrimTailIsSpace(s: string, ws: Whitespace)
    ensures forall k :: TrimOffset(s, ws) + |Trim(s, ws)| <= k < |s| ==> IsSpace(ws, s[k])
  {
    var i := TrimOffset(s, ws);
    var t := TrimStart(s, ws);
    assert t == s[i..];
    assert |Trim(s, ws)| == |t| - TrailingSpace(t, ws);
    SuffixTrailingAreSpace(s, i, ws);
  }

  /** The whitespace `TrimEnd` cuts off a suffix of `s` is whitespace of `s`. */
  lemma {:induction false} SuffixTrailingAreSpace(s: string, i: nat, ws: Whitespace)
    requires i <= |s|
    ensures forall k :: i + (|s[i..]| - TrailingSpace(s[i..], ws)) <= k < |s| ==> IsSpace(ws, s[k])
  {
    var t := s[i..];
    TrailingAreSpace(t, ws);
    forall k | i + (|t| - TrailingSpace(t, ws)) <= k < |s| ensures IsSpace(ws, s[k]) {
      assert s[k] == t[k - i];
    }
  }

  /** Everything `TrimStart` cuts off is whitespace. */
  lemma {:induction false} LeadingAreSpace(s: string, ws: Whitespace)
    ensures forall k :: 0 <= k < TrimOffset(s, ws) ==> IsSpace(ws, s[k])
    decreases |s|
  {
    if s != [] && IsSpace(ws, s[0]) {
      LeadingAreSpace(s[1..], ws);
      assert forall k :: 1 <= k < TrimOffset(s, ws) ==> s[k] == s[1..][k - 1];
    }
  }

  /** Everything `TrimEnd` cuts off is whitespace. */
  lemma {:induction false} TrailingAreSpace(s: string, ws: Whitespace)
    ensures forall k :: |s| - TrailingSpace(s, ws) <= k < |s| ==> IsSpace(ws, s[k])
    decreases |s|
  {
    if s != [] && IsSpace(ws, s[|s| - 1]) {
      var init := s[..|s| - 1];
      TrailingAreSpace(init, ws);
      assert forall k :: |s| - TrailingSpace(s, ws) <= k < |s| - 1 ==> s[k] == init[k];
    }
  }

  /** Trimming a string that neither starts nor ends with whitespace changes nothing. */
  lemma TrimOfTrimmed(s: string, ws: Whitespace)
    requires s != [] ==> !IsSpace(ws, s[0]) && !IsSpace(ws, s[|s| - 1])
    ensures Trim(s, ws) == s
  {
  }

  /** JavaScript white space and line terminators: what `trim()` removes and `\s` matches. */
  predicate IsJsWhitespace(c: char) {
    var n := c as int;
    (0x09 <= n <= 0x0D) || n == 0x20 || n == 0xA0 || n == 0x1680
    || (0x2000 <= n <= 0x200A) || n == 0x2028 || n == 0x2029
    || n == 0x202F || n == 0x205F || n == 0x3000 || n == 0xFEFF
  }

  /** Python `str.isspace` characters: what `str.strip()` removes. */
  predicate IsPyWhitespace(c: char) {
    var n := c as int;
    (0x09 <= n <= 0x0D) || (0x1C <= n <= 0x20) || n == 0x85 || n == 0xA0 || n == 0x1680
    || (0x2000 <= n <= 0x200A) || n == 0x2028 || n == 0x2029
    || n == 0x202F || n == 0x205F || n == 0x3000
  }

  /** Decimal digits of a natural number, most significant first. */
  function NatToString(n: nat): (r: string)
    ensures |r| >= 1
    ensures forall k :: 0 <= k < |r| ==> '0' <= r[k] <= '9'
    ensures |r| > 1 ==> r[0] != '0'
  {
    if n < 10 then [DigitChar(n)] else NatToString(n / 10) + [DigitChar(n % 10)]
  }

  function DigitChar(d: nat): (c: char)
    requires d < 10
    ensures '0' <= c <= '9'
    ensures c as int - '0' as int == d
  {
    ('0' as int + d) as char
  }

  /** The value of a string of decimal digits. */
  function DecimalValue(s: string): nat
    requires forall k :: 0 <= k < |s| ==> '0' <= s[k] <= '9'
  {
    if s == [] then 0 else DecimalValue(s[..|s| - 1]) * 10 + (s[|s| - 1] as int - '0' as int)
  }

  /** Python's `str(n)` / an f-string `{n}` for an integer. */
  function IntToString(n: int): string {
    if n < 0 then "-" + NatToString(-n) else NatToString(n)
  }

  /** Reading the decimal digits back gives the number. */
  lemma {:induction false} NatToStringRoundTrip(n: nat)
    ensures DecimalValue(NatToString(n)) == n
  {
    if n >= 10 {
      NatToStringRoundTrip(n / 10);
      var s := NatToString(n);
      assert s == NatToString(n / 10) + [DigitChar(n % 10)];
      assert s[..|s| - 1] == NatToString(n / 10);
      assert s[|s| - 1] as int - '0' as int == n % 10;
    }
  }
}
