/**
 * The remark plugin of the blog (blog/lib/remarkSubstitutions.ts): for one
 * Markdown text node it replaces the ASCII arrows and heart by glyphs, cuts
 * the result at `::…::` spans, and puts a `Kbd` element for every span into
 * the parent's child list in place of the text node.
 */
module RemarkSubstitutions {
  import opened Wrappers
  import opened Strings

  /** The Markdown syntax-tree nodes the plugin reads and writes. */
  datatype Node =
    | Text(value: string)
      /** an `mdxJsxTextElement`; the plugin always creates it with no attributes */
    | JsxTextElement(name: string, attributes: seq<string>, children: seq<Node>)
    | OtherNode(kind: string)

  const RIGHT_ARROW: string := "\U{2192}"
  const LEFT_ARROW: string := "\U{2190}"
  const HEART: string := "\U{2665}"

  /** The replacement table in the order `Object.entries` yields its keys. */
  const REPLACEMENTS: seq<(string, string)> := [("->", RIGHT_ARROW), ("<-", LEFT_ARROW), ("<3", HEART)]

  predicate KeysNonEmpty(table: seq<(string, string)>) {
    forall k :: 0 <= k < |table| ==> |table[k].0| > 0
  }

  /** The value after the replacements of `table`, applied first to last. */
  function Applied(s: string, table: seq<(string, string)>): string
    requires KeysNonEmpty(table)
  {
    if table == [] then s
    else
      var last := table[|table| - 1];
      Join(Split(Applied(s, table[..|table| - 1]), last.0), last.1)
  }

  /** The value of a text node once all symbol replacements have run. */
  function Substitute(s: string): string {
    Applied(s, REPLACEMENTS)
  }

  /** The replacement loop: reassigns `value` once per table entry. */
  method SubstituteSymbols(text: string) returns (value: string)
    ensures value == Substitute(text)
  {
    value := text;
    for i := 0 to |REPLACEMENTS|
      invariant value == Applied(text, REPLACEMENTS[..i])
    {
      var (key, symbol) := REPLACEMENTS[i];
      assert REPLACEMENTS[..i + 1][..i] == REPLACEMENTS[..i];
      value := Join(Split(value, key), symbol);
    }
    assert REPLACEMENTS[..|REPLACEMENTS|] == REPLACEMENTS;
  }

  /** The substitution is three replace-all passes, in table order. */
  lemma SubstituteIsThreePasses(s: string)
    ensures Substitute(s) == Replace(Replace(Replace(s, "->", RIGHT_ARROW), "<-", LEFT_ARROW), "<3", HEART)
  {
    var t := REPLACEMENTS;
    assert t[..2][..1] == t[..1];
    assert t[..3][..2] == t[..2];
    assert t[..1][..0] == [];
    JoinSplitIsReplace(s, "->", RIGHT_ARROW);
    var a := Replace(s, "->", RIGHT_ARROW);
    assert Applied(s, t[..1]) == a;
    JoinSplitIsReplace(a, "<-", LEFT_ARROW);
    var b := Replace(a, "<-", LEFT_ARROW);
    assert Applied(s, t[..2]) == b;
    JoinSplitIsReplace(b, "<3", HEART);
    assert t[..3] == t;
  }

  /** The first character of a replacement result. */
  lemma ReplaceHead(s: string, key: string, g: string)
    requires |key| > 0 && |g| == 1 && s != []
    ensures Replace(s, key, g) != []
    ensures Replace(s, key, g)[0] == (if |s| >= |key| && s[..|key|] == key then g[0] else s[0])
  {
  }

  /** A pattern absent from `s` is absent from every suffix of `s`. */
  lemma AbsentFromSuffix(p: string, s: string, d: nat)
    requires d <= |s| && !Occurs(p, s)
    ensures !Occurs(p, s[d..])
  {
    forall i: nat | OccursAt(p, s[d..], i) ensures false {
      assert s[d + i..d + i + |p|] == s[d..][i..i + |p|];
      assert OccursAt(p, s, d + i);
    }
  }

  /** Putting `c` in front of a string without the two-character `p` creates `p` only at the front. */
  lemma PrependKeepsAbsent(c: char, rest: string, p: string)
    requires |p| == 2 && !Occurs(p, rest)
    requires !(rest != [] && c == p[0] && rest[0] == p[1])
    ensures !Occurs(p, [c] + rest)
  {
    var r := [c] + rest;
    forall i: nat | OccursAt(p, r, i) ensures false {
      if i > 0 {
        assert r[i..i + 2] == rest[i - 1..i + 1];
        assert OccursAt(p, rest, i - 1);
      }
    }
  }

  /** Replacing a two-character key by a glyph that is neither of its characters leaves no key. */
  lemma {:induction false} ReplaceRemovesKey(s: string, key: string, g: string)
    requires |key| == 2 && |g| == 1 && g[0] != key[0] && g[0] != key[1]
    ensures !Occurs(key, Replace(s, key, g))
    decreases |s|
  {
    var r := Replace(s, key, g);
    if |s| < 2 {
      assert r == s;
      assert !OccursAt(key, s, 0);
    } else if s[..2] == key {
      var rest := Replace(s[2..], key, g);
      ReplaceRemovesKey(s[2..], key, g);
      assert r == [g[0]] + rest;
      PrependKeepsAbsent(g[0], rest, key);
    } else {
      var rest := Replace(s[1..], key, g);
      ReplaceRemovesKey(s[1..], key, g);
      assert r == [s[0]] + rest;
      ReplaceHead(s[1..], key, g);
      PrependKeepsAbsent(s[0], rest, key);
    }
  }

  /** Replacing any key by a glyph that is neither character of `other` creates no `other`. */
  lemma {:induction false} ReplaceKeepsAbsent(s: string, key: string, g: string, other: string)
    requires |key| > 0 && |g| == 1 && |other| == 2 && g[0] != other[0] && g[0] != other[1]
    requires !Occurs(other, s)
    ensures !Occurs(other, Replace(s, key, g))
    decreases |s|
  {
    var r := Replace(s, key, g);
    if |s| < |key| {
      assert r == s;
    } else if s[..|key|] == key {
      var rest := Replace(s[|key|..], key, g);
      AbsentFromSuffix(other, s, |key|);
      ReplaceKeepsAbsent(s[|key|..], key, g, other);
      assert r == [g[0]] + rest;
      PrependKeepsAbsent(g[0], rest, other);
    } else {
      var rest := Replace(s[1..], key, g);
      AbsentFromSuffix(other, s, 1);
      ReplaceKeepsAbsent(s[1..], key, g, other);
      assert r == [s[0]] + rest;
      if |s| >= 2 {
        ReplaceHead(s[1..], key, g);
        assert !OccursAt(other, s, 0);
      }
      PrependKeepsAbsent(s[0], rest, other);
    }
  }

  /** After substitution the value contains none of `->`, `<-` and `<3`. */
  lemma SubstituteLeavesNoKeys(s: string)
    ensures !Occurs("->", Substitute(s))
    ensures !Occurs("<-", Substitute(s))
    ensures !Occurs("<3", Substitute(s))
  {
    SubstituteIsThreePasses(s);
    var a := Replace(s, "->", RIGHT_ARROW);
    var b := Replace(a, "<-", LEFT_ARROW);
    ReplaceRemovesKey(s, "->", RIGHT_ARROW);
    ReplaceKeepsAbsent(a, "<-", LEFT_ARROW, "->");
    ReplaceKeepsAbsent(b, "<3", HEART, "->");
    ReplaceRemovesKey(a, "<-", LEFT_ARROW);
    ReplaceKeepsAbsent(b, "<3", HEART, "<-");
    ReplaceRemovesKey(b, "<3", HEART);
  }

  // ---- the `::…::` split ----

  /** The characters JavaScript's `.` does not match (no `s` flag). */
  predicate IsLineTerminator(c: char) {
    c == '\n' || c == '\r' || c == '\U{2028}' || c == '\U{2029}'
  }

  /**
   * What the anchored pattern `^::(.*?)::$` accepts: `::x::` where `x`
   * contains no line terminator.
   */
  predicate IsSpan(p: string) {
    |p| >= 4 && p[0] == ':' && p[1] == ':' && p[|p| - 2] == ':' && p[|p| - 1] == ':'
    && forall k :: 2 <= k < |p| - 2 ==> !IsLineTerminator(p[k])
  }

  /** A span as the lazy `::.*?::` finds it: the first `::` after the opening one closes it. */
  predicate IsShortestSpan(p: string) {
    IsSpan(p) && forall k :: 2 <= k < |p| - 2 ==> !(p[k] == ':' && p[k + 1] == ':')
  }

  /** Where the closing `::` of a span opened at the start of `s` ends, searching from `j`. */
  function CloseFrom(s: string, j: nat): (r: Option<nat>)
    requires 2 <= j <= |s|
    ensures r.Some? ==> j + 2 <= r.value <= |s|
    decreases |s| - j
  {
    if j + 2 > |s| then None
    else if s[j] == ':' && s[j + 1] == ':' then Some(j + 2)
    else if IsLineTerminator(s[j]) then None
    else CloseFrom(s, j + 1)
  }

  /** The length of the `::…::` match the regular expression finds at the very start of `s`, if any. */
  function SpanAt(s: string): (r: Option<nat>)
    ensures r.Some? ==> 4 <= r.value <= |s|
  {
    if |s| >= 4 && s[0] == ':' && s[1] == ':' then CloseFrom(s, 2) else None
  }

  /** JavaScript's `value.split(/(::.*?::)/g)`: text pieces with the captured spans between them. */
  function SplitSpans(s: string): (parts: seq<string>)
    ensures |parts| % 2 == 1
    decreases |s|
  {
    if s == [] then [""]
    else match SpanAt(s)
      case Some(n) => [""] + [s[..n]] + SplitSpans(s[n..])
      case None =>
        var r := SplitSpans(s[1..]);
        [[s[0]] + r[0]] + r[1..]
  }

  /** The parts, written one after the other, are the value again. */
  lemma {:induction false} SplitSpansConcat(s: string)
    ensures Concat(SplitSpans(s)) == s
    decreases |s|
  {
    if s != [] {
      match SpanAt(s)
      case Some(n) =>
        SplitSpansConcat(s[n..]);
        SpanPartsConcat(s, n);
      case None =>
        SplitSpansConcat(s[1..]);
        TextPartsConcat(s);
    }
  }

  lemma SpanPartsConcat(s: string, n: nat)
    requires s != [] && SpanAt(s) == Some(n)
    requires Concat(SplitSpans(s[n..])) == s[n..]
    ensures Concat(SplitSpans(s)) == s
  {
    var r := SplitSpans(s[n..]);
    assert SplitSpans(s) == [""] + [s[..n]] + r;
    ConcatAppend([""] + [s[..n]], r);
    assert Concat([""] + [s[..n]]) == s[..n];
    assert s == s[..n] + s[n..];
  }

  lemma TextPartsConcat(s: string)
    requires s != [] && SpanAt(s).None?
    requires Concat(SplitSpans(s[1..])) == s[1..]
    ensures Concat(SplitSpans(s)) == s
  {
    var r := SplitSpans(s[1..]);
    assert SplitSpans(s) == [[s[0]] + r[0]] + r[1..];
    ConcatGrowsHead(s[0], r);
    assert s == [s[0]] + s[1..];
  }

  /** The first part is a prefix of the value. */
  lemma {:induction false} SplitSpansFirstIsPrefix(s: string)
    ensures SplitSpans(s)[0] <= s
    decreases |s|
  {
    if s != [] && SpanAt(s).None? {
      var r := SplitSpans(s[1..]);
      assert r[0] <= s[1..] by { SplitSpansFirstIsPrefix(s[1..]); }
      assert SplitSpans(s)[0] == [s[0]] + r[0];
    }
  }

  lemma {:induction false} CloseFromIsShortest(s: string, j: nat)
    requires 2 <= j <= |s| && CloseFrom(s, j).Some?
    ensures var n := CloseFrom(s, j).value;
      s[n - 2] == ':' && s[n - 1] == ':'
      && (forall k :: j <= k < n - 2 ==> !IsLineTerminator(s[k]))
      && (forall k :: j <= k < n - 2 ==> !(s[k] == ':' && s[k + 1] == ':'))
    decreases |s| - j
  {
    if !(s[j] == ':' && s[j + 1] == ':') {
      CloseFromIsShortest(s, j + 1);
    }
  }

  /** A match at the start of `t` is a match at the start of every extension of `t`. */
  lemma {:induction false} CloseFromPrefix(t: string, u: string, j: nat)
    requires 2 <= j <= |t| && t <= u && CloseFrom(t, j).Some?
    ensures CloseFrom(u, j) == CloseFrom(t, j)
    decreases |t| - j
  {
    assert t == u[..|t|];
    if !(t[j] == ':' && t[j + 1] == ':') {
      CloseFromPrefix(t, u, j + 1);
    }
  }

  lemma {:induction false} CloseFromFinds(p: string, j: nat)
    requires IsSpan(p) && 2 <= j <= |p| - 2
    ensures CloseFrom(p, j).Some?
    decreases |p| - j
  {
    if j + 2 < |p| && !(p[j] == ':' && p[j + 1] == ':') {
      CloseFromFinds(p, j + 1);
    }
  }

  /** The anchored pattern accepts `p` only when the split would find a span at the start of `p`. */
  lemma SpanIsFound(p: string)
    requires IsSpan(p)
    ensures SpanAt(p).Some?
  {
    CloseFromFinds(p, 2);
  }

  /** Every odd part is a shortest span; no even part is accepted by the anchored pattern. */
  lemma {:induction false} SplitSpansAlternate(s: string)
    ensures forall k :: 0 <= k < |SplitSpans(s)| ==>
      (k % 2 == 1 ==> IsShortestSpan(SplitSpans(s)[k])) && (k % 2 == 0 ==> !IsSpan(SplitSpans(s)[k]))
    decreases |s|
  {
    var parts := SplitSpans(s);
    if s == [] {
    } else {
      match SpanAt(s)
      case Some(n) =>
        SplitSpansAlternate(s[n..]);
        CloseFromIsShortest(s, 2);
        var r := SplitSpans(s[n..]);
        assert parts == [""] + [s[..n]] + r;
        forall k | 0 <= k < |parts|
          ensures (k % 2 == 1 ==> IsShortestSpan(parts[k])) && (k % 2 == 0 ==> !IsSpan(parts[k]))
        {
          if k >= 2 { assert parts[k] == r[k - 2]; }
        }
      case None =>
        SplitSpansAlternate(s[1..]);
        var r := SplitSpans(s[1..]);
        var p := [s[0]] + r[0];
        assert parts == [p] + r[1..];
        SplitSpansFirstIsPrefix(s);
        if IsSpan(p) {
          SpanIsFound(p);
          CloseFromPrefix(p, s, 2);
          assert false;
        }
        forall k | 0 <= k < |parts|
          ensures (k % 2 == 1 ==> IsShortestSpan(parts[k])) && (k % 2 == 0 ==> !IsSpan(parts[k]))
        {
          if k >= 1 { assert parts[k] == r[k]; }
        }
    }
  }

  /** A `::…::` match starts at position `q` of `s`. */
  predicate SpanStartsAt(s: string, q: nat)
    requires q <= |s|
  {
    SpanAt(s[q..]).Some?
  }

  predicate HasSpan(s: string) {
    exists q: nat | q < |s| :: SpanStartsAt(s, q)
  }

  /** No even part holds a `::…::` match anywhere inside it: the split leaves no span unsplit. */
  lemma {:induction false} EvenPartsHoldNoSpan(s: string)
    ensures forall k :: 0 <= k < |SplitSpans(s)| && k % 2 == 0 ==> !HasSpan(SplitSpans(s)[k])
    decreases |s|
  {
    var parts := SplitSpans(s);
    if s != [] {
      match SpanAt(s)
      case Some(n) =>
        EvenPartsHoldNoSpan(s[n..]);
        var r := SplitSpans(s[n..]);
        assert parts == [""] + [s[..n]] + r;
        forall k | 0 <= k < |parts| && k % 2 == 0 ensures !HasSpan(parts[k]) {
          if k >= 2 { assert parts[k] == r[k - 2]; }
        }
      case None =>
        EvenPartsHoldNoSpan(s[1..]);
        var r := SplitSpans(s[1..]);
        assert parts == [[s[0]] + r[0]] + r[1..];
        HeadPartHoldsNoSpan(s);
        forall k | 0 <= k < |parts| && k % 2 == 0 ensures !HasSpan(parts[k]) {
          if k >= 1 { assert parts[k] == r[k]; }
        }
    }
  }

  /** With no match at the front, growing the first part by one character creates no match in it. */
  lemma HeadPartHoldsNoSpan(s: string)
    requires s != [] && SpanAt(s).None?
    requires !HasSpan(SplitSpans(s[1..])[0])
    ensures !HasSpan(SplitSpans(s)[0])
  {
    var r := SplitSpans(s[1..]);
    var p := [s[0]] + r[0];
    assert SplitSpans(s)[0] == p;
    forall q: nat | q < |p| ensures !SpanStartsAt(p, q) {
      if q == 0 {
        assert p[0..] == p;
        if SpanAt(p).Some? {
          SplitSpansFirstIsPrefix(s);
          CloseFromPrefix(p, s, 2);
          assert false;
        }
      } else {
        assert p[q..] == r[0][q - 1..];
        assert !SpanStartsAt(r[0], q - 1);
      }
    }
  }

  /** The split yields a single part, the whole value, exactly when no span occurs anywhere. */
  lemma {:induction false} SinglePartIffNoSpan(s: string)
    ensures |SplitSpans(s)| == 1 <==> !HasSpan(s)
    ensures |SplitSpans(s)| == 1 ==> SplitSpans(s) == [s]
    decreases |s|
  {
    if s != [] {
      assert s[0..] == s;
      match SpanAt(s)
      case Some(n) =>
        assert SpanStartsAt(s, 0);
      case None =>
        SinglePartIffNoSpan(s[1..]);
        forall q: nat | 1 <= q < |s| ensures s[q..] == s[1..][q - 1..] { }
        if HasSpan(s[1..]) {
          var q: nat :| q < |s[1..]| && SpanStartsAt(s[1..], q);
          assert SpanStartsAt(s, q + 1);
        }
        if HasSpan(s) {
          var q: nat :| q < |s| && SpanStartsAt(s, q);
          assert q > 0;
          assert SpanStartsAt(s[1..], q - 1);
        }
        if |SplitSpans(s)| == 1 {
          SplitSpansConcat(s);
          assert Concat(SplitSpans(s)) == SplitSpans(s)[0];
        }
    }
  }

  // ---- parts to nodes, and the splice ----

  /** The `Kbd` element for a span whose inner text is `caption`. */
  function KbdNode(caption: string): Node {
    JsxTextElement("Kbd", [], [Text(caption)])
  }

  /** One part as a node: a `Kbd` element for a span, a text node for anything else. */
  function PartNode(part: string): Node {
    if IsSpan(part) then KbdNode(Trim(part[2..|part| - 2], JsWhitespace)) else Text(part)
  }

  function PartNodes(parts: seq<string>): (nodes: seq<Node>)
    ensures |nodes| == |parts|
    ensures forall k :: 0 <= k < |parts| ==> nodes[k] == PartNode(parts[k])
  {
    seq(|parts|, k requires 0 <= k < |parts| => PartNode(parts[k]))
  }

  /**
   * The nodes built from a substituted value: span parts (odd positions)
   * become `Kbd` elements with the trimmed inner text as their only child,
   * every other part, empty ones included, a text node of that part.
   */
  lemma PartNodesAlternate(s: string)
    ensures var parts := SplitSpans(s);
      forall k :: 0 <= k < |parts| ==>
        (k % 2 == 1 ==> IsSpan(parts[k])
                        && PartNodes(parts)[k] == KbdNode(Trim(parts[k][2..|parts[k]| - 2], JsWhitespace)))
        && (k % 2 == 0 ==> PartNodes(parts)[k] == Text(parts[k]))
  {
    SplitSpansAlternate(s);
  }

  /** `s` with the element at `index` replaced by the elements `xs`, as `splice(index, 1, ...xs)` does. */
  function Splice<T>(s: seq<T>, index: nat, xs: seq<T>): (r: seq<T>)
    requires index < |s|
    ensures |r| == |s| - 1 + |xs|
    ensures r[..index] == s[..index]
    ensures r[index..index + |xs|] == xs
    ensures r[index + |xs|..] == s[index + 1..]
  {
    s[..index] + xs + s[index + 1..]
  }

  /** The parent's children after the plugin has visited the text node at `index`. */
  function TransformedChildren(children: seq<Node>, index: nat): seq<Node>
    requires index < |children| && children[index].Text?
  {
    var value := Substitute(children[index].value);
    var parts := SplitSpans(value);
    if |parts| == 1 then children[index := Text(value)] else Splice(children, index, PartNodes(parts))
  }

  /**
   * Without a span only the node's value changes; with one, the node is
   * replaced by the part nodes in order, the siblings before and after keep
   * their order and the child count grows by the number of parts less one.
   */
  lemma TransformedChildrenShape(children: seq<Node>, index: nat)
    requires index < |children| && children[index].Text?
    ensures var value := Substitute(children[index].value);
      var r := TransformedChildren(children, index);
      var parts := SplitSpans(value);
      && (!HasSpan(value) ==> r == children[index := Text(value)])
      && (HasSpan(value) ==>
            |r| == |children| + |parts| - 1 && |parts| >= 3
            && r[..index] == children[..index]
            && r[index..index + |parts|] == PartNodes(parts)
            && r[index + |parts|..] == children[index + 1..])
  {
    var value := Substitute(children[index].value);
    SinglePartIffNoSpan(value);
    var parts := SplitSpans(value);
    if HasSpan(value) {
      assert |parts| != 1;
      assert TransformedChildren(children, index) == Splice(children, index, PartNodes(parts));
    }
  }

  /** A node with children: the `parent` the visitor is handed together with the text node's index. */
  class Parent {
    var children: seq<Node>

    constructor (children: seq<Node>)
      ensures this.children == children
    {
      this.children := children;
    }

    /** The visitor body for the text node at `index`. */
    method VisitText(index: nat)
      requires index < |children| && children[index].Text?
      modifies this
      ensures children == TransformedChildren(old(children), index)
    {
      var node := children[index];
      var value := SubstituteSymbols(node.value);
      var parts := SplitSpans(value);
      if |parts| == 1 {
        children := children[index := Text(value)];
        return;
      }
      var nodes := PartNodes(parts);
      children := Splice(children, index, nodes);
    }
  }
}
