/**
 * The blog's index page (blog/pages/index.tsx): turning each post file's
 * name and front matter into a post record, dropping drafts, sorting, the
 * three sections of the page, and the class string of a tag chip.
 */
module BlogIndex {
  import opened Wrappers
  import opened Strings

  // ---- front matter and post records ----

  /** A front-matter value as the YAML parser hands it over (`Absent` for a missing key). */
  datatype Value =
    | Absent
    | Null
    | Bool(b: bool)
    | Num(n: int)
    | Str(s: string)
    | List(items: seq<Value>)
    | Object

  /** JavaScript truthiness, which `||` and `!!` test. */
  predicate Truthy(v: Value) {
    match v
    case Absent => false
    case Null => false
    case Bool(b) => b
    case Num(n) => n != 0
    case Str(s) => s != ""
    case List(_) => true
    case Object => true
  }

  /** The front matter of one post; `date` is already the ISO string, or `""` when the post has none. */
  datatype FrontMatter = FrontMatter(
    title: Value, date: string, cover: Value, pinned: Value, work: Value, draft: Value, tags: Value)

  /** A file of the posts directory: its name and its parsed front matter. */
  datatype PostFile = PostFile(filename: string, data: FrontMatter)

  /** `PostMeta`: one post as the page receives it. */
  datatype Post = Post(
    slug: string, title: Value, date: string, cover: Value,
    pinned: bool, work: bool, draft: bool, tags: seq<Value>)

  predicate EndsWith(s: string, suffix: string) {
    |suffix| <= |s| && s[|s| - |suffix|..] == suffix
  }

  /** `file.replace(/\.mdx?$/, '')`: one trailing `.md` or `.mdx` removed. */
  function Slug(file: string): (slug: string)
    ensures slug <= file
    ensures slug == file <==> !EndsWith(file, ".md") && !EndsWith(file, ".mdx")
    ensures slug != file ==> file == slug + ".md" || file == slug + ".mdx"
  {
    if EndsWith(file, ".mdx") then file[..|file| - 4]
    else if EndsWith(file, ".md") then file[..|file| - 3]
    else file
  }

  /** Removing the extension gives back the name it was added to. */
  lemma SlugRemovesExtension(name: string)
    ensures Slug(name + ".md") == name
    ensures Slug(name + ".mdx") == name
  {
    var md := name + ".md";
    assert md[..|name|] == name;
    assert (name + ".mdx")[..|name|] == name;
    assert md[|md| - 1] == 'd';
  }

  // ---- tags ----

  predicate NoWhitespace(s: string) {
    forall k :: 0 <= k < |s| ==> !IsJsWhitespace(s[k])
  }

  /** The characters of `s` that are not white space, in order. */
  function NonWhitespace(s: string): (r: string)
    ensures NoWhitespace(r)
  {
    if s == [] then []
    else (if IsJsWhitespace(s[0]) then [] else [s[0]]) + NonWhitespace(s[1..])
  }

  /** JavaScript's `t.split(/\s+/)`: the pieces between maximal runs of white space. */
  function SplitOnWhitespaceRuns(t: string): (parts: seq<string>)
    ensures |parts| >= 1
    decreases |t|
  {
    if t == [] then [""]
    else if IsJsWhitespace(t[0]) then
      var u := TrimStart(t, JsWhitespace);
      assert |u| < |t|;
      [""] + SplitOnWhitespaceRuns(u)
    else
      var r := SplitOnWhitespaceRuns(t[1..]);
      [[t[0]] + r[0]] + r[1..]
  }

  /** The tag words of a string value: `data.tags.trim().split(/\s+/)`. */
  function TagWords(s: string): seq<string> {
    SplitOnWhitespaceRuns(Trim(s, JsWhitespace))
  }

  /** The tags of a post: the words of a string, an array as it is, nothing otherwise. */
  function Tags(v: Value): (tags: seq<Value>)
    ensures v.Str? ==> |tags| == |TagWords(v.s)| && forall k :: 0 <= k < |tags| ==> tags[k] == Str(TagWords(v.s)[k])
    ensures v.List? ==> tags == v.items
    ensures !v.Str? && !v.List? ==> tags == []
  {
    match v
    case Str(s) => var words := TagWords(s); seq(|words|, k requires 0 <= k < |words| => Str(words[k]))
    case List(items) => items
    case _ => []
  }

  lemma {:induction false} NonWhitespaceAppend(a: string, b: string)
    ensures NonWhitespace(a + b) == NonWhitespace(a) + NonWhitespace(b)
    decreases |a|
  {
    if a == [] {
      assert a + b == b;
    } else {
      assert (a + b)[0] == a[0];
      assert (a + b)[1..] == a[1..] + b;
      NonWhitespaceAppend(a[1..], b);
    }
  }

  lemma NonWhitespaceOfBlank(s: string)
    requires forall k :: 0 <= k < |s| ==> IsJsWhitespace(s[k])
    ensures NonWhitespace(s) == []
  {
    if s != [] { NonWhitespaceOfBlank(s[1..]); }
  }

  lemma {:induction false} NonWhitespaceOfTrimEnd(t: string)
    ensures NonWhitespace(TrimEnd(t, JsWhitespace)) == NonWhitespace(t)
    decreases |t|
  {
    if t != [] && IsJsWhitespace(t[|t| - 1]) {
      var init := t[..|t| - 1];
      assert TrimEnd(t, JsWhitespace) == TrimEnd(init, JsWhitespace);
      NonWhitespaceOfTrimEnd(init);
      assert t == init + [t[|t| - 1]];
      NonWhitespaceAppend(init, [t[|t| - 1]]);
    } else {
      assert TrimEnd(t, JsWhitespace) == t;
    }
  }

  /** Trimming removes only white space. */
  lemma NonWhitespaceOfTrim(s: string)
    ensures NonWhitespace(Trim(s, JsWhitespace)) == NonWhitespace(s)
  {
    NonWhitespaceOfTrimStart(s);
    NonWhitespaceOfTrimEnd(TrimStart(s, JsWhitespace));
  }

  lemma {:induction false} NonWhitespaceOfTrimStart(t: string)
    ensures NonWhitespace(TrimStart(t, JsWhitespace)) == NonWhitespace(t)
    decreases |t|
  {
    if t != [] && IsJsWhitespace(t[0]) {
      assert TrimStart(t, JsWhitespace) == TrimStart(t[1..], JsWhitespace);
      NonWhitespaceOfTrimStart(t[1..]);
    }
  }

  /** The pieces of a whitespace split, written together, are the input without its white space. */
  lemma {:induction false} RunsConcat(t: string)
    ensures Concat(SplitOnWhitespaceRuns(t)) == NonWhitespace(t)
    decreases |t|
  {
    var parts := SplitOnWhitespaceRuns(t);
    if t == [] {
    } else if IsJsWhitespace(t[0]) {
      var u := TrimStart(t, JsWhitespace);
      RunsConcat(u);
      NonWhitespaceOfTrimStart(t);
      assert parts[1..] == SplitOnWhitespaceRuns(u);
    } else {
      var r := SplitOnWhitespaceRuns(t[1..]);
      RunsConcat(t[1..]);
      assert parts[1..] == r[1..];
      assert Concat(r) == r[0] + Concat(r[1..]);
    }
  }

  /**
   * For a value that does not end in white space, no piece holds white space,
   * only the first piece can be empty, and it is empty only when the value
   * starts with white space.
   */
  lemma {:induction false} RunsShape(t: string)
    requires t == [] || !IsJsWhitespace(t[|t| - 1])
    ensures var parts := SplitOnWhitespaceRuns(t);
      (forall k :: 0 <= k < |parts| ==> NoWhitespace(parts[k]))
      && (forall k :: 1 <= k < |parts| ==> parts[k] != "")
      && (t != [] && !IsJsWhitespace(t[0]) ==> parts[0] != "")
    decreases |t|
  {
    var parts := SplitOnWhitespaceRuns(t);
    if t == [] {
    } else if IsJsWhitespace(t[0]) {
      var u := TrimStart(t, JsWhitespace);
      LeadingAreSpace(t, JsWhitespace);
      assert u != [] && u[|u| - 1] == t[|t| - 1];
      RunsShape(u);
      assert parts == [""] + SplitOnWhitespaceRuns(u);
      forall k | 1 <= k < |parts| ensures parts[k] != "" && NoWhitespace(parts[k]) {
        assert parts[k] == SplitOnWhitespaceRuns(u)[k - 1];
      }
    } else {
      var r := SplitOnWhitespaceRuns(t[1..]);
      RunsShape(t[1..]);
      assert parts == [[t[0]] + r[0]] + r[1..];
      forall k | 1 <= k < |parts| ensures parts[k] != "" && NoWhitespace(parts[k]) {
        assert parts[k] == r[k];
      }
    }
  }

  /**
   * A value with no white space at either end splits into `[""]` exactly
   * when it is empty, and otherwise into non-empty words.
   */
  lemma RunsOfTrimmed(t: string)
    requires t == [] || (!IsJsWhitespace(t[0]) && !IsJsWhitespace(t[|t| - 1]))
    ensures t == [] <==> SplitOnWhitespaceRuns(t) == [""]
    ensures forall k :: 0 <= k < |SplitOnWhitespaceRuns(t)| ==> NoWhitespace(SplitOnWhitespaceRuns(t)[k])
    ensures t != [] ==> forall k :: 0 <= k < |SplitOnWhitespaceRuns(t)| ==> SplitOnWhitespaceRuns(t)[k] != ""
  {
    RunsShape(t);
  }

  /**
   * A string of tags gives `[""]` when it is blank, and otherwise non-empty
   * words without white space which, written together, are the string
   * without its white space.
   */
  lemma TagWordsShape(s: string)
    ensures Trim(s, JsWhitespace) == "" <==> TagWords(s) == [""]
    ensures forall k :: 0 <= k < |TagWords(s)| ==> NoWhitespace(TagWords(s)[k])
    ensures Trim(s, JsWhitespace) != "" ==> forall k :: 0 <= k < |TagWords(s)| ==> TagWords(s)[k] != ""
    ensures Concat(TagWords(s)) == NonWhitespace(s)
  {
    var t := Trim(s, JsWhitespace);
    if t != [] {
      assert !IsSpace(JsWhitespace, t[0]) && !IsSpace(JsWhitespace, t[|t| - 1]);
    }
    RunsOfTrimmed(t);
    RunsConcat(t);
    NonWhitespaceOfTrim(s);
  }

  /** A word without white space in front of any value: the word grows the first piece. */
  lemma {:induction false} RunsOfWordThen(w: string, t: string)
    requires NoWhitespace(w)
    ensures var r := SplitOnWhitespaceRuns(t);
      SplitOnWhitespaceRuns(w + t) == [w + r[0]] + r[1..]
    decreases |w|
  {
    var r := SplitOnWhitespaceRuns(t);
    if w == [] {
      assert w + t == t && w + r[0] == r[0];
    } else {
      var wt := w + t;
      assert wt[0] == w[0] && wt[1..] == w[1..] + t;
      RunsOfWordThen(w[1..], t);
      assert [w[0]] + (w[1..] + r[0]) == w + r[0];
    }
  }

  /** One space in front of a value that does not start with white space opens an empty first piece. */
  lemma RunsAfterSpace(u: string)
    requires u == [] || !IsJsWhitespace(u[0])
    ensures SplitOnWhitespaceRuns(" " + u) == [""] + SplitOnWhitespaceRuns(u)
  {
    var t := " " + u;
    assert t[1..] == u;
    assert TrimOffset(t, JsWhitespace) == 1;
    assert TrimStart(t, JsWhitespace) == u;
  }

  /** Words without white space, joined by single spaces, split back into the same words. */
  lemma {:induction false} RunsOfJoin(words: seq<string>)
    requires |words| >= 1
    requires forall k :: 0 <= k < |words| ==> words[k] != "" && NoWhitespace(words[k])
    ensures SplitOnWhitespaceRuns(Join(words, " ")) == words
    decreases |words|
  {
    var w := words[0];
    if |words| == 1 {
      RunsOfWordThen(w, "");
      assert w + "" == w;
    } else {
      var rest := words[1..];
      var j := Join(rest, " ");
      RunsOfJoin(rest);
      JoinStartsWithFirst(rest, " ");
      assert j[0] == rest[0][0];
      RunsAfterSpace(j);
      RunsOfWordThen(w, " " + j);
      assert Join(words, " ") == w + (" " + j);
      assert w + "" == w;
      assert words == [w] + rest;
    }
  }

  /**
   * The tags of a string are exactly the words it was written from: words
   * without white space, joined by single spaces, come back unchanged.
   */
  lemma TagWordsOfJoin(words: seq<string>)
    requires |words| >= 1
    requires forall k :: 0 <= k < |words| ==> words[k] != "" && NoWhitespace(words[k])
    ensures TagWords(Join(words, " ")) == words
  {
    var j := Join(words, " ");
    JoinStartsWithFirst(words, " ");
    JoinEndsWithLast(words, " ");
    assert j[0] == words[0][0];
    TrimOfTrimmed(j, JsWhitespace);
    RunsOfJoin(words);
  }

  // ---- one post file to one post ----

  /** The `files.map(...)` step for one file. */
  function Normalize(f: PostFile): (p: Post)
    ensures p.slug == Slug(f.filename) && p.date == f.data.date
    ensures Truthy(f.data.title) ==> p.title == f.data.title
    ensures !Truthy(f.data.title) ==> p.title == Str(p.slug)
    ensures p.cover == if Truthy(f.data.cover) then f.data.cover else Null
    ensures p.pinned == Truthy(f.data.pinned) && p.work == Truthy(f.data.work) && p.draft == Truthy(f.data.draft)
    ensures p.tags == Tags(f.data.tags)
  {
    var slug := Slug(f.filename);
    Post(
      slug,
      if Truthy(f.data.title) then f.data.title else Str(slug),
      f.data.date,
      if Truthy(f.data.cover) then f.data.cover else Null,
      Truthy(f.data.pinned),
      Truthy(f.data.work),
      Truthy(f.data.draft),
      Tags(f.data.tags))
  }

  /** A title is only ever falsy when it fell back on an empty slug. */
  lemma TitleFallsBackOnSlug(f: PostFile)
    ensures Truthy(Normalize(f).title) || Normalize(f).title == Str("")
    ensures Normalize(f).title.Str? || Truthy(f.data.title)
  {
  }

  function NormalizeAll(files: seq<PostFile>): (posts: seq<Post>)
    ensures |posts| == |files|
    ensures forall k :: 0 <= k < |files| ==> posts[k] == Normalize(files[k])
  {
    seq(|files|, k requires 0 <= k < |files| => Normalize(files[k]))
  }

  // ---- filtering ----

  /** The posts of `posts` that `keep` accepts, in their order (`Array.prototype.filter`). */
  function Where(posts: seq<Post>, keep: Post -> bool): (r: seq<Post>)
    ensures |r| <= |posts|
    ensures forall p :: p in r <==> p in posts && keep(p)
    ensures multiset(r) <= multiset(posts)
    ensures forall p :: multiset(r)[p] == if keep(p) then multiset(posts)[p] else 0
  {
    if posts == [] then []
    else
      assert posts == [posts[0]] + posts[1..];
      (if keep(posts[0]) then [posts[0]] else []) + Where(posts[1..], keep)
  }

  /** Filtering a list made of two lists filters each and keeps them in that order. */
  lemma {:induction false} WhereAppend(xs: seq<Post>, ys: seq<Post>, keep: Post -> bool)
    ensures Where(xs + ys, keep) == Where(xs, keep) + Where(ys, keep)
    decreases |xs|
  {
    if xs == [] {
      assert xs + ys == ys;
    } else {
      var zs := xs + ys;
      assert zs[0] == xs[0];
      assert zs[1..] == xs[1..] + ys;
      WhereAppend(xs[1..], ys, keep);
      var head := if keep(xs[0]) then [xs[0]] else [];
      assert Where(zs, keep) == head + Where(xs[1..] + ys, keep);
      assert Where(xs, keep) == head + Where(xs[1..], keep);
      AppendAssociates(head, Where(xs[1..], keep), Where(ys, keep));
    }
  }

  /** A single post is kept iff `keep` accepts it. */
  lemma WhereSingle(p: Post, keep: Post -> bool)
    ensures Where([p], keep) == if keep(p) then [p] else []
  {
    assert [p][1..] == [];
  }

  function NonDrafts(posts: seq<Post>): seq<Post> {
    Where(posts, (p: Post) => !p.draft)
  }

  // ---- the comparator ----

  /** Plain lexicographic comparison of two strings: -1, 0 or 1. */
  function LexCompare(x: string, y: string): (c: int)
    ensures -1 <= c <= 1
  {
    if x == [] && y == [] then 0
    else if x == [] then -1
    else if y == [] then 1
    else if x[0] < y[0] then -1
    else if x[0] > y[0] then 1
    else LexCompare(x[1..], y[1..])
  }

  lemma {:induction false} LexCompareAntisymmetric(x: string, y: string)
    ensures LexCompare(x, y) == -LexCompare(y, x)
    ensures LexCompare(x, y) == 0 <==> x == y
  {
    if x != [] && y != [] && x[0] == y[0] {
      LexCompareAntisymmetric(x[1..], y[1..]);
      if x[1..] == y[1..] { assert x == [x[0]] + x[1..]; assert y == [y[0]] + y[1..]; }
    }
  }

  lemma {:induction false} LexCompareTransitive(x: string, y: string, z: string)
    requires LexCompare(x, y) <= 0 && LexCompare(y, z) <= 0
    ensures LexCompare(x, z) <= 0
  {
    if x != [] && y != [] && z != [] && x[0] == y[0] && y[0] == z[0] {
      LexCompareTransitive(x[1..], y[1..], z[1..]);
    }
  }

  /** The empty string sorts before every other string. */
  lemma EmptyIsLeast(y: string)
    ensures LexCompare("", y) <= 0
    ensures LexCompare("", y) == 0 <==> y == ""
  {
  }

  function PinRank(p: Post): int {
    if p.pinned then -1 else 0
  }

  /**
   * The comparator handed to `sort`:
   * `(b.pinned ? -1 : 0) - (a.pinned ? -1 : 0) || b.date.localeCompare(a.date)`.
   * Negative means `a` goes first.
   */
  function Compare(a: Post, b: Post): int {
    var d := PinRank(b) - PinRank(a);
    if d != 0 then d else LexCompare(b.date, a.date)
  }

  /** What the comparator looks at. */
  predicate SameKey(a: Post, b: Post) {
    a.pinned == b.pinned && a.date == b.date
  }

  /**
   * The comparator puts an unpinned post before a pinned one, and between
   * posts of equal pinned status the later date first; it returns 0 only for
   * posts with the same pinned status and date.
   */
  lemma CompareMeaning(a: Post, b: Post)
    ensures !a.pinned && b.pinned ==> Compare(a, b) < 0
    ensures a.pinned == b.pinned ==> Compare(a, b) == LexCompare(b.date, a.date)
    ensures Compare(a, b) == 0 <==> SameKey(a, b)
    ensures Compare(a, b) == -Compare(b, a)
  {
    LexCompareAntisymmetric(b.date, a.date);
  }

  lemma CompareTransitive(a: Post, b: Post, c: Post)
    requires Compare(a, b) <= 0 && Compare(b, c) <= 0
    ensures Compare(a, c) <= 0
  {
    if a.pinned == b.pinned && b.pinned == c.pinned {
      LexCompareTransitive(c.date, b.date, a.date);
    }
  }

  // ---- the sort ----

  predicate Sorted(s: seq<Post>) {
    forall i, j :: 0 <= i < j < |s| ==> Compare(s[i], s[j]) <= 0
  }

  /** The posts of `s` whose pinned status and date are those of `key`, in order. */
  function WithKey(s: seq<Post>, key: Post): seq<Post> {
    if s == [] then []
    else (if SameKey(s[0], key) then [s[0]] else []) + WithKey(s[1..], key)
  }

  /** `x` placed before the first element it does not have to follow. */
  function Insert(x: Post, ys: seq<Post>): (r: seq<Post>)
    ensures multiset(r) == multiset(ys) + multiset{x}
  {
    if ys == [] || Compare(x, ys[0]) <= 0 then [x] + ys
    else
      assert ys == [ys[0]] + ys[1..];
      [ys[0]] + Insert(x, ys[1..])
  }

  lemma InsertFrontSorted(x: Post, ys: seq<Post>)
    requires Sorted(ys) && (ys == [] || Compare(x, ys[0]) <= 0)
    ensures Sorted([x] + ys)
  {
    var r := [x] + ys;
    forall i, j | 0 <= i < j < |r| ensures Compare(r[i], r[j]) <= 0 {
      if i == 0 && j > 1 {
        CompareTransitive(x, ys[0], ys[j - 1]);
      }
    }
  }

  lemma SortedCons(h: Post, t: seq<Post>)
    requires Sorted(t) && forall y :: y in t ==> Compare(h, y) <= 0
    ensures Sorted([h] + t)
  {
    var r := [h] + t;
    forall i, j | 0 <= i < j < |r| ensures Compare(r[i], r[j]) <= 0 {
      if i == 0 { assert r[j] in t; } else { assert r[i] == t[i - 1] && r[j] == t[j - 1]; }
    }
  }

  /** Inserting into a sorted list keeps it sorted. */
  lemma {:induction false} InsertSorted(x: Post, ys: seq<Post>)
    requires Sorted(ys)
    ensures Sorted(Insert(x, ys))
  {
    if ys == [] || Compare(x, ys[0]) <= 0 {
      InsertFrontSorted(x, ys);
    } else {
      var rest := Insert(x, ys[1..]);
      InsertSorted(x, ys[1..]);
      CompareMeaning(x, ys[0]);
      forall y | y in rest ensures Compare(ys[0], y) <= 0 {
        assert y in multiset(ys[1..]) + multiset{x};
        if y != x {
          assert y in ys[1..];
          var m :| 0 <= m < |ys[1..]| && ys[1..][m] == y;
          assert ys[m + 1] == y;
        }
      }
      SortedCons(ys[0], rest);
    }
  }

  /**
   * `x` lands in front of the posts with its key: what the comparator cannot
   * tell apart from `x` keeps its order with `x` first.
   */
  lemma {:induction false} InsertWithKey(x: Post, ys: seq<Post>, key: Post)
    requires Sorted(ys)
    ensures WithKey(Insert(x, ys), key) == (if SameKey(x, key) then [x] else []) + WithKey(ys, key)
  {
    if ys == [] || Compare(x, ys[0]) <= 0 {
      assert ([x] + ys)[1..] == ys;
    } else {
      InsertWithKey(x, ys[1..], key);
      CompareMeaning(x, ys[0]);
      var r := [ys[0]] + Insert(x, ys[1..]);
      assert r[1..] == Insert(x, ys[1..]);
      assert SameKey(x, key) ==> !SameKey(ys[0], key);
    }
  }

  /**
   * `Array.prototype.sort` with the comparator: a stable sort, so the result
   * is sorted, a permutation of the input, and posts the comparator cannot
   * tell apart keep their input order.
   */
  function SortPosts(posts: seq<Post>): (r: seq<Post>)
    ensures Sorted(r)
    ensures multiset(r) == multiset(posts)
    ensures forall key :: WithKey(r, key) == WithKey(posts, key)
  {
    if posts == [] then []
    else
      var rest := SortPosts(posts[1..]);
      assert posts == [posts[0]] + posts[1..];
      InsertSorted(posts[0], rest);
      assert forall key :: WithKey(Insert(posts[0], rest), key) == WithKey(posts, key) by {
        forall key ensures WithKey(Insert(posts[0], rest), key) == WithKey(posts, key) {
          InsertWithKey(posts[0], rest, key);
        }
      }
      Insert(posts[0], rest)
  }

  /** `getStaticProps`' result: the non-draft posts, sorted. */
  function VisiblePosts(files: seq<PostFile>): seq<Post> {
    SortPosts(NonDrafts(NormalizeAll(files)))
  }

  /**
   * In a sorted list every unpinned post precedes every pinned post, and
   * between posts of equal pinned status dates do not increase, so an empty
   * date comes last.
   */
  lemma SortedOrder(s: seq<Post>)
    requires Sorted(s)
    ensures forall i, j :: 0 <= i < j < |s| && s[i].pinned ==> s[j].pinned
    ensures forall i, j :: 0 <= i < j < |s| && s[i].pinned == s[j].pinned ==> LexCompare(s[j].date, s[i].date) <= 0
    ensures forall i, j :: 0 <= i < j < |s| && s[i].pinned == s[j].pinned && s[i].date == "" ==> s[j].date == ""
  {
    forall i, j | 0 <= i < j < |s| ensures (s[i].pinned ==> s[j].pinned)
      && (s[i].pinned == s[j].pinned ==> LexCompare(s[j].date, s[i].date) <= 0)
    {
      CompareMeaning(s[j], s[i]);
    }
    forall i, j | 0 <= i < j < |s| && s[i].pinned == s[j].pinned && s[i].date == "" ensures s[j].date == "" {
      CompareMeaning(s[j], s[i]);
      EmptyIsLeast(s[j].date);
      LexCompareAntisymmetric(s[j].date, "");
    }
  }

  /**
   * The visible posts are exactly the non-draft posts, nothing added or lost,
   * and they are in the comparator's order.
   */
  lemma VisiblePostsAreNonDrafts(files: seq<PostFile>)
    ensures var posts := NormalizeAll(files);
      var visible := VisiblePosts(files);
      multiset(visible) == multiset(NonDrafts(posts))
      && (forall p :: p in visible <==> p in posts && !p.draft)
      && Sorted(visible)
  {
    var posts := NormalizeAll(files);
    var visible := VisiblePosts(files);
    assert forall p :: p in visible <==> p in multiset(visible);
    assert forall p :: p in NonDrafts(posts) <==> p in multiset(NonDrafts(posts));
  }

  // ---- the three sections ----

  function PinnedSection(posts: seq<Post>): seq<Post> {
    Where(posts, (p: Post) => p.pinned)
  }

  function ShippedSection(posts: seq<Post>): seq<Post> {
    Where(posts, (p: Post) => p.work)
  }

  function PreviousSection(posts: seq<Post>): seq<Post> {
    Where(posts, (p: Post) => !p.pinned && !p.work)
  }

  /** Filtering keeps the order: a section of a sorted list is sorted. */
  lemma {:induction false} WhereKeepsSorted(posts: seq<Post>, keep: Post -> bool)
    requires Sorted(posts)
    ensures Sorted(Where(posts, keep))
  {
    if posts != [] {
      WhereKeepsSorted(posts[1..], keep);
      var rest := Where(posts[1..], keep);
      var r := Where(posts, keep);
      if keep(posts[0]) {
        assert r == [posts[0]] + rest;
        forall i, j | 0 <= i < j < |r| ensures Compare(r[i], r[j]) <= 0 {
          if i == 0 {
            assert r[j] in posts[1..];
          }
        }
      } else {
        assert r == rest;
      }
    }
  }

  /**
   * Every post lands in at least one section: the pinned posts, the work
   * posts, and those that are neither; a pinned work post lands in two.
   * Each section keeps the order of the list it is taken from.
   */
  lemma SectionsCover(posts: seq<Post>)
    ensures forall p :: p in posts ==> p in PinnedSection(posts) || p in ShippedSection(posts) || p in PreviousSection(posts)
    ensures forall p :: p in PinnedSection(posts) <==> p in posts && p.pinned
    ensures forall p :: p in ShippedSection(posts) <==> p in posts && p.work
    ensures forall p :: p in PreviousSection(posts) <==> p in posts && !p.pinned && !p.work
    ensures forall p :: p in posts && p.pinned && p.work ==> p in PinnedSection(posts) && p in ShippedSection(posts)
    ensures Sorted(posts) ==>
      Sorted(PinnedSection(posts)) && Sorted(ShippedSection(posts)) && Sorted(PreviousSection(posts))
  {
    if Sorted(posts) {
      WhereKeepsSorted(posts, (p: Post) => p.pinned);
      WhereKeepsSorted(posts, (p: Post) => p.work);
      WhereKeepsSorted(posts, (p: Post) => !p.pinned && !p.work);
    }
  }

  /** In the pinned section, and in the previous-articles section, dates never increase. */
  lemma SectionsByDate(files: seq<PostFile>)
    ensures var pinned := PinnedSection(VisiblePosts(files));
      forall i, j :: 0 <= i < j < |pinned| ==> LexCompare(pinned[j].date, pinned[i].date) <= 0
    ensures var previous := PreviousSection(VisiblePosts(files));
      forall i, j :: 0 <= i < j < |previous| ==> LexCompare(previous[j].date, previous[i].date) <= 0
  {
    var visible := VisiblePosts(files);
    SectionsCover(visible);
    SortedOrder(visible);
    var pinned := PinnedSection(visible);
    forall i, j | 0 <= i < j < |pinned| ensures LexCompare(pinned[j].date, pinned[i].date) <= 0 {
      assert pinned[i] in pinned && pinned[j] in pinned;
      CompareMeaning(pinned[i], pinned[j]);
    }
    var previous := PreviousSection(visible);
    forall i, j | 0 <= i < j < |previous| ensures LexCompare(previous[j].date, previous[i].date) <= 0 {
      assert previous[i] in previous && previous[j] in previous;
      CompareMeaning(previous[i], previous[j]);
    }
  }

  // ---- tag chips ----

  datatype TagSize = Small | ExtraSmall

  const TAG_COLORS: map<string, string> := map[
    "web" := "bg-slate-100 text-slate-700 border border-slate-200",
    "threeJS" := "bg-violet-50 text-violet-700 border border-violet-200",
    "blender" := "bg-rose-50 text-rose-700 border border-rose-200",
    "unity" := "bg-emerald-50 text-emerald-700 border border-emerald-200",
    "ai" := "bg-amber-50 text-amber-700 border border-amber-200",
    "n8n" := "bg-orange-50 text-orange-700 border border-orange-200",
    "llm" := "bg-cyan-50 text-cyan-700 border border-cyan-200",
    "automation" := "bg-neutral-100 text-neutral-700 border border-neutral-200",
    "stable_diffusion" := "bg-lime-50 text-lime-700 border border-lime-200",
    "docker" := "bg-blue-50 text-blue-700 border border-blue-200",
    "rant" := "bg-red-50 text-red-700 border border-red-200",
    "python" := "bg-yellow-50 text-yellow-700 border border-yellow-200",
    "react" := "bg-sky-50 text-sky-700 border border-sky-200",
    "javascript" := "bg-stone-100 text-stone-700 border border-stone-200"
  ]

  const GRAY_COLORS: string := "bg-gray-50 text-gray-700 border border-gray-200"
  const SMALL_BASE: string := "px-3 py-1 text-sm font-mono rounded-md transition-all duration-200 cursor-pointer"
  const EXTRA_SMALL_BASE: string := "px-2 py-1 text-xs font-mono rounded transition-all duration-200 cursor-pointer"
  const HIGHLIGHTED: string := "scale-110 shadow-md ring-2 ring-gray-300"
  const DIMMED: string := "opacity-50 scale-95"
  const HOVERABLE: string := "hover:shadow-sm hover:scale-105"

  function BaseClasses(size: TagSize): string {
    match size
    case Small => SMALL_BASE
    case ExtraSmall => EXTRA_SMALL_BASE
  }

  /** `tagColors[tag] || gray`, reading only the tags the table itself lists. */
  function ColorClasses(tag: string): (r: string)
    ensures tag in TAG_COLORS ==> r == TAG_COLORS[tag]
    ensures tag !in TAG_COLORS ==> r == GRAY_COLORS
  {
    if tag in TAG_COLORS && TAG_COLORS[tag] != "" then TAG_COLORS[tag] else GRAY_COLORS
  }

  /**
   * The members every plain JavaScript object inherits from
   * `Object.prototype`, with the text a template literal makes of each
   * (as V8 prints built-in functions).
   */
  const INHERITED_MEMBERS: map<string, string> := map[
    "constructor" := "function Object() { [native code] }",
    "__proto__" := "[object Object]",
    "toString" := "function toString() { [native code] }",
    "toLocaleString" := "function toLocaleString() { [native code] }",
    "valueOf" := "function valueOf() { [native code] }",
    "hasOwnProperty" := "function hasOwnProperty() { [native code] }",
    "isPrototypeOf" := "function isPrototypeOf() { [native code] }",
    "propertyIsEnumerable" := "function propertyIsEnumerable() { [native code] }",
    "__defineGetter__" := "function __defineGetter__() { [native code] }",
    "__defineSetter__" := "function __defineSetter__() { [native code] }",
    "__lookupGetter__" := "function __lookupGetter__() { [native code] }",
    "__lookupSetter__" := "function __lookupSetter__() { [native code] }"
  ]

  /** `tagColors[tag] || gray` as the object lookup actually behaves: inherited members are found too. */
  function ColorClassesAsWritten(tag: string): string {
    if tag in TAG_COLORS then TAG_COLORS[tag]
    else if tag in INHERITED_MEMBERS then INHERITED_MEMBERS[tag]
    else GRAY_COLORS
  }

  /** A post tagged `constructor` gets the text of a function as its colour classes, not the gray fallback. */
  lemma ConstructorTagIsNotGray()
    ensures "constructor" !in TAG_COLORS
    ensures ColorClassesAsWritten("constructor") == "function Object() { [native code] }"
    ensures ColorClassesAsWritten("constructor") != GRAY_COLORS
    ensures ColorClasses("constructor") == GRAY_COLORS
  {
  }

  /**
   * Highlighted exactly when this tag is the hovered one, dimmed exactly
   * when another tag is hovered, the hover classes exactly when none is.
   */
  function InteractionClasses(tag: string, hovered: Option<string>): (r: string)
    ensures r == HIGHLIGHTED <==> hovered == Some(tag)
    ensures r == DIMMED <==> hovered.Some? && hovered.value != tag
    ensures r == HOVERABLE <==> hovered == None
  {
    if hovered == Some(tag) then HIGHLIGHTED
    else if hovered.Some? && hovered.value != tag then DIMMED
    else HOVERABLE
  }

  /** `getTagClassName`: size classes, colour classes and interaction classes, space-separated. */
  function TagClassName(tag: string, size: TagSize, hovered: Option<string>): string {
    BaseClasses(size) + " " + ColorClasses(tag) + " " + InteractionClasses(tag, hovered)
  }

  /** `getTagClassName` as the page computes it, over the lookup that also finds inherited members. */
  function TagClassNameAsWritten(tag: string, size: TagSize, hovered: Option<string>): string {
    BaseClasses(size) + " " + ColorClassesAsWritten(tag) + " " + InteractionClasses(tag, hovered)
  }

  /**
   * The page's class string is the intended one for every tag except the
   * names of inherited members, and for those it is not.
   */
  lemma TagClassNameAsWrittenDiffers(tag: string, size: TagSize, hovered: Option<string>)
    ensures tag !in INHERITED_MEMBERS ==> TagClassNameAsWritten(tag, size, hovered) == TagClassName(tag, size, hovered)
    ensures tag in INHERITED_MEMBERS ==> TagClassNameAsWritten(tag, size, hovered) != TagClassName(tag, size, hovered)
  {
    if tag in INHERITED_MEMBERS {
      InheritedClassNameDiffers(tag, size, hovered);
    } else {
      OtherClassNameAgrees(tag, size, hovered);
    }
  }

  lemma InheritedClassNameDiffers(tag: string, size: TagSize, hovered: Option<string>)
    requires tag in INHERITED_MEMBERS
    ensures TagClassNameAsWritten(tag, size, hovered) != TagClassName(tag, size, hovered)
  {
    InheritedIsNotGray(tag);
    if TagClassNameAsWritten(tag, size, hovered) == TagClassName(tag, size, hovered) {
      MiddleDetermined(BaseClasses(size) + " ", ColorClassesAsWritten(tag), ColorClasses(tag),
        " ", InteractionClasses(tag, hovered));
    }
  }

  lemma OtherClassNameAgrees(tag: string, size: TagSize, hovered: Option<string>)
    requires tag !in INHERITED_MEMBERS
    ensures TagClassNameAsWritten(tag, size, hovered) == TagClassName(tag, size, hovered)
  {
    assert ColorClassesAsWritten(tag) == ColorClasses(tag);
  }

  /** No inherited member name is a listed tag, and each looks up something other than gray. */
  lemma InheritedIsNotGray(tag: string)
    requires tag in INHERITED_MEMBERS
    ensures tag !in TAG_COLORS && ColorClasses(tag) == GRAY_COLORS
    ensures ColorClassesAsWritten(tag) == INHERITED_MEMBERS[tag] != GRAY_COLORS
  {
    InheritedNotListed(tag);
  }

  lemma InheritedNotListed(tag: string)
    requires tag in INHERITED_MEMBERS
    ensures tag !in TAG_COLORS
  {
    ConversionNamesNotListed();
    PropertyQueryNamesNotListed();
    AccessorNamesNotListed();
    assert tag in {"constructor", "__proto__", "toString", "toLocaleString", "valueOf", "hasOwnProperty",
      "isPrototypeOf", "propertyIsEnumerable", "__defineGetter__", "__defineSetter__", "__lookupGetter__",
      "__lookupSetter__"};
  }

  /** The inherited conversion members are not listed tags. */
  lemma ConversionNamesNotListed()
    ensures "constructor" !in TAG_COLORS
    ensures "toString" !in TAG_COLORS
    ensures "toLocaleString" !in TAG_COLORS
    ensures "valueOf" !in TAG_COLORS
  {
  }

  /** The inherited property queries are not listed tags. */
  lemma PropertyQueryNamesNotListed()
    ensures "hasOwnProperty" !in TAG_COLORS
    ensures "isPrototypeOf" !in TAG_COLORS
    ensures "propertyIsEnumerable" !in TAG_COLORS
  {
  }

  /** The inherited accessor members are not listed tags. */
  lemma AccessorNamesNotListed()
    ensures "__proto__" !in TAG_COLORS
    ensures "__defineGetter__" !in TAG_COLORS
    ensures "__defineSetter__" !in TAG_COLORS
    ensures "__lookupGetter__" !in TAG_COLORS
    ensures "__lookupSetter__" !in TAG_COLORS
  {
  }

  lemma MiddleDetermined(prefix: string, a: string, b: string, separator: string, suffix: string)
    requires prefix + a + separator + suffix == prefix + b + separator + suffix
    ensures a == b
  {
    var s := prefix + a + separator + suffix;
    assert a == s[|prefix|..|s| - |separator| - |suffix|];
    assert b == (prefix + b + separator + suffix)[|prefix|..|s| - |separator| - |suffix|];
  }

  /**
   * For a given tag and size, the class string tells whether this tag is
   * hovered, another one is, or none is.
   */
  lemma TagClassNameRevealsHover(tag: string, size: TagSize, h1: Option<string>, h2: Option<string>)
    requires TagClassName(tag, size, h1) == TagClassName(tag, size, h2)
    ensures h1 == Some(tag) <==> h2 == Some(tag)
    ensures h1 == None <==> h2 == None
  {
    var prefix := BaseClasses(size) + " " + ColorClasses(tag) + " ";
    assert InteractionClasses(tag, h1) == TagClassName(tag, size, h1)[|prefix|..];
    assert InteractionClasses(tag, h2) == TagClassName(tag, size, h2)[|prefix|..];
  }
}
