/**
 * The text normaliser `PostClusterer.preprocess_text`: the title is written
 * twice and followed by the body, then a chain of regular-expression
 * substitutions removes bracketed and parenthesised spans, URLs and
 * punctuation, collapses whitespace, trims, and lower-cases.
 *
 * Character classes are those of Python's `re` module restricted to ASCII:
 * `\w` is a letter, a digit or `_`, and `\s` is one of the ASCII characters
 * that `str.isspace` accepts.
 */
module Normalize {
  import opened Wrappers

  // ---------------------------------------------------------------------
  // Character classes

  /** `\s`: space, tab, line feed, vertical tab, form feed, carriage return, and the separators 0x1C-0x1F. */
  predicate IsSpace(c: char) {
    c == ' ' || (9 <= c as int <= 13) || (28 <= c as int <= 31)
  }

  /** `\w`: an ASCII letter, digit or underscore. */
  predicate IsWordChar(c: char) {
    ('a' <= c <= 'z') || ('A' <= c <= 'Z') || ('0' <= c <= '9') || c == '_'
  }

  predicate IsUpper(c: char) {
    'A' <= c <= 'Z'
  }

  /** `str.lower` on one ASCII character. */
  function ToLower(c: char): (d: char)
    ensures !IsUpper(d)
    ensures IsWordChar(d) <==> IsWordChar(c)
    ensures d == ' ' <==> c == ' '
    ensures !IsUpper(c) ==> d == c
  {
    if IsUpper(c) then (c as int + 32) as char else c
  }

  // ---------------------------------------------------------------------
  // Shapes of strings

  /** Every character is a word character or whitespace. */
  ghost predicate WordsAndSpaces(s: string) {
    forall i :: 0 <= i < |s| ==> IsWordChar(s[i]) || IsSpace(s[i])
  }

  /** Every character is a word character or a plain space. */
  ghost predicate CleanChars(s: string) {
    forall i :: 0 <= i < |s| ==> IsWordChar(s[i]) || s[i] == ' '
  }

  /** The only whitespace is the plain space, and no two spaces are adjacent. */
  ghost predicate SingleSpaced(s: string) {
    && (forall i :: 0 <= i < |s| && IsSpace(s[i]) ==> s[i] == ' ')
    && (forall i, j :: 0 <= i < j < |s| && j == i + 1 ==> s[i] != ' ' || s[j] != ' ')
  }

  /**
   * The shape of every normalised text: lower-case word characters separated
   * by single spaces, with no space at either end.
   */
  ghost predicate NormalForm(s: string) {
    && (forall i :: 0 <= i < |s| ==> (IsWordChar(s[i]) && !IsUpper(s[i])) || s[i] == ' ')
    && (forall i, j :: 0 <= i < j < |s| && j == i + 1 ==> s[i] != ' ' || s[j] != ' ')
    && (s != [] ==> s[0] != ' ' && s[|s| - 1] != ' ')
  }

  /** The four characters "http" start at index i of s. */
  predicate HttpAt(s: string, i: int) {
    0 <= i && i + 4 <= |s| && s[i] == 'h' && s[i + 1] == 't' && s[i + 2] == 't' && s[i + 3] == 'p'
  }

  // ---------------------------------------------------------------------
  // `re.sub(r'\[.*?\]', '', text)` and `re.sub(r'\(.*?\)', '', text)`

  /**
   * Where the lazy `.*?` followed by `close` stops when matched against t:
   * the first `close` in t, provided no line feed comes before it (`.` does
   * not match a line feed).
   */
  function FindClose(t: string, close: char): (r: Option<nat>)
    requires close != '\n'
    ensures r.Some? ==> r.value < |t| && t[r.value] == close
    ensures r.Some? ==> forall j :: 0 <= j < r.value ==> t[j] != close && t[j] != '\n'
    ensures r.None? ==> forall j :: 0 <= j < |t| && t[j] == close ==> exists m :: 0 <= m < j && t[m] == '\n'
  {
    if t == [] then None
    else if t[0] == close then Some(0)
    else if t[0] == '\n' then None
    else match FindClose(t[1..], close)
      case Some(k) => Some(k + 1)
      case None => None
  }

  /**
   * Deletes, scanning left to right, every span that starts with `open` and
   * ends at the first following `close` on the same line.
   */
  function StripSpans(s: string, open: char, close: char): (r: string)
    requires close != '\n'
    ensures |r| <= |s|
    decreases |s|
  {
    if s == [] then []
    else if s[0] == open then
      match FindClose(s[1..], close)
      case Some(k) => StripSpans(s[k + 2..], open, close)
      case None => [s[0]] + StripSpans(s[1..], open, close)
    else [s[0]] + StripSpans(s[1..], open, close)
  }

  /** Without an opening character there is no span to delete. */
  lemma {:induction false} StripSpansKeeps(s: string, open: char, close: char)
    requires close != '\n'
    requires forall i :: 0 <= i < |s| ==> s[i] != open
    ensures StripSpans(s, open, close) == s
    decreases |s|
  {
    if s != [] {
      StripSpansKeeps(s[1..], open, close);
    }
  }

  /** The lazy `.*?` stops at the first closing character when no line feed comes before it. */
  lemma FindCloseAt(m: string, close: char, rest: string)
    requires close != '\n'
    requires forall i :: 0 <= i < |m| ==> m[i] != close && m[i] != '\n'
    ensures FindClose(m + [close] + rest, close) == Some(|m|)
  {
    var t := m + [close] + rest;
    assert t[|m|] == close;
    assert forall j :: 0 <= j < |m| ==> t[j] == m[j];
  }

  /**
   * A span from an opening character to the first following closing
   * character, with no line feed inside, is deleted together with both
   * delimiters, and no earlier character is touched.
   */
  lemma {:induction false} StripSpansSpan(a: string, m: string, b: string, open: char, close: char)
    requires close != '\n'
    requires forall i :: 0 <= i < |a| ==> a[i] != open
    requires forall i :: 0 <= i < |m| ==> m[i] != close && m[i] != '\n'
    ensures StripSpans(a + ([open] + m + [close]) + b, open, close) == a + StripSpans(b, open, close)
    decreases |a|
  {
    var span := [open] + m + [close];
    if a == [] {
      assert a + span + b == span + b;
      StripSpansAtSpan(m, b, open, close);
    } else {
      assert a + span + b == [a[0]] + (a[1..] + span + b);
      StripSpansKeepFirst(a[0], a[1..] + span + b, open, close);
      StripSpansSpan(a[1..], m, b, open, close);
      assert [a[0]] + (a[1..] + StripSpans(b, open, close)) == a + StripSpans(b, open, close);
    }
  }

  /** A span at the very front is deleted with both delimiters. */
  lemma StripSpansAtSpan(m: string, b: string, open: char, close: char)
    requires close != '\n'
    requires forall i :: 0 <= i < |m| ==> m[i] != close && m[i] != '\n'
    ensures StripSpans([open] + m + [close] + b, open, close) == StripSpans(b, open, close)
  {
    var s := [open] + m + [close] + b;
    assert s[0] == open;
    assert s[1..] == m + [close] + b;
    FindCloseAt(m, close, b);
    assert s[|m| + 2..] == b;
  }

  /**
   * An opening character with no closing one before the next line feed, or
   * before the end, starts no span: it is kept, and removal goes on after it.
   */
  lemma {:induction false} StripSpansUnclosed(a: string, b: string, open: char, close: char)
    requires close != '\n'
    requires forall i :: 0 <= i < |a| ==> a[i] != open
    requires FindClose(b, close).None?
    ensures StripSpans(a + ([open] + b), open, close) == a + ([open] + StripSpans(b, open, close))
  {
    StripSpansKeepPrefix(a, [open] + b, open, close);
    StripSpansAtUnclosed(b, open, close);
  }

  /** A prefix without opening characters is kept, whatever follows it. */
  lemma {:induction false} StripSpansKeepPrefix(a: string, t: string, open: char, close: char)
    requires close != '\n'
    requires forall i :: 0 <= i < |a| ==> a[i] != open
    ensures StripSpans(a + t, open, close) == a + StripSpans(t, open, close)
    decreases |a|
  {
    if a == [] {
      assert a + t == t;
    } else {
      assert a + t == [a[0]] + (a[1..] + t);
      StripSpansKeepFirst(a[0], a[1..] + t, open, close);
      StripSpansKeepPrefix(a[1..], t, open, close);
      assert [a[0]] + (a[1..] + StripSpans(t, open, close)) == a + StripSpans(t, open, close);
    }
  }

  /** An unclosed opening character at the very front is kept. */
  lemma StripSpansAtUnclosed(b: string, open: char, close: char)
    requires close != '\n' && FindClose(b, close).None?
    ensures StripSpans([open] + b, open, close) == [open] + StripSpans(b, open, close)
  {
    assert ([open] + b)[1..] == b;
  }

  /** A first character that opens no span is kept. */
  lemma StripSpansKeepFirst(c: char, y: string, open: char, close: char)
    requires close != '\n' && c != open
    ensures StripSpans([c] + y, open, close) == [c] + StripSpans(y, open, close)
  {
    assert ([c] + y)[1..] == y;
  }

  // ---------------------------------------------------------------------
  // `re.sub(r'http\S+', '', text)`

  /** Length of the longest prefix of t without whitespace (a greedy `\S*`). */
  function NonSpaceRun(t: string): (n: nat)
    ensures n <= |t|
    ensures forall j :: 0 <= j < n ==> !IsSpace(t[j])
    ensures n == |t| || IsSpace(t[n])
  {
    if t == [] || IsSpace(t[0]) then 0 else 1 + NonSpaceRun(t[1..])
  }

  /** `http\S+` matches at the start of s. */
  predicate StartsUrl(s: string) {
    HttpAt(s, 0) && |s| > 4 && !IsSpace(s[4])
  }

  /** Deletes every "http" together with the run of non-whitespace after it. */
  function StripUrls(s: string): (r: string)
    ensures |r| <= |s|
    decreases |s|
  {
    if s == [] then []
    else if StartsUrl(s) then StripUrls(s[4 + NonSpaceRun(s[4..])..])
    else [s[0]] + StripUrls(s[1..])
  }

  /** Without "http" there is no URL to delete. */
  lemma {:induction false} StripUrlsKeeps(s: string)
    requires forall i :: 0 <= i < |s| ==> !HttpAt(s, i)
    ensures StripUrls(s) == s
    decreases |s|
  {
    if s != [] {
      assert !HttpAt(s, 0);
      assert forall i :: 0 <= i < |s| - 1 ==> (HttpAt(s[1..], i) <==> HttpAt(s, i + 1));
      StripUrlsKeeps(s[1..]);
    }
  }

  // ---------------------------------------------------------------------
  // `re.sub(r'[^\w\s]', ' ', text)`

  function KeepOrBlank(c: char): char {
    if IsWordChar(c) || IsSpace(c) then c else ' '
  }

  /** Replaces every character that is neither a word character nor whitespace by a space. */
  function ReplacePunctuation(s: string): (r: string)
    ensures |r| == |s|
    ensures WordsAndSpaces(r)
    ensures WordsAndSpaces(s) ==> r == s
    ensures forall i :: 0 <= i < |s| && (IsWordChar(s[i]) || IsSpace(s[i])) ==> r[i] == s[i]
    ensures forall i :: 0 <= i < |s| && !IsWordChar(s[i]) && !IsSpace(s[i]) ==> r[i] == ' '
  {
    seq(|s|, i requires 0 <= i < |s| => KeepOrBlank(s[i]))
  }

  /** Replacing punctuation acts on each part of a concatenation separately. */
  lemma ReplacePunctuationConcat(a: string, b: string)
    ensures ReplacePunctuation(a + b) == ReplacePunctuation(a) + ReplacePunctuation(b)
  {
    var r, ra, rb := ReplacePunctuation(a + b), ReplacePunctuation(a), ReplacePunctuation(b);
    assert forall i :: 0 <= i < |a| ==> r[i] == ra[i];
    assert forall i :: |a| <= i < |a| + |b| ==> r[i] == rb[i - |a|];
  }

  // ---------------------------------------------------------------------
  // `re.sub(r'\s+', ' ', text).strip()`

  /** `str.lstrip()`: s without its leading whitespace. */
  function TrimLeft(s: string): (r: string)
    ensures |r| <= |s| && r == s[|s| - |r|..]
    ensures r == [] || !IsSpace(r[0])
  {
    if s != [] && IsSpace(s[0]) then
      var r := TrimLeft(s[1..]);
      assert s[1..][|s| - 1 - |r|..] == s[|s| - |r|..];
      r
    else s
  }

  /** What `str.lstrip()` removes is whitespace. */
  lemma {:induction false} TrimLeftSpaces(s: string)
    ensures forall j :: 0 <= j < |s| - |TrimLeft(s)| ==> IsSpace(s[j])
    decreases |s|
  {
    if s != [] && IsSpace(s[0]) {
      TrimLeftSpaces(s[1..]);
      assert forall j :: 1 <= j < |s| - |TrimLeft(s)| ==> s[j] == s[1..][j - 1];
    }
  }

  /** `str.rstrip()`: s without its trailing whitespace. */
  function TrimRight(s: string): (r: string)
    ensures |r| <= |s| && r == s[..|r|]
    ensures r == [] || !IsSpace(r[|r| - 1])
  {
    if s != [] && IsSpace(s[|s| - 1]) then
      var r := TrimRight(s[..|s| - 1]);
      assert s[..|s| - 1][..|r|] == s[..|r|];
      r
    else s
  }

  /** What `str.rstrip()` removes is whitespace. */
  lemma {:induction false} TrimRightSpaces(s: string)
    ensures forall j :: |TrimRight(s)| <= j < |s| ==> IsSpace(s[j])
    decreases |s|
  {
    if s != [] && IsSpace(s[|s| - 1]) {
      TrimRightSpaces(s[..|s| - 1]);
      assert forall j :: |TrimRight(s)| <= j < |s| - 1 ==> s[j] == s[..|s| - 1][j];
    }
  }

  /** Replaces every maximal run of whitespace by one space. */
  function CollapseSpaces(s: string): (r: string)
    ensures |r| <= |s|
    decreases |s|
  {
    if s == [] then []
    else if IsSpace(s[0]) then [' '] + CollapseSpaces(TrimLeft(s))
    else [s[0]] + CollapseSpaces(s[1..])
  }

  /**
   * After collapsing, the plain space is the only whitespace and never
   * repeats, the result starts with a space exactly when the input starts
   * with whitespace, and no other character is introduced.
   */
  lemma CollapseShape(s: string)
    ensures var r := CollapseSpaces(s);
      && SingleSpaced(r)
      && (r != [] ==> s != [] && (r[0] == ' ' <==> IsSpace(s[0])))
      && (WordsAndSpaces(s) ==> CleanChars(r))
  {
    CollapseSpacing(s);
    if WordsAndSpaces(s) {
      CollapseClean(s);
    }
  }

  /** The spacing half of CollapseShape. */
  lemma {:induction false} CollapseSpacing(s: string)
    ensures var r := CollapseSpaces(s);
      && SingleSpaced(r)
      && (r != [] ==> s != [] && (r[0] == ' ' <==> IsSpace(s[0])))
    decreases |s|
  {
    if s != [] {
      var t := if IsSpace(s[0]) then TrimLeft(s) else s[1..];
      CollapseSpacing(t);
    }
  }

  /** The character half of CollapseShape. */
  lemma {:induction false} CollapseClean(s: string)
    requires WordsAndSpaces(s)
    ensures CleanChars(CollapseSpaces(s))
    decreases |s|
  {
    if s != [] {
      var t := if IsSpace(s[0]) then TrimLeft(s) else s[1..];
      assert WordsAndSpaces(t);
      CollapseClean(t);
    }
  }

  /** `str.strip()`: s without whitespace at either end. */
  function Strip(s: string): (r: string)
    ensures r != [] ==> !IsSpace(r[0]) && !IsSpace(r[|r| - 1])
    ensures (s == [] || (!IsSpace(s[0]) && !IsSpace(s[|s| - 1]))) ==> r == s
  {
    TrimRight(TrimLeft(s))
  }

  /** How many whitespace characters `str.lstrip()` removes from the front of s. */
  function LeadingSpaces(s: string): nat {
    |s| - |TrimLeft(s)|
  }

  /**
   * `str.strip()` keeps a slice of its input: the one that starts where the
   * leading whitespace ends. StripSpaces proves the rest is whitespace.
   */
  lemma {:induction false} StripEnds(s: string)
    ensures var r, l := Strip(s), LeadingSpaces(s);
      l + |r| <= |s| && r == s[l..l + |r|]
  {
    var l, t, r := LeadingSpaces(s), TrimLeft(s), Strip(s);
    assert t == s[l..];
    assert r == t[..|r|];
    assert s[l..][..|r|] == s[l..l + |r|];
  }

  /**
   * Everything `str.strip()` removes is whitespace: the input is whitespace
   * before the slice StripEnds names and after it.
   */
  lemma {:induction false} StripSpaces(s: string)
    ensures var r, l := Strip(s), LeadingSpaces(s);
      && (forall j :: 0 <= j < l ==> IsSpace(s[j]))
      && (forall j :: l + |r| <= j < |s| ==> IsSpace(s[j]))
  {
    var t := TrimLeft(s);
    TrimLeftSpaces(s);
    TrimRightSpaces(t);
    SpacesOfSuffix(s, t, TrimRight(t));
  }

  /** A prefix r of the suffix t of s is the slice of s that starts where t does. */
  /** Whitespace after the prefix r of the suffix t of s is whitespace at the end of s. */
  lemma {:induction false} SpacesOfSuffix(s: string, t: string, r: string)
    requires |t| <= |s| && t == s[|s| - |t|..]
    requires |r| <= |t|
    requires forall j :: |r| <= j < |t| ==> IsSpace(t[j])
    ensures var l := |s| - |t|; forall j :: l + |r| <= j < |s| ==> IsSpace(s[j])
  {
    var l := |s| - |t|;
    assert forall j :: l <= j < |s| ==> s[j] == t[j - l];
  }

  /** `str.lower()`. */
  function Lower(s: string): (r: string)
    ensures |r| == |s|
    ensures forall i :: 0 <= i < |s| ==> r[i] == ToLower(s[i])
  {
    seq(|s|, i requires 0 <= i < |s| => ToLower(s[i]))
  }

  // ---------------------------------------------------------------------
  // The whole pipeline

  /** The substitutions of `preprocess_text` applied to an already combined text, in the source's order. */
  function Clean(text: string): (r: string)
    ensures NormalForm(r)
  {
    var noBrackets := StripSpans(text, '[', ']');
    var noParens := StripSpans(noBrackets, '(', ')');
    var noUrls := StripUrls(noParens);
    var words := ReplacePunctuation(noUrls);
    var stripped := Strip(CollapseSpaces(words));
    StrippedShape(words);
    LowerShape(stripped);
    Lower(stripped)
  }

  lemma StrippedShape(s: string)
    requires WordsAndSpaces(s)
    ensures var r := Strip(CollapseSpaces(s));
      CleanChars(r) && SingleSpaced(r) && (r != [] ==> r[0] != ' ' && r[|r| - 1] != ' ')
  {
    CollapseShape(s);
    StripShape(CollapseSpaces(s));
  }

  lemma StripShape(c: string)
    requires CleanChars(c) && SingleSpaced(c)
    ensures CleanChars(Strip(c)) && SingleSpaced(Strip(c))
  {
    var l := TrimLeft(c);
    SliceShape(c, |c| - |l|, |c|);
    SliceShape(l, 0, |TrimRight(l)|);
  }

  /** A slice of a single-spaced text of word characters is again one. */
  lemma SliceShape(c: string, a: nat, b: nat)
    requires CleanChars(c) && SingleSpaced(c) && a <= b <= |c|
    ensures CleanChars(c[a..b]) && SingleSpaced(c[a..b])
  {
    var r := c[a..b];
    forall i, j | 0 <= i < j < |r| && j == i + 1
      ensures r[i] != ' ' || r[j] != ' '
    {
      assert r[i] == c[a + i] && r[j] == c[a + j];
    }
  }

  lemma LowerShape(s: string)
    requires CleanChars(s) && SingleSpaced(s) && (s != [] ==> s[0] != ' ' && s[|s| - 1] != ' ')
    ensures NormalForm(Lower(s))
  {
  }

  /**
   * `preprocess_text(title, content)`: the title twice, then the body, all
   * normalised. The result is in normal form whatever the input.
   */
  function Preprocess(title: string, content: string): (r: string)
    ensures NormalForm(r)
  {
    Clean(title + " " + title + " " + content)
  }

  // ---------------------------------------------------------------------
  // Properties of the stages

  /** A URL match never crosses whitespace, so removing URLs acts on each whitespace-terminated prefix separately. */
  lemma {:induction false} StripUrlsSplit(a: string, b: string)
    requires a == [] || IsSpace(a[|a| - 1])
    ensures StripUrls(a + b) == StripUrls(a) + StripUrls(b)
    decreases |a|
  {
    if a == [] {
      assert a + b == b;
    } else if StartsUrl(a) {
      var n := UrlRun(a);
      StripUrlsSplit(a[4 + n..], b);
      UrlStep(a, b, n);
    } else {
      StripUrlsSplit(a[1..], b);
      PlainStep(a, b);
    }
  }

  /** The run after "http" in a whitespace-terminated text ends before its last character. */
  lemma UrlRun(a: string) returns (n: nat)
    requires StartsUrl(a) && IsSpace(a[|a| - 1])
    ensures n == NonSpaceRun(a[4..]) && 4 + n < |a|
    ensures IsSpace(a[4 + n..][|a| - 5 - n])
  {
    n := NonSpaceRun(a[4..]);
    assert IsSpace(a[4..][|a| - 5]);
  }

  /** A URL at the start of a whitespace-terminated a is the same URL at the start of a + b. */
  lemma UrlStep(a: string, b: string, n: nat)
    requires StartsUrl(a) && IsSpace(a[|a| - 1])
    requires n == NonSpaceRun(a[4..]) && 4 + n < |a|
    requires StripUrls(a[4 + n..] + b) == StripUrls(a[4 + n..]) + StripUrls(b)
    ensures StripUrls(a + b) == StripUrls(a) + StripUrls(b)
  {
    assert StartsUrl(a + b);
    DropConcat(a, b, 4);
    NonSpaceRunPrefix(a[4..], b, n);
    DropConcat(a, b, 4 + n);
  }

  /** Without a URL at its start, a + b keeps its first character and goes on with a[1..] + b. */
  lemma PlainStep(a: string, b: string)
    requires a != [] && !StartsUrl(a) && IsSpace(a[|a| - 1])
    requires StripUrls(a[1..] + b) == StripUrls(a[1..]) + StripUrls(b)
    ensures StripUrls(a + b) == StripUrls(a) + StripUrls(b)
  {
    NoUrlAcross(a, b);
    DropConcat(a, b, 1);
    var x, y, z := [a[0]], StripUrls(a[1..]), StripUrls(b);
    calc {
      StripUrls(a + b);
      { StripUrlsPlain(a + b); }
      x + StripUrls(a[1..] + b);
      x + (y + z);
      { AppendAssoc(x, y, z); }
      (x + y) + z;
      { StripUrlsPlain(a); }
      StripUrls(a) + z;
    }
  }

  lemma StripUrlsPlain(s: string)
    requires s != [] && !StartsUrl(s)
    ensures StripUrls(s) == [s[0]] + StripUrls(s[1..])
  {
  }

  lemma AppendAssoc(x: string, y: string, z: string)
    ensures x + (y + z) == (x + y) + z
  {
  }

  /** Dropping a prefix of a from a + b leaves the rest of a followed by b. */
  lemma DropConcat(a: string, b: string, k: nat)
    requires k <= |a|
    ensures (a + b)[k..] == a[k..] + b
  {
  }

  /** Extending a whitespace-terminated text cannot create a URL at its start. */
  lemma NoUrlAcross(a: string, b: string)
    requires a != [] && !StartsUrl(a) && IsSpace(a[|a| - 1])
    ensures !StartsUrl(a + b) && (a + b)[0] == a[0]
  {
    if |a| > 4 {
      assert (a + b)[..5] == a[..5];
    } else {
      assert (a + b)[|a| - 1] == a[|a| - 1];
    }
  }

  /** The greedy `\S*` run stops at the first whitespace, whatever follows it. */
  lemma {:induction false} NonSpaceRunPrefix(t: string, b: string, n: nat)
    requires n < |t| && IsSpace(t[n]) && forall j :: 0 <= j < n ==> !IsSpace(t[j])
    ensures NonSpaceRun(t + b) == n && NonSpaceRun(t) == n
    decreases n
  {
    if n > 0 {
      assert (t + b)[1..] == t[1..] + b;
      NonSpaceRunPrefix(t[1..], b, n - 1);
    }
  }

  lemma {:induction false} NonSpaceRunWhole(t: string, b: string)
    requires forall j :: 0 <= j < |t| ==> !IsSpace(t[j])
    requires b == [] || IsSpace(b[0])
    ensures NonSpaceRun(t + b) == |t|
    decreases |t|
  {
    if t == [] {
      assert t + b == b;
    } else {
      assert (t + b)[1..] == t[1..] + b;
      NonSpaceRunWhole(t[1..], b);
    }
  }

  /** A whitespace-free token starting with "http" and one more character disappears entirely. */
  lemma StripUrlsToken(u: string, b: string)
    requires StartsUrl(u) && forall j :: 0 <= j < |u| ==> !IsSpace(u[j])
    requires b == [] || IsSpace(b[0])
    ensures StripUrls(u + b) == StripUrls(b)
  {
    var ub := u + b;
    UrlTail(u, b);
    NonSpaceRunWhole(u[4..], b);
    assert ub[4..][|u| - 4..] == b;
  }

  /**
   * A prefix a at none of whose positions "http" starts is kept as it is,
   * even when no whitespace separates it from what follows.
   */
  lemma {:induction false} StripUrlsAfterPrefix(a: string, t: string)
    requires forall i :: 0 <= i < |a| ==> !HttpAt(a + t, i)
    ensures StripUrls(a + t) == a + StripUrls(t)
    decreases |a|
  {
    if a == [] {
      assert a + t == t;
    } else {
      var s := a + t;
      assert !HttpAt(s, 0);
      StripUrlsPlain(s);
      DropConcat(a, t, 1);
      assert forall i :: 0 <= i < |a| - 1 ==> (HttpAt(a[1..] + t, i) <==> HttpAt(s, i + 1));
      StripUrlsAfterPrefix(a[1..], t);
      assert [a[0]] + (a[1..] + StripUrls(t)) == a + StripUrls(t);
    }
  }

  /**
   * A URL inside a token is deleted from its "http" on: the characters before
   * it in the same token stay.
   */
  lemma {:induction false} StripUrlsInToken(a: string, u: string, b: string)
    requires forall i :: 0 <= i < |a| ==> !HttpAt(a + (u + b), i)
    requires StartsUrl(u) && forall j :: 0 <= j < |u| ==> !IsSpace(u[j])
    requires b == [] || IsSpace(b[0])
    ensures StripUrls(a + (u + b)) == a + StripUrls(b)
  {
    StripUrlsAfterPrefix(a, u + b);
    StripUrlsToken(u, b);
  }

  /** A bare "http" followed by whitespace or the end is no URL (`\S+` needs a character) and is kept. */
  lemma {:induction false} BareHttpKept(b: string)
    requires b == [] || IsSpace(b[0])
    ensures StripUrls("http" + b) == "http" + StripUrls(b)
  {
    var s := "http" + b;
    assert |s| > 4 ==> s[4] == b[0];
    StripUrlsPlain(s);
    assert s[1..] == "ttp" + b;
    assert forall i :: 0 <= i < 3 ==> ("ttp" + b)[i] != 'h';
    StripUrlsAfterPrefix("ttp", b);
    assert [s[0]] + ("ttp" + StripUrls(b)) == "http" + StripUrls(b);
  }

  /** The word before a URL written without a space is kept: "see:http://x" becomes "see:". */
  lemma StripUrlsSeeExample()
    ensures StripUrls("see:http://x") == "see:"
  {
    SeeParts();
    StripUrlsInToken("see:", "http://x", "");
  }

  lemma SeeParts()
    ensures "see:http://x" == "see:" + ("http://x" + "")
    ensures forall i :: 0 <= i < |"see:"| ==> !HttpAt("see:" + ("http://x" + ""), i)
    ensures StartsUrl("http://x") && forall j :: 0 <= j < |"http://x"| ==> !IsSpace("http://x"[j])
  {
  }

  lemma UrlTail(u: string, b: string)
    requires |u| >= 4
    ensures (u + b)[4..] == u[4..] + b && (u + b)[..4] == u[..4]
  {
  }

  /** A whitespace run never crosses a non-space character, so collapsing acts on each side of one separately. */
  lemma {:induction false} CollapseSplit(a: string, b: string)
    requires a == [] || !IsSpace(a[|a| - 1])
    ensures CollapseSpaces(a + b) == CollapseSpaces(a) + CollapseSpaces(b)
    decreases |a|
  {
    if a == [] {
      assert a + b == b;
    } else if IsSpace(a[0]) {
      var l := TrimLeft(a);
      TrimLeftSpaces(a);
      assert l != [] && l[|l| - 1] == a[|a| - 1];
      CollapseSplit(l, b);
      CollapseSpaceStep(a, b);
    } else {
      CollapseSplit(a[1..], b);
      CollapseCharStep(a, b);
    }
  }

  /** The inductive step of CollapseSplit for a text starting with whitespace. */
  lemma CollapseSpaceStep(a: string, b: string)
    requires a != [] && IsSpace(a[0]) && !IsSpace(a[|a| - 1])
    requires CollapseSpaces(TrimLeft(a) + b) == CollapseSpaces(TrimLeft(a)) + CollapseSpaces(b)
    ensures CollapseSpaces(a + b) == CollapseSpaces(a) + CollapseSpaces(b)
  {
    var x, y, z := [' '], CollapseSpaces(TrimLeft(a)), CollapseSpaces(b);
    TrimLeftPrefix(a, b);
    assert (a + b)[0] == a[0];
    assert CollapseSpaces(a + b) == x + (y + z);
    AppendAssoc(x, y, z);
  }

  /** The inductive step of CollapseSplit for a text starting with a non-space character. */
  lemma CollapseCharStep(a: string, b: string)
    requires a != [] && !IsSpace(a[0])
    requires CollapseSpaces(a[1..] + b) == CollapseSpaces(a[1..]) + CollapseSpaces(b)
    ensures CollapseSpaces(a + b) == CollapseSpaces(a) + CollapseSpaces(b)
  {
    var x, y, z := [a[0]], CollapseSpaces(a[1..]), CollapseSpaces(b);
    DropConcat(a, b, 1);
    assert (a + b)[0] == a[0];
    assert CollapseSpaces(a + b) == x + (y + z);
    AppendAssoc(x, y, z);
  }

  lemma {:induction false} TrimLeftPrefix(a: string, b: string)
    requires a != [] && !IsSpace(a[|a| - 1])
    ensures TrimLeft(a + b) == TrimLeft(a) + b
    decreases |a|
  {
    if IsSpace(a[0]) {
      assert (a + b)[1..] == a[1..] + b;
      TrimLeftPrefix(a[1..], b);
    }
  }

  /** Collapsing changes nothing in a text already single-spaced. */
  lemma {:induction false} CollapseIdentity(s: string)
    requires SingleSpaced(s)
    ensures CollapseSpaces(s) == s
    decreases |s|
  {
    if s != [] {
      if IsSpace(s[0]) {
        assert TrimLeft(s) == s[1..] by {
          if |s| > 1 { assert s[1] != ' '; }
        }
      }
      CollapseIdentity(s[1..]);
    }
  }

  /** No character of s opens a `[...]` or `(...)` span. */
  ghost predicate NoSpanOpeners(s: string) {
    forall i :: 0 <= i < |s| ==> s[i] != '[' && s[i] != '('
  }

  ghost predicate NoHttp(s: string) {
    forall i :: 0 <= i < |s| ==> !HttpAt(s, i)
  }

  /**
   * A text already in normal form and free of "http" is a fixed point of the
   * substitutions. The "http" condition cannot be dropped: see
   * CleanNotIdempotent.
   */
  lemma CleanFixesNormalForm(s: string)
    requires NormalForm(s) && NoHttp(s)
    ensures Clean(s) == s
  {
    NormalFormStages(s);
    NormalFormTail(s);
    var words := ReplacePunctuation(StripUrls(StripSpans(StripSpans(s, '[', ']'), '(', ')')));
    assert words == s;
    var stripped := Strip(CollapseSpaces(words));
    assert stripped == s;
  }

  /** Each substitution in turn leaves a normal-form text without "http" unchanged. */
  lemma NormalFormStages(s: string)
    requires NormalForm(s) && NoHttp(s)
    ensures StripSpans(s, '[', ']') == s && StripSpans(s, '(', ')') == s
    ensures StripUrls(s) == s && ReplacePunctuation(s) == s
  {
    assert NoSpanOpeners(s);
    StripSpansKeeps(s, '[', ']');
    StripSpansKeeps(s, '(', ')');
    StripUrlsKeeps(s);
    assert WordsAndSpaces(s);
  }

  /** Collapsing, trimming and lower-casing leave a normal-form text unchanged. */
  lemma NormalFormTail(s: string)
    requires NormalForm(s)
    ensures CollapseSpaces(s) == s && Strip(s) == s && Lower(s) == s
  {
    assert SingleSpaced(s);
    CollapseIdentity(s);
    assert s != [] ==> !IsSpace(s[0]) && !IsSpace(s[|s| - 1]);
    LowerKeeps(s);
  }

  /** Lower-casing keeps a text without upper-case letters. */
  lemma LowerKeeps(s: string)
    requires forall i :: 0 <= i < |s| ==> !IsUpper(s[i])
    ensures Lower(s) == s
  {
  }

  /** A word without "http" is only lower-cased. */
  lemma CleanPlainWord(s: string)
    requires s != [] && (forall i :: 0 <= i < |s| ==> IsWordChar(s[i])) && NoHttp(s)
    ensures Clean(s) == Lower(s)
  {
    StripSpansKeeps(s, '[', ']');
    StripSpansKeeps(s, '(', ')');
    StripUrlsKeeps(s);
    assert ReplacePunctuation(s) == s;
    CollapseIdentity(s);
    assert Strip(s) == s;
  }

  lemma CleanHttps()
    ensures Clean("https") == ""
  {
    var low := "https";
    StripSpansKeeps(low, '[', ']');
    StripSpansKeeps(low, '(', ')');
    assert StartsUrl(low);
    assert NonSpaceRun(low[4..]) == 1;
    assert StripUrls(low) == StripUrls([]);
    assert ReplacePunctuation([]) == [];
  }

  /**
   * URL removal is case-sensitive and runs before lower-casing, so an
   * upper-case "HTTPS" survives one pass and is removed by a second.
   */
  lemma CleanNotIdempotent()
    ensures Clean("HTTPS") == "https"
    ensures Clean(Clean("HTTPS")) == ""
  {
    CleanUpperHttps();
    CleanHttps();
  }

  lemma CleanUpperHttps()
    ensures Clean("HTTPS") == "https"
  {
    UpperHttpsPlain();
    CleanPlainWord("HTTPS");
    LowerHttps();
  }

  lemma LowerHttps()
    ensures Lower("HTTPS") == "https"
  {
    LowerIs("HTTPS", "https");
  }

  lemma UpperHttpsPlain()
    ensures (forall i :: 0 <= i < |"HTTPS"| ==> IsWordChar("HTTPS"[i])) && NoHttp("HTTPS")
  {
  }

  // The steps of PreprocessDropsTrailingUrl, one stage each.

  /** The shape of a title's words: word characters and single spaces, not starting or ending with a space, no "http". */
  ghost predicate PlainWords(w: string) {
    w != [] && CleanChars(w) && SingleSpaced(w) && w[0] != ' ' && w[|w| - 1] != ' ' && NoHttp(w)
  }

  /** A whitespace-free URL token, without span openers. */
  ghost predicate UrlToken(u: string) {
    StartsUrl(u) && NoSpanOpeners(u) && forall j :: 0 <= j < |u| ==> !IsSpace(u[j])
  }

  lemma NoHttpAroundSpaces(w: string)
    requires PlainWords(w)
    ensures NoHttp(w + " ") && NoHttp(" " + w + " ")
  {
    var ws := w + " ";
    forall i | 0 <= i < |ws| ensures !HttpAt(ws, i) {
      assert ws[|w|] == ' ';
      assert i < |w| ==> !HttpAt(w, i);
      assert forall k :: 0 <= k < |w| ==> ws[k] == w[k];
    }
    var sws := " " + w + " ";
    forall i | 0 <= i < |sws| ensures !HttpAt(sws, i) {
      assert sws[0] == ' ' && sws[|sws| - 1] == ' ';
      assert 1 <= i <= |w| ==> !HttpAt(w, i - 1);
      assert forall k :: 1 <= k <= |w| ==> sws[k] == w[k - 1];
    }
  }

  lemma UrlStage(w: string, u: string)
    requires PlainWords(w) && UrlToken(u)
    ensures StripUrls(w + " " + u + " " + w + " " + u + " ") == w + "  " + w + "  "
  {
    var ws := w + " ";
    var sws := " " + w + " ";
    calc {
      StripUrls(w + " " + u + " " + w + " " + u + " ");
      { RegroupUrls(w, u); }
      StripUrls(ws + (u + (sws + (u + " "))));
      { StripUrlsSplit(ws, u + (sws + (u + " "))); NoHttpAroundSpaces(w); StripUrlsKeeps(ws); }
      ws + StripUrls(u + (sws + (u + " ")));
      { StripUrlsToken(u, sws + (u + " ")); }
      ws + StripUrls(sws + (u + " "));
      { StripUrlsSplit(sws, u + " "); NoHttpAroundSpaces(w); StripUrlsKeeps(sws); }
      ws + sws + StripUrls(u + " ");
      { StripUrlsToken(u, " "); }
      ws + sws + StripUrls(" ");
      { assert StripUrls(" ") == " "; RegroupDoubled(w); }
      w + "  " + w + "  ";
    }
  }

  lemma RegroupDoubled(w: string)
    ensures (w + " ") + (" " + w + " ") + " " == w + "  " + w + "  "
  {
  }

  lemma RegroupUrls(w: string, u: string)
    ensures w + " " + u + " " + w + " " + u + " " == (w + " ") + (u + ((" " + w + " ") + (u + " ")))
  {
  }

  lemma CollapseStage(w: string)
    requires PlainWords(w)
    ensures CollapseSpaces(w + "  " + w + "  ") == w + " " + w + " "
  {
    CollapseIdentity(w);
    calc {
      CollapseSpaces(w + "  " + w + "  ");
      { AppendAssoc(w, "  " + w, "  "); AppendAssoc(w, "  ", w); AppendAssoc(w, "  " + w, "  "); }
      CollapseSpaces(w + ("  " + w + "  "));
      { CollapseSplit(w, "  " + w + "  "); }
      w + CollapseSpaces("  " + w + "  ");
      { CollapseAfterTwoSpaces(w); }
      w + " " + CollapseSpaces(w + "  ");
      { CollapseSplit(w, "  "); CollapseTwoSpaces(); }
      w + " " + w + " ";
    }
  }

  lemma CollapseAfterTwoSpaces(w: string)
    requires w != [] && !IsSpace(w[0])
    ensures CollapseSpaces("  " + w + "  ") == " " + CollapseSpaces(w + "  ")
  {
    var t2 := "  " + w + "  ";
    var t1 := " " + w + "  ";
    assert t2[0] == ' ' && t2[1..] == t1;
    assert t1[0] == ' ' && t1[1..] == w + "  ";
    assert (w + "  ")[0] == w[0];
    assert TrimLeft(w + "  ") == w + "  ";
    assert TrimLeft(t1) == w + "  ";
    assert TrimLeft(t2) == w + "  ";
  }

  lemma CollapseTwoSpaces()
    ensures CollapseSpaces("  ") == " "
  {
    assert "  "[1..] == " ";
    assert " "[1..] == [];
    assert TrimLeft("  ") == [];
  }

  lemma StripStage(w: string)
    requires PlainWords(w)
    ensures Strip(w + " " + w + " ") == w + " " + w
  {
    var collapsed := w + " " + w + " ";
    var doubled := w + " " + w;
    assert collapsed[0] == w[0];
    assert TrimLeft(collapsed) == collapsed;
    assert collapsed[..|collapsed| - 1] == doubled;
    assert doubled[|doubled| - 1] == w[|w| - 1];
    assert TrimRight(doubled) == doubled;
  }

  /**
   * A title made of words and single spaces, followed by one URL, is
   * normalised to its lower-cased words written twice: the URL and the
   * surplus whitespace vanish.
   */
  lemma PreprocessDropsTrailingUrl(w: string, u: string)
    requires PlainWords(w) && UrlToken(u)
    ensures Preprocess(w + " " + u, "") == Lower(w + " " + w)
  {
    var text := w + " " + u + " " + w + " " + u + " ";
    SpanStage(w, u);
    StripSpansKeeps(text, '[', ']');
    StripSpansKeeps(text, '(', ')');
    UrlStage(w, u);
    PunctuationStage(w);
    CollapseStage(w);
    StripStage(w);
  }

  lemma SpanStage(w: string, u: string)
    requires PlainWords(w) && UrlToken(u)
    ensures var title, text := w + " " + u, w + " " + u + " " + w + " " + u + " ";
      title + " " + title + " " + "" == text && NoSpanOpeners(text)
  {
    var title, text := w + " " + u, w + " " + u + " " + w + " " + u + " ";
    assert title + " " + title + " " + "" == text;
  }

  lemma PunctuationStage(w: string)
    requires PlainWords(w)
    ensures ReplacePunctuation(w + "  " + w + "  ") == w + "  " + w + "  "
  {
    assert WordsAndSpaces(w + "  " + w + "  ");
  }

  /**
   * The example of the source's own preprocessing test: the URL is removed
   * and the title's words are kept, lower-cased, twice over.
   */
  lemma PreprocessTeslaExample()
    ensures Preprocess("Tesla announces new Model Y http://example.com", "")
         == "tesla announces new model y" + " " + "tesla announces new model y"
  {
    var w := "Tesla announces new Model Y";
    var u := "http://example.com";
    assert "Tesla announces new Model Y http://example.com" == w + " " + u;
    TeslaWordsArePlain();
    TeslaUrlIsToken();
    PreprocessDropsTrailingUrl(w, u);
    TeslaLowered();
  }

  lemma TeslaWordsArePlain()
    ensures PlainWords("Tesla announces new Model Y")
  {
  }

  lemma TeslaUrlIsToken()
    ensures UrlToken("http://example.com")
  {
  }

  lemma TeslaLowered()
    ensures Lower("Tesla announces new Model Y" + " " + "Tesla announces new Model Y")
         == "tesla announces new model y" + " " + "tesla announces new model y"
  {
    var w := "Tesla announces new Model Y";
    LowerConcat(w + " ", w);
    LowerConcat(w, " ");
    LowerTesla();
    assert Lower(" ") == " ";
  }

  lemma LowerTesla()
    ensures Lower("Tesla announces new Model Y") == "tesla announces new model y"
  {
    LowerConcat("Tesla announces", " new Model Y");
    assert "Tesla announces" + " new Model Y" == "Tesla announces new Model Y";
    LowerIs("Tesla announces", "tesla announces");
    LowerIs(" new Model Y", " new model y");
    assert "tesla announces" + " new model y" == "tesla announces new model y";
  }

  /** Lower-casing s gives t when it does so character by character. */
  lemma LowerIs(s: string, t: string)
    requires |s| == |t| && forall i :: 0 <= i < |s| ==> ToLower(s[i]) == t[i]
    ensures Lower(s) == t
  {
  }

  lemma LowerConcat(a: string, b: string)
    ensures Lower(a + b) == Lower(a) + Lower(b)
  {
  }

  // ---------------------------------------------------------------------
  // Spans in a title

  /** No character of s closes a span, and none is a line feed. */
  ghost predicate SpanBody(s: string, close: char) {
    forall i :: 0 <= i < |s| ==> s[i] != close && s[i] != '\n'
  }

  /**
   * In the doubled title of a title a[m1]b(m2), both the bracketed and the
   * parenthesised span vanish from both copies, and the rest is kept.
   */
  lemma DoubledTitleSpans(a: string, m1: string, b: string, m2: string)
    requires NoSpanOpeners(a) && NoSpanOpeners(b)
    requires SpanBody(m1, ']') && SpanBody(m2, ')') && forall i :: 0 <= i < |m2| ==> m2[i] != '['
    ensures var t := a + ("[" + m1 + "]") + b + ("(" + m2 + ")");
      StripSpans(StripSpans(t + " " + t + " ", '[', ']'), '(', ')') == a + b + " " + a + b + " "
  {
    var o, q := "[" + m1 + "]", "(" + m2 + ")";
    var tail := b + q + " ";
    TailNoBracket(a, b, m2);
    RegroupTitle(a, o, b, q);
    StripSpansSpan(a, m1, (tail + a) + o + tail, '[', ']');
    StripSpansSpan(tail + a, m1, tail, '[', ']');
    StripSpansKeeps(tail, '[', ']');
    RegroupBrackets(a, b, q);
    assert forall i :: 0 <= i < |a + b| ==> (a + b)[i] != '(';
    assert forall i :: 0 <= i < |" " + a + b| ==> (" " + a + b)[i] != '(';
    StripSpansSpan(a + b, m2, (" " + a + b) + q + " ", '(', ')');
    StripSpansSpan(" " + a + b, m2, " ", '(', ')');
    assert StripSpans(" ", '(', ')') == " ";
    RegroupParens(a, b);
  }

  lemma RegroupTitle(a: string, o: string, b: string, q: string)
    ensures (a + o + b + q) + " " + (a + o + b + q) + " " == a + o + ((b + q + " " + a) + o + (b + q + " "))
  {
  }

  lemma RegroupBrackets(a: string, b: string, q: string)
    ensures a + ((b + q + " " + a) + (b + q + " ")) == (a + b) + q + ((" " + a + b) + q + " ")
  {
  }

  lemma RegroupParens(a: string, b: string)
    ensures (a + b) + ((" " + a + b) + " ") == a + b + " " + a + b + " "
  {
  }

  lemma TailNoBracket(a: string, b: string, m2: string)
    requires NoSpanOpeners(a) && NoSpanOpeners(b) && forall i :: 0 <= i < |m2| ==> m2[i] != '['
    ensures var tail := b + ("(" + m2 + ")") + " ";
      && (forall i :: 0 <= i < |tail| ==> tail[i] != '[')
      && (forall i :: 0 <= i < |tail + a| ==> (tail + a)[i] != '[')
  {
    var tail := b + ("(" + m2 + ")") + " ";
    assert forall i :: 0 <= i < |b| ==> tail[i] == b[i];
    assert forall i :: |b| + 1 <= i < |b| + 1 + |m2| ==> tail[i] == m2[i - |b| - 1];
    assert forall i :: |tail| <= i < |tail + a| ==> (tail + a)[i] == a[i - |tail|];
  }

  /**
   * The bracketed and parenthesised spans of a title a[m1]b(m2) do not
   * affect its normalised text: it is that of the title ab.
   */
  lemma PreprocessDropsSpans(a: string, m1: string, b: string, m2: string)
    requires NoSpanOpeners(a) && NoSpanOpeners(b)
    requires SpanBody(m1, ']') && SpanBody(m2, ')') && forall i :: 0 <= i < |m2| ==> m2[i] != '['
    ensures Preprocess(a + ("[" + m1 + "]") + b + ("(" + m2 + ")"), "") == Preprocess(a + b, "")
  {
    var t := a + ("[" + m1 + "]") + b + ("(" + m2 + ")");
    DoubledTitleSpans(a, m1, b, m2);
    var x := a + b + " " + a + b + " ";
    assert t + " " + t + " " + "" == t + " " + t + " ";
    assert (a + b) + " " + (a + b) + " " + "" == x;
    assert NoSpanOpeners(x);
    StripSpansKeeps(x, '[', ']');
    StripSpansKeeps(x, '(', ')');
  }
}
