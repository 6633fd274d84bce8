/**
 * Python's `str.split()` with no argument and `' '.join`, and what they say
 * about the whitespace normalisation of `preprocess_text`: replacing every
 * whitespace run by one space and stripping the ends is joining the words
 * of the text with single spaces.
 */
module WordSplit {
  import opened Normalize

  /** A word of `split()`: non-empty and free of whitespace. */
  ghost predicate IsWord(w: string) {
    w != [] && forall j :: 0 <= j < |w| ==> !IsSpace(w[j])
  }

  /** `s.split()`: the maximal runs of non-whitespace, in order. */
  function Words(s: string): (r: seq<string>)
    ensures forall k :: 0 <= k < |r| ==> IsWord(r[k])
    decreases |s|
  {
    if s == [] then []
    else if IsSpace(s[0]) then Words(s[1..])
    else
      var n := NonSpaceRun(s);
      [s[..n]] + Words(s[n..])
  }

  /** `' '.join(ws)`. */
  function JoinWords(ws: seq<string>): string {
    if ws == [] then []
    else if |ws| == 1 then ws[0]
    else ws[0] + " " + JoinWords(ws[1..])
  }

  // ---------------------------------------------------------------------
  // `split()`

  /** A text has no words exactly when it is all whitespace. */
  lemma {:induction false} WordsEmpty(s: string)
    ensures Words(s) == [] <==> forall i :: 0 <= i < |s| ==> IsSpace(s[i])
    decreases |s|
  {
    if s != [] && IsSpace(s[0]) {
      WordsEmpty(s[1..]);
      assert forall i :: 1 <= i < |s| ==> s[i] == s[1..][i - 1];
    }
  }

  /** A word followed by nothing or by whitespace is split off whole. */
  lemma WordsCons(w: string, rest: string)
    requires IsWord(w) && (rest == [] || IsSpace(rest[0]))
    ensures Words(w + rest) == [w] + Words(rest)
  {
    NonSpaceRunWhole(w, rest);
    var s := w + rest;
    assert s[0] == w[0];
    assert s[..|w|] == w;
    assert s[|w|..] == rest;
  }

  /** Leading whitespace contributes no word. */
  lemma {:induction false} WordsTrimLeft(s: string)
    ensures Words(TrimLeft(s)) == Words(s)
    decreases |s|
  {
    if s != [] && IsSpace(s[0]) {
      WordsTrimLeft(s[1..]);
    }
  }

  /**
   * A word never spans a whitespace character, so splitting a + b gives the
   * words of a followed by those of b when whitespace separates the two.
   */
  lemma {:induction false} WordsSplit(a: string, b: string)
    requires a == [] || b == [] || IsSpace(a[|a| - 1]) || IsSpace(b[0])
    ensures Words(a + b) == Words(a) + Words(b)
    decreases |a|
  {
    if a == [] {
      assert a + b == b;
    } else if IsSpace(a[0]) {
      assert a[1..] == [] || a[1..][|a[1..]| - 1] == a[|a| - 1];
      WordsSplit(a[1..], b);
      WordsSpaceStep(a, b);
    } else {
      var n := NonSpaceRun(a);
      if n == |a| {
        assert a[..n] == a && a[n..] == [];
        WordsCons(a, b);
      } else {
        WordsSplitStep(a, b, n);
        WordsSplit(a[n..], b);
        WordsWordStep(a, b, n);
      }
    }
  }

  /** The step of WordsSplit for a text starting with whitespace. */
  lemma WordsSpaceStep(a: string, b: string)
    requires a != [] && IsSpace(a[0])
    requires Words(a[1..] + b) == Words(a[1..]) + Words(b)
    ensures Words(a + b) == Words(a) + Words(b)
  {
    assert (a + b)[0] == a[0];
    assert (a + b)[1..] == a[1..] + b;
  }

  /** The step of WordsSplit for a text whose first word, of length n, is followed by whitespace. */
  lemma WordsWordStep(a: string, b: string, n: nat)
    requires a != [] && !IsSpace(a[0]) && n == NonSpaceRun(a) && n < |a|
    requires Words(a + b) == [a[..n]] + Words(a[n..] + b)
    requires Words(a[n..] + b) == Words(a[n..]) + Words(b)
    ensures Words(a + b) == Words(a) + Words(b)
  {
    var x, y, z := [a[..n]], Words(a[n..]), Words(b);
    assert Words(a) == x + y;
    assert x + (y + z) == (x + y) + z;
  }

  /** The first word of a + b is that of a when a has whitespace after its first word. */
  lemma WordsSplitStep(a: string, b: string, n: nat)
    requires a != [] && !IsSpace(a[0]) && n == NonSpaceRun(a) && n < |a|
    ensures Words(a + b) == [a[..n]] + Words(a[n..] + b)
    ensures a[n..] != [] && IsSpace(a[n..][0]) && a[n..][|a[n..]| - 1] == a[|a| - 1]
  {
    NonSpaceRunPrefix(a, b, n);
    assert (a + b)[0] == a[0];
    assert (a + b)[..n] == a[..n];
    assert (a + b)[n..] == a[n..] + b;
  }

  /** A whitespace-free, non-empty text is one word. */
  lemma WordsOfWord(w: string)
    requires IsWord(w)
    ensures Words(w) == [w]
  {
    WordsCons(w, []);
    assert w + [] == w;
  }

  // ---------------------------------------------------------------------
  // `' '.join`

  /** Joining two non-empty lists puts one space between their joins. */
  lemma {:induction false} JoinConcat(u: seq<string>, v: seq<string>)
    requires u != [] && v != []
    ensures JoinWords(u + v) == JoinWords(u) + " " + JoinWords(v)
    decreases |u|
  {
    if |u| == 1 {
      assert (u + v)[1..] == v;
    } else {
      assert (u + v)[1..] == u[1..] + v;
      JoinConcat(u[1..], v);
    }
  }

  /**
   * Joined words are empty only for no words, and otherwise neither start
   * nor end with whitespace.
   */
  lemma {:induction false} JoinEnds(ws: seq<string>)
    requires forall k :: 0 <= k < |ws| ==> IsWord(ws[k])
    ensures var j := JoinWords(ws);
      (j == [] <==> ws == []) && (j != [] ==> !IsSpace(j[0]) && !IsSpace(j[|j| - 1]))
    decreases |ws|
  {
    if |ws| > 1 {
      JoinEnds(ws[1..]);
    }
  }

  // ---------------------------------------------------------------------
  // `re.sub(r'\s+', ' ', text).strip()` is `' '.join(text.split())`

  /** One space when s ends with whitespace, nothing otherwise. */
  function TrailingSpace(s: string): string {
    if s != [] && IsSpace(s[|s| - 1]) then " " else ""
  }

  /**
   * Collapsing a text that does not start with whitespace gives its words
   * joined by single spaces, followed by one space when the text ends with
   * whitespace.
   */
  lemma {:induction false} CollapseWords(s: string)
    requires s == [] || !IsSpace(s[0])
    ensures CollapseSpaces(s) == JoinWords(Words(s)) + TrailingSpace(s)
    decreases |s|
  {
    if s != [] {
      var n := NonSpaceRun(s);
      var w, rest := s[..n], s[n..];
      FirstWord(s, n, w, rest);
      if rest == [] {
        assert s == w;
        assert JoinWords(Words(s)) == w;
      } else {
        var t := TrimLeft(rest);
        CollapseLeadingSpace(rest);
        CollapseWords(t);
        JoinWordsStep(s, w, rest, t);
      }
    }
  }

  /** s is its first word w followed by the rest, which starts with whitespace. */
  lemma FirstWord(s: string, n: nat, w: string, rest: string)
    requires s != [] && !IsSpace(s[0]) && n == NonSpaceRun(s) && w == s[..n] && rest == s[n..]
    ensures s == w + rest && IsWord(w) && Words(s) == [w] + Words(rest)
    ensures CollapseSpaces(s) == w + CollapseSpaces(rest)
    ensures rest != [] ==> IsSpace(rest[0])
  {
    assert s == w + rest;
    assert IsWord(w);
    CollapseIdentity(w);
    CollapseSplit(w, rest);
  }

  lemma CollapseLeadingSpace(s: string)
    requires s != [] && IsSpace(s[0])
    ensures CollapseSpaces(s) == " " + CollapseSpaces(TrimLeft(s))
  {
  }

  /** The words of s = w + rest, joined, as the first word w, a space, and the joined words of the trimmed rest t. */
  lemma JoinWordsStep(s: string, w: string, rest: string, t: string)
    requires s == w + rest && IsWord(w) && rest != [] && IsSpace(rest[0]) && t == TrimLeft(rest)
    requires Words(s) == [w] + Words(rest)
    ensures JoinWords(Words(s)) + TrailingSpace(s) == w + (" " + (JoinWords(Words(t)) + TrailingSpace(t)))
  {
    WordsTrimLeft(rest);
    TrimmedRest(s, rest, t);
    JoinStep(w, Words(t), Words(s), TrailingSpace(s), TrailingSpace(t));
  }

  /** JoinWordsStep over the word lists and trailing spaces alone. */
  lemma JoinStep(w: string, ws: seq<string>, all: seq<string>, e: string, et: string)
    requires all == [w] + ws
    requires ws == [] ==> e == " " && et == ""
    requires ws != [] ==> et == e
    ensures JoinWords(all) + e == w + (" " + (JoinWords(ws) + et))
  {
    if ws == [] {
      assert all == [w];
    } else {
      JoinPrepend(w, ws, e);
    }
  }

  /** What is left of a suffix rest of s once its leading whitespace is trimmed. */
  lemma TrimmedRest(s: string, rest: string, t: string)
    requires rest != [] && IsSpace(rest[0]) && |rest| <= |s| && rest == s[|s| - |rest|..] && t == TrimLeft(rest)
    ensures t == [] ==> Words(t) == [] && TrailingSpace(s) == " " && TrailingSpace(t) == ""
    ensures t != [] ==> Words(t) != [] && TrailingSpace(t) == TrailingSpace(s)
  {
    SameLast(s, rest);
    if t == [] {
      TrimLeftSpaces(rest);
      assert IsSpace(rest[|rest| - 1]);
    } else {
      SameLast(rest, t);
      WordsNonEmpty(t);
    }
  }

  /** A non-empty suffix ends as the text does. */
  lemma SameLast(s: string, u: string)
    requires u != [] && |u| <= |s| && u == s[|s| - |u|..]
    ensures TrailingSpace(u) == TrailingSpace(s) && u[|u| - 1] == s[|s| - 1]
  {
    assert u[|u| - 1] == s[|s| - 1];
  }

  lemma WordsNonEmpty(t: string)
    requires t != [] && !IsSpace(t[0])
    ensures Words(t) != []
  {
  }

  /** A word, a space and the join of more words make the join of them all. */
  lemma JoinPrepend(w: string, ws: seq<string>, e: string)
    requires ws != []
    ensures w + (" " + (JoinWords(ws) + e)) == JoinWords([w] + ws) + e
  {
    JoinConcat([w], ws);
  }

  /** `re.sub(r'\s+', ' ', s).strip() == ' '.join(s.split())`. */
  lemma CollapseStripIsJoin(s: string)
    ensures Strip(CollapseSpaces(s)) == JoinWords(Words(s))
  {
    if s != [] && IsSpace(s[0]) {
      var t := TrimLeft(s);
      CollapseLeadingSpace(s);
      StripLeadingSpace(CollapseSpaces(t));
      WordsTrimLeft(s);
      CollapseStripPlain(t);
    } else {
      CollapseStripPlain(s);
    }
  }

  /** CollapseStripIsJoin for a text that does not start with whitespace. */
  lemma CollapseStripPlain(t: string)
    requires t == [] || !IsSpace(t[0])
    ensures Strip(CollapseSpaces(t)) == JoinWords(Words(t))
  {
    CollapseWords(t);
    JoinEnds(Words(t));
    if JoinWords(Words(t)) == [] {
      WordsEmpty(t);
    }
    StripPadded(JoinWords(Words(t)), TrailingSpace(t));
  }

  /** Stripping a join followed by at most one space gives the join. */
  lemma StripPadded(j: string, e: string)
    requires j == [] || (!IsSpace(j[0]) && !IsSpace(j[|j| - 1]))
    requires e == "" || e == " "
    requires j == [] ==> e == ""
    ensures Strip(j + e) == j
  {
    if j != [] {
      assert (j + e)[0] == j[0];
      assert TrimLeft(j + e) == j + e;
      assert TrimRight(j) == j;
      if e == " " {
        assert (j + e)[..|j|] == j;
      } else {
        assert j + e == j;
      }
    }
  }

  /** One more leading space changes nothing once stripped. */
  lemma StripLeadingSpace(x: string)
    ensures Strip(" " + x) == Strip(x)
  {
    assert (" " + x)[1..] == x;
  }

  // ---------------------------------------------------------------------
  // The normalised text as joined words

  /**
   * The normalised text is the lower-cased words, joined by single spaces,
   * of the text left once spans, URLs and punctuation are gone.
   */
  lemma CleanIsJoinedWords(x: string)
    ensures Clean(x) == Lower(JoinWords(Words(ReplacePunctuation(StripUrls(StripSpans(StripSpans(x, '[', ']'), '(', ')'))))))
  {
    CollapseStripIsJoin(ReplacePunctuation(StripUrls(StripSpans(StripSpans(x, '[', ']'), '(', ')'))));
  }

  /**
   * A title without span openers and without "http" and no body: the
   * normalised text is the lower-cased words of the title, with punctuation
   * turned into spaces, written twice and joined by single spaces.
   */
  lemma PreprocessTitleWords(t: string)
    requires NoSpanOpeners(t) && NoHttp(t + " ")
    ensures var ws := Words(ReplacePunctuation(t));
      Preprocess(t, "") == Lower(JoinWords(ws + ws))
  {
    var ts := t + " ";
    var x := ts + ts;
    assert t + " " + t + " " + "" == x;
    assert NoSpanOpeners(x) by {
      assert forall i :: 0 <= i < |t| ==> x[i] == t[i] && x[|ts| + i] == t[i];
    }
    StripSpansKeeps(x, '[', ']');
    StripSpansKeeps(x, '(', ')');
    StripUrlsSplit(ts, ts);
    StripUrlsKeeps(ts);
    var p := ReplacePunctuation(t);
    DoubledPunctuation(t);
    DoubledWords(p);
    CleanIsJoinedWords(x);
  }

  lemma DoubledPunctuation(t: string)
    ensures var p := ReplacePunctuation(t);
      ReplacePunctuation((t + " ") + (t + " ")) == p + (" " + (p + " "))
  {
    var p := ReplacePunctuation(t);
    ReplacePunctuationConcat(t + " ", t + " ");
    ReplacePunctuationConcat(t, " ");
    assert ReplacePunctuation(" ") == " ";
    assert (p + " ") + (p + " ") == p + (" " + (p + " "));
  }

  lemma DoubledWords(p: string)
    ensures Words(p + (" " + (p + " "))) == Words(p) + Words(p)
  {
    WordsSplit(p, " " + (p + " "));
    WordsSplit(" ", p + " ");
    WordsSplit(p, " ");
    assert Words(" ") == [];
    assert Words(p) + [] == Words(p);
  }

  /**
   * The first example of the source's preprocessing test: the bracketed
   * "[UPDATE]" and the parenthesised "(7.2 magnitude)" vanish, the colon
   * becomes a space, and the title's words are kept, lower-cased, twice
   * over; so the text contains "earthquake" and "japan".
   */
  lemma PreprocessBreakingExample()
    ensures Preprocess("Breaking: Major [UPDATE] earthquake hits Japan (7.2 magnitude)", "")
         == "breaking major earthquake hits japan" + " " + "breaking major earthquake hits japan"
  {
    var a, m1, b, m2 := "Breaking: Major ", "UPDATE", " earthquake hits Japan ", "7.2 magnitude";
    BreakingParts();
    PreprocessDropsSpans(a, m1, b, m2);
    var t := a + b;
    BreakingTitlePlain();
    PreprocessTitleWords(t);
    BreakingWords();
    BreakingJoined();
  }

  lemma BreakingParts()
    ensures "Breaking: Major [UPDATE] earthquake hits Japan (7.2 magnitude)"
         == "Breaking: Major " + ("[" + "UPDATE" + "]") + " earthquake hits Japan " + ("(" + "7.2 magnitude" + ")")
    ensures NoSpanOpeners("Breaking: Major ") && NoSpanOpeners(" earthquake hits Japan ")
    ensures SpanBody("UPDATE", ']') && SpanBody("7.2 magnitude", ')')
    ensures forall i :: 0 <= i < |"7.2 magnitude"| ==> "7.2 magnitude"[i] != '['
  {
    BreakingHalves();
    BreakingFirstHalf();
    BreakingSecondHalf();
    AppendRegroup("Breaking: Major ", "[" + "UPDATE" + "]", " earthquake hits Japan ", "(" + "7.2 magnitude" + ")");
  }

  lemma BreakingHalves()
    ensures "Breaking: Major [UPDATE] earthquake hits Japan (7.2 magnitude)"
         == "Breaking: Major [UPDATE]" + " earthquake hits Japan (7.2 magnitude)"
  {
  }

  lemma BreakingFirstHalf()
    ensures "Breaking: Major [UPDATE]" == "Breaking: Major " + ("[" + "UPDATE" + "]")
  {
  }

  lemma BreakingSecondHalf()
    ensures " earthquake hits Japan (7.2 magnitude)" == " earthquake hits Japan " + ("(" + "7.2 magnitude" + ")")
  {
  }

  lemma AppendRegroup(a: string, o: string, b: string, q: string)
    ensures (a + o) + (b + q) == a + o + b + q
  {
  }

  lemma BreakingTitlePlain()
    ensures NoSpanOpeners("Breaking: Major " + " earthquake hits Japan ")
    ensures NoHttp("Breaking: Major " + " earthquake hits Japan " + " ")
  {
    BreakingNoOpeners();
    BreakingNoHttp();
  }

  lemma BreakingNoOpeners()
    ensures NoSpanOpeners("Breaking: Major " + " earthquake hits Japan ")
  {
  }

  lemma BreakingNoHttp()
    ensures NoHttp("Breaking: Major " + " earthquake hits Japan " + " ")
  {
    assert "Breaking: Major " + " earthquake hits Japan " + " " == "Breaking: Major  earthquake hits Japan  ";
  }

  /** The words of the span-free title once its colon is a space. */
  lemma BreakingWords()
    ensures Words(ReplacePunctuation("Breaking: Major " + " earthquake hits Japan "))
         == ["Breaking", "Major", "earthquake", "hits", "Japan"]
  {
    ReplacePunctuationConcat("Breaking: Major ", " earthquake hits Japan ");
    BreakingPunctuation();
    BreakingWordsArePlain();
    WordsOfFive("Breaking", "Major", "earthquake", "hits", "Japan");
  }

  lemma BreakingWordsArePlain()
    ensures IsWord("Breaking") && IsWord("Major") && IsWord("earthquake") && IsWord("hits") && IsWord("Japan")
  {
  }

  /** The words of two words and three words, laid out as the punctuation-free title is. */
  lemma WordsOfFive(w1: string, w2: string, w3: string, w4: string, w5: string)
    requires IsWord(w1) && IsWord(w2) && IsWord(w3) && IsWord(w4) && IsWord(w5)
    ensures Words((w1 + "  " + w2 + " ") + (" " + w3 + " " + w4 + " " + w5 + " ")) == [w1, w2, w3, w4, w5]
  {
    var x := w1 + "  " + w2 + " ";
    WordsOfTwo(w1, w2);
    WordsOfThree(w3, w4, w5);
    assert x[|x| - 1] == ' ';
    WordsSplit(x, " " + w3 + " " + w4 + " " + w5 + " ");
    assert [w1, w2] + [w3, w4, w5] == [w1, w2, w3, w4, w5];
  }

  /** The colon becomes a space; the rest of the title has no punctuation. */
  lemma BreakingPunctuation()
    ensures ReplacePunctuation("Breaking: Major ") == "Breaking" + "  " + "Major" + " "
    ensures ReplacePunctuation(" earthquake hits Japan ") == " " + "earthquake" + " " + "hits" + " " + "Japan" + " "
  {
    BreakingColon();
    BreakingRestPlain();
  }

  lemma BreakingColon()
    ensures ReplacePunctuation("Breaking: Major ") == "Breaking" + "  " + "Major" + " "
  {
  }

  lemma BreakingRestPlain()
    ensures ReplacePunctuation(" earthquake hits Japan ") == " " + "earthquake" + " " + "hits" + " " + "Japan" + " "
  {
    assert WordsAndSpaces(" earthquake hits Japan ");
  }

  lemma WordsOfTwo(w1: string, w2: string)
    requires IsWord(w1) && IsWord(w2)
    ensures Words(w1 + "  " + w2 + " ") == [w1, w2]
  {
    assert [] + w1 + "  " == w1 + "  ";
    WordsAppendWord([], w1, "  ");
    WordsAppendWord(w1 + "  ", w2, " ");
    assert Words([]) == [];
  }

  lemma WordsOfThree(w1: string, w2: string, w3: string)
    requires IsWord(w1) && IsWord(w2) && IsWord(w3)
    ensures Words(" " + w1 + " " + w2 + " " + w3 + " ") == [w1, w2, w3]
  {
    var x1 := " " + w1 + " ";
    var x2 := x1 + w2 + " ";
    WordsEmpty(" ");
    WordsAppendWord(" ", w1, " ");
    WordsAppendWord(x1, w2, " ");
    WordsAppendWord(x2, w3, " ");
  }

  /** A word and whitespace after a text that ends with whitespace add that one word. */
  lemma WordsAppendWord(x: string, w: string, sp: string)
    requires x == [] || IsSpace(x[|x| - 1])
    requires IsWord(w) && sp != [] && forall i :: 0 <= i < |sp| ==> IsSpace(sp[i])
    ensures x + w + sp != [] && IsSpace((x + w + sp)[|x + w + sp| - 1])
    ensures Words(x + w + sp) == Words(x) + [w]
  {
    WordsSplit(x, w + sp);
    assert x + w + sp == x + (w + sp);
    WordsSplit(w, sp);
    WordsOfWord(w);
    WordsEmpty(sp);
    assert [w] + [] == [w];
  }

  lemma BreakingJoined()
    ensures var ws := ["Breaking", "Major", "earthquake", "hits", "Japan"];
      Lower(JoinWords(ws + ws)) == "breaking major earthquake hits japan" + " " + "breaking major earthquake hits japan"
  {
    var ws := ["Breaking", "Major", "earthquake", "hits", "Japan"];
    JoinLowerTwice(ws);
    LowerBreaking();
  }

  /** The lower-cased join of a list written twice is its lower-cased join, a space, and that again. */
  lemma JoinLowerTwice(ws: seq<string>)
    requires ws != []
    ensures Lower(JoinWords(ws + ws)) == Lower(JoinWords(ws)) + " " + Lower(JoinWords(ws))
  {
    JoinConcat(ws, ws);
    var j := JoinWords(ws);
    LowerConcat(j + " ", j);
    LowerConcat(j, " ");
    assert Lower(" ") == " ";
  }

  lemma LowerBreaking()
    ensures Lower(JoinWords(["Breaking", "Major", "earthquake", "hits", "Japan"])) == "breaking major earthquake hits japan"
  {
    var w1, w2, w3, w4, w5 := "Breaking", "Major", "earthquake", "hits", "Japan";
    JoinFive(w1, w2, w3, w4, w5);
    LowerFive(w1, w2, w3, w4, w5);
    LowerIs(w1, "breaking");
    LowerIs(w2, "major");
    LowerIs(w3, "earthquake");
    LowerIs(w4, "hits");
    LowerIs(w5, "japan");
    BreakingLowerLiteral();
  }

  /** Five words joined by single spaces. */
  lemma JoinFive(w1: string, w2: string, w3: string, w4: string, w5: string)
    ensures JoinWords([w1, w2, w3, w4, w5]) == w1 + " " + (w2 + " " + (w3 + " " + (w4 + " " + w5)))
  {
    JoinCons(w4, [w5]);
    JoinCons(w3, [w4, w5]);
    JoinCons(w2, [w3, w4, w5]);
    JoinCons(w1, [w2, w3, w4, w5]);
  }

  /** A word put in front of a non-empty list joins with one space. */
  lemma JoinCons(w: string, ws: seq<string>)
    requires ws != []
    ensures JoinWords([w] + ws) == w + " " + JoinWords(ws)
  {
    assert ([w] + ws)[1..] == ws;
  }

  /** Lower-casing five words joined by single spaces lower-cases each word. */
  lemma LowerFive(w1: string, w2: string, w3: string, w4: string, w5: string)
    ensures Lower(w1 + " " + (w2 + " " + (w3 + " " + (w4 + " " + w5))))
         == Lower(w1) + " " + (Lower(w2) + " " + (Lower(w3) + " " + (Lower(w4) + " " + Lower(w5))))
  {
    LowerSpaced(w4, w5);
    LowerSpaced(w3, w4 + " " + w5);
    LowerSpaced(w2, w3 + " " + (w4 + " " + w5));
    LowerSpaced(w1, w2 + " " + (w3 + " " + (w4 + " " + w5)));
  }

  lemma LowerSpaced(a: string, b: string)
    ensures Lower(a + " " + b) == Lower(a) + " " + Lower(b)
  {
    LowerConcat(a + " ", b);
    LowerConcat(a, " ");
    assert Lower(" ") == " ";
  }

  lemma BreakingLowerLiteral()
    ensures "breaking" + " " + ("major" + " " + ("earthquake" + " " + ("hits" + " " + "japan")))
         == "breaking major earthquake hits japan"
  {
    LiteralHitsJapan();
    LiteralEarthquake();
    LiteralMajor();
    LiteralBreaking();
  }

  lemma LiteralHitsJapan()
    ensures "hits" + " " + "japan" == "hits japan"
  {
  }

  lemma LiteralEarthquake()
    ensures "earthquake" + " " + "hits japan" == "earthquake hits japan"
  {
  }

  lemma LiteralMajor()
    ensures "major" + " " + "earthquake hits japan" == "major earthquake hits japan"
  {
  }

  lemma LiteralBreaking()
    ensures "breaking" + " " + "major earthquake hits japan" == "breaking major earthquake hits japan"
  {
  }
}
