/**
 * The text normaliser that the back end applies to every request before
 * classification (nettoyer_texte_v2 in backend/app.py): lower-case the text,
 * turn every punctuation character except the apostrophe into a space, split
 * on whitespace, drop the stop words and join what is left with single spaces.
 *
 * The stop-word list is a parameter (it is external data); the character
 * classes are predicates over `char`.
 */
module Cleaning {

  // ---------------------------------------------------------------------------
  // Character classes

  /** The characters Python's str.split() separates on (those for which str.isspace() holds). */
  predicate IsSpace(c: char) {
    var n := c as int;
    (9 <= n <= 13) || (28 <= n <= 32) || n == 0x85 || n == 0xA0 || n == 0x1680
    || (0x2000 <= n <= 0x200A) || n == 0x2028 || n == 0x2029 || n == 0x202F
    || n == 0x205F || n == 0x3000
  }

  /** The capital letters whose lower-case form is modelled: ASCII, the Latin-1 capitals, Œ and Ÿ. */
  predicate IsUpper(c: char) {
    var n := c as int;
    (0x41 <= n <= 0x5A) || (0xC0 <= n <= 0xDE && n != 0xD7) || n == 0x152 || n == 0x178
  }

  /** str.lower() on one character. */
  function Lower(c: char): (d: char)
    ensures !IsUpper(d)
    ensures !IsUpper(c) ==> d == c
    ensures IsUpper(c) ==> !IsSpace(d) && (0x61 <= d as int <= 0x7A || d as int >= 0xDF)
  {
    var n := c as int;
    if (0x41 <= n <= 0x5A) || (0xC0 <= n <= 0xDE && n != 0xD7) then (n + 32) as char
    else if n == 0x152 then 0x153 as char
    else if n == 0x178 then 0xFF as char
    else c
  }

  /** str.lower() on a whole text, one character at a time. */
  function LowerStr(s: string): string {
    seq(|s|, i requires 0 <= i < |s| => Lower(s[i]))
  }

  // ---------------------------------------------------------------------------
  // Punctuation

  /** The characters numbered lo, lo + 1, ..., hi - 1, in that order. */
  function CharRange(lo: nat, hi: nat): (r: string)
    requires hi <= 0xD800
    ensures forall c :: c in r <==> lo <= c as int < hi
    decreases hi - lo
  {
    if lo >= hi then [] else [lo as char] + CharRange(lo + 1, hi)
  }

  /** Python's string.punctuation: the ASCII characters from '!' to '/', ':' to '@', '[' to '`' and '{' to '~'. */
  const Punctuation: string := CharRange(33, 48) + CharRange(58, 65) + CharRange(91, 97) + CharRange(123, 127)

  predicate IsPunctuation(c: char) {
    var n := c as int;
    (33 <= n < 48) || (58 <= n < 65) || (91 <= n < 97) || (123 <= n < 127)
  }

  /** s.replace(c, ""): s with every occurrence of c removed. */
  function DeleteChar(s: string, c: char): (r: string)
    ensures forall x :: x in r <==> x in s && x != c
  {
    if s == [] then [] else (if s[0] == c then [] else [s[0]]) + DeleteChar(s[1..], c)
  }

  /** CharRange(lo, hi) is the string whose i-th character is numbered lo + i. */
  lemma {:induction false} RangeIs(lo: nat, hi: nat, s: string)
    requires lo <= hi <= 0xD800 && |s| == hi - lo
    requires forall i :: 0 <= i < |s| ==> s[i] as int == lo + i
    ensures CharRange(lo, hi) == s
    decreases hi - lo
  {
    if lo < hi {
      RangeIs(lo + 1, hi, s[1..]);
      assert s == [s[0]] + s[1..];
    }
  }

  lemma PunctuationPieces()
    ensures CharRange(33, 48) == "!\"#$%&'()*+,-./"
    ensures CharRange(58, 65) == ":;<=>?@"
    ensures CharRange(91, 97) == "[\\]^_`"
    ensures CharRange(123, 127) == "{|}~"
  {
    RangeIs(33, 48, "!\"#$%&'()*+,-./");
    RangeIs(58, 65, ":;<=>?@");
    RangeIs(91, 97, "[\\]^_`");
    RangeIs(123, 127, "{|}~");
  }

  /** Punctuation is Python's string.punctuation literal, character for character. */
  lemma PunctuationLiteral()
    ensures Punctuation == "!\"#$%&'()*+,-./:;<=>?@[\\]^_`{|}~"
  {
    PunctuationPieces();
    PunctuationJoined();
  }

  lemma PunctuationJoined()
    ensures "!\"#$%&'()*+,-./" + ":;<=>?@" + "[\\]^_`" + "{|}~" == "!\"#$%&'()*+,-./:;<=>?@[\\]^_`{|}~"
  {}

  /** s.replace(c, "") keeps the other characters in their order. */
  lemma {:induction false} DeleteCharKeepsOrder(s: string, c: char)
    ensures IsSubsequence(DeleteChar(s, c), s)
    decreases |s|
  {
    if s != [] {
      DeleteCharKeepsOrder(s[1..], c);
      var r, rest := DeleteChar(s, c), DeleteChar(s[1..], c);
      if s[0] != c {
        assert r[0] == s[0] && r[1..] == rest;
      } else {
        assert r == rest;
      }
    }
  }

  /** s.replace(c, "") keeps every other character as often as s has it. */
  lemma {:induction false} DeleteCharKeepsCounts(s: string, c: char)
    ensures multiset(DeleteChar(s, c)) == multiset(s)[c := 0]
    decreases |s|
  {
    if s != [] {
      DeleteCharKeepsCounts(s[1..], c);
      var r, rest := DeleteChar(s, c), DeleteChar(s[1..], c);
      assert s == [s[0]] + s[1..];
      assert multiset(s) == multiset{s[0]} + multiset(s[1..]);
      if s[0] == c {
        assert r == rest;
      } else {
        assert r == [s[0]] + rest;
        assert multiset(r) == multiset{s[0]} + multiset(rest);
      }
    }
  }

  /** ponctuation_a_supprimer: string.punctuation without the apostrophe. */
  const PunctuationToRemove: string := DeleteChar(Punctuation, '\'')

  lemma PunctuationFacts()
    ensures forall c :: c in PunctuationToRemove <==> IsPunctuation(c) && c != '\''
    ensures forall c :: c in Punctuation <==> IsPunctuation(c)
  {
    var a, b, c, d := CharRange(33, 48), CharRange(58, 65), CharRange(91, 97), CharRange(123, 127);
    assert Punctuation == a + b + c + d;
    forall x ensures x in Punctuation <==> IsPunctuation(x) {
      assert x in Punctuation <==> x in a || x in b || x in c || x in d;
    }
  }

  /** s.replace(x, y) for one-character x and y. */
  function Replace(s: string, x: char, y: char): string {
    seq(|s|, i requires 0 <= i < |s| => if s[i] == x then y else s[i])
  }

  /** The text after replacing, in turn, each character of cs by a space. */
  function ReplaceEach(s: string, cs: string): string {
    if cs == [] then s else Replace(ReplaceEach(s, cs[..|cs| - 1]), cs[|cs| - 1], ' ')
  }

  /** One more round of the loop: the prefix grows by the next character. */
  lemma ReplaceEachStep(s: string, cs: string, k: nat)
    requires k < |cs|
    ensures ReplaceEach(s, cs[..k + 1]) == Replace(ReplaceEach(s, cs[..k]), cs[k], ' ')
  {
    assert cs[..k + 1][..k] == cs[..k];
  }

  lemma {:induction false} ReplaceEachAt(s: string, cs: string)
    requires ' ' !in cs
    ensures |ReplaceEach(s, cs)| == |s|
    ensures forall i :: 0 <= i < |s| ==> ReplaceEach(s, cs)[i] == if s[i] in cs then ' ' else s[i]
  {
    if cs != [] {
      var init := cs[..|cs| - 1];
      assert cs == init + [cs[|cs| - 1]];
      ReplaceEachAt(s, init);
    }
  }

  /** The text after the punctuation loop: every character to remove has become a space. */
  function Unpunctuated(s: string): string {
    seq(|s|, i requires 0 <= i < |s| => if s[i] in PunctuationToRemove then ' ' else s[i])
  }

  lemma ReplaceEachUnpunctuates(s: string)
    ensures ReplaceEach(s, PunctuationToRemove) == Unpunctuated(s)
  {
    PunctuationFacts();
    ReplaceEachAt(s, PunctuationToRemove);
  }

  /** The text that is split into words: lower-cased, then unpunctuated. */
  function Normalised(texte: string): string {
    Unpunctuated(LowerStr(texte))
  }

  // ---------------------------------------------------------------------------
  // Words

  /** What str.split() produces: a non-empty run of non-whitespace characters. */
  predicate IsWord(w: string) {
    w != [] && forall i :: 0 <= i < |w| ==> !IsSpace(w[i])
  }

  /** Length of the run of non-whitespace characters at the start of s. */
  function WordLen(s: string): (n: nat)
    ensures n <= |s|
    ensures forall i :: 0 <= i < n ==> !IsSpace(s[i])
    ensures n < |s| ==> IsSpace(s[n])
  {
    if s == [] || IsSpace(s[0]) then 0 else 1 + WordLen(s[1..])
  }

  /** str.split() with no separator: the maximal runs of non-whitespace, in order. */
  function Split(s: string): (ws: seq<string>)
    ensures forall w :: w in ws ==> IsWord(w)
    decreases |s|
  {
    if s == [] then []
    else if IsSpace(s[0]) then Split(s[1..])
    else
      var n := WordLen(s);
      [s[..n]] + Split(s[n..])
  }

  /** " ".join(ws). */
  function Join(ws: seq<string>): string {
    if ws == [] then "" else if |ws| == 1 then ws[0] else ws[0] + " " + Join(ws[1..])
  }

  /** a is obtained from b by deleting some elements. */
  predicate IsSubsequence<T(==)>(a: seq<T>, b: seq<T>)
    decreases |b|
  {
    a == [] || (b != [] && ((a[0] == b[0] && IsSubsequence(a[1..], b[1..])) || IsSubsequence(a, b[1..])))
  }

  /** [mot for mot in ws if mot not in stopWords]: these postconditions determine the result. */
  function Filter(ws: seq<string>, stopWords: set<string>): (r: seq<string>)
    ensures forall w :: w in r ==> w in ws && w !in stopWords
    ensures forall w :: w !in stopWords ==> multiset(r)[w] == multiset(ws)[w]
    ensures IsSubsequence(r, ws)
  {
    if ws == [] then []
    else
      var rest := Filter(ws[1..], stopWords);
      assert ws == [ws[0]] + ws[1..];
      if ws[0] in stopWords then rest else [ws[0]] + rest
  }

  /** The value nettoyer_texte_v2 returns. */
  function Cleaned(texte: string, stopWords: set<string>): string {
    Join(Filter(Split(Normalised(texte)), stopWords))
  }

  /** nettoyer_texte_v2, with its loop that rebinds the text once per punctuation character. */
  method NettoyerTexte(texte: string, stopWords: set<string>) returns (texteNettoye: string)
    ensures texteNettoye == Cleaned(texte, stopWords)
  {
    var t := LowerStr(texte);
    ghost var lowered := t;
    var ponctuation := PunctuationToRemove;
    for k := 0 to |ponctuation|
      invariant t == ReplaceEach(lowered, ponctuation[..k])
    {
      ReplaceEachStep(lowered, ponctuation, k);
      t := Replace(t, ponctuation[k], ' ');
    }
    assert ponctuation[..|ponctuation|] == ponctuation;
    ReplaceEachUnpunctuates(lowered);
    var mots := Split(t);
    var motsFiltres := Filter(mots, stopWords);
    texteNettoye := Join(motsFiltres);
  }

  // ---------------------------------------------------------------------------
  // Properties of the pieces

  predicate AllChars(s: string, p: char -> bool) {
    forall i :: 0 <= i < |s| ==> p(s[i])
  }

  lemma {:induction false} SplitChars(s: string, p: char -> bool)
    requires AllChars(s, p)
    ensures forall w :: w in Split(s) ==> AllChars(w, p)
    decreases |s|
  {
    if s == [] {
    } else if IsSpace(s[0]) {
      SplitChars(s[1..], p);
    } else {
      var n := WordLen(s);
      SplitChars(s[n..], p);
    }
  }

  lemma {:induction false} JoinChars(ws: seq<string>, p: char -> bool)
    requires p(' ')
    requires forall w :: w in ws ==> AllChars(w, p)
    ensures AllChars(Join(ws), p)
  {
    if |ws| == 1 {
      assert ws[0] in ws;
    } else if |ws| > 1 {
      assert ws[0] in ws;
      JoinChars(ws[1..], p);
      var j := Join(ws[1..]);
      var s := Join(ws);
      assert s == ws[0] + " " + j;
      forall i | 0 <= i < |s| ensures p(s[i]) {
        if i < |ws[0]| {
          assert s[i] == ws[0][i];
        } else if i > |ws[0]| {
          assert s[i] == j[i - |ws[0]| - 1];
        }
      }
    }
  }

  /** Joining non-empty words never yields the empty text. */
  lemma JoinNonEmpty(ws: seq<string>)
    requires forall w :: w in ws ==> IsWord(w)
    ensures Join(ws) == [] <==> ws == []
    ensures ws != [] ==> |ws[0]| > 0 && Join(ws)[0] == ws[0][0]
  {
    if |ws| > 1 {
      assert ws[0] in ws && ws[1] in ws[1..];
      JoinNonEmpty(ws[1..]);
    } else if |ws| == 1 {
      assert ws[0] in ws;
    }
  }

  /** No whitespace at either end; between two words exactly one ' ' and nothing else. */
  predicate SingleSpaced(s: string) {
    && (s != [] ==> !IsSpace(s[0]) && !IsSpace(s[|s| - 1]))
    && (forall i :: 0 <= i < |s| && IsSpace(s[i]) ==> s[i] == ' ')
    && (forall i :: 0 <= i < |s| - 1 && IsSpace(s[i]) ==> !IsSpace(s[i + 1]))
  }

  lemma {:induction false} JoinSingleSpaced(ws: seq<string>)
    requires forall w :: w in ws ==> IsWord(w)
    ensures SingleSpaced(Join(ws))
  {
    if |ws| == 1 {
      assert ws[0] in ws;
    } else if |ws| > 1 {
      var w := ws[0];
      assert w in ws;
      JoinSingleSpaced(ws[1..]);
      JoinNonEmpty(ws[1..]);
      JoinNonEmpty(ws);
      var j := Join(ws[1..]);
      var s := Join(ws);
      assert s == w + " " + j;
      forall i | 0 <= i < |s| && IsSpace(s[i]) ensures s[i] == ' ' {
        if i > |w| {
          assert s[i] == j[i - |w| - 1];
        }
      }
      forall i | 0 <= i < |s| - 1 && IsSpace(s[i]) ensures !IsSpace(s[i + 1]) {
        if i > |w| {
          assert s[i] == j[i - |w| - 1] && s[i + 1] == j[i - |w|];
        } else if i == |w| {
          assert s[i + 1] == j[0];
        }
      }
    }
  }

  lemma {:induction false} WordLenOfWord(w: string, rest: string)
    requires forall i :: 0 <= i < |w| ==> !IsSpace(w[i])
    requires rest == [] || IsSpace(rest[0])
    ensures WordLen(w + rest) == |w|
  {
    if w == [] {
      assert w + rest == rest;
    } else {
      assert (w + rest)[1..] == w[1..] + rest;
      WordLenOfWord(w[1..], rest);
    }
  }

  lemma SplitWordThen(w: string, rest: string)
    requires IsWord(w)
    requires rest == [] || IsSpace(rest[0])
    ensures Split(w + rest) == [w] + Split(rest)
  {
    WordLenOfWord(w, rest);
    var s := w + rest;
    assert s[..|w|] == w && s[|w|..] == rest;
  }

  /** str.split() undoes " ".join() on words. */
  lemma {:induction false} SplitJoin(ws: seq<string>)
    requires forall w :: w in ws ==> IsWord(w)
    ensures Split(Join(ws)) == ws
  {
    if |ws| == 1 {
      assert ws[0] in ws;
      SplitWordThen(ws[0], []);
      assert ws[0] + [] == ws[0];
    } else if |ws| > 1 {
      assert ws[0] in ws;
      var j := Join(ws[1..]);
      SplitJoin(ws[1..]);
      assert Join(ws) == ws[0] + (" " + j);
      SplitWordThen(ws[0], " " + j);
      assert (" " + j)[1..] == j;
      assert ws == [ws[0]] + ws[1..];
    }
  }

  lemma {:induction false} FilterKeepsAll(ws: seq<string>, stopWords: set<string>)
    requires forall w :: w in ws ==> w !in stopWords
    ensures Filter(ws, stopWords) == ws
  {
    if ws != [] {
      assert ws[0] in ws;
      assert forall w :: w in ws[1..] ==> w in ws;
      FilterKeepsAll(ws[1..], stopWords);
      assert ws == [ws[0]] + ws[1..];
    }
  }

  lemma {:induction false} SplitAllSpace(s: string)
    requires forall i :: 0 <= i < |s| ==> IsSpace(s[i])
    ensures Split(s) == []
    decreases |s|
  {
    if s != [] {
      SplitAllSpace(s[1..]);
    }
  }

  /** Leading whitespace does not change what str.split() returns. */
  lemma {:induction false} SplitSkipsSpace(u: string, s: string)
    requires AllChars(u, IsSpace)
    ensures Split(u + s) == Split(s)
    decreases |u|
  {
    if u == [] {
      assert u + s == s;
    } else {
      assert (u + s)[0] == u[0] && (u + s)[1..] == u[1..] + s;
      assert AllChars(u[1..], IsSpace) by {
        forall i | 0 <= i < |u[1..]| ensures IsSpace(u[1..][i]) {
          assert u[1..][i] == u[i + 1];
        }
      }
      SplitSkipsSpace(u[1..], s);
    }
  }

  lemma SplitSpaceHead(c: char, s: string)
    requires IsSpace(c)
    ensures Split([c] + s) == Split(s)
  {
    assert ([c] + s)[0] == c && ([c] + s)[1..] == s;
  }

  lemma SplitWordHead(w: string, x: string, y: string)
    requires IsWord(w)
    requires x != [] && IsSpace(x[0]) && y != [] && IsSpace(y[0])
    requires Split(x) == Split(y)
    ensures Split(w + x) == Split(w + y)
  {
    SplitWordThen(w, x);
    SplitWordThen(w, y);
  }

  /** A text that starts with whitespace still does after something is appended. */
  lemma SpaceFirst(rest: string, u: string, b: string)
    requires rest == [] || IsSpace(rest[0])
    requires u != [] && IsSpace(u[0])
    ensures rest + u + b != [] && IsSpace((rest + u + b)[0])
  {
    if rest == [] {
      assert (rest + u + b)[0] == u[0];
    } else {
      assert (rest + u + b)[0] == rest[0];
    }
  }

  lemma SeparatorAtStart(u: string, b: string)
    requires u != [] && AllChars(u, IsSpace)
    ensures Split(u + b) == Split(" " + b)
  {
    var sp := " ";
    assert AllChars(sp, IsSpace) by { assert sp[0] == ' '; }
    SplitSkipsSpace(u, b);
    SplitSkipsSpace(sp, b);
  }

  /** Regrouping a + u + b around a cut of a at n. */
  lemma Regroup(a: string, n: nat, u: string, b: string)
    requires n <= |a|
    ensures a + u + b == a[..n] + (a[n..] + u + b)
  {
    assert a == a[..n] + a[n..];
  }

  lemma SeparatorAfterSpace(a: string, u: string, b: string)
    requires a != [] && IsSpace(a[0])
    requires Split(a[1..] + u + b) == Split(a[1..] + " " + b)
    ensures Split(a + u + b) == Split(a + " " + b)
  {
    Regroup(a, 1, u, b);
    Regroup(a, 1, " ", b);
    assert a[..1] == [a[0]];
    SplitSpaceHead(a[0], a[1..] + u + b);
    SplitSpaceHead(a[0], a[1..] + " " + b);
  }

  lemma SeparatorAfterWord(a: string, u: string, b: string)
    requires a != [] && !IsSpace(a[0]) && u != [] && IsSpace(u[0])
    requires Split(a[WordLen(a)..] + u + b) == Split(a[WordLen(a)..] + " " + b)
    ensures Split(a + u + b) == Split(a + " " + b)
  {
    var n := WordLen(a);
    SpaceFirst(a[n..], u, b);
    SpaceFirst(a[n..], " ", b);
    SplitWordHead(a[..n], a[n..] + u + b, a[n..] + " " + b);
    Regroup(a, n, u, b);
    Regroup(a, n, " ", b);
  }

  /** str.split() treats a run of whitespace like a single space. */
  lemma {:induction false} SplitSeparator(a: string, u: string, b: string)
    requires u != [] && AllChars(u, IsSpace)
    ensures Split(a + u + b) == Split(a + " " + b)
    decreases |a|
  {
    if a == [] {
      assert a + u + b == u + b && a + " " + b == " " + b;
      SeparatorAtStart(u, b);
    } else if IsSpace(a[0]) {
      SplitSeparator(a[1..], u, b);
      SeparatorAfterSpace(a, u, b);
    } else {
      SplitSeparator(a[WordLen(a)..], u, b);
      SeparatorAfterWord(a, u, b);
    }
  }

  // ---------------------------------------------------------------------------
  // Counting a character

  /** Number of occurrences of x over a list of words. */
  function Occurrences(x: char, ws: seq<string>): nat {
    if ws == [] then 0 else multiset(ws[0])[x] + Occurrences(x, ws[1..])
  }

  lemma {:induction false} SameCount(s: string, r: string, x: char)
    requires |r| == |s|
    requires forall i :: 0 <= i < |s| ==> (r[i] == x <==> s[i] == x)
    ensures multiset(r)[x] == multiset(s)[x]
  {
    if s != [] {
      SameCount(s[1..], r[1..], x);
      assert s == [s[0]] + s[1..];
      assert r == [r[0]] + r[1..];
    }
  }

  lemma {:induction false} SplitCount(s: string, x: char)
    requires !IsSpace(x)
    ensures Occurrences(x, Split(s)) == multiset(s)[x]
    decreases |s|
  {
    if s == [] {
    } else if IsSpace(s[0]) {
      SplitCount(s[1..], x);
      assert s == [s[0]] + s[1..];
    } else {
      var n := WordLen(s);
      SplitCount(s[n..], x);
      assert s == s[..n] + s[n..];
      var ws := [s[..n]] + Split(s[n..]);
      assert ws[0] == s[..n] && ws[1..] == Split(s[n..]);
    }
  }

  lemma {:induction false} JoinCount(ws: seq<string>, x: char)
    requires x != ' '
    ensures multiset(Join(ws))[x] == Occurrences(x, ws)
  {
    if |ws| == 1 {
      assert ws[1..] == [];
    } else if |ws| > 1 {
      JoinCount(ws[1..], x);
      assert Join(ws) == ws[0] + " " + Join(ws[1..]);
    }
  }

  lemma {:induction false} FilterCount(ws: seq<string>, stopWords: set<string>, x: char)
    requires forall w :: w in stopWords ==> x !in w
    ensures Occurrences(x, Filter(ws, stopWords)) == Occurrences(x, ws)
  {
    if ws != [] {
      FilterCount(ws[1..], stopWords, x);
      var rest := Filter(ws[1..], stopWords);
      if ws[0] in stopWords {
        assert x !in ws[0];
      } else {
        var r := [ws[0]] + rest;
        assert r[0] == ws[0] && r[1..] == rest;
      }
    }
  }

  // ---------------------------------------------------------------------------
  // What nettoyer_texte_v2 promises

  /** The characters of the normalised text are neither punctuation to remove nor capitals. */
  lemma NormalisedChars(texte: string)
    ensures AllChars(Normalised(texte), c => c !in PunctuationToRemove && Lower(c) == c)
  {
    PunctuationFacts();
  }

  /** No character of string.punctuation other than the apostrophe is left, and nothing is upper-case. */
  lemma CleanedChars(texte: string, stopWords: set<string>)
    ensures forall i :: 0 <= i < |Cleaned(texte, stopWords)| ==>
      var c := Cleaned(texte, stopWords)[i];
      c !in PunctuationToRemove && (c in Punctuation ==> c == '\'') && Lower(c) == c
  {
    var p := c => c !in PunctuationToRemove && Lower(c) == c;
    var ws := Split(Normalised(texte));
    NormalisedChars(texte);
    SplitChars(Normalised(texte), p);
    PunctuationFacts();
    JoinChars(Filter(ws, stopWords), p);
  }

  /** Each apostrophe of the input is still there, at its place, when the text is split. */
  lemma ApostrophesKept(texte: string)
    ensures |Normalised(texte)| == |texte|
    ensures forall i :: 0 <= i < |texte| && texte[i] == '\'' ==> Normalised(texte)[i] == '\''
  {
    PunctuationFacts();
  }

  /** Unless a stop word holds an apostrophe, the output has exactly as many apostrophes as the input. */
  lemma ApostrophesSurvive(texte: string, stopWords: set<string>)
    requires forall w :: w in stopWords ==> '\'' !in w
    ensures multiset(Cleaned(texte, stopWords))['\''] == multiset(texte)['\'']
  {
    PunctuationFacts();
    var lowered := LowerStr(texte);
    var n := Normalised(texte);
    var ws := Split(n);
    SameCount(texte, lowered, '\'');
    SameCount(lowered, n, '\'');
    SplitCount(n, '\'');
    FilterCount(ws, stopWords, '\'');
    JoinCount(Filter(ws, stopWords), '\'');
  }

  /** The words of the output are exactly the surviving words, in their input order, lower-case and no stop word. */
  lemma CleanedWords(texte: string, stopWords: set<string>)
    ensures Split(Cleaned(texte, stopWords)) == Filter(Split(Normalised(texte)), stopWords)
    ensures IsSubsequence(Split(Cleaned(texte, stopWords)), Split(Normalised(texte)))
    ensures forall w :: w in Split(Cleaned(texte, stopWords)) ==> w !in stopWords && LowerStr(w) == w
  {
    var p := c => c !in PunctuationToRemove && Lower(c) == c;
    var ws := Split(Normalised(texte));
    var kept := Filter(ws, stopWords);
    SplitJoin(kept);
    NormalisedChars(texte);
    SplitChars(Normalised(texte), p);
    forall w | w in kept ensures LowerStr(w) == w {
      assert AllChars(w, p);
    }
  }

  /** The output has no surrounding whitespace, no empty word and exactly one space between words. */
  lemma CleanedSingleSpaced(texte: string, stopWords: set<string>)
    ensures SingleSpaced(Cleaned(texte, stopWords))
  {
    JoinSingleSpaced(Filter(Split(Normalised(texte)), stopWords));
  }

  /** The output is empty exactly when every word of the split text is a stop word. */
  lemma CleanedEmpty(texte: string, stopWords: set<string>)
    ensures Cleaned(texte, stopWords) == "" <==> forall w :: w in Split(Normalised(texte)) ==> w in stopWords
  {
    var ws := Split(Normalised(texte));
    var kept := Filter(ws, stopWords);
    JoinNonEmpty(kept);
    if kept == [] {
      forall w | w in ws ensures w in stopWords {}
    } else {
      assert kept[0] in kept;
    }
  }

  /** Texts made only of whitespace and of punctuation other than the apostrophe clean to "". */
  lemma BlankCleansToEmpty(texte: string, stopWords: set<string>)
    requires forall i :: 0 <= i < |texte| ==> IsSpace(texte[i]) || texte[i] in PunctuationToRemove
    ensures Cleaned(texte, stopWords) == ""
  {
    PunctuationFacts();
    var n := Normalised(texte);
    forall i | 0 <= i < |n| ensures IsSpace(n[i]) {
      var c := texte[i];
      assert !IsUpper(c);
      assert LowerStr(texte)[i] == c;
    }
    SplitAllSpace(n);
  }

  /** Lower-casing the input first changes nothing: stop words are matched after lowering. */
  lemma CleanedOfLowered(texte: string, stopWords: set<string>)
    ensures Cleaned(LowerStr(texte), stopWords) == Cleaned(texte, stopWords)
  {
    assert LowerStr(LowerStr(texte)) == LowerStr(texte);
  }

  /** Cleaning a cleaned text gives it back. */
  lemma CleanedIdempotent(texte: string, stopWords: set<string>)
    ensures Cleaned(Cleaned(texte, stopWords), stopWords) == Cleaned(texte, stopWords)
  {
    var r := Cleaned(texte, stopWords);
    var kept := Filter(Split(Normalised(texte)), stopWords);
    CleanedChars(texte, stopWords);
    assert LowerStr(r) == r;
    assert Unpunctuated(r) == r;
    CleanedWords(texte, stopWords);
    FilterKeepsAll(kept, stopWords);
  }
}
