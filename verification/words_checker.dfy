/**
 * `RussianWordsChecker`: the dictionary, built by splitting a text on line
 * breaks, and the set of words already claimed in the current session.
 */
module WordsChecker {

  predicate IsSeparator(c: char) {
    c == '\r' || c == '\n'
  }

  predicate NoSeparator(w: string) {
    forall k :: 0 <= k < |w| ==> !IsSeparator(w[k])
  }

  /** The length of the run of non-separator characters that begins `s`. */
  function LeadingRun(s: string): (n: nat)
    ensures n <= |s| && NoSeparator(s[..n])
    ensures n < |s| ==> IsSeparator(s[n])
  {
    if s == [] || IsSeparator(s[0]) then 0
    else
      var m := LeadingRun(s[1..]);
      assert s[..m + 1] == [s[0]] + s[1..][..m];
      1 + m
  }

  /**
   * `text.Split(new[] { '\r', '\n' }, StringSplitOptions.RemoveEmptyEntries)`:
   * the maximal runs of non-separator characters, in order.
   */
  function SplitLines(text: string): (ws: seq<string>)
    ensures forall w :: w in ws ==> w != "" && NoSeparator(w)
    decreases |text|
  {
    if text == [] then []
    else
      var n := LeadingRun(text);
      if n == 0 then SplitLines(text[1..])
      else if n == |text| then assert text[..n] == text; [text]
      else [text[..n]] + SplitLines(text[n + 1..])
  }

  /** The dictionary the constructor builds from `text`. */
  function Dictionary(text: string): set<string> {
    set w | w in SplitLines(text)
  }

  function Concat(ws: seq<string>): string {
    if ws == [] then "" else ws[0] + Concat(ws[1..])
  }

  function DropSeparators(s: string): string {
    if s == [] then "" else (if IsSeparator(s[0]) then "" else [s[0]]) + DropSeparators(s[1..])
  }

  /** The words one per line, separated by '\n'. */
  function JoinLines(ws: seq<string>): string {
    if ws == [] then ""
    else if |ws| == 1 then ws[0]
    else ws[0] + "\n" + JoinLines(ws[1..])
  }

  lemma {:induction false} DropSeparatorsAppend(a: string, b: string)
    ensures DropSeparators(a + b) == DropSeparators(a) + DropSeparators(b)
  {
    if a != [] {
      assert (a + b)[1..] == a[1..] + b;
      DropSeparatorsAppend(a[1..], b);
    } else {
      assert a + b == b;
    }
  }

  lemma {:induction false} DropSeparatorsKeeps(w: string)
    requires NoSeparator(w)
    ensures DropSeparators(w) == w
  {
    if w != [] {
      DropSeparatorsKeeps(w[1..]);
    }
  }

  lemma DropSeparatorsAtBreak(text: string, n: int)
    requires 0 < n < |text| && NoSeparator(text[..n]) && IsSeparator(text[n])
    ensures DropSeparators(text) == text[..n] + DropSeparators(text[n + 1..])
  {
    var before, after := text[..n], text[n..];
    assert text == before + after;
    DropSeparatorsAppend(before, after);
    DropSeparatorsKeeps(before);
    assert after[0] == text[n] && after[1..] == text[n + 1..];
    assert DropSeparators(after) == DropSeparators(text[n + 1..]);
  }

  lemma ConcatCons(w: string, ws: seq<string>)
    ensures Concat([w] + ws) == w + Concat(ws)
  {
    assert ([w] + ws)[1..] == ws;
  }

  /** Together the pieces hold exactly the non-separator characters of the text, in order. */
  lemma {:induction false} SplitLinesConcat(text: string)
    ensures Concat(SplitLines(text)) == DropSeparators(text)
    decreases |text|
  {
    if text != [] {
      var n := LeadingRun(text);
      if n == 0 {
        assert SplitLines(text) == SplitLines(text[1..]);
        assert DropSeparators(text) == DropSeparators(text[1..]);
        SplitLinesConcat(text[1..]);
      } else if n == |text| {
        assert text[..n] == text;
        assert SplitLines(text) == [text];
        DropSeparatorsKeeps(text);
        ConcatCons(text, []);
      } else {
        var rest := SplitLines(text[n + 1..]);
        assert SplitLines(text) == [text[..n]] + rest;
        SplitLinesConcat(text[n + 1..]);
        ConcatCons(text[..n], rest);
        DropSeparatorsAtBreak(text, n);
      }
    }
  }

  lemma {:induction false} LeadingRunOfWord(w: string, s: string)
    requires NoSeparator(w)
    requires s == [] || IsSeparator(s[0])
    ensures LeadingRun(w + s) == |w|
  {
    if w != [] {
      assert (w + s)[1..] == w[1..] + s;
      LeadingRunOfWord(w[1..], s);
    } else {
      assert w + s == s;
    }
  }

  /** A separator at the front of the text yields no piece. */
  lemma SplitLinesSkip(c: char, r: string)
    requires IsSeparator(c)
    ensures SplitLines([c] + r) == SplitLines(r)
  {
    assert ([c] + r)[1..] == r;
  }

  /** A word followed by a separator is one piece, and splitting goes on after the separator. */
  lemma SplitLinesWordThen(w: string, c: char, r: string)
    requires w != [] && NoSeparator(w) && IsSeparator(c)
    ensures SplitLines(w + [c] + r) == [w] + SplitLines(r)
  {
    var x := w + [c] + r;
    assert x == w + ([c] + r);
    LeadingRunOfWord(w, [c] + r);
    assert x[..|w|] == w;
    assert x[|w| + 1..] == r;
  }

  /** Putting a piece in front commutes with appending more pieces. */
  lemma ConsAppend(w: string, p: seq<string>, q: seq<string>)
    ensures [w] + (p + q) == ([w] + p) + q
  {
  }

  /** Step of `SplitAtSeparator` past a first word `w` ended by the separator `c`. */
  lemma SplitAtSeparatorAfterWord(w: string, c: char, r: string, sep: char, b: string)
    requires w != [] && NoSeparator(w) && IsSeparator(c)
    requires SplitLines(r + [sep] + b) == SplitLines(r) + SplitLines(b)
    ensures SplitLines(w + [c] + r + [sep] + b) == SplitLines(w + [c] + r) + SplitLines(b)
  {
    assert w + [c] + r + [sep] + b == w + [c] + (r + [sep] + b);
    SplitLinesWordThen(w, c, r);
    SplitLinesWordThen(w, c, r + [sep] + b);
    ConsAppend(w, SplitLines(r), SplitLines(b));
  }

  /** Step of `SplitAtSeparator` past a leading separator `c`. */
  lemma SplitAtSeparatorAfterSkip(c: char, r: string, sep: char, b: string)
    requires IsSeparator(c)
    requires SplitLines(r + [sep] + b) == SplitLines(r) + SplitLines(b)
    ensures SplitLines([c] + r + [sep] + b) == SplitLines([c] + r) + SplitLines(b)
  {
    assert [c] + r + [sep] + b == [c] + (r + [sep] + b);
    SplitLinesSkip(c, r);
    SplitLinesSkip(c, r + [sep] + b);
  }

  /**
   * Every separator is a break between pieces: splitting `a`, a line break,
   * then `b` gives the pieces of `a` followed by those of `b`. Together with
   * `SplitJoinRoundTrip` this fixes every piece of any text, including text
   * with "\r\n" line ends or blank lines.
   */
  lemma {:induction false} SplitAtSeparator(a: string, sep: char, b: string)
    requires IsSeparator(sep)
    ensures SplitLines(a + [sep] + b) == SplitLines(a) + SplitLines(b)
    decreases |a|
  {
    if a == [] {
      assert a + [sep] + b == [sep] + b;
      SplitLinesSkip(sep, b);
    } else if IsSeparator(a[0]) {
      var r := a[1..];
      assert a == [a[0]] + r;
      SplitAtSeparator(r, sep, b);
      SplitAtSeparatorAfterSkip(a[0], r, sep, b);
    } else {
      var n := LeadingRun(a);
      var w := a[..n];
      assert w != [] by {
        assert LeadingRun(a) == 1 + LeadingRun(a[1..]);
      }
      if n < |a| {
        var r := a[n + 1..];
        assert a == w + [a[n]] + r;
        SplitAtSeparator(r, sep, b);
        SplitAtSeparatorAfterWord(w, a[n], r, sep, b);
      } else {
        assert w == a;
        SplitLinesWordThen(a, sep, b);
        assert SplitLines(a) == [a] by {
          assert a[..|a|] == a;
        }
      }
    }
  }

  /** Splitting words joined one per line gives the words back. */
  lemma {:induction false} SplitJoinRoundTrip(ws: seq<string>)
    requires forall w :: w in ws ==> w != "" && NoSeparator(w)
    ensures SplitLines(JoinLines(ws)) == ws
  {
    if |ws| == 1 {
      LeadingRunOfWord(ws[0], "");
      assert ws[0] + "" == ws[0];
    } else if |ws| > 1 {
      var tail := JoinLines(ws[1..]);
      var text := ws[0] + ("\n" + tail);
      assert JoinLines(ws) == text;
      LeadingRunOfWord(ws[0], "\n" + tail);
      assert text[..|ws[0]|] == ws[0];
      assert text[|ws[0]| + 1..] == tail;
      assert forall w :: w in ws[1..] ==> w in ws;
      SplitJoinRoundTrip(ws[1..]);
    }
  }

  /** The dictionary never holds the empty word, nor a word with a line break. */
  lemma DictionaryWords(text: string)
    ensures forall w :: w in Dictionary(text) ==> w != "" && NoSeparator(w)
  {
  }

  /** `RussianWordsChecker`: the dictionary and the words claimed in this session. */
  class RussianWordsChecker {
    const allWords: set<string>
    var currentSessionRegisteredWords: set<string>

    /** Only dictionary words are ever claimed, and the dictionary has no empty word. */
    ghost predicate Valid()
      reads this
    {
      && (forall w :: w in allWords ==> w != "" && NoSeparator(w))
      && currentSessionRegisteredWords <= allWords
    }

    /** Builds the dictionary from the text of the word list; nothing claimed yet. */
    constructor (text: string)
      ensures Valid()
      ensures allWords == Dictionary(text)
      ensures currentSessionRegisteredWords == {}
    {
      DictionaryWords(text);
      allWords := Dictionary(text);
      currentSessionRegisteredWords := {};
    }

    /** `WordExistsInLanguage`: exact membership; the empty word never exists. */
    function WordExistsInLanguage(word: string): (b: bool)
      requires Valid()
      reads this
      ensures b <==> word in allWords
      ensures word == "" ==> !b
    {
      word in allWords
    }

    /**
     * `TryRegisterNewWord`: the single gate for scoring. A dictionary word
     * not yet claimed in this session is claimed and the answer is true;
     * otherwise nothing changes and the answer is false.
     */
    method TryRegisterNewWord(word: string) returns (registered: bool)
      requires Valid()
      modifies this
      ensures Valid()
      ensures registered <==> word in allWords && word !in old(currentSessionRegisteredWords)
      ensures currentSessionRegisteredWords
                == if registered then old(currentSessionRegisteredWords) + {word} else old(currentSessionRegisteredWords)
    {
      if !WordExistsInLanguage(word) {
        return false;
      }
      if word in currentSessionRegisteredWords {
        return false;
      }
      currentSessionRegisteredWords := currentSessionRegisteredWords + {word};
      return true;
    }

    /** `ResetSession`: forgets every claimed word; doing it twice is the same as once. */
    method ResetSession()
      requires Valid()
      modifies this
      ensures Valid()
      ensures currentSessionRegisteredWords == {}
    {
      currentSessionRegisteredWords := {};
    }
  }

  /** Claiming the same word twice in one session: the second claim is always refused. */
  method ClaimTwice(checker: RussianWordsChecker, word: string) returns (first: bool, second: bool)
    requires checker.Valid()
    modifies checker
    ensures checker.Valid()
    ensures first <==> word in checker.allWords && word !in old(checker.currentSessionRegisteredWords)
    ensures !second
    ensures word in checker.allWords ==> checker.currentSessionRegisteredWords == old(checker.currentSessionRegisteredWords) + {word}
  {
    first := checker.TryRegisterNewWord(word);
    second := checker.TryRegisterNewWord(word);
  }
}
