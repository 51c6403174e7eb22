/**
 * The string helpers of src/utils.py and the pieces of Python's `str` that the
 * pipeline relies on: whitespace, `strip`, `split('\n')`, `split()`, `' '.join`
 * and the whitespace-collapsing `clean_text`.
 */
module Text {

  /** Python's `str.isspace`, which is also what the `\s` class of `re` matches. */
  predicate IsSpace(c: char) {
    ('\t' <= c <= '\r') || ('\U{1C}' <= c <= '\U{1F}') || c == ' ' ||
    c == '\U{85}' || c == '\U{A0}' || c == '\U{1680}' || ('\U{2000}' <= c <= '\U{200A}') ||
    c == '\U{2028}' || c == '\U{2029}' || c == '\U{202F}' || c == '\U{205F}' || c == '\U{3000}'
  }

  /** Drops the leading whitespace: `s.lstrip()`. */
  function TrimStart(s: string): (r: string)
    ensures |r| <= |s| && r == s[|s| - |r|..]
    ensures r == [] || !IsSpace(r[0])
  {
    if s != [] && IsSpace(s[0]) then TrimStart(s[1..]) else s
  }

  /** Drops the trailing whitespace: `s.rstrip()`. */
  function TrimEnd(s: string): (r: string)
    ensures |r| <= |s| && r == s[..|r|]
    ensures r == [] || !IsSpace(r[|r| - 1])
  {
    if s != [] && IsSpace(s[|s| - 1]) then TrimEnd(s[..|s| - 1]) else s
  }

  /** `s.strip()`. */
  function Strip(s: string): string {
    TrimEnd(TrimStart(s))
  }

  /** `sep.join(parts)`. */
  function JoinWith(sep: string, parts: seq<string>): string {
    if |parts| == 0 then ""
    else if |parts| == 1 then parts[0]
    else parts[0] + sep + JoinWith(sep, parts[1..])
  }

  /** `s.split(sep)` for a one-character separator: never empty, pieces free of `sep`. */
  function Split(s: string, sep: char): (pieces: seq<string>)
    ensures |pieces| >= 1
    ensures forall i :: 0 <= i < |pieces| ==> sep !in pieces[i]
  {
    if s == [] then [[]]
    else
      var rest := Split(s[1..], sep);
      if s[0] == sep then [[]] + rest else [[s[0]] + rest[0]] + rest[1..]
  }

  /** A piece of `str.split()`: a non-empty run of non-whitespace characters. */
  predicate IsWord(w: string) {
    w != [] && forall j :: 0 <= j < |w| ==> !IsSpace(w[j])
  }

  /** The longest whitespace-free prefix of `s`. */
  function TakeWord(s: string): (w: string)
    ensures |w| <= |s| && w == s[..|w|]
    ensures |w| < |s| ==> IsSpace(s[|w|])
  {
    if s == [] || IsSpace(s[0]) then [] else [s[0]] + TakeWord(s[1..])
  }

  /** `s.split()`: the maximal whitespace-free runs of `s`, in order. */
  function Words(s: string): seq<string>
    decreases |s|
  {
    var t := TrimStart(s);
    if t == [] then []
    else
      var w := TakeWord(t);
      [w] + Words(t[|w|..])
  }

  /** Regular-expression substitution of one space for every maximal run of whitespace. */
  function Collapse(s: string): (r: string)
    ensures s == [] <==> r == []
    ensures s != [] && !IsSpace(s[0]) ==> r[0] == s[0]
    decreases |s|
  {
    if s == [] then []
    else if IsSpace(s[0]) then " " + Collapse(TrimStart(s))
    else [s[0]] + Collapse(s[1..])
  }

  /** `clean_text`: collapse whitespace runs to one space, then strip. */
  function CleanText(s: string): string {
    Strip(Collapse(s))
  }

  /**
   * The shape `clean_text` promises: no whitespace at either end, and every
   * whitespace character a lone ' '.
   */
  predicate Normalized(t: string) {
    && (t == [] || (!IsSpace(t[0]) && !IsSpace(t[|t| - 1])))
    && (forall i :: 0 <= i < |t| && IsSpace(t[i]) ==> t[i] == ' ')
    && (forall i :: 0 <= i < |t| - 1 ==> !IsSpace(t[i]) || !IsSpace(t[i + 1]))
  }

  // ---------------------------------------------------------------------------
  // `strip` removes exactly the surrounding whitespace, `split()` yields words

  lemma {:induction false} TrimStartDropsOnlySpaces(s: string)
    ensures forall i :: 0 <= i < |s| - |TrimStart(s)| ==> IsSpace(s[i])
    decreases |s|
  {
    if s != [] && IsSpace(s[0]) {
      TrimStartDropsOnlySpaces(s[1..]);
    }
  }

  lemma {:induction false} TrimEndDropsOnlySpaces(s: string)
    ensures forall i :: |TrimEnd(s)| <= i < |s| ==> IsSpace(s[i])
    decreases |s|
  {
    if s != [] && IsSpace(s[|s| - 1]) {
      TrimEndDropsOnlySpaces(s[..|s| - 1]);
    }
  }

  lemma {:induction false} TakeWordHasNoSpace(s: string)
    ensures forall j :: 0 <= j < |TakeWord(s)| ==> !IsSpace(TakeWord(s)[j])
    decreases |s|
  {
    if s != [] && !IsSpace(s[0]) {
      TakeWordHasNoSpace(s[1..]);
    }
  }

  /** Every piece of `s.split()` is a word. */
  lemma {:induction false} WordsAreWords(s: string)
    ensures forall i :: 0 <= i < |Words(s)| ==> IsWord(Words(s)[i])
    decreases |s|
  {
    var t := TrimStart(s);
    if t != [] {
      var w := TakeWord(t);
      TakeWordHasNoSpace(t);
      WordsAreWords(t[|w|..]);
    }
  }

  // ---------------------------------------------------------------------------
  // `split` and `join`

  /** `sep.join(s.split(sep)) == s`, and no piece holds the separator. */
  lemma {:induction false} SplitJoin(s: string, sep: char)
    ensures JoinWith([sep], Split(s, sep)) == s
    decreases |s|
  {
    if s != [] {
      SplitJoin(s[1..], sep);
      var rest := Split(s[1..], sep);
      if s[0] == sep {
        assert s == [sep] + s[1..];
      } else if |rest| == 1 {
        assert s == [s[0]] + s[1..];
      } else {
        assert JoinWith([sep], rest) == rest[0] + [sep] + JoinWith([sep], rest[1..]);
        assert s == [s[0]] + s[1..];
      }
    }
  }

  /** Joining two non-empty lists of pieces is joining their joins. */
  lemma {:induction false} JoinAppend(sep: string, a: seq<string>, b: seq<string>)
    requires a != [] && b != []
    ensures JoinWith(sep, a + b) == JoinWith(sep, a) + sep + JoinWith(sep, b)
    decreases |a|
  {
    if |a| > 1 {
      JoinAppend(sep, a[1..], b);
      assert (a + b)[1..] == a[1..] + b;
    } else {
      assert (a + b)[1..] == b;
    }
  }

  // ---------------------------------------------------------------------------
  // `clean_text` is `' '.join(s.split())`

  lemma {:induction false} CollapseWord(w: string, r: string)
    requires forall j :: 0 <= j < |w| ==> !IsSpace(w[j])
    ensures Collapse(w + r) == w + Collapse(r)
    decreases |w|
  {
    if w == [] {
      assert w + r == r;
    } else {
      CollapseWord(w[1..], r);
      CollapseCons(w[0], w[1..] + r);
      ConcatAssoc([w[0]], w[1..], r);
      ConcatAssoc([w[0]], w[1..], Collapse(r));
      assert [w[0]] + w[1..] == w;
    }
  }

  lemma CollapseCons(c: char, s: string)
    requires !IsSpace(c)
    ensures Collapse([c] + s) == [c] + Collapse(s)
  {
    assert ([c] + s)[1..] == s;
  }

  lemma TrimStartCollapse(s: string)
    ensures TrimStart(Collapse(s)) == Collapse(TrimStart(s))
  {
    if s != [] && IsSpace(s[0]) {
      var u := TrimStart(s);
      assert TrimStart(s[1..]) == u;
      assert Collapse(s) == " " + Collapse(u);
      assert (" " + Collapse(u))[1..] == Collapse(u);
    }
  }

  lemma {:induction false} TrimEndAfter(a: string, b: string)
    requires b != [] && !IsSpace(b[0])
    ensures TrimEnd(a + b) == a + TrimEnd(b)
    decreases |b|
  {
    if IsSpace(b[|b| - 1]) {
      assert (a + b)[..|a + b| - 1] == a + b[..|b| - 1];
      TrimEndAfter(a, b[..|b| - 1]);
    }
  }

  lemma WordsOfWordStart(t: string)
    requires t != [] && !IsSpace(t[0])
    ensures Words(t) == [TakeWord(t)] + Words(t[|TakeWord(t)|..])
  {
  }

  lemma WordsOfSpaceStart(r: string)
    requires r != [] && IsSpace(r[0])
    ensures Words(r) == Words(TrimStart(r))
    ensures Collapse(r) == " " + Collapse(TrimStart(r))
  {
    assert TrimStart(TrimStart(r)) == TrimStart(r);
  }

  lemma JoinCons(sep: string, x: string, rest: seq<string>)
    requires rest != []
    ensures JoinWith(sep, [x] + rest) == x + sep + JoinWith(sep, rest)
  {
    assert ([x] + rest)[1..] == rest;
  }

  lemma ConcatAssoc<T>(a: seq<T>, b: seq<T>, c: seq<T>)
    ensures a + (b + c) == (a + b) + c
  {
  }

  lemma TrimEndSpace(w: string)
    requires IsWord(w)
    ensures TrimEnd(w + " ") == w
  {
    assert (w + " ")[..|w|] == w;
  }

  /** The first step of `split()` and of the whitespace collapse on text that opens with a word. */
  lemma CollapseAtWord(t: string)
    requires t != [] && !IsSpace(t[0])
    ensures var w := TakeWord(t);
      && IsWord(w)
      && Words(t) == [w] + Words(t[|w|..])
      && Collapse(t) == w + Collapse(t[|w|..])
      && (|w| == |t| || IsSpace(t[|w|..][0]))
  {
    var w := TakeWord(t);
    TakeWordHasNoSpace(t);
    WordsOfWordStart(t);
    assert t == w + t[|w|..];
    CollapseWord(w, t[|w|..]);
  }

  lemma {:induction false} TrimEndCollapse(t: string)
    requires t == [] || !IsSpace(t[0])
    ensures TrimEnd(Collapse(t)) == JoinWith(" ", Words(t))
    decreases |t|
  {
    if t != [] {
      var w := TakeWord(t);
      var r := t[|w|..];
      CollapseAtWord(t);
      if r == [] {
        assert w + [] == w;
      } else {
        WordsOfSpaceStart(r);
        var u := TrimStart(r);
        if u == [] {
          TrimEndSpace(w);
        } else {
          TrimEndCollapse(u);
          ConcatAssoc(w, " ", Collapse(u));
          TrimEndAfter(w + " ", Collapse(u));
          JoinCons(" ", w, Words(u));
        }
      }
    }
  }

  /** `clean_text(s) == ' '.join(s.split())`. */
  lemma CleanTextIsJoinedWords(s: string)
    ensures CleanText(s) == JoinWith(" ", Words(s))
  {
    TrimStartCollapse(s);
    var u := TrimStart(s);
    assert TrimStart(u) == u;
    TrimEndCollapse(u);
  }

  // ---------------------------------------------------------------------------
  // Joining words is a normal form, and `split()` undoes it

  lemma {:induction false} TakeWordBefore(w: string, r: string)
    requires IsWord(w) && (r == [] || IsSpace(r[0]))
    ensures TakeWord(w + r) == w
    decreases |w|
  {
    if |w| > 1 {
      assert (w + r)[1..] == w[1..] + r;
      TakeWordBefore(w[1..], r);
    } else {
      assert (w + r)[1..] == r;
    }
  }

  lemma WordsOfWord(w: string)
    requires IsWord(w)
    ensures Words(w) == [w]
  {
    TakeWordBefore(w, []);
    assert w + [] == w;
    WordsOfWordStart(w);
    assert w[|w|..] == [];
  }

  lemma WordsAfterWord(w: string, j: string)
    requires IsWord(w) && j != [] && !IsSpace(j[0])
    ensures Words((w + " ") + j) == [w] + Words(j)
  {
    var s := (w + " ") + j;
    ConcatAssoc(w, " ", j);
    TakeWordBefore(w, " " + j);
    WordsOfWordStart(s);
    assert s[|w|..] == " " + j;
    WordsOfSpaceStart(" " + j);
    assert TrimStart((" " + j)[1..]) == j;
  }

  /** `' '.join(ws).split() == ws` for a list of words. */
  lemma {:induction false} WordsOfJoin(ws: seq<string>)
    requires forall i :: 0 <= i < |ws| ==> IsWord(ws[i])
    ensures Words(JoinWith(" ", ws)) == ws
    decreases |ws|
  {
    if |ws| == 1 {
      WordsOfWord(ws[0]);
    } else if |ws| > 1 {
      var rest := ws[1..];
      JoinStartsWithWord(rest);
      WordsAfterWord(ws[0], JoinWith(" ", rest));
      WordsOfJoin(rest);
      HeadTail(ws);
    }
  }

  lemma JoinStartsWithWord(ws: seq<string>)
    requires ws != [] && forall i :: 0 <= i < |ws| ==> IsWord(ws[i])
    ensures JoinWith(" ", ws) != [] && !IsSpace(JoinWith(" ", ws)[0])
  {
    JoinWordsNormalized(ws);
  }

  lemma HeadTail<T>(s: seq<T>)
    requires s != []
    ensures [s[0]] + s[1..] == s
  {
  }

  /** `' '.join(ws)` of a non-empty list of words is Normalized and starts and ends with a word character. */
  lemma {:induction false} JoinWordsNormalized(ws: seq<string>)
    requires forall i :: 0 <= i < |ws| ==> IsWord(ws[i])
    ensures Normalized(JoinWith(" ", ws))
    ensures ws != [] ==> JoinWith(" ", ws) != []
    decreases |ws|
  {
    if |ws| > 1 {
      var w, j := ws[0], JoinWith(" ", ws[1..]);
      JoinWordsNormalized(ws[1..]);
      var s := w + " " + j;
      assert JoinWith(" ", ws) == s;
      forall i | 0 <= i < |s| && IsSpace(s[i]) ensures s[i] == ' ' {
        if i > |w| { assert s[i] == j[i - |w| - 1]; }
      }
      forall i | 0 <= i < |s| - 1 ensures !IsSpace(s[i]) || !IsSpace(s[i + 1]) {
        if i > |w| { assert s[i] == j[i - |w| - 1] && s[i + 1] == j[i - |w|]; }
        else if i == |w| { assert s[i + 1] == j[0]; }
      }
    }
  }

  /** `clean_text` output is Normalized. */
  lemma CleanTextNormalized(s: string)
    ensures Normalized(CleanText(s))
  {
    CleanTextIsJoinedWords(s);
    WordsAreWords(s);
    JoinWordsNormalized(Words(s));
  }

  /** `clean_text` keeps the words of its input, in order. */
  lemma CleanTextKeepsWords(s: string)
    ensures Words(CleanText(s)) == Words(s)
  {
    CleanTextIsJoinedWords(s);
    WordsAreWords(s);
    WordsOfJoin(Words(s));
  }

  /** `clean_text` is idempotent. */
  lemma CleanTextIdempotent(s: string)
    ensures CleanText(CleanText(s)) == CleanText(s)
  {
    CleanTextIsJoinedWords(s);
    CleanTextIsJoinedWords(CleanText(s));
    CleanTextKeepsWords(s);
  }

  // ---------------------------------------------------------------------------
  // The words of a space-joined text

  /** The words of each of `texts`, one text after the other. */
  function WordsOfEach(texts: seq<string>): seq<string> {
    if texts == [] then [] else Words(texts[0]) + WordsOfEach(texts[1..])
  }

  lemma WordsDropSpace(r: string)
    requires r != [] && IsSpace(r[0])
    ensures Words(r) == Words(r[1..])
  {
  }

  /** `(a + ' ' + b).split() == a.split() + b.split()`: the space joining two texts is never part of a word. */
  lemma {:induction false} WordsOfSpaced(a: string, b: string)
    ensures Words(a + " " + b) == Words(a) + Words(b)
    decreases |a|
  {
    var s := a + " " + b;
    if a == [] {
      assert s == " " + b && s[1..] == b;
      WordsDropSpace(s);
      EmptyAppend(Words(b));
    } else if IsSpace(a[0]) {
      assert s[0] == a[0] && s[1..] == a[1..] + " " + b;
      WordsDropSpace(s);
      WordsDropSpace(a);
      WordsOfSpaced(a[1..], b);
    } else {
      var w := TakeWord(a);
      var rest := a[|w|..];
      TakeWordHasNoSpace(a);
      assert a == w + rest;
      assert s == w + (rest + " " + b);
      assert (rest + " " + b)[0] == if rest == [] then ' ' else rest[0];
      TakeWordBefore(w, rest + " " + b);
      WordsOfWordStart(s);
      WordsOfWordStart(a);
      assert s[|w|..] == rest + " " + b;
      WordsOfSpaced(rest, b);
      ConcatAssoc([w], Words(rest), Words(b));
    }
  }

  lemma EmptyAppend<T>(a: seq<T>)
    ensures [] + a == a
  {
  }

  lemma AppendEmpty<T>(a: seq<T>)
    ensures a + [] == a
  {
  }

  /** `' '.join(texts).split()` is the words of each text, in order. */
  lemma {:induction false} WordsOfJoined(texts: seq<string>)
    ensures Words(JoinWith(" ", texts)) == WordsOfEach(texts)
    decreases |texts|
  {
    if |texts| == 1 {
      assert WordsOfEach(texts[1..]) == [];
      assert Words(texts[0]) + [] == Words(texts[0]);
    } else if |texts| > 1 {
      WordsOfSpaced(texts[0], JoinWith(" ", texts[1..]));
      WordsOfJoined(texts[1..]);
    }
  }
}
