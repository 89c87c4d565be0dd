/** ASCII text primitives that stand in for the Python string methods and
    the regular expressions the caption enhancer relies on: str.isspace,
    str.lower, str.upper on one character, str.replace('_', ' '), the
    substring test `in`, str.split(), str.strip(), str.rstrip('.'),
    re.sub(r'\s+', ' ', s) and re.sub(r'\.{2,}', '.', s). */
module Text {

  /** Python's str.isspace() on ASCII: tab, line feed, vertical tab,
      form feed, carriage return, the four information separators
      (0x1C-0x1F) and space. The same set is matched by `\s`, split on
      by str.split() and removed by str.strip(). */
  predicate IsSpace(c: char) {
    9 <= c as int <= 13 || 28 <= c as int <= 32
  }

  predicate NoSpace(s: string) {
    forall i :: 0 <= i < |s| ==> !IsSpace(s[i])
  }

  predicate AllSpaces(s: string) {
    forall i :: 0 <= i < |s| ==> IsSpace(s[i])
  }

  function LowerChar(c: char): char {
    if 'A' <= c <= 'Z' then (c as int + 32) as char else c
  }

  function UpperChar(c: char): char {
    if 'a' <= c <= 'z' then (c as int - 32) as char else c
  }

  /** str.lower() on ASCII. */
  function Lower(s: string): string {
    seq(|s|, i requires 0 <= i < |s| => LowerChar(s[i]))
  }

  lemma LowerAppend(a: string, b: string)
    ensures Lower(a + b) == Lower(a) + Lower(b)
  {
  }

  /** str.replace('_', ' '). */
  function UnderscoresToSpaces(s: string): string {
    seq(|s|, i requires 0 <= i < |s| => if s[i] == '_' then ' ' else s[i])
  }

  /** The substring test `needle in hay`. */
  predicate Contains(hay: string, needle: string) {
    exists i :: 0 <= i <= |hay| - |needle| && OccursAt(hay, needle, i)
  }

  predicate OccursAt(hay: string, needle: string, i: int) {
    0 <= i && i + |needle| <= |hay| && hay[i..i + |needle|] == needle
  }

  /** A word without whitespace that is a substring of `a + [c] + b`, where
      `c` is whitespace, is a substring of `a` or of `b`. */
  lemma ContainsAcrossSpace(a: string, c: char, b: string, needle: string)
    requires IsSpace(c) && NoSpace(needle)
    requires Contains(a + [c] + b, needle)
    ensures Contains(a, needle) || Contains(b, needle)
  {
    var s := a + [c] + b;
    var i :| 0 <= i <= |s| - |needle| && OccursAt(s, needle, i);
    assert s[i..i + |needle|] == needle;
    if i + |needle| <= |a| {
      assert a[i..i + |needle|] == s[i..i + |needle|];
      assert OccursAt(a, needle, i);
    } else if i > |a| {
      var j := i - |a| - 1;
      assert b[j..j + |needle|] == s[i..i + |needle|];
      assert OccursAt(b, needle, j);
    } else {
      SliceAt(s, i, i + |needle|, |a| - i);
      assert false;
    }
  }

  lemma SliceAt(s: string, lo: nat, hi: nat, k: nat)
    requires lo <= hi <= |s| && k < hi - lo
    ensures s[lo..hi][k] == s[lo + k]
  {
  }

  lemma NotContainsShorter(hay: string, needle: string)
    requires |hay| < |needle|
    ensures !Contains(hay, needle)
  {
  }

  /** Length of the run of non-whitespace characters that starts `s`. */
  function WordLength(s: string): (n: nat)
    ensures n <= |s|
    ensures NoSpace(s[..n])
    ensures n < |s| ==> IsSpace(s[n])
  {
    if s == [] || IsSpace(s[0]) then 0 else 1 + WordLength(s[1..])
  }

  /** str.split() with no argument: the maximal runs of non-whitespace
      characters, in order. */
  function Split(s: string): (words: seq<string>)
    ensures forall w :: w in words ==> w != [] && NoSpace(w)
    decreases |s|
  {
    if s == [] then []
    else if IsSpace(s[0]) then Split(s[1..])
    else
      var n := WordLength(s);
      [s[..n]] + Split(s[n..])
  }

  lemma {:induction false} SplitWord(w: string)
    requires w != [] && NoSpace(w)
    ensures Split(w) == [w]
  {
    WordLengthNoSpace(w);
    assert w[..|w|] == w;
    assert w[|w|..] == [];
    assert Split(w) == [w[..|w|]] + Split(w[|w|..]);
  }

  lemma {:induction false} WordLengthNoSpace(w: string)
    requires NoSpace(w)
    ensures WordLength(w) == |w|
    decreases |w|
  {
    if w != [] {
      WordLengthNoSpace(w[1..]);
    }
  }

  lemma {:induction false} SplitAllSpaces(s: string)
    requires AllSpaces(s)
    ensures Split(s) == []
    decreases |s|
  {
    if s != [] {
      SplitAllSpaces(s[1..]);
    }
  }

  lemma {:induction false} WordLengthAppend(a: string, b: string)
    requires NoSpace(a) && (b == [] || IsSpace(b[0]))
    ensures WordLength(a + b) == |a|
    decreases |a|
  {
    if a == [] {
      assert a + b == b;
    } else {
      assert (a + b)[1..] == a[1..] + b;
      WordLengthAppend(a[1..], b);
    }
  }

  /** A word followed by nothing or by whitespace is split off whole. */
  lemma SplitWordThen(w: string, t: string)
    requires w != [] && NoSpace(w) && (t == [] || IsSpace(t[0]))
    ensures Split(w + t) == [w] + Split(t)
  {
    WordLengthAppend(w, t);
    assert (w + t)[..|w|] == w;
    assert (w + t)[|w|..] == t;
  }

  lemma SplitSpaceThen(c: char, t: string)
    requires IsSpace(c)
    ensures Split([c] + t) == Split(t)
  {
    assert ([c] + t)[1..] == t;
  }

  /** Splitting at a whitespace character: the words of `a + [c] + b` are
      the words of `a` followed by the words of `b`. */
  lemma {:induction false} SplitAtSpace(a: string, c: char, b: string)
    requires IsSpace(c)
    ensures Split(a + [c] + b) == Split(a) + Split(b)
    decreases |a|
  {
    if a == [] {
      assert a + [c] + b == [c] + b;
      SplitSpaceThen(c, b);
    } else if IsSpace(a[0]) {
      assert a + [c] + b == [a[0]] + (a[1..] + [c] + b);
      assert a == [a[0]] + a[1..];
      SplitSpaceThen(a[0], a[1..] + [c] + b);
      SplitSpaceThen(a[0], a[1..]);
      SplitAtSpace(a[1..], c, b);
    } else {
      var n := WordLength(a);
      var w, t := a[..n], a[n..];
      assert a == w + t;
      assert a + [c] + b == w + (t + [c] + b);
      SplitWordThen(w, t + [c] + b);
      SplitWordThen(w, t);
      SplitAtSpace(t, c, b);
    }
  }

  /** A word is a token of the words of `a + [c] + b` exactly when it is a
      token of `a` or of `b`. */
  lemma SplitMembership(a: string, c: char, b: string, w: string)
    requires IsSpace(c)
    ensures w in Split(a + [c] + b) <==> w in Split(a) || w in Split(b)
  {
    SplitAtSpace(a, c, b);
  }

  /** str.lstrip(): drop the leading whitespace. */
  function TrimLeft(s: string): (r: string)
    ensures |r| <= |s|
    ensures r != [] ==> !IsSpace(r[0])
  {
    if s != [] && IsSpace(s[0]) then TrimLeft(s[1..]) else s
  }

  /** lstrip() keeps a suffix of its input. */
  lemma {:induction false} TrimLeftSuffix(s: string)
    ensures TrimLeft(s) == s[|s| - |TrimLeft(s)|..]
    decreases |s|
  {
    if s != [] && IsSpace(s[0]) {
      TrimLeftSuffix(s[1..]);
    }
  }

  /** What lstrip() drops is whitespace only. */
  lemma {:induction false} TrimLeftDropsSpaces(s: string)
    ensures AllSpaces(s[..|s| - |TrimLeft(s)|])
    decreases |s|
  {
    if s != [] && IsSpace(s[0]) {
      TrimLeftDropsSpaces(s[1..]);
      TrimLeftSuffix(s[1..]);
      var k := |s| - |TrimLeft(s)|;
      assert s[..k] == [s[0]] + s[1..][..k - 1];
    }
  }

  /** Two leading spaces go. */
  lemma TrimLeftTwoSpaces(t: string)
    requires t == [] || !IsSpace(t[0])
    ensures TrimLeft("  " + t) == t
  {
    var u := " " + t;
    assert TrimLeft("  " + t) == TrimLeft(u) by {
      assert ("  " + t)[0] == ' ' && ("  " + t)[1..] == u;
    }
    assert TrimLeft(u) == t by {
      assert u[0] == ' ' && u[1..] == t;
    }
  }

  /** str.rstrip(): drop the trailing whitespace. */
  function TrimRight(s: string): (r: string)
    ensures |r| <= |s|
    ensures r != [] ==> !IsSpace(r[|r| - 1])
  {
    if s != [] && IsSpace(s[|s| - 1]) then TrimRight(s[..|s| - 1]) else s
  }

  /** rstrip() keeps a prefix of its input. */
  lemma {:induction false} TrimRightPrefix(s: string)
    ensures TrimRight(s) == s[..|TrimRight(s)|]
    decreases |s|
  {
    if s != [] && IsSpace(s[|s| - 1]) {
      TrimRightPrefix(s[..|s| - 1]);
    }
  }

  /** What rstrip() drops is whitespace only. */
  lemma {:induction false} TrimRightDropsSpaces(s: string)
    ensures AllSpaces(s[|TrimRight(s)|..])
    decreases |s|
  {
    if s != [] && IsSpace(s[|s| - 1]) {
      var t := s[..|s| - 1];
      TrimRightDropsSpaces(t);
      TrimRightPrefix(t);
      var k := |TrimRight(s)|;
      assert s[k..] == t[k..] + [s[|s| - 1]];
    }
  }

  /** str.strip(). */
  function Strip(s: string): string {
    TrimRight(TrimLeft(s))
  }

  /** str.rstrip('.'): drop every trailing '.'. */
  function TrimTrailingDots(s: string): (r: string)
    ensures |r| <= |s| && r == s[..|r|]
    ensures r != [] ==> r[|r| - 1] != '.'
    ensures forall i :: |r| <= i < |s| ==> s[i] == '.'
  {
    if s != [] && s[|s| - 1] == '.' then TrimTrailingDots(s[..|s| - 1]) else s
  }

  /** Every whitespace character is a plain space, and no two whitespace
      characters are adjacent. */
  predicate SingleSpaced(s: string) {
    (forall i :: 0 <= i < |s| && IsSpace(s[i]) ==> s[i] == ' ') &&
    (forall i, j :: 0 <= i < |s| && 0 <= j < |s| && j == i + 1 ==> !(IsSpace(s[i]) && IsSpace(s[j])))
  }

  /** No two '.' characters are adjacent. */
  predicate NoDoubleDot(s: string) {
    forall i, j :: 0 <= i < |s| && 0 <= j < |s| && j == i + 1 ==> !(s[i] == '.' && s[j] == '.')
  }

  lemma SingleSpacedCons(c: char, r: string)
    requires SingleSpaced(r)
    requires IsSpace(c) ==> c == ' ' && (r == [] || !IsSpace(r[0]))
    ensures SingleSpaced([c] + r)
  {
    var s := [c] + r;
    forall i, j | 0 <= i < |s| && 0 <= j < |s| && j == i + 1
      ensures !(IsSpace(s[i]) && IsSpace(s[j]))
    {
      if i > 0 {
        assert s[i] == r[i - 1] && s[j] == r[j - 1];
      }
    }
  }

  lemma NoDoubleDotCons(c: char, r: string)
    requires NoDoubleDot(r)
    requires c == '.' ==> r == [] || r[0] != '.'
    ensures NoDoubleDot([c] + r)
  {
    var s := [c] + r;
    forall i, j | 0 <= i < |s| && 0 <= j < |s| && j == i + 1
      ensures !(s[i] == '.' && s[j] == '.')
    {
      if i > 0 {
        assert s[i] == r[i - 1] && s[j] == r[j - 1];
      }
    }
  }

  /** re.sub(r'\s+', ' ', s): every maximal run of whitespace becomes one
      space. A whitespace character followed by another is dropped, and
      the last one of each run is written as ' '. */
  function CollapseSpaces(s: string): (r: string)
    ensures |r| <= |s|
    ensures r == [] <==> s == []
    ensures r != [] ==> (IsSpace(r[0]) <==> IsSpace(s[0]))
    decreases |s|
  {
    if s == [] then []
    else if |s| >= 2 && IsSpace(s[0]) && IsSpace(s[1]) then CollapseSpaces(s[1..])
    else [if IsSpace(s[0]) then ' ' else s[0]] + CollapseSpaces(s[1..])
  }

  /** re.sub(r'\.{2,}', '.', s): every run of two or more '.' becomes one
      '.'. A '.' followed by another is dropped. */
  function CollapseDots(s: string): (r: string)
    ensures |r| <= |s|
    ensures r == [] <==> s == []
    ensures r != [] ==> r[0] == s[0] && r[|r| - 1] == s[|s| - 1]
    decreases |s|
  {
    if s == [] then []
    else if |s| >= 2 && s[0] == '.' && s[1] == '.' then CollapseDots(s[1..])
    else [s[0]] + CollapseDots(s[1..])
  }

  /** Collapsing leaves no two whitespace characters side by side and
      turns every one into a plain space. */
  lemma {:induction false} CollapseSpacesSingleSpaced(s: string)
    ensures SingleSpaced(CollapseSpaces(s))
    decreases |s|
  {
    if s != [] {
      CollapseSpacesSingleSpaced(s[1..]);
      if !(|s| >= 2 && IsSpace(s[0]) && IsSpace(s[1])) {
        var c := if IsSpace(s[0]) then ' ' else s[0];
        SingleSpacedCons(c, CollapseSpaces(s[1..]));
      }
    }
  }

  /** Collapsing leaves no ".." behind. */
  lemma {:induction false} CollapseDotsNoDoubleDot(s: string)
    ensures NoDoubleDot(CollapseDots(s))
    decreases |s|
  {
    if s != [] {
      CollapseDotsNoDoubleDot(s[1..]);
      if !(|s| >= 2 && s[0] == '.' && s[1] == '.') {
        NoDoubleDotCons(s[0], CollapseDots(s[1..]));
      }
    }
  }

  /** Collapsing dots never merges two runs of whitespace. */
  lemma {:induction false} CollapseDotsKeepsSpacing(s: string)
    requires SingleSpaced(s)
    ensures SingleSpaced(CollapseDots(s))
    decreases |s|
  {
    if s != [] {
      SubstringKeepsShape(s, 1, |s|);
      assert s[1..] == s[1..|s|];
      CollapseDotsKeepsSpacing(s[1..]);
      if !(|s| >= 2 && s[0] == '.' && s[1] == '.') {
        if IsSpace(s[0]) && |s| > 1 {
          assert !IsSpace(s[1]);
        }
        SingleSpacedCons(s[0], CollapseDots(s[1..]));
      }
    }
  }

  /** Collapsing whitespace changes nothing in a single-spaced string. */
  lemma {:induction false} CollapseSpacesFixpoint(s: string)
    requires SingleSpaced(s)
    ensures CollapseSpaces(s) == s
    decreases |s|
  {
    if s != [] {
      assert !(|s| >= 2 && IsSpace(s[0]) && IsSpace(s[1]));
      SubstringKeepsShape(s, 1, |s|);
      assert s[1..] == s[1..|s|];
      CollapseSpacesFixpoint(s[1..]);
      assert s == [s[0]] + s[1..];
    }
  }

  /** Collapsing dots changes nothing in a string without "..". */
  lemma {:induction false} CollapseDotsFixpoint(s: string)
    requires NoDoubleDot(s)
    ensures CollapseDots(s) == s
    decreases |s|
  {
    if s != [] {
      assert !(|s| >= 2 && s[0] == '.' && s[1] == '.');
      SubstringKeepsShape(s, 1, |s|);
      assert s[1..] == s[1..|s|];
      CollapseDotsFixpoint(s[1..]);
      assert s == [s[0]] + s[1..];
    }
  }

  /** Stripping changes nothing in a string whose ends are not whitespace. */
  lemma StripFixpoint(s: string)
    requires s != [] ==> !IsSpace(s[0]) && !IsSpace(s[|s| - 1])
    ensures Strip(s) == s
  {
  }

  lemma SubstringKeepsShape(s: string, lo: nat, hi: nat)
    requires lo <= hi <= |s|
    ensures SingleSpaced(s) ==> SingleSpaced(s[lo..hi])
    ensures NoDoubleDot(s) ==> NoDoubleDot(s[lo..hi])
  {
    var t := s[lo..hi];
    assert forall i :: 0 <= i < |t| ==> t[i] == s[lo + i];
  }

  /** Joining two single-spaced texts keeps spacing single unless the
      join puts two whitespace characters side by side. */
  lemma SingleSpacedAppend(a: string, b: string)
    requires SingleSpaced(a) && SingleSpaced(b)
    requires a != [] && b != [] ==> !(IsSpace(a[|a| - 1]) && IsSpace(b[0]))
    ensures SingleSpaced(a + b)
  {
    var s := a + b;
    forall i, j | 0 <= i < |s| && 0 <= j < |s| && j == i + 1
      ensures !(IsSpace(s[i]) && IsSpace(s[j]))
    {
      if j < |a| {
        assert s[i] == a[i] && s[j] == a[j];
      } else if i >= |a| {
        assert s[i] == b[i - |a|] && s[j] == b[j - |a|];
      }
    }
  }

  /** The same for dots. */
  lemma NoDoubleDotAppend(a: string, b: string)
    requires NoDoubleDot(a) && NoDoubleDot(b)
    requires a != [] && b != [] ==> !(a[|a| - 1] == '.' && b[0] == '.')
    ensures NoDoubleDot(a + b)
  {
    var s := a + b;
    forall i, j | 0 <= i < |s| && 0 <= j < |s| && j == i + 1
      ensures !(s[i] == '.' && s[j] == '.')
    {
      if j < |a| {
        assert s[i] == a[i] && s[j] == a[j];
      } else if i >= |a| {
        assert s[i] == b[i - |a|] && s[j] == b[j - |a|];
      }
    }
  }

  lemma CollapseSpacesCons(c: char, t: string)
    requires !IsSpace(c)
    ensures CollapseSpaces([c] + t) == [c] + CollapseSpaces(t)
  {
    assert ([c] + t)[1..] == t;
  }

  /** Text without whitespace passes through CollapseSpaces unchanged. */
  lemma {:induction false} CollapseSpacesPrefix(a: string, b: string)
    requires NoSpace(a)
    ensures CollapseSpaces(a + b) == a + CollapseSpaces(b)
    decreases |a|
  {
    if a == [] {
      assert a + b == b;
    } else {
      calc {
        CollapseSpaces(a + b);
        { assert a + b == [a[0]] + (a[1..] + b);
          CollapseSpacesCons(a[0], a[1..] + b); }
        [a[0]] + CollapseSpaces(a[1..] + b);
        { assert NoSpace(a[1..]) by { assert forall i :: 0 <= i < |a[1..]| ==> a[1..][i] == a[i + 1]; }
          CollapseSpacesPrefix(a[1..], b); }
        [a[0]] + (a[1..] + CollapseSpaces(b));
        { assert a == [a[0]] + a[1..]; }
        a + CollapseSpaces(b);
      }
    }
  }

  lemma CollapseDotsCons(c: char, t: string)
    requires c != '.'
    ensures CollapseDots([c] + t) == [c] + CollapseDots(t)
  {
    assert ([c] + t)[1..] == t;
  }

  /** Text without '.' passes through CollapseDots unchanged. */
  lemma {:induction false} CollapseDotsPrefix(a: string, b: string)
    requires '.' !in a
    ensures CollapseDots(a + b) == a + CollapseDots(b)
    decreases |a|
  {
    if a == [] {
      assert a + b == b;
    } else {
      calc {
        CollapseDots(a + b);
        { assert a + b == [a[0]] + (a[1..] + b);
          assert a[0] in a;
          CollapseDotsCons(a[0], a[1..] + b); }
        [a[0]] + CollapseDots(a[1..] + b);
        { assert '.' !in a[1..] by { assert forall x :: x in a[1..] ==> x in a; }
          CollapseDotsPrefix(a[1..], b); }
        [a[0]] + (a[1..] + CollapseDots(b));
        { assert a == [a[0]] + a[1..]; }
        a + CollapseDots(b);
      }
    }
  }

  /** Two spaces in front of a word collapse to one. */
  lemma CollapseSpacesDouble(t: string)
    requires t == [] || !IsSpace(t[0])
    ensures CollapseSpaces([' ', ' '] + t) == [' '] + CollapseSpaces(t)
  {
    assert ([' ', ' '] + t)[1..] == [' '] + t;
    assert ([' '] + t)[1..] == t;
  }

  /** Two dots in front of dot-free text collapse to one. */
  lemma CollapseDotsDouble(t: string)
    requires t == [] || t[0] != '.'
    ensures CollapseDots(".." + t) == "." + CollapseDots(t)
  {
    assert (".." + t)[1..] == "." + t;
    assert ("." + t)[1..] == t;
  }
}
