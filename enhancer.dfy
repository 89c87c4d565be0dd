/** The rule-based caption rewriter of enhancer.py, class CaptionEnhancer:
    `enhance_caption` with its helpers `_filter_relevant_labels` and
    `_clean_caption`. Python exceptions become the Fault datatype and the
    `try`/`except` becomes the EnhancementError variant. */
module Enhancer {
  import opened Text
  import opened Seqs

  /** The Python values that can reach the enhancer inside a caption record
      or a classification entry. */
  datatype PyValue = PyStr(s: string) | PyInt(i: int) | PyFloat(x: real) | PyNone

  /** type(v).__name__ */
  function TypeName(v: PyValue): string {
    match v
    case PyStr(_) => "str"
    case PyInt(_) => "int"
    case PyFloat(_) => "float"
    case PyNone => "NoneType"
  }

  /** One classification entry, a dict such as {'label': ..., 'confidence': ...}. */
  type Entry = map<string, PyValue>

  /** What the classifier hands over: its ranked list of entries, or the
      dict {'error': message} that ImageClassifier.classify_image returns
      when it fails. */
  datatype ClassifierOutput = Ranked(entries: seq<Entry>) | ClassifierError(message: string)

  /** The caption argument: a dict (the captioner's {'caption': ...} or
      {'error': ...}), or any other value, normally a plain string. */
  datatype CaptionInput = Plain(value: PyValue) | Record(fields: map<string, PyValue>)

  /** The exceptions the enhancer's body can raise. */
  datatype Fault =
    | KeyError(key: string)
    | AttributeError(typeName: string, attribute: string)
    | TypeError(message: string)

  /** str(e) for each fault, in CPython's wording. */
  function Describe(f: Fault): string {
    match f
    case KeyError(k) => "'" + k + "'"
    case AttributeError(t, a) => "'" + t + "' object has no attribute '" + a + "'"
    case TypeError(m) => m
  }

  datatype Result<T> = Ok(value: T) | Err(fault: Fault)

  /** The dict enhance_caption returns: the three result fields, or only
      'error'. */
  datatype EnhancementResult =
    | Enhanced(originalCaption: string, enhancedCaption: string, usedLabels: seq<string>)
    | EnhancementError(error: string)

  const ErrorPrefix: string := "Caption enhancement failed: "
  const Threshold: real := 0.1
  const GenericLabels: seq<string> := ["object", "item", "thing", "stuff", "other"]
  const ContextLead: string := ". This appears to be related to "
  const MaxRelevant: nat := 5
  const MaxUsed: nat := 3

  // ---------------------------------------------------------------------
  // Line 15: the labels whose confidence exceeds the threshold.

  /** item.get('confidence', 1.0) */
  function Confidence(e: Entry): PyValue {
    if "confidence" in e then e["confidence"] else PyFloat(1.0)
  }

  /** The comparison `confidence > 0.1`, which raises unless the value is a
      number. */
  function AboveThreshold(v: PyValue): Result<bool> {
    match v
    case PyInt(i) => Ok(i as real > Threshold)
    case PyFloat(x) => Ok(x > Threshold)
    case _ => Err(TypeError("'>' not supported between instances of '" + TypeName(v) + "' and 'float'"))
  }

  predicate IsConfident(e: Entry) {
    AboveThreshold(Confidence(e)) == Ok(true)
  }

  /** The list comprehension of line 15, evaluated left to right: the
      first entry that raises decides the fault. */
  function KeptLabels(es: seq<Entry>): Result<seq<PyValue>> {
    if es == [] then Ok([])
    else match AboveThreshold(Confidence(es[0]))
      case Err(f) => Err(f)
      case Ok(keep) =>
        if keep && "label" !in es[0] then Err(KeyError("label"))
        else match KeptLabels(es[1..])
          case Err(f) => Err(f)
          case Ok(rest) => Ok(if keep then [es[0]["label"]] + rest else rest)
  }

  /** Iterating the classifier's error dict yields its key 'error', a str,
      and `'error'.get` raises. */
  function LabelList(labels: ClassifierOutput): Result<seq<PyValue>> {
    match labels
    case Ranked(es) => KeptLabels(es)
    case ClassifierError(_) => Err(AttributeError("str", "get"))
  }

  // Independent description of line 15.

  /** Line 15 raises for no entry: every confidence is a number, and every
      entry above the threshold has a label. */
  predicate EntriesWellFormed(es: seq<Entry>) {
    forall e :: e in es ==> AboveThreshold(Confidence(e)).Ok? && (IsConfident(e) ==> "label" in e)
  }

  /** The entries above the threshold, in input order. */
  function ConfidentEntries(es: seq<Entry>): (r: seq<Entry>)
    ensures IsSubsequence(r, es)
    ensures forall e :: e in r <==> e in es && IsConfident(e)
  {
    if es == [] then []
    else if IsConfident(es[0]) then [es[0]] + ConfidentEntries(es[1..])
    else ConfidentEntries(es[1..])
  }

  /** Every confident entry is kept as many times as it occurs, duplicates
      included; every other entry is dropped. */
  lemma {:induction false} ConfidentEntriesCounts(es: seq<Entry>)
    ensures forall e :: multiset(ConfidentEntries(es))[e] == if IsConfident(e) then multiset(es)[e] else 0
  {
    if es != [] {
      ConfidentEntriesCounts(es[1..]);
      assert es == [es[0]] + es[1..];
    }
  }

  /** Line 15 succeeds exactly when no entry is malformed, and then yields
      the labels of the entries whose confidence is above 0.1, an absent
      confidence counting as 1.0, in input order. */
  lemma {:induction false} KeptLabelsCharacterised(es: seq<Entry>)
    ensures KeptLabels(es).Ok? <==> EntriesWellFormed(es)
    ensures KeptLabels(es).Ok? ==>
      var kept, conf := KeptLabels(es).value, ConfidentEntries(es);
      |kept| == |conf| &&
      forall i :: 0 <= i < |kept| ==> "label" in conf[i] && kept[i] == conf[i]["label"]
  {
    if es != [] {
      KeptLabelsCharacterised(es[1..]);
      EntriesWellFormedCons(es);
    }
  }

  lemma EntriesWellFormedCons(es: seq<Entry>)
    requires es != []
    ensures EntriesWellFormed(es) <==>
      AboveThreshold(Confidence(es[0])).Ok? && (IsConfident(es[0]) ==> "label" in es[0]) &&
      EntriesWellFormed(es[1..])
  {
    assert es == [es[0]] + es[1..];
  }

  // ---------------------------------------------------------------------
  // Lines 10-13 and 35: the caption text.

  /** base_caption.get('caption', '') for a dict, base_caption otherwise. */
  function CaptionValue(base: CaptionInput): PyValue {
    match base
    case Plain(v) => v
    case Record(fields) => if "caption" in fields then fields["caption"] else PyStr("")
  }

  /** re.sub at line 18 raises unless the caption is a str. */
  function CaptionText(base: CaptionInput): Result<string> {
    match CaptionValue(base)
    case PyStr(s) => Ok(s)
    case v => Err(TypeError("expected string or bytes-like object, got '" + TypeName(v) + "'"))
  }

  // ---------------------------------------------------------------------
  // Line 18: the boilerplate prefix.

  const BoilerplatePrefixes: seq<string> := ["a photo of", "an image of", "a picture of"]

  /** `s` starts with `p` when letters are compared without case
      (re.IGNORECASE; `p` is lower case). */
  predicate StartsWithIgnoringCase(s: string, p: string)
    ensures StartsWithIgnoringCase(s, p) ==> |p| <= |s|
  {
    p == [] || (s != [] && LowerChar(s[0]) == p[0] && StartsWithIgnoringCase(s[1..], p[1..]))
  }

  /** The recursive definition compares the first |p| characters. */
  lemma {:induction false} StartsWithIgnoringCaseSpec(s: string, p: string)
    ensures StartsWithIgnoringCase(s, p) <==>
      |p| <= |s| && forall i :: 0 <= i < |p| ==> LowerChar(s[i]) == p[i]
    decreases p
  {
    if p != [] && s != [] {
      StartsWithIgnoringCaseSpec(s[1..], p[1..]);
      if |p| <= |s| && forall i :: 0 <= i < |p| ==> LowerChar(s[i]) == p[i] {
        forall i | 0 <= i < |p| - 1 ensures LowerChar(s[1..][i]) == p[1..][i] {
          assert LowerChar(s[i + 1]) == p[i + 1];
        }
      }
    }
  }

  /** A match fixes the character at every position of the prefix. */
  lemma {:induction false} StartsAt(s: string, p: string, i: nat)
    requires StartsWithIgnoringCase(s, p) && i < |p|
    ensures i < |s| && LowerChar(s[i]) == p[i]
    decreases i
  {
    if i > 0 {
      StartsAt(s[1..], p[1..], i - 1);
    }
  }

  /** One differing character rules a match out. */
  lemma {:induction false} NotStartsAt(s: string, p: string, i: nat)
    requires i < |p| && i < |s| && LowerChar(s[i]) != p[i]
    ensures !StartsWithIgnoringCase(s, p)
    decreases i
  {
    if i > 0 {
      NotStartsAt(s[1..], p[1..], i - 1);
    }
  }

  /** Any text starts with its own lower-case form. */
  lemma {:induction false} StartsWithLower(q: string, t: string)
    ensures StartsWithIgnoringCase(q + t, Lower(q))
    decreases q
  {
    if q != [] {
      StartsWithLower(q[1..], t);
      assert (q + t)[1..] == q[1..] + t;
      assert Lower(q)[1..] == Lower(q[1..]);
    }
  }

  predicate HasBoilerplate(s: string) {
    exists p :: p in BoilerplatePrefixes && StartsWithIgnoringCase(s, p)
  }

  /** re.sub(r'^(a photo of|an image of|a picture of)\s*', '', s,
      flags=re.IGNORECASE). */
  function StripBoilerplate(s: string): string {
    if StartsWithIgnoringCase(s, "a photo of") then TrimLeft(s[10..])
    else if StartsWithIgnoringCase(s, "an image of") then TrimLeft(s[11..])
    else if StartsWithIgnoringCase(s, "a picture of") then TrimLeft(s[12..])
    else s
  }

  /** The three prefixes exclude one another: they differ in the second or
      the fourth character. */
  lemma BoilerplateExclusive(s: string)
    ensures StartsWithIgnoringCase(s, "an image of") ==>
      !StartsWithIgnoringCase(s, "a photo of") && !StartsWithIgnoringCase(s, "a picture of")
    ensures StartsWithIgnoringCase(s, "a picture of") ==> !StartsWithIgnoringCase(s, "a photo of")
  {
    if StartsWithIgnoringCase(s, "an image of") {
      StartsAt(s, "an image of", 1);
      NotStartsAt(s, "a photo of", 1);
      NotStartsAt(s, "a picture of", 1);
    }
    if StartsWithIgnoringCase(s, "a picture of") {
      StartsAt(s, "a picture of", 3);
      NotStartsAt(s, "a photo of", 3);
    }
  }

  /** The prefix is removed only at position 0, together with all the
      whitespace that follows it. */
  lemma StripBoilerplateSpec(s: string)
    ensures var r := StripBoilerplate(s); r == s[|s| - |r|..]
    ensures StartsWithIgnoringCase(s, "a photo of") ==> StripBoilerplate(s) == TrimLeft(s[10..])
    ensures StartsWithIgnoringCase(s, "an image of") ==> StripBoilerplate(s) == TrimLeft(s[11..])
    ensures StartsWithIgnoringCase(s, "a picture of") ==> StripBoilerplate(s) == TrimLeft(s[12..])
  {
    StripBoilerplateSuffix(s);
    BoilerplateExclusive(s);
  }

  lemma StripBoilerplateSuffix(s: string)
    ensures var r := StripBoilerplate(s); r == s[|s| - |r|..]
  {
    if StartsWithIgnoringCase(s, "a photo of") {
      TrimLeftAfter(s, 10);
    } else if StartsWithIgnoringCase(s, "an image of") {
      TrimLeftAfter(s, 11);
    } else if StartsWithIgnoringCase(s, "a picture of") {
      TrimLeftAfter(s, 12);
    }
  }

  lemma TrimLeftAfter(s: string, k: nat)
    requires k <= |s|
    ensures var r := TrimLeft(s[k..]); |r| <= |s| && r == s[|s| - |r|..]
  {
    var t := s[k..];
    var r := TrimLeft(t);
    TrimLeftSuffix(t);
    assert t[|t| - |r|..] == s[|s| - |r|..];
  }

  /** A caption is changed exactly when it starts with a prefix, so the
      same text later in the caption is left alone. */
  lemma StripBoilerplateChanges(s: string)
    ensures StripBoilerplate(s) != s <==> HasBoilerplate(s)
  {
    var r := StripBoilerplate(s);
    if StartsWithIgnoringCase(s, "a photo of") {
      assert "a photo of" in BoilerplatePrefixes && |r| < |s|;
    } else if StartsWithIgnoringCase(s, "an image of") {
      assert "an image of" in BoilerplatePrefixes && |r| < |s|;
    } else if StartsWithIgnoringCase(s, "a picture of") {
      assert "a picture of" in BoilerplatePrefixes && |r| < |s|;
    } else {
      forall p | p in BoilerplatePrefixes
        ensures !StartsWithIgnoringCase(s, p)
      {
      }
    }
  }

  /** Every prefix starts with 'a', so a caption that does not is left as
      it is. */
  lemma StripBoilerplateStartsWithA(s: string)
    requires s == [] || LowerChar(s[0]) != 'a'
    ensures StripBoilerplate(s) == s
  {
    if s != [] {
      NotStartsAt(s, "a photo of", 0);
      NotStartsAt(s, "an image of", 0);
      NotStartsAt(s, "a picture of", 0);
    }
  }

  /** At most one prefix goes: whatever follows the prefix and its
      whitespace is left as it is, even another prefix, and no word
      boundary is needed after it. */
  lemma StripBoilerplateOnce(q: string, t: string)
    requires Lower(q) in BoilerplatePrefixes
    ensures StripBoilerplate(q + t) == TrimLeft(t)
  {
    var s := q + t;
    var p := Lower(q);
    assert StartsWithIgnoringCase(s, p) && s[|p|..] == t by {
      StartsWithLower(q, t);
    }
    StripBoilerplateSpec(s);
  }

  // ---------------------------------------------------------------------
  // Lines 21-22: capitalisation.

  /** caption[0].upper() + caption[1:] when the caption is not empty. */
  function Capitalise(s: string): (r: string)
    ensures |r| == |s|
    ensures s != [] ==> r[0] == UpperChar(s[0]) && r[1..] == s[1..]
  {
    if s == [] then s else [UpperChar(s[0])] + s[1..]
  }

  /** Capitalising leaves the lower-cased caption, which the label filter
      and the substring test look at, unchanged, and is idempotent. */
  lemma CapitaliseKeepsLowerCase(s: string)
    ensures Lower(Capitalise(s)) == Lower(s)
    ensures Capitalise(Capitalise(s)) == Capitalise(s)
  {
    if s != [] {
      assert LowerChar(UpperChar(s[0])) == LowerChar(s[0]);
      assert Lower(Capitalise(s))[0] == Lower(s)[0];
    }
  }

  /** Lines 18-22 in sequence. */
  function Prepare(raw: string): string {
    Capitalise(StripBoilerplate(raw))
  }

  // ---------------------------------------------------------------------
  // Lines 43-55: _filter_relevant_labels.

  /** label.lower() not in generic_labels, negated. */
  predicate IsGeneric(name: string) {
    Lower(name) in GenericLabels
  }

  /** label.lower().replace('_', ' ').split() */
  function LabelWords(name: string): seq<string> {
    Split(UnderscoresToSpaces(Lower(name)))
  }

  /** caption.lower().split() */
  function CaptionWords(caption: string): seq<string> {
    Split(Lower(caption))
  }

  /** not any(word in caption_words for word in label_words) */
  predicate IsNovel(name: string, captionWords: seq<string>) {
    forall w :: w in LabelWords(name) ==> w !in captionWords
  }

  /** Line 45: the labels that are not generic fillers, in order. */
  function NonGeneric(labels: seq<string>): (r: seq<string>)
    ensures IsSubsequence(r, labels)
    ensures forall l :: l in r <==> l in labels && !IsGeneric(l)
  {
    if labels == [] then []
    else if IsGeneric(labels[0]) then NonGeneric(labels[1..])
    else [labels[0]] + NonGeneric(labels[1..])
  }

  /** Every label that is not generic is kept as many times as it occurs. */
  lemma {:induction false} NonGenericCounts(labels: seq<string>)
    ensures forall l :: multiset(NonGeneric(labels))[l] == if IsGeneric(l) then 0 else multiset(labels)[l]
  {
    if labels != [] {
      NonGenericCounts(labels[1..]);
      assert labels == [labels[0]] + labels[1..];
    }
  }

  /** Lines 48-53 as a function: the labels none of whose words is a
      caption word, in order. */
  function NovelLabels(labels: seq<string>, captionWords: seq<string>): (r: seq<string>)
    ensures IsSubsequence(r, labels)
    ensures forall l :: l in r <==> l in labels && IsNovel(l, captionWords)
  {
    if labels == [] then []
    else if IsNovel(labels[0], captionWords) then [labels[0]] + NovelLabels(labels[1..], captionWords)
    else NovelLabels(labels[1..], captionWords)
  }

  /** Every novel label is kept as many times as it occurs. */
  lemma {:induction false} NovelLabelsCounts(labels: seq<string>, captionWords: seq<string>)
    ensures forall l :: multiset(NovelLabels(labels, captionWords))[l] ==
                       if IsNovel(l, captionWords) then multiset(labels)[l] else 0
  {
    if labels != [] {
      NovelLabelsCounts(labels[1..], captionWords);
      assert labels == [labels[0]] + labels[1..];
    }
  }

  /** One more turn of the loop appends the label when it is novel. */
  lemma {:induction false} NovelLabelsAppend(labels: seq<string>, captionWords: seq<string>, l: string)
    ensures NovelLabels(labels + [l], captionWords) ==
            NovelLabels(labels, captionWords) + (if IsNovel(l, captionWords) then [l] else [])
  {
    if labels != [] {
      assert (labels + [l])[1..] == labels[1..] + [l];
      NovelLabelsAppend(labels[1..], captionWords, l);
    }
  }

  /** What _filter_relevant_labels returns. */
  function RelevantLabels(labels: seq<string>, caption: string): seq<string> {
    Take(NovelLabels(NonGeneric(labels), CaptionWords(caption)), MaxRelevant)
  }

  /** _filter_relevant_labels, with the loop of lines 50-53. */
  method FilterRelevantLabels(labels: seq<string>, caption: string) returns (relevant: seq<string>)
    ensures relevant == RelevantLabels(labels, caption)
  {
    var filtered := NonGeneric(labels);
    var captionWords := CaptionWords(caption);
    var found: seq<string> := [];
    for i := 0 to |filtered|
      invariant found == NovelLabels(filtered[..i], captionWords)
    {
      var name := filtered[i];
      NovelLabelsAppend(filtered[..i], captionWords, name);
      assert filtered[..i + 1] == filtered[..i] + [name];
      if IsNovel(name, captionWords) {
        found := found + [name];
      }
    }
    assert filtered[..|filtered|] == filtered;
    relevant := Take(found, MaxRelevant);
  }

  /** The guarantees of _filter_relevant_labels: at most five labels, a
      subsequence of the input, none generic, none with a word that is a
      whitespace token of the lower-cased caption; and they are the first
      min(5, n) of the n labels that qualify, so when fewer than five come
      out, nothing was cut and every such label is there. */
  lemma RelevantLabelsSpec(labels: seq<string>, caption: string)
    ensures var r, q := RelevantLabels(labels, caption), NovelLabels(NonGeneric(labels), CaptionWords(caption));
      |r| == (if |q| < MaxRelevant then |q| else MaxRelevant) && r == q[..|r|]
    ensures var r := RelevantLabels(labels, caption);
      |r| <= MaxRelevant &&
      IsSubsequence(r, labels) &&
      (forall l :: l in r ==> l in labels && !IsGeneric(l) && IsNovel(l, CaptionWords(caption))) &&
      (|r| < MaxRelevant ==>
         forall l :: l in labels && !IsGeneric(l) && IsNovel(l, CaptionWords(caption)) ==> l in r)
  {
    var words := CaptionWords(caption);
    var filtered := NonGeneric(labels);
    var novel := NovelLabels(filtered, words);
    var r := RelevantLabels(labels, caption);
    PrefixOfSubsequence(novel, filtered, |r|);
    SubsequenceTransitive(r, filtered, labels);
    assert forall l :: l in r ==> l in novel;
  }

  lemma {:induction false} SubsequenceTransitive<T>(a: seq<T>, b: seq<T>, c: seq<T>)
    requires IsSubsequence(a, b) && IsSubsequence(b, c)
    ensures IsSubsequence(a, c)
    decreases |c|
  {
    if a != [] {
      assert b != [];
      assert c != [];
      if b[0] == c[0] && IsSubsequence(b[1..], c[1..]) {
        if a[0] == b[0] && IsSubsequence(a[1..], b[1..]) {
          SubsequenceTransitive(a[1..], b[1..], c[1..]);
        } else {
          SubsequenceTransitive(a, b[1..], c[1..]);
        }
      } else {
        SubsequenceTransitive(a, b, c[1..]);
      }
    }
  }

  // ---------------------------------------------------------------------
  // Lines 27-30: the sentence naming the top relevant label.

  /** The condition of lines 27 and 29. */
  predicate AddsContext(caption: string, relevant: seq<string>) {
    relevant != [] && !Contains(Lower(caption), Lower(UnderscoresToSpaces(relevant[0])))
  }

  function AddContext(caption: string, relevant: seq<string>): string {
    if relevant == [] then caption
    else
      var top := UnderscoresToSpaces(relevant[0]);
      if Contains(Lower(caption), Lower(top)) then caption
      else TrimTrailingDots(caption) + ContextLead + top + "."
  }

  /** The sentence is appended exactly when there is a relevant label whose
      text the caption does not already contain; it then follows the
      caption stripped of all its trailing '.'. */
  lemma AddContextSpec(caption: string, relevant: seq<string>)
    ensures AddContext(caption, relevant) != caption <==> AddsContext(caption, relevant)
    ensures AddsContext(caption, relevant) ==>
      exists k :: 0 <= k <= |caption| &&
        (forall j :: k <= j < |caption| ==> caption[j] == '.') &&
        (k > 0 ==> caption[k - 1] != '.') &&
        AddContext(caption, relevant) ==
          caption[..k] + ContextLead + UnderscoresToSpaces(relevant[0]) + "."
  {
    if AddsContext(caption, relevant) {
      var t := TrimTrailingDots(caption);
      var r := AddContext(caption, relevant);
      assert r == t + ContextLead + UnderscoresToSpaces(relevant[0]) + ".";
      assert r[|t| + 1] == ' ';
      assert |caption| > |t| + 1 ==> caption[|t| + 1] == '.';
      assert caption[..|t|] == t;
    }
  }

  // ---------------------------------------------------------------------
  // Lines 57-62: _clean_caption.

  predicate IsTerminator(c: char) {
    c == '.' || c == '!' || c == '?'
  }

  /** Lines 59-60: append '.' unless the text is empty or already ends
      with '.', '!' or '?'. */
  function Terminate(s: string): string {
    if s != [] && !IsTerminator(s[|s| - 1]) then s + "." else s
  }

  /** What _clean_caption guarantees of its output. */
  predicate IsClean(s: string) {
    SingleSpaced(s) && NoDoubleDot(s) &&
    (s != [] ==> !IsSpace(s[0]) && IsTerminator(s[|s| - 1]))
  }

  /** _clean_caption: whitespace runs collapsed, the terminator appended,
      dot runs collapsed, then stripped, in that order. */
  function CleanCaption(s: string): string {
    Strip(CollapseDots(Terminate(CollapseSpaces(s))))
  }

  lemma TerminateSpec(s: string)
    requires SingleSpaced(s)
    ensures var t := Terminate(s);
      SingleSpaced(t) && (t == [] <==> s == []) && (t != [] ==> IsTerminator(t[|t| - 1]))
  {
    var t := Terminate(s);
    if t != s {
      assert forall i :: 0 <= i < |s| ==> t[i] == s[i];
    }
  }

  /** Stripping a single-spaced text without ".." that ends in a
      terminator leaves a clean text, empty only if the text was. */
  lemma StripGivesClean(d: string)
    requires SingleSpaced(d) && NoDoubleDot(d) && (d != [] ==> IsTerminator(d[|d| - 1]))
    ensures IsClean(Strip(d))
    ensures Strip(d) == [] <==> d == []
  {
    var left := TrimLeft(d);
    var k := |d| - |left|;
    assert left == d[k..|d|] by {
      TrimLeftSuffix(d);
    }
    SubstringKeepsShape(d, k, |d|);
    assert d != [] ==> left != [] && left[|left| - 1] == d[|d| - 1] by {
      if d != [] {
        assert !IsSpace(d[|d| - 1]);
        TrimLeftDropsSpaces(d);
        assert d[..k] != d;
      }
    }
    assert TrimRight(left) == left;
  }

  /** The output of _clean_caption holds only single spaces, no "..", no
      whitespace at either end, and ends in '.', '!' or '?' unless it is
      empty, which happens exactly for the empty input. */
  lemma CleanCaptionSpec(s: string)
    ensures IsClean(CleanCaption(s))
    ensures CleanCaption(s) == [] <==> s == []
  {
    var spaced := CollapseSpaces(s);
    CollapseSpacesSingleSpaced(s);
    TerminateSpec(spaced);
    var ended := Terminate(spaced);
    var dotted := CollapseDots(ended);
    CollapseDotsKeepsSpacing(ended);
    CollapseDotsNoDoubleDot(ended);
    assert dotted != [] ==> IsTerminator(dotted[|dotted| - 1]);
    StripGivesClean(dotted);
  }

  /** _clean_caption, reassigning the caption step by step. */
  method Clean(caption: string) returns (cleaned: string)
    ensures cleaned == CleanCaption(caption)
  {
    cleaned := CollapseSpaces(caption);
    if cleaned != [] && !IsTerminator(cleaned[|cleaned| - 1]) {
      cleaned := cleaned + ".";
    }
    assert cleaned == Terminate(CollapseSpaces(caption));
    cleaned := CollapseDots(cleaned);
    cleaned := Strip(cleaned);
  }

  /** A clean caption is its own cleaning. */
  lemma CleanFixpoint(s: string)
    requires IsClean(s)
    ensures CleanCaption(s) == s
  {
    CollapseSpacesFixpoint(s);
    assert Terminate(s) == s;
    CollapseDotsFixpoint(s);
    StripFixpoint(s);
  }

  /** Cleaning twice is cleaning once. */
  lemma CleanIdempotent(s: string)
    ensures CleanCaption(CleanCaption(s)) == CleanCaption(s)
  {
    CleanCaptionSpec(s);
    CleanFixpoint(CleanCaption(s));
  }

  // ---------------------------------------------------------------------
  // Lines 7-41: enhance_caption.

  /** Line 45 calls label.lower() on every kept label, which raises for the
      first one that is not a str. */
  function LabelNames(vs: seq<PyValue>): (r: Result<seq<string>>)
    ensures r.Ok? <==> forall v :: v in vs ==> v.PyStr?
    ensures r.Ok? ==> |r.value| == |vs| && forall i :: 0 <= i < |vs| ==> vs[i] == PyStr(r.value[i])
  {
    if vs == [] then Ok([])
    else if !vs[0].PyStr? then Err(AttributeError(TypeName(vs[0]), "lower"))
    else match LabelNames(vs[1..])
      case Err(f) => Err(f)
      case Ok(rest) => Ok([vs[0].s] + rest)
  }

  /** The steps of enhance_caption that can raise, in the order Python
      evaluates them: the comprehension of line 15, re.sub at line 18,
      label.lower() at line 45. */
  function Inputs(base: CaptionInput, labels: ClassifierOutput): Result<(string, seq<string>)> {
    match LabelList(labels)
    case Err(f) => Err(f)
    case Ok(kept) =>
      match CaptionText(base)
      case Err(f) => Err(f)
      case Ok(raw) =>
        match LabelNames(kept)
        case Err(f) => Err(f)
        case Ok(names) => Ok((raw, names))
  }

  /** enhance_caption as a function of its two arguments. */
  function Enhance(base: CaptionInput, labels: ClassifierOutput): EnhancementResult {
    match Inputs(base, labels)
    case Err(f) => EnhancementError(ErrorPrefix + Describe(f))
    case Ok((raw, names)) =>
      var caption := Prepare(raw);
      var relevant := RelevantLabels(names, caption);
      Enhanced(raw, CleanCaption(AddContext(caption, relevant)), Take(relevant, MaxUsed))
  }

  /** enhance_caption, reassigning the local caption step by step. */
  method EnhanceCaption(base: CaptionInput, labels: ClassifierOutput) returns (result: EnhancementResult)
    ensures result == Enhance(base, labels)
  {
    var kept := LabelList(labels);
    if kept.Err? {
      return EnhancementError(ErrorPrefix + Describe(kept.fault));
    }
    var text := CaptionText(base);
    if text.Err? {
      return EnhancementError(ErrorPrefix + Describe(text.fault));
    }
    var caption := StripBoilerplate(text.value);
    if caption != [] {
      caption := [UpperChar(caption[0])] + caption[1..];
    }
    var names := LabelNames(kept.value);
    if names.Err? {
      return EnhancementError(ErrorPrefix + Describe(names.fault));
    }
    var relevant := FilterRelevantLabels(names.value, caption);
    if relevant != [] {
      var top := UnderscoresToSpaces(relevant[0]);
      if !Contains(Lower(caption), Lower(top)) {
        caption := TrimTrailingDots(caption) + ContextLead + top + ".";
      }
    }
    caption := Clean(caption);
    result := Enhanced(text.value, caption, Take(relevant, MaxUsed));
  }

  /** No step raises: the classifier gave a list whose entries are well
      formed, the caption is a str, and every kept label is a str. */
  predicate Faultless(base: CaptionInput, labels: ClassifierOutput) {
    labels.Ranked? && EntriesWellFormed(labels.entries) &&
    CaptionValue(base).PyStr? &&
    forall e: Entry :: e in labels.entries && IsConfident(e) && "label" in e ==> e["label"].PyStr?
  }

  /** enhance_caption reports an error exactly when one of its steps
      raises, and then returns only a message that starts with
      "Caption enhancement failed: ". */
  lemma EnhanceErrorSpec(base: CaptionInput, labels: ClassifierOutput)
    ensures Enhance(base, labels).EnhancementError? <==> !Faultless(base, labels)
    ensures Enhance(base, labels).EnhancementError? ==> ErrorPrefix <= Enhance(base, labels).error
  {
    if labels.Ranked? {
      KeptLabelsCharacterised(labels.entries);
      if KeptLabels(labels.entries).Ok? {
        KeptLabelsAreStrings(labels.entries);
      }
    }
  }

  /** Line 45 raises for none of the kept labels exactly when every
      confident entry's label is a str. */
  lemma KeptLabelsAreStrings(es: seq<Entry>)
    requires KeptLabels(es).Ok?
    ensures LabelNames(KeptLabels(es).value).Ok? <==>
      forall e: Entry :: e in es && IsConfident(e) && "label" in e ==> e["label"].PyStr?
  {
    KeptLabelsCharacterised(es);
    var kept, conf := KeptLabels(es).value, ConfidentEntries(es);
    forall e: Entry | e in es && IsConfident(e) && "label" in e && (forall v :: v in kept ==> v.PyStr?)
      ensures e["label"].PyStr?
    {
      assert e in conf;
      var i :| 0 <= i < |conf| && conf[i] == e;
      assert kept[i] in kept;
    }
    forall v | v in kept && (forall e: Entry :: e in es && IsConfident(e) && "label" in e ==> e["label"].PyStr?)
      ensures v.PyStr?
    {
      var i :| 0 <= i < |kept| && kept[i] == v;
      assert conf[i] in conf;
    }
  }

  /** When no step raises, the caption text is the caption value and the
      label names are the labels of the confident entries, in order. */
  lemma InputsSpec(base: CaptionInput, labels: ClassifierOutput)
    requires Inputs(base, labels).Ok?
    ensures labels.Ranked?
    ensures var (raw, names) := Inputs(base, labels).value;
      var conf := ConfidentEntries(labels.entries);
      CaptionValue(base) == PyStr(raw) &&
      |names| == |conf| &&
      forall i :: 0 <= i < |names| ==> "label" in conf[i] && conf[i]["label"] == PyStr(names[i])
  {
    KeptLabelsCharacterised(labels.entries);
  }

  /** On success: the original caption is the caption text itself (the
      record's 'caption' field, '' when absent); the enhanced caption is
      the cleaning of the prepared caption with its context sentence, and
      so is clean; the used labels are the first min(3, n) of the n
      relevant labels, in the classifier's order, each the original
      spelling of a label given with confidence above 0.1, not generic,
      and with no word among the caption's tokens. */
  lemma EnhanceSuccessSpec(base: CaptionInput, labels: ClassifierOutput)
    requires Enhance(base, labels).Enhanced?
    ensures var r := Enhance(base, labels);
      var relevant := RelevantLabels(Inputs(base, labels).value.1, Prepare(r.originalCaption));
      r.enhancedCaption == CleanCaption(AddContext(Prepare(r.originalCaption), relevant)) &&
      |r.usedLabels| == (if |relevant| < MaxUsed then |relevant| else MaxUsed) &&
      r.usedLabels == relevant[..|r.usedLabels|]
    ensures var r := Enhance(base, labels);
      CaptionValue(base) == PyStr(r.originalCaption) &&
      IsClean(r.enhancedCaption) &&
      |r.usedLabels| <= MaxUsed &&
      IsSubsequence(r.usedLabels, Inputs(base, labels).value.1) &&
      forall l :: l in r.usedLabels ==>
        !IsGeneric(l) && IsNovel(l, CaptionWords(Prepare(r.originalCaption))) &&
        exists e: Entry :: e in labels.entries && IsConfident(e) && "label" in e && e["label"] == PyStr(l)
  {
    var (raw, names) := Inputs(base, labels).value;
    InputsSpec(base, labels);
    var conf := ConfidentEntries(labels.entries);
    var caption := Prepare(raw);
    var relevant := RelevantLabels(names, caption);
    var r := Enhance(base, labels);
    assert r == Enhanced(raw, CleanCaption(AddContext(caption, relevant)), Take(relevant, MaxUsed));
    CleanCaptionSpec(AddContext(caption, relevant));
    RelevantLabelsSpec(names, caption);
    PrefixOfSubsequence(relevant, names, |r.usedLabels|);
    forall l | l in r.usedLabels
      ensures l in names && !IsGeneric(l) && IsNovel(l, CaptionWords(caption))
      ensures exists e: Entry :: e in labels.entries && IsConfident(e) && "label" in e && e["label"] == PyStr(l)
    {
      assert l in relevant;
      var i :| 0 <= i < |names| && names[i] == l;
      assert conf[i] in conf;
    }
  }
}
