/** Concrete runs of the caption enhancer: the example at the bottom of
    enhancer.py and the edge cases its code decides. */
module EnhancerDemo {
  import opened Text
  import opened Seqs
  import opened Enhancer

  // ---------------------------------------------------------------------
  // Texts made of words joined by single spaces.

  /** ' '.join(ws) */
  function Sentence(ws: seq<string>): string
    decreases |ws|
  {
    if ws == [] then []
    else if |ws| == 1 then ws[0]
    else ws[0] + " " + Sentence(ws[1..])
  }

  predicate Word(w: string) {
    w != [] && NoSpace(w)
  }

  /** A word that can end a caption untouched: no whitespace, no '..', and
      no final '.'. */
  predicate PlainWord(w: string) {
    Word(w) && NoDoubleDot(w) && w[|w| - 1] != '.'
  }

  /** Non-empty, single-spaced, without '..', neither starting nor ending in
      whitespace, and not ending in '.'. */
  predicate Phrase(s: string) {
    s != [] && SingleSpaced(s) && NoDoubleDot(s) &&
    !IsSpace(s[0]) && !IsSpace(s[|s| - 1]) && s[|s| - 1] != '.'
  }

  lemma LowerStep(w: string, t: string)
    requires Lower(w) == w && Lower(t) == t
    ensures Lower(w + " " + t) == w + " " + t
  {
    LowerAppend(w + " ", t);
    LowerAppend(w, " ");
  }

  lemma SplitStep(w: string, t: string)
    requires Word(w)
    ensures Split(w + " " + t) == [w] + Split(t)
  {
    assert w + " " + t == w + ([' '] + t);
    SplitWordThen(w, [' '] + t);
    SplitSpaceThen(' ', t);
  }

  lemma AbsentStep(w: string, t: string, needle: string)
    requires |w| < |needle| && NoSpace(needle) && !Contains(t, needle)
    ensures !Contains(w + " " + t, needle)
  {
    assert w + " " + t == w + [' '] + t;
    NotContainsShorter(w, needle);
    if Contains(w + [' '] + t, needle) {
      ContainsAcrossSpace(w, ' ', t, needle);
    }
  }

  lemma WordPhrase(w: string)
    requires PlainWord(w)
    ensures Phrase(w)
  {
  }

  lemma PhraseStep(w: string, t: string)
    requires PlainWord(w) && Phrase(t)
    ensures Phrase(w + " " + t)
  {
    SingleSpacedAppend(w, " ");
    SingleSpacedAppend(w + " ", t);
    NoDoubleDotAppend(w, " ");
    NoDoubleDotAppend(w + " ", t);
    assert (w + " " + t)[0] == w[0];
    assert (w + " " + t)[|w + " " + t| - 1] == t[|t| - 1];
  }

  /** Splitting a sentence gives back its words. */
  lemma {:induction false} SentenceSplit(ws: seq<string>)
    requires forall w :: w in ws ==> Word(w)
    ensures Split(Sentence(ws)) == ws
    decreases |ws|
  {
    if |ws| == 1 {
      assert ws[0] in ws;
      SplitWord(ws[0]);
    } else if |ws| > 1 {
      assert forall w :: w in ws[1..] ==> w in ws;
      assert ws[0] in ws;
      SentenceSplit(ws[1..]);
      SplitStep(ws[0], Sentence(ws[1..]));
    }
  }

  /** A sentence of lower-case words is lower case. */
  lemma {:induction false} SentenceLower(ws: seq<string>)
    requires forall w :: w in ws ==> Lower(w) == w
    ensures Lower(Sentence(ws)) == Sentence(ws)
    decreases |ws|
  {
    if |ws| > 1 {
      assert forall w :: w in ws[1..] ==> w in ws;
      assert ws[0] in ws;
      SentenceLower(ws[1..]);
      LowerStep(ws[0], Sentence(ws[1..]));
    }
  }

  /** A word longer than every word of a sentence is not a substring of
      it. */
  lemma {:induction false} SentenceAbsent(ws: seq<string>, needle: string)
    requires needle != [] && NoSpace(needle) && forall w :: w in ws ==> |w| < |needle|
    ensures !Contains(Sentence(ws), needle)
    decreases |ws|
  {
    if |ws| == 1 {
      assert ws[0] in ws;
      NotContainsShorter(ws[0], needle);
    } else if |ws| > 1 {
      assert forall w :: w in ws[1..] ==> w in ws;
      assert ws[0] in ws;
      SentenceAbsent(ws[1..], needle);
      AbsentStep(ws[0], Sentence(ws[1..]), needle);
    }
  }

  /** A sentence of plain words is a phrase. */
  lemma {:induction false} SentencePhrase(ws: seq<string>)
    requires ws != [] && forall w :: w in ws ==> PlainWord(w)
    ensures Phrase(Sentence(ws))
    decreases |ws|
  {
    assert ws[0] in ws;
    if |ws| > 1 {
      assert forall w :: w in ws[1..] ==> w in ws;
      SentencePhrase(ws[1..]);
      PhraseStep(ws[0], Sentence(ws[1..]));
    } else {
      WordPhrase(ws[0]);
    }
  }

  // ---------------------------------------------------------------------
  // The example of enhancer.py:65-79.


  const DemoWords: seq<string> := ["a", "young", "boy", "in", "a", "yellow", "shirt", "and", "blue", "jeans"]

  // The caption built word by word, so that each step is a definition.
  const T9: string := "jeans"
  const T8: string := "blue" + " " + T9
  const T7: string := "and" + " " + T8
  const T6: string := "shirt" + " " + T7
  const T5: string := "yellow" + " " + T6
  const T4: string := "a" + " " + T5
  const T3: string := "in" + " " + T4
  const T2: string := "boy" + " " + T3
  const T1: string := "young" + " " + T2
  const DemoCaption: string := "a" + " " + T1

  /** The caption of enhancer.py:67. */
  lemma DemoCaptionText()
    ensures DemoCaption == "a young " + "boy in a " + "yellow shirt " + "and blue jeans"
  {
  }

  lemma SentenceT9()
    ensures Sentence(DemoWords[9..]) == T9
  {
  }

  lemma SentenceT8()
    ensures Sentence(DemoWords[8..]) == T8
  {
    SentenceT9();
    assert DemoWords[8..][1..] == DemoWords[9..];
  }

  lemma SentenceT7()
    ensures Sentence(DemoWords[7..]) == T7
  {
    SentenceT8();
    assert DemoWords[7..][1..] == DemoWords[8..];
  }

  lemma SentenceT6()
    ensures Sentence(DemoWords[6..]) == T6
  {
    SentenceT7();
    assert DemoWords[6..][1..] == DemoWords[7..];
  }

  lemma SentenceT5()
    ensures Sentence(DemoWords[5..]) == T5
  {
    SentenceT6();
    assert DemoWords[5..][1..] == DemoWords[6..];
  }

  lemma SentenceT4()
    ensures Sentence(DemoWords[4..]) == T4
  {
    SentenceT5();
    assert DemoWords[4..][1..] == DemoWords[5..];
  }

  lemma SentenceT3()
    ensures Sentence(DemoWords[3..]) == T3
  {
    SentenceT4();
    assert DemoWords[3..][1..] == DemoWords[4..];
  }

  lemma SentenceT2()
    ensures Sentence(DemoWords[2..]) == T2
  {
    SentenceT3();
    assert DemoWords[2..][1..] == DemoWords[3..];
  }

  lemma SentenceT1()
    ensures Sentence(DemoWords[1..]) == T1
  {
    SentenceT2();
    assert DemoWords[1..][1..] == DemoWords[2..];
  }

  /** The caption is the sentence of its ten words. */
  lemma DemoSentence()
    ensures Sentence(DemoWords) == DemoCaption
  {
    SentenceT1();
  }

  lemma DemoWordsPlain()
    ensures forall w :: w in DemoWords ==> PlainWord(w)
  {
  }

  lemma DemoWordsLower()
    ensures forall w :: w in DemoWords ==> Lower(w) == w
  {
  }

  lemma DemoWordsShort()
    ensures forall w :: w in DemoWords ==> |w| < 10
  {
  }

  /** The lower-cased caption is the caption itself. */
  lemma DemoLower()
    ensures Lower(DemoCaption) == DemoCaption
  {
    DemoSentence();
    DemoWordsLower();
    SentenceLower(DemoWords);
  }

  /** The caption's tokens are its ten words. */
  lemma DemoSplit()
    ensures Split(DemoCaption) == DemoWords
  {
    DemoSentence();
    DemoWordsPlain();
    SentenceSplit(DemoWords);
  }

  /** No caption word is as long as "sweatshirt", so the caption does not
      contain it. */
  lemma DemoAbsent()
    ensures !Contains(DemoCaption, L1)
  {
    assert NoSpace(L1) && |L1| == 10;
    DemoSentence();
    DemoWordsShort();
    SentenceAbsent(DemoWords, L1);
  }

  // The labels of enhancer.py:68-74.

  const L1: string := "sweatshirt"
  const L2: string := "sunglass"
  const L3: string := "maraca"
  const L4: string := "jersey, T-shirt, tee shirt"
  const L5: string := "sunglasses, dark glasses, shades"

  const E1: Entry := map["label" := PyStr(L1), "confidence" := PyFloat(0.9)]
  const E2: Entry := map["label" := PyStr(L2), "confidence" := PyFloat(0.8)]
  const E3: Entry := map["label" := PyStr(L3), "confidence" := PyFloat(0.7)]
  const E4: Entry := map["label" := PyStr(L4), "confidence" := PyFloat(0.6)]
  const E5: Entry := map["label" := PyStr(L5), "confidence" := PyFloat(0.5)]

  const DemoEntries: seq<Entry> := [E1, E2, E3, E4, E5]

  const DemoLabelNames: seq<string> := [L1, L2, L3, L4, L5]

  lemma KeptStep(e: Entry, rest: seq<Entry>, v: PyValue, vs: seq<PyValue>)
    requires IsConfident(e) && "label" in e && e["label"] == v && KeptLabels(rest) == Ok(vs)
    ensures KeptLabels([e] + rest) == Ok([v] + vs)
  {
    assert ([e] + rest)[1..] == rest;
  }

  /** Every entry is above the threshold, so all five labels are kept. */
  lemma DemoKept()
    ensures KeptLabels(DemoEntries) == Ok([PyStr(L1), PyStr(L2), PyStr(L3), PyStr(L4), PyStr(L5)])
  {
    var r5: seq<Entry> := [];
    var v5: seq<PyValue> := [];
    assert KeptLabels(r5) == Ok(v5);
    KeptStep(E5, r5, PyStr(L5), v5);
    var r4, v4 := [E5] + r5, [PyStr(L5)] + v5;
    KeptStep(E4, r4, PyStr(L4), v4);
    var r3, v3 := [E4] + r4, [PyStr(L4)] + v4;
    KeptStep(E3, r3, PyStr(L3), v3);
    var r2, v2 := [E3] + r3, [PyStr(L3)] + v3;
    KeptStep(E2, r2, PyStr(L2), v2);
    var r1, v1 := [E2] + r2, [PyStr(L2)] + v2;
    KeptStep(E1, r1, PyStr(L1), v1);
    assert DemoEntries == [E1] + r1;
    assert [PyStr(L1)] + v1 == [PyStr(L1), PyStr(L2), PyStr(L3), PyStr(L4), PyStr(L5)];
  }

  lemma DemoNames()
    ensures LabelNames([PyStr(L1), PyStr(L2), PyStr(L3), PyStr(L4), PyStr(L5)]) == Ok([L1, L2, L3, L4, L5])
  {
    var vs := [PyStr(L1), PyStr(L2), PyStr(L3), PyStr(L4), PyStr(L5)];
    var r := LabelNames(vs);
    assert r.Ok?;
    assert r.value == [L1, L2, L3, L4, L5] by {
      assert vs[0] == PyStr(r.value[0]) && vs[1] == PyStr(r.value[1]) && vs[2] == PyStr(r.value[2]);
      assert vs[3] == PyStr(r.value[3]) && vs[4] == PyStr(r.value[4]);
    }
  }

  lemma NonGenericStep(l: string, rest: seq<string>)
    requires !IsGeneric(l)
    ensures NonGeneric([l] + rest) == [l] + NonGeneric(rest)
  {
    assert ([l] + rest)[1..] == rest;
  }

  lemma NovelStep(l: string, rest: seq<string>, captionWords: seq<string>)
    ensures NovelLabels([l] + rest, captionWords) ==
            (if IsNovel(l, captionWords) then [l] else []) + NovelLabels(rest, captionWords)
  {
    assert ([l] + rest)[1..] == rest;
  }

  /** The generic fillers have four to six letters. */
  lemma NotGenericByLength(name: string)
    requires |name| < 4 || |name| > 6
    ensures !IsGeneric(name)
  {
  }

  lemma NonGeneric5()
    ensures NonGeneric(DemoLabelNames[4..]) == DemoLabelNames[4..]
  {
    NotGenericByLength(L5);
    NonGenericStep(L5, []);
  }

  lemma NonGeneric4()
    ensures NonGeneric(DemoLabelNames[3..]) == DemoLabelNames[3..]
  {
    NonGeneric5();
    NotGenericByLength(L4);
    NonGenericStep(L4, DemoLabelNames[4..]);
  }

  lemma NonGeneric3()
    ensures NonGeneric(DemoLabelNames[2..]) == DemoLabelNames[2..]
  {
    NonGeneric4();
    assert Lower(L3)[0] == 'm';
    NonGenericStep(L3, DemoLabelNames[3..]);
  }

  lemma NonGeneric2()
    ensures NonGeneric(DemoLabelNames[1..]) == DemoLabelNames[1..]
  {
    NonGeneric3();
    NotGenericByLength(L2);
    NonGenericStep(L2, DemoLabelNames[2..]);
  }

  /** None of the five labels is a generic filler. */
  lemma DemoNonGeneric()
    ensures NonGeneric(DemoLabelNames) == DemoLabelNames
  {
    NonGeneric2();
    NotGenericByLength(L1);
    NonGenericStep(L1, DemoLabelNames[1..]);
    assert DemoLabelNames == [L1] + DemoLabelNames[1..];
  }

  /** A one-word label is novel unless it is itself a caption word. */
  lemma SingleWordNovelIn(name: string, captionWords: seq<string>)
    requires name != [] && NoSpace(name) && Lower(name) == name
    requires forall i :: 0 <= i < |name| ==> name[i] != '_'
    requires name !in captionWords
    ensures IsNovel(name, captionWords)
  {
    assert UnderscoresToSpaces(name) == name;
    SplitWord(name);
  }

  lemma SingleWordNovel(name: string)
    requires name != [] && NoSpace(name) && Lower(name) == name
    requires forall i :: 0 <= i < |name| ==> name[i] != '_'
    requires name !in DemoWords
    ensures IsNovel(name, DemoWords)
  {
    SingleWordNovelIn(name, DemoWords);
  }

  const N4: string := "jersey, t-shirt, tee"

  /** "jersey, T-shirt, tee shirt" has the word "shirt", which the caption
      has too. */
  lemma DemoJerseyNotNovel()
    ensures !IsNovel(L4, DemoWords)
  {
    assert UnderscoresToSpaces(Lower(L4)) == N4 + [' '] + "shirt";
    SplitWord("shirt");
    SplitMembership(N4, ' ', "shirt", "shirt");
    assert "shirt" in DemoWords;
  }

  const ShadesSpaced: string := "sunglasses," + " " + ("dark" + " " + ("glasses," + " " + "shades"))

  lemma ShadesText()
    ensures UnderscoresToSpaces(Lower(L5)) == ShadesSpaced
  {
  }

  lemma ShadesWords()
    ensures LabelWords(L5) == ["sunglasses,", "dark", "glasses,", "shades"]
  {
    ShadesText();
    SplitFour("sunglasses,", "dark", "glasses,", "shades");
  }

  lemma ShadesNotCaptionWords()
    ensures forall w :: w in ["sunglasses,", "dark", "glasses,", "shades"] ==> w !in DemoWords
  {
  }

  lemma NovelL1()
    ensures IsNovel(L1, DemoWords)
  {
    SingleWordNovel(L1);
  }

  lemma NovelL2()
    ensures IsNovel(L2, DemoWords)
  {
    SingleWordNovel(L2);
  }

  lemma NovelL3()
    ensures IsNovel(L3, DemoWords)
  {
    SingleWordNovel(L3);
  }

  lemma NovelL5()
    ensures IsNovel(L5, DemoWords)
  {
    ShadesWords();
    ShadesNotCaptionWords();
  }

  lemma Novel5()
    ensures NovelLabels(DemoLabelNames[4..], DemoWords) == [L5]
  {
    NovelL5();
    NovelStep(L5, [], DemoWords);
  }

  lemma Novel4()
    ensures NovelLabels(DemoLabelNames[3..], DemoWords) == [L5]
  {
    Novel5();
    DemoJerseyNotNovel();
    NovelStep(L4, DemoLabelNames[4..], DemoWords);
    assert DemoLabelNames[3..] == [L4] + DemoLabelNames[4..];
  }

  lemma Novel3()
    ensures NovelLabels(DemoLabelNames[2..], DemoWords) == [L3, L5]
  {
    Novel4();
    NovelL3();
    NovelStep(L3, DemoLabelNames[3..], DemoWords);
    assert DemoLabelNames[2..] == [L3] + DemoLabelNames[3..];
  }

  lemma Novel2()
    ensures NovelLabels(DemoLabelNames[1..], DemoWords) == [L2, L3, L5]
  {
    Novel3();
    NovelL2();
    NovelStep(L2, DemoLabelNames[2..], DemoWords);
    assert DemoLabelNames[1..] == [L2] + DemoLabelNames[2..];
  }

  /** The labels that survive the word filter: all but the jersey, whose
      word "shirt" the caption has. */
  lemma DemoNovel()
    ensures NovelLabels(DemoLabelNames, DemoWords) == [L1, L2, L3, L5]
  {
    Novel2();
    NovelL1();
    NovelStep(L1, DemoLabelNames[1..], DemoWords);
    assert DemoLabelNames == [L1] + DemoLabelNames[1..];
  }

  lemma DemoCaptionStart()
    ensures |DemoCaption| > 12 && DemoCaption[0] == 'a' && DemoCaption[1] == ' ' && DemoCaption[2] == 'y'
    ensures DemoCaption[1..] == " " + T1
  {
    assert T1[0] == 'y';
  }

  lemma NotPhotoPrefix()
    ensures !StartsWithIgnoringCase(DemoCaption, "a photo of")
  {
    DemoCaptionStart();
    NotStartsAt(DemoCaption, "a photo of", 2);
  }

  lemma NotImagePrefix()
    ensures !StartsWithIgnoringCase(DemoCaption, "an image of")
  {
    DemoCaptionStart();
    NotStartsAt(DemoCaption, "an image of", 1);
  }

  lemma NoPrefix()
    ensures !HasBoilerplate(DemoCaption)
  {
    NotPhotoPrefix();
    NotImagePrefix();
    DemoCaptionStart();
    NotStartsAt(DemoCaption, "a picture of", 2);
  }

  /** The caption has no boilerplate prefix. */
  lemma DemoNoBoilerplate()
    ensures StripBoilerplate(DemoCaption) == DemoCaption
  {
    NoPrefix();
    StripBoilerplateChanges(DemoCaption);
  }

  /** Preparing the caption only capitalises its first letter. */
  lemma DemoPrepare()
    ensures Prepare(DemoCaption) == DemoCapitalised
  {
    DemoNoBoilerplate();
    DemoCaptionStart();
    var r := Capitalise(DemoCaption);
    assert r == [r[0]] + r[1..];
  }

  /** What _filter_relevant_labels returns for the example. */
  lemma DemoRelevant()
    ensures RelevantLabels(DemoLabelNames, Prepare(DemoCaption)) == [L1, L2, L3, L5]
  {
    DemoPrepare();
    CapitaliseKeepsLowerCase(DemoCaption);
    DemoLower();
    DemoSplit();
    assert CaptionWords(Prepare(DemoCaption)) == DemoWords;
    DemoNonGeneric();
    DemoNovel();
  }

  // The words of the context sentence, joined one at a time.
  const Lead6: string := "to"
  const Lead5: string := "related" + " " + Lead6
  const Lead4: string := "be" + " " + Lead5
  const Lead3: string := "to" + " " + Lead4
  const Lead2: string := "appears" + " " + Lead3
  const Lead1: string := "This" + " " + Lead2

  lemma LeadPhrase()
    ensures Phrase(Lead1)
  {
    WordPhrase(Lead6);
    PhraseStep("related", Lead6);
    PhraseStep("be", Lead5);
    PhraseStep("to", Lead4);
    PhraseStep("appears", Lead3);
    PhraseStep("This", Lead2);
  }

  lemma LeadText()
    ensures ContextLead == ". " + Lead1 + " "
  {
  }

  /** ". This appears to be related to " is single-spaced, has one '.', and
      ends in a space. */
  lemma ContextLeadShape()
    ensures SingleSpaced(ContextLead) && NoDoubleDot(ContextLead)
    ensures ContextLead[0] == '.' && ContextLead[|ContextLead| - 1] == ' '
  {
    LeadText();
    LeadPhrase();
    var a := ". ";
    assert SingleSpaced(a) && NoDoubleDot(a);
    SingleSpacedAppend(a, Lead1);
    NoDoubleDotAppend(a, Lead1);
    SingleSpacedAppend(a + Lead1, " ");
    NoDoubleDotAppend(a + Lead1, " ");
  }

  /** The sentence appended after a caption is clean when the caption is
      empty or a phrase and the label text is a phrase. */
  lemma ContextClean(caption: string, top: string)
    requires caption == [] || Phrase(caption)
    requires Phrase(top)
    ensures IsClean(caption + ContextLead + top + ".")
  {
    ContextLeadShape();
    var a := caption + ContextLead;
    SingleSpacedAppend(caption, ContextLead);
    NoDoubleDotAppend(caption, ContextLead);
    assert a[|a| - 1] == ' ';
    var b := a + top;
    SingleSpacedAppend(a, top);
    NoDoubleDotAppend(a, top);
    assert b[|b| - 1] == top[|top| - 1];
    SingleSpacedAppend(b, ".");
    NoDoubleDotAppend(b, ".");
    var s := b + ".";
    assert s[0] == if caption == [] then '.' else caption[0];
  }

  const DemoCapitalised: string := "A" + " " + T1
  const DemoEnhanced: string := DemoCapitalised + ContextLead + L1 + "."

  lemma DemoCapitalisedText()
    ensures DemoCapitalised == "A young " + "boy in a " + "yellow shirt " + "and blue jeans"
  {
  }

  /** The enhanced caption printed by the example. */
  lemma DemoEnhancedText()
    ensures DemoEnhanced ==
      "A young " + "boy in a " + "yellow shirt " + "and blue jeans" +
      ". This appears " + "to be related " + "to sweatshirt."
  {
    DemoCapitalisedText();
  }

  /** The top label is not in the caption, so the context sentence is
      added. */
  lemma DemoAddContext()
    ensures AddContext(Prepare(DemoCaption), [L1, L2, L3, L5]) == DemoEnhanced
  {
    DemoPrepare();
    DemoTopAbsent();
    DemoNoTrailingDots();
  }

  lemma DemoTopAbsent()
    ensures UnderscoresToSpaces(L1) == L1
    ensures !Contains(Lower(DemoCapitalised), Lower(L1))
  {
    DemoCapitalisedLower();
    DemoAbsent();
    assert Lower(L1) == L1;
  }

  lemma DemoNoTrailingDots()
    ensures TrimTrailingDots(DemoCapitalised) == DemoCapitalised
  {
    DemoCapitalisedPhrase();
  }

  lemma DemoCapitalisedLower()
    ensures Lower(DemoCapitalised) == DemoCaption
  {
    DemoPrepare();
    CapitaliseKeepsLowerCase(DemoCaption);
    DemoLower();
  }

  lemma DemoCapitalisedPhrase()
    ensures Phrase(DemoCapitalised)
  {
    SentenceT1();
    DemoWordsPlain();
    assert forall w :: w in DemoWords[1..] ==> w in DemoWords;
    SentencePhrase(DemoWords[1..]);
    PhraseStep("A", T1);
  }

  /** The enhanced caption is already clean, so _clean_caption leaves it
      as it is. */
  lemma DemoClean()
    ensures CleanCaption(DemoEnhanced) == DemoEnhanced
  {
    DemoCapitalisedPhrase();
    assert PlainWord(L1);
    WordPhrase(L1);
    ContextClean(DemoCapitalised, L1);
    CleanFixpoint(DemoEnhanced);
  }

  lemma DemoInputs()
    ensures Inputs(Plain(PyStr(DemoCaption)), Ranked(DemoEntries)) == Ok((DemoCaption, DemoLabelNames))
  {
    DemoKept();
    DemoNames();
  }

  /** The example of enhancer.py:65-79: the original caption comes back
      unchanged, the caption gains a sentence about the top label
      "sweatshirt", and the first three of the four relevant labels are
      reported; the jersey label is dropped because the caption has the
      word "shirt". */
  lemma DemoRun()
    ensures Enhance(Plain(PyStr(DemoCaption)), Ranked(DemoEntries)) ==
      Enhanced(DemoCaption, DemoEnhanced, [L1, L2, L3])
  {
    DemoInputs();
    var caption := Prepare(DemoCaption);
    var relevant := RelevantLabels(DemoLabelNames, caption);
    assert Enhance(Plain(PyStr(DemoCaption)), Ranked(DemoEntries)) ==
      Enhanced(DemoCaption, CleanCaption(AddContext(caption, relevant)), Take(relevant, MaxUsed));
    DemoRelevant();
    DemoAddContext();
    DemoClean();
    DemoTake();
  }

  lemma DemoTake()
    ensures Take([L1, L2, L3, L5], MaxUsed) == [L1, L2, L3]
  {
  }

  // ---------------------------------------------------------------------
  // Edge cases decided by the code.

  // Each input below is written as a concatenation, which keeps the
  // verifier from evaluating the whole pipeline on one literal.

  const ADog: string := "a" + " " + "dog"
  const PhotoOfDog: string := "A Photo Of" + ("  " + ADog)
  const PhotoOfX: string := "a photo of" + "x"
  const DogsPhoto: string := "two dogs, " + "a photo of them"

  lemma PhotoOfDogText()
    ensures ADog == "a dog"
    ensures PhotoOfDog == "A Photo Of  a dog"
  {
  }

  lemma PhotoOfLower()
    ensures Lower("A Photo Of") == "a photo of"
  {
  }

  lemma DogCapitalised()
    ensures Capitalise(ADog) == "A dog"
  {
    assert ADog[1..] == " dog";
  }

  /** The prefix is matched without regard to case and takes all the
      whitespace after it. */
  lemma PrefixAnyCase()
    ensures PhotoOfDog == "A Photo Of  a dog"
    ensures Prepare(PhotoOfDog) == "A dog"
  {
    PhotoOfDogText();
    PhotoOfLower();
    StripBoilerplateOnce("A Photo Of", "  " + ADog);
    TrimLeftTwoSpaces(ADog);
    DogCapitalised();
  }

  lemma PhotoOfXText()
    ensures PhotoOfX == "a photo ofx"
  {
  }

  lemma XPrepared()
    ensures Lower("a photo of") == "a photo of"
    ensures TrimLeft("x") == "x" && Capitalise("x") == "X"
  {
  }

  /** No word boundary is needed after the prefix. */
  lemma PrefixWithoutBoundary()
    ensures PhotoOfX == "a photo ofx"
    ensures Prepare(PhotoOfX) == "X"
  {
    PhotoOfXText();
    XPrepared();
    StripBoilerplateOnce("a photo of", "x");
  }

  lemma DogsPhotoText()
    ensures DogsPhoto == "two dogs, a photo of them"
  {
  }

  /** The prefix later in the caption is left alone. */
  lemma PrefixOnlyAtStart()
    ensures DogsPhoto == "two dogs, a photo of them"
    ensures Prepare(DogsPhoto) == "T" + DogsPhoto[1..]
  {
    DogsPhotoText();
    assert DogsPhoto[0] == 't';
    StripBoilerplateStartsWithA(DogsPhoto);
  }

  /** Confidences are compared strictly with 0.1, ints as well as floats;
      an entry without a confidence counts as 1.0; a text confidence makes
      the comparison raise. */
  lemma ThresholdCases()
    ensures !IsConfident(map["label" := PyStr("cat"), "confidence" := PyFloat(0.1)])
    ensures IsConfident(map["label" := PyStr("cat"), "confidence" := PyFloat(0.10001)])
    ensures IsConfident(map["label" := PyStr("cat"), "confidence" := PyInt(1)])
    ensures !IsConfident(map["label" := PyStr("cat"), "confidence" := PyInt(0)])
    ensures IsConfident(map["label" := PyStr("cat")])
    ensures AboveThreshold(Confidence(map["label" := PyStr("cat"), "confidence" := PyStr("high")])) ==
      Err(TypeError("'>' not supported between instances of 'str' and 'float'"))
  {
    assert "'>' not supported between instances of '" + "str" + "' and 'float'" ==
      "'>' not supported between instances of 'str' and 'float'";
  }

  /** An entry without a label is skipped when its confidence is at most
      0.1, and raises KeyError when it is above. */
  lemma MissingLabel()
    ensures KeptLabels([map["confidence" := PyFloat(0.05)]]) == Ok([])
    ensures KeptLabels([map["confidence" := PyFloat(0.5)]]) == Err(KeyError("label"))
  {
  }

  const GoldenDog: string := "A golden" + " dog"

  lemma GoldenDogLower()
    ensures Lower(GoldenDog) == "a" + " " + ("golden" + " " + "dog")
  {
  }

  lemma GoldenDogWords()
    ensures CaptionWords(GoldenDog) == GoldenWords
  {
    GoldenDogLower();
    SplitThree("a", "golden", "dog");
  }

  lemma GoldenRetrieverText()
    ensures UnderscoresToSpaces(Lower("golden_retriever")) == "golden" + " " + "retriever"
  {
  }

  lemma GoldenRetrieverWords()
    ensures LabelWords("golden_retriever") == ["golden", "retriever"]
  {
    GoldenRetrieverText();
    SplitPair("golden", "retriever");
  }

  lemma SplitPair(a: string, b: string)
    requires Word(a) && Word(b)
    ensures Split(a + " " + b) == [a, b]
  {
    SplitWord(b);
    SplitStep(a, b);
  }

  lemma SplitThree(a: string, b: string, c: string)
    requires Word(a) && Word(b) && Word(c)
    ensures Split(a + " " + (b + " " + c)) == [a, b, c]
  {
    SplitPair(b, c);
    SplitStep(a, b + " " + c);
  }

  lemma SplitFour(a: string, b: string, c: string, d: string)
    requires Word(a) && Word(b) && Word(c) && Word(d)
    ensures Split(a + " " + (b + " " + (c + " " + d))) == [a, b, c, d]
  {
    SplitThree(b, c, d);
    SplitStep(a, b + " " + (c + " " + d));
  }

  lemma FilterNonGeneric()
    ensures NonGeneric(["Thing", "golden_retriever", "leash"]) == ["golden_retriever", "leash"]
  {
    assert Lower("Thing") == "thing";
    assert Lower("leash")[0] == 'l';
    NotGenericByLength("golden_retriever");
    NonGenericStep("leash", []);
    NonGenericStep("golden_retriever", ["leash"]);
    assert ["Thing", "golden_retriever", "leash"][1..] == ["golden_retriever"] + ["leash"];
  }

  const GoldenWords: seq<string> := ["a"] + ["golden", "dog"]

  lemma RetrieverNotNovel()
    ensures !IsNovel("golden_retriever", GoldenWords)
  {
    GoldenRetrieverWords();
    assert "golden" in GoldenWords;
  }

  lemma LeashNovel()
    ensures IsNovel("leash", GoldenWords)
  {
    SingleWordNovelIn("leash", GoldenWords);
  }

  lemma FilterNovel()
    ensures NovelLabels(["golden_retriever"] + ["leash"], GoldenWords) == ["leash"]
  {
    RetrieverNotNovel();
    LeashNovel();
    NovelStep("leash", [], GoldenWords);
    NovelStep("golden_retriever", ["leash"], GoldenWords);
  }

  /** Generic fillers go whatever their case, and a label is dropped when
      one of its words, with '_' read as a space, is a caption token. */
  lemma FilterCases()
    ensures RelevantLabels(["Thing", "golden_retriever", "leash"], GoldenDog) == ["leash"]
  {
    FilterNonGeneric();
    GoldenDogWords();
    FilterNovel();
    assert ["golden_retriever", "leash"] == ["golden_retriever"] + ["leash"];
  }

  /** Cleaning a phrase only terminates it. */
  lemma PhraseClean(p: string)
    requires Phrase(p)
    ensures CleanCaption(p) == Terminate(p)
  {
    CollapseSpacesFixpoint(p);
    var t := Terminate(p);
    assert NoDoubleDot(t) by {
      if t != p {
        NoDoubleDotAppend(p, ".");
      }
    }
    CollapseDotsFixpoint(t);
    assert t[0] == p[0] && !IsSpace(t[|t| - 1]);
    StripFixpoint(t);
  }

  /** Cleaning a phrase followed by one space keeps the space: the '.' is
      appended before the outer whitespace is stripped. */
  lemma PhraseSpaceClean(p: string)
    requires Phrase(p) && !IsTerminator(p[|p| - 1])
    ensures CleanCaption(p + " ") == p + " ."
  {
    var q := p + " ";
    var t := p + " .";
    assert CollapseSpaces(q) == q by {
      SingleSpacedAppend(p, " ");
      CollapseSpacesFixpoint(q);
    }
    assert Terminate(q) == t;
    assert CollapseDots(t) == t by {
      SingleSpacedAppend(p, " ");
      NoDoubleDotAppend(p, " ");
      assert t == q + ".";
      NoDoubleDotAppend(q, ".");
      CollapseDotsFixpoint(t);
    }
    assert Strip(t) == t by {
      assert t[0] == p[0];
      StripFixpoint(t);
    }
  }

  const ACat: string := "a" + " " + "cat"
  const Wow: string := "wow" + "!"
  const CatRuns: string := "a" + ([' ', ' '] + ("cat" + ".."))
  const CatTrailing: string := ACat + " "

  lemma ACatPhrase()
    ensures ACat == "a cat" && Phrase(ACat)
  {
    WordPhrase("cat");
    PhraseStep("a", "cat");
  }

  /** A caption without a final '.', '!' or '?' gets a '.'. */
  lemma CleanAddsPeriod()
    ensures CleanCaption(ACat) == ACat + "."
  {
    ACatPhrase();
    PhraseClean(ACat);
  }

  /** A caption that already ends in '!' keeps it. */
  lemma CleanKeepsExclamation()
    ensures Wow == "wow!"
    ensures CleanCaption(Wow) == Wow
  {
    assert PlainWord(Wow);
    WordPhrase(Wow);
    PhraseClean(Wow);
  }

  /** The '.' is appended before the outer whitespace is stripped, so a
      caption that ends in whitespace keeps one space before it. */
  lemma CleanSpaceBeforePeriod()
    ensures CatTrailing == "a cat "
    ensures CleanCaption(CatTrailing) == "a cat ."
  {
    ACatPhrase();
    PhraseSpaceClean(ACat);
  }

  /** Two spaces between two words collapse to one. */
  lemma CollapseDoubleBetween(a: string, t: string)
    requires NoSpace(a) && NoSpace(t) && t != []
    ensures CollapseSpaces(a + ([' ', ' '] + t)) == a + " " + t
  {
    CollapseSpacesPrefix(a, [' ', ' '] + t);
    CollapseSpacesDouble(t);
    CollapseSpacesFixpoint(t);
    assert a + ([' '] + t) == a + " " + t;
  }

  /** A run of two spaces and a final "..", each shrunk to one. */
  lemma CleanRuns(a: string, w: string)
    requires a != [] && NoSpace(a) && NoSpace(w) && w != []
    requires '.' !in a && '.' !in w
    ensures CleanCaption(a + ([' ', ' '] + (w + ".."))) == a + " " + w + "."
  {
    var t := w + "..";
    var body := a + " " + w;
    assert CollapseSpaces(a + ([' ', ' '] + t)) == body + ".." by {
      assert NoSpace(t);
      CollapseDoubleBetween(a, t);
      assert a + " " + t == body + "..";
    }
    assert Terminate(body + "..") == body + "..";
    assert CollapseDots(body + "..") == body + "." by {
      assert '.' !in body;
      DotsTail(body);
    }
    StripFixpoint(body + ".");
  }

  /** A final ".." after text without '.' shrinks to ".". */
  lemma DotsTail(body: string)
    requires '.' !in body
    ensures CollapseDots(body + "..") == body + "."
  {
    CollapseDotsPrefix(body, "..");
    CollapseDotsDouble("");
    assert ".." + "" == ".." && "." + "" == ".";
  }

  /** Runs of whitespace and of dots shrink to one. */
  lemma CleanCollapses()
    ensures CleanCaption(CatRuns) == "a cat."
  {
    CleanRuns("a", "cat");
    CatCleanText();
  }

  lemma CatCleanText()
    ensures "a" + " " + "cat" + "." == "a cat."
  {
  }

  // ---------------------------------------------------------------------
  // Whole calls on small inputs.

  const Cat: string := "cat"
  const CatEntry: Entry := map["label" := PyStr(Cat)]

  lemma EmptyPrepared()
    ensures Prepare("") == ""
  {
    StripBoilerplateStartsWithA("");
  }

  /** A caption of whitespace only is cleaned to a lone '.': the run
      becomes one space, '.' is appended, and the space is stripped. */
  lemma BlankCaptionClean()
    ensures CleanCaption(" \t ") == "."
  {
    assert CollapseSpaces(" \t ") == " ";
    assert Terminate(" ") == " .";
    assert CollapseDots(" .") == " .";
    assert TrimLeft(" .") == ".";
  }

  /** An empty top label is contained in every caption, so no sentence is
      added, not even to the empty caption. */
  lemma EmptyTopLabel(caption: string, rest: seq<string>)
    ensures AddContext(caption, [""] + rest) == caption
  {
    assert OccursAt(Lower(caption), "", 0);
  }

  /** An empty caption with no labels stays empty. */
  lemma EmptyCaptionNoLabels()
    ensures Enhance(Plain(PyStr("")), Ranked([])) == Enhanced("", "", [])
  {
    EmptyPrepared();
    assert RelevantLabels([], "") == [];
  }

  /** A record without a 'caption' field is read as the empty caption. */
  lemma RecordWithoutCaption()
    ensures Enhance(Record(map[]), Ranked([])) == Enhanced("", "", [])
  {
    EmptyPrepared();
    assert RelevantLabels([], "") == [];
  }

  /** An entry without a confidence is kept. */
  lemma CatInputs()
    ensures Inputs(Plain(PyStr("")), Ranked([CatEntry])) == Ok(("", [Cat]))
  {
    assert KeptLabels([]) == Ok([]);
    KeptStep(CatEntry, [], PyStr(Cat), []);
    assert [CatEntry] + [] == [CatEntry];
    assert [PyStr(Cat)] + [] == [PyStr(Cat)];
    var r := LabelNames([PyStr(Cat)]);
    assert r.Ok? && |r.value| == 1 && PyStr(Cat) == PyStr(r.value[0]);
    assert r.value == [Cat];
  }

  /** The empty caption has no tokens, so every non-generic label is
      relevant. */
  lemma CatRelevant()
    ensures RelevantLabels([Cat], "") == [Cat]
  {
    NotGenericByLength(Cat);
    NonGenericStep(Cat, []);
    assert CaptionWords("") == [];
    NovelStep(Cat, [], []);
    assert [Cat] + [] == [Cat];
  }

  /** "cat" is not a substring of "", so the sentence is added to the
      empty caption. */
  lemma CatContext()
    ensures AddContext("", [Cat]) == ContextLead + Cat + "."
  {
    assert UnderscoresToSpaces(Cat) == Cat;
    assert !Contains(Lower(""), Lower(Cat));
  }

  lemma CatClean()
    ensures CleanCaption(ContextLead + Cat + ".") == ContextLead + Cat + "."
  {
    assert PlainWord(Cat);
    WordPhrase(Cat);
    ContextClean("", Cat);
    assert "" + ContextLead + Cat + "." == ContextLead + Cat + ".";
    CleanFixpoint(ContextLead + Cat + ".");
  }

  /** An empty caption with a relevant label becomes the bare sentence,
      starting with ". ". */
  lemma EmptyCaptionWithLabel()
    ensures Enhance(Plain(PyStr("")), Ranked([CatEntry])) ==
      Enhanced("", ContextLead + Cat + ".", [Cat])
  {
    CatInputs();
    EmptyPrepared();
    assert Enhance(Plain(PyStr("")), Ranked([CatEntry])) ==
      Enhanced("", CleanCaption(AddContext("", RelevantLabels([Cat], ""))), Take(RelevantLabels([Cat], ""), MaxUsed));
    CatRelevant();
    CatContext();
    CatClean();
  }

  /** An entry above the threshold without 'label' raises
      KeyError('label'). */
  lemma MissingLabelError()
    ensures Enhance(Plain(PyStr(Cat)), Ranked([map["confidence" := PyFloat(0.5)]])) ==
      EnhancementError(ErrorPrefix + Describe(KeyError("label")))
  {
  }

  /** A caption that is not a str makes re.sub raise TypeError. */
  lemma NonStringCaptionError()
    ensures Enhance(Plain(PyInt(3)), Ranked([])) ==
      EnhancementError(ErrorPrefix + Describe(TypeError("expected string or bytes-like object, got 'int'")))
  {
    assert "expected string or bytes-like object, got '" + TypeName(PyInt(3)) + "'" ==
      "expected string or bytes-like object, got 'int'";
  }

  /** The classifier's {'error': ...} dict iterates as its key, a str,
      which has no get. */
  lemma ClassifierErrorDict()
    ensures Enhance(Plain(PyStr(Cat)), ClassifierError("model failed")) ==
      EnhancementError(ErrorPrefix + Describe(AttributeError("str", "get")))
  {
  }

  /** A kept label that is not a str has no lower. */
  lemma NonStringLabelError()
    ensures Enhance(Plain(PyStr(Cat)), Ranked([map["label" := PyInt(7)]])) ==
      EnhancementError(ErrorPrefix + Describe(AttributeError("int", "lower")))
  {
    var e: Entry := map["label" := PyInt(7)];
    assert KeptLabels([]) == Ok([]);
    KeptStep(e, [], PyInt(7), []);
    assert [e] + [] == [e];
  }

  /** str(KeyError('label')) keeps the quotes. */
  lemma KeyErrorMessage()
    ensures Describe(KeyError("label")) == "'label'"
  {
  }

  // Tokens are split on whitespace only, so "dog." is not the word "dog".

  const ADotDog: string := "A" + " " + "dog."

  lemma ADotDogWords()
    ensures CaptionWords(ADotDog) == ["a", "dog."]
  {
    assert Lower(ADotDog) == "a" + " " + "dog.";
    SplitPair("a", "dog.");
  }

  lemma DogNovelAfterDot()
    ensures IsNovel("dog", CaptionWords(ADotDog))
  {
    ADotDogWords();
    SingleWordNovelIn("dog", ["a", "dog."]);
  }
}
