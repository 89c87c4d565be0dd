# Caption enhancer and upload gate, modelled in Dafny

This project models two parts of an image-captioning service.

1. The rule-based caption rewriter `CaptionEnhancer` of `enhancer.py`. It receives the captioner's output (a caption string, or a record with an optional `caption` field) and the classifier's ranked `{label, confidence}` entries. It then:
   - keeps the labels whose confidence is above 0.1;
   - removes one leading boilerplate prefix ("a photo of", "an image of", "a picture of");
   - capitalises the caption;
   - picks the relevant labels;
   - may append a sentence naming the top label;
   - normalises whitespace and periods.
   It answers with either the enhanced caption or an error message.
2. The request gate of `api.py`:
   - the extension allow-list `allowed_file`;
   - the checks that `/generate` makes before it touches the file system, in their fixed order;
   - the status reported by `/health`.

Modules:

- `Text` (`text.dfy`): ASCII versions of the string operations the enhancer uses. These are `str.isspace`, `lower`, `upper`, `replace('_', ' ')`, the substring test, `split()`, `lstrip`, `rstrip`, `strip` and `rstrip('.')`, plus the regular expressions `\s+` → `' '` and `\.{2,}` → `'.'`.
- `Seqs` (`seqs.dfy`): the slice `s[:n]` and the subsequence relation.
- `Enhancer` (`enhancer.dfy`): `enhance_caption`, `_filter_relevant_labels` and `_clean_caption`.
  - Python values are a `PyValue` datatype; a classification entry is a map from keys to values.
  - An exception is a `Fault` value, and the `try`/`except` becomes the `EnhancementError` variant of the result.
  - The loop of `_filter_relevant_labels` and the step-by-step reassignment of `caption` are methods, each proved equal to a specification function. The properties are proved about those functions.
- `EnhancerDemo` (`enhancer_demo.dfy`): the example run at the bottom of `enhancer.py`, as a lemma, and concrete edge cases.
- `Upload` (`upload.dfy`): `allowed_file`, the gate and the health status.

The model follows the code on these points:

- An entry without a `confidence` counts as 1.0.
- `_clean_caption` appends the terminator before it collapses dots and strips. So a caption that is not all whitespace and ends in a space ends in `" ."`. A caption made only of whitespace becomes `"."`.
- An empty caption stays empty when there is no relevant label. When the top relevant label is non-empty, the result is the bare sentence `". This appears to be related to X."`, where X is the label with `_` replaced by spaces and then cleaned like the rest of the caption (so `a__b` shows up as `a b`). An empty top label is a substring of every caption, so the caption then stays empty.

## Model

| member | source | states |
|---|---|---|
| Seqs.Take | enhancer.py:55 | `s[:n]` is the first min(n, len(s)) elements of `s` |
| Text.Split | enhancer.py:47 | every token of `str.split()` is non-empty and holds no whitespace |
| Text.SplitAtSpace | enhancer.py:47 | the tokens of `a + c + b`, with `c` whitespace, are the tokens of `a` followed by those of `b` |
| Text.SplitMembership | enhancer.py:51-52 | a word is a token of `a + c + b` exactly when it is a token of `a` or of `b` |
| Text.TrimLeftSuffix | enhancer.py:18 | the whitespace removal after the prefix keeps a suffix of the text |
| Text.TrimLeftDropsSpaces | enhancer.py:18 | what is removed in front is whitespace only |
| Text.TrimRightDropsSpaces | enhancer.py:62 | what `strip()` removes at the end is whitespace only |
| Text.TrimRightPrefix | enhancer.py:62 | stripping at the end keeps a prefix of the text |
| Text.TrimTrailingDots | enhancer.py:30 | `rstrip('.')` keeps a prefix that does not end in '.', and removes only '.' characters |
| Text.IsSpace | enhancer.py:18 | defines whitespace as the ASCII part of `str.isspace()`: tab, line feed, vertical tab, form feed, carriage return, the separators 0x1C-0x1F and space, the set shared by `\s`, `split()` and `strip()` |
| Text.Lower | enhancer.py:29 | defines `str.lower()` on ASCII: 'A'-'Z' become 'a'-'z', every other character is kept |
| Text.UnderscoresToSpaces | enhancer.py:28 | defines `replace('_', ' ')` |
| Text.Contains | enhancer.py:29 | defines the substring test `in`: the needle occurs at some position, so the empty needle is in every text |
| Text.TrimLeft | enhancer.py:18 | defines `lstrip()` (and `\s*` after the prefix): the result does not start with whitespace and is no longer than the input |
| Text.TrimRight | enhancer.py:62 | defines `rstrip()`: the result does not end in whitespace and is no longer than the input |
| Text.Strip | enhancer.py:62 | defines `strip()` as `rstrip()` after `lstrip()` |
| Text.CollapseSpaces | enhancer.py:58 | defines `re.sub(r'\s+', ' ', ...)`: no longer than the input, empty exactly when the input is, and starting with whitespace exactly when the input does |
| Text.CollapseDots | enhancer.py:61 | defines `re.sub(r'\.{2,}', '.', ...)`: no longer than the input, empty exactly when the input is, with the input's first and last characters |
| Text.CollapseSpacesSingleSpaced | enhancer.py:58 | after `re.sub(r'\s+', ' ', ...)` every whitespace character is a space and no two are adjacent |
| Text.CollapseDotsNoDoubleDot | enhancer.py:61 | after `re.sub(r'\.{2,}', '.', ...)` no two '.' are adjacent |
| Text.CollapseDotsKeepsSpacing | enhancer.py:61 | collapsing dots does not undo the single spacing |
| Text.CollapseSpacesFixpoint | enhancer.py:58 | a single-spaced text is left unchanged by the whitespace collapse |
| Text.CollapseDotsFixpoint | enhancer.py:61 | a text without ".." is left unchanged by the dot collapse |
| Enhancer.Confidence | enhancer.py:15 | defines `item.get('confidence', 1.0)` |
| Enhancer.AboveThreshold | enhancer.py:15 | defines `> 0.1`: ints and floats compare by value, any other type raises TypeError with CPython's "'>' not supported between instances of ..." message |
| Enhancer.LabelList | enhancer.py:15 | defines the comprehension on the classifier's output: on the `{'error': ...}` dict, iteration yields the str key and `.get` raises AttributeError |
| Enhancer.KeptLabels | enhancer.py:15 | defines the comprehension, evaluated left to right, the first raising entry deciding the fault |
| Enhancer.ConfidentEntries | enhancer.py:15 | the entries kept by the filter are a subsequence of the input, and a value is among them exactly when it is an input entry with confidence above 0.1 |
| Enhancer.ConfidentEntriesCounts | enhancer.py:15 | every confident entry is kept as many times as it occurs in the input, and no other entry is kept |
| Enhancer.KeptLabelsCharacterised | enhancer.py:15 | the comprehension raises for no entry exactly when every confidence is a number and every confident entry has a label; it then yields the labels of the confident entries in order, with an absent confidence read as 1.0 |
| Enhancer.StartsWithIgnoringCaseSpec | enhancer.py:18 | the case-insensitive prefix match compares the first characters lower-cased |
| Enhancer.BoilerplateExclusive | enhancer.py:18 | at most one of the three prefixes matches a caption |
| Enhancer.StripBoilerplate | enhancer.py:18 | defines the anchored, case-insensitive removal of the first matching prefix and the whitespace after it |
| Enhancer.StripBoilerplateSpec | enhancer.py:18 | the result is a suffix of the caption; a matched prefix is removed with all the whitespace after it |
| Enhancer.StripBoilerplateChanges | enhancer.py:18 | the caption changes exactly when it starts with one of the prefixes, in any case |
| Enhancer.StripBoilerplateStartsWithA | enhancer.py:18 | a caption whose first letter is not 'a' or 'A' is left alone, even if it contains a prefix later |
| Enhancer.StripBoilerplateOnce | enhancer.py:18 | only one prefix is removed, and no word boundary is needed after it |
| Enhancer.Capitalise | enhancer.py:21-22 | only the first character is upper-cased; the rest and the empty caption are unchanged |
| Enhancer.CapitaliseKeepsLowerCase | enhancer.py:21-22 | capitalising does not change the lower-cased caption, and is idempotent |
| Enhancer.Prepare | enhancer.py:18-22 | defines the caption after line 22: the prefix removed, then capitalised |
| Enhancer.IsGeneric | enhancer.py:44-45 | defines the test that the lower-cased label is one of the five generic fillers |
| Enhancer.LabelWords | enhancer.py:51 | defines `label.lower().replace('_', ' ').split()` |
| Enhancer.CaptionWords | enhancer.py:47 | defines `caption.lower().split()` |
| Enhancer.IsNovel | enhancer.py:52 | defines `not any(word in caption_words for word in label_words)`: no label word is a caption token |
| Enhancer.NonGeneric | enhancer.py:44-45 | the labels kept are a subsequence of the input, and a label is among them exactly when it is an input label that is not a generic filler, whatever its case |
| Enhancer.NonGenericCounts | enhancer.py:45 | every label that is not generic is kept as many times as it occurs, duplicates included |
| Enhancer.NovelLabels | enhancer.py:48-53 | the kept labels are a subsequence of the input, and a label is among them exactly when none of its words is a caption token |
| Enhancer.NovelLabelsCounts | enhancer.py:50-53 | every novel label is kept as many times as it occurs, duplicates included |
| Enhancer.NovelLabelsAppend | enhancer.py:50-53 | one more turn of the loop appends the label exactly when it is novel |
| Enhancer.RelevantLabels | enhancer.py:43-55 | defines `_filter_relevant_labels`: the first five of the non-generic novel labels |
| Enhancer.FilterRelevantLabels | enhancer.py:43-55 | the loop computes the specification of the relevant labels |
| Enhancer.RelevantLabelsSpec | enhancer.py:43-55 | the result is the first min(5, n) of the n qualifying labels, in order: at most five labels, a subsequence of the input, none generic, none with a word among the caption's tokens; when fewer than five come out, every qualifying label is among them |
| Enhancer.AddsContext | enhancer.py:27-29 | defines the condition: a relevant label exists and the lower-cased caption does not contain the top label's lower-cased text |
| Enhancer.AddContext | enhancer.py:27-30 | defines the step that appends the sentence naming the top relevant label |
| Enhancer.AddContextSpec | enhancer.py:27-30 | the sentence is added exactly when there is a relevant label whose text is not a substring of the caption; the caption's trailing '.' characters are then removed first |
| Enhancer.Terminate | enhancer.py:59-60 | defines the step that appends '.' unless the text is empty or ends in '.', '!' or '?' |
| Enhancer.TerminateSpec | enhancer.py:59-60 | a non-empty text ends in '.', '!' or '?' afterwards, and the empty text stays empty |
| Enhancer.StripGivesClean | enhancer.py:62 | the final strip leaves a clean text |
| Enhancer.CleanCaption | enhancer.py:57-62 | defines `_clean_caption` as the composition of its four steps, in their order |
| Enhancer.CleanCaptionSpec | enhancer.py:57-62 | the output is single-spaced, has no "..", no whitespace at either end, ends in a terminator unless empty, and is empty exactly for the empty input |
| Enhancer.Clean | enhancer.py:57-62 | the four reassignments of `caption` compute the specification of cleaning |
| Enhancer.CleanFixpoint | enhancer.py:57-62 | a clean text is its own cleaning |
| Enhancer.CleanIdempotent | enhancer.py:57-62 | cleaning twice equals cleaning once |
| Enhancer.LabelNames | enhancer.py:45 | `label.lower()` raises exactly when some kept label is not a str, and otherwise keeps all of them |
| Enhancer.KeptLabelsAreStrings | enhancer.py:45 | the kept labels are all strs exactly when every confident labelled entry has a str label |
| Enhancer.CaptionValue | enhancer.py:10-13 | defines the caption value: the record's `caption` field or '' when absent, otherwise the argument itself |
| Enhancer.CaptionText | enhancer.py:10-13 | defines the caption value and the TypeError that `re.sub` raises on line 18 when it is not a str |
| Enhancer.Inputs | enhancer.py:10-18 | defines the steps that can raise, in Python's order of evaluation |
| Enhancer.InputsSpec | enhancer.py:10-15 | when nothing raises, the caption text is the caption value and the label names are the labels of the confident entries, in order |
| Enhancer.Describe | enhancer.py:41 | defines `str(e)` for the three faults in CPython's wording: a KeyError shows its key in quotes, an AttributeError reads "'T' object has no attribute 'a'", a TypeError its message |
| Enhancer.Enhance | enhancer.py:7-41 | defines `enhance_caption` as a function of its two arguments |
| Enhancer.EnhanceCaption | enhancer.py:7-41 | the method, step by step, returns the specification of `enhance_caption` |
| Enhancer.EnhanceErrorSpec | enhancer.py:40-41 | the error variant comes back exactly when a step raises, and its message starts with "Caption enhancement failed: " |
| Enhancer.EnhanceSuccessSpec | enhancer.py:34-37 | on success the original caption is the caption value; the enhanced caption is the cleaning of the prepared caption with its context sentence, and so is clean; the used labels are the first min(3, n) of the n relevant labels, in the classifier's order, each a non-generic novel label of a confident entry |
| Upload.AllowedFile | api.py:41-42 | defines `allowed_file` |
| Upload.LastDot | api.py:42 | the cut of `rsplit('.', 1)` is the last '.', and there is none when the name has no '.' |
| Upload.AllowedFileSpec | api.py:41-42 | a name is allowed exactly when it has a '.' and the text after its last '.', lower-cased, is an allowed extension |
| Upload.LastDotBefore | api.py:42 | for `stem + "." + ext` with no '.' in `ext`, the cut is the '.' before `ext` |
| Upload.AllowedByExtension | api.py:14 | only the extension decides, in any case, whatever the stem |
| Upload.UpperCaseExtension | api.py:42 | "photo.tar.PNG" is allowed |
| Upload.ExtensionOnly | api.py:42 | ".png" is allowed |
| Upload.InnerExtensionIgnored | api.py:42 | "photo.png.exe" is refused |
| Upload.NoDotRefused | api.py:42 | "png" is refused |
| Upload.Gate | api.py:61-73 | defines the three checks of `/generate`, in their order |
| Upload.GateSpec | api.py:61-73 | accept exactly when all models are loaded, the name is allowed and the size is at most 16 MiB; otherwise the first failing check, in the order models, type, size, decides the status and message |
| Upload.SizeBoundary | api.py:72-73 | exactly 16 MiB passes, one byte more is refused |
| Upload.AllLoaded | api.py:47 | defines `all([classifier, captioner, enhancer])` as the three loaded flags all set |
| Upload.HealthStatus | api.py:47 | defines the status of `/health` |
| Upload.HealthAgreesWithGate | api.py:47 | "healthy" exactly when all three models are loaded, "degraded" exactly when the gate refuses with 500 |
| EnhancerDemo.DemoCaptionText | enhancer.py:67 | the test caption |
| EnhancerDemo.DemoKept | enhancer.py:68-74 | all five test labels are above the threshold |
| EnhancerDemo.DemoJerseyNotNovel | enhancer.py:72 | "jersey, T-shirt, tee shirt" is dropped because "shirt" is a caption token |
| EnhancerDemo.DemoRelevant | enhancer.py:43-55 | the relevant labels of the test are sweatshirt, sunglass, maraca and the sunglasses label |
| EnhancerDemo.DemoAddContext | enhancer.py:27-30 | "sweatshirt" is not in the caption, so the sentence is added |
| EnhancerDemo.DemoEnhancedText | enhancer.py:78 | the enhanced caption of the test, as text |
| EnhancerDemo.DemoRun | enhancer.py:65-79 | the whole test: the caption comes back unchanged, the enhanced caption gains the sentence about "sweatshirt", and the first three relevant labels are used |
| EnhancerDemo.PrefixAnyCase | enhancer.py:18 | "A Photo Of  a dog" becomes "A dog" |
| EnhancerDemo.PrefixWithoutBoundary | enhancer.py:18 | "a photo ofx" becomes "X" |
| EnhancerDemo.PrefixOnlyAtStart | enhancer.py:18 | "two dogs, a photo of them" is only capitalised |
| EnhancerDemo.ThresholdCases | enhancer.py:15 | 0.1 is dropped and 0.10001 kept; the ints 1 and 0 are kept and dropped; a missing confidence counts as 1.0; a text confidence raises TypeError |
| EnhancerDemo.MissingLabel | enhancer.py:15 | an unlabelled entry is skipped at or below the threshold and raises KeyError above it |
| EnhancerDemo.FilterCases | enhancer.py:43-55 | "Thing" is generic, "golden_retriever" shares "golden" with "A golden dog", and "leash" is kept |
| EnhancerDemo.DogNovelAfterDot | enhancer.py:47-52 | the token "dog." does not exclude the label "dog" |
| EnhancerDemo.PhraseClean | enhancer.py:57-62 | cleaning a single-spaced phrase without ".." and without whitespace at either end only terminates it |
| EnhancerDemo.PhraseSpaceClean | enhancer.py:59-62 | a phrase that does not end in a terminator, followed by a space, is cleaned to the phrase, a space and '.' |
| EnhancerDemo.CleanAddsPeriod | enhancer.py:59-60 | "a cat" becomes "a cat." |
| EnhancerDemo.CleanKeepsExclamation | enhancer.py:59 | "wow!" is left unchanged |
| EnhancerDemo.CleanSpaceBeforePeriod | enhancer.py:59-62 | "a cat " becomes "a cat ." |
| EnhancerDemo.CleanRuns | enhancer.py:58-61 | a run of two spaces and a final ".." each shrink to one |
| EnhancerDemo.CleanCollapses | enhancer.py:58-61 | "a  cat.." becomes "a cat." |
| EnhancerDemo.BlankCaptionClean | enhancer.py:58-62 | a caption of whitespace only, " \t ", is cleaned to "." |
| EnhancerDemo.EmptyTopLabel | enhancer.py:27-30 | an empty top label is a substring of every caption, so no sentence is added |
| EnhancerDemo.EmptyCaptionNoLabels | enhancer.py:59 | an empty caption without labels stays empty |
| EnhancerDemo.EmptyCaptionWithLabel | enhancer.py:27-30 | an empty caption with the label "cat" becomes ". This appears to be related to cat." |
| EnhancerDemo.RecordWithoutCaption | enhancer.py:11 | a record without a 'caption' field is read as the empty caption |
| EnhancerDemo.MissingLabelError | enhancer.py:40-41 | a confident entry without a label gives the error for KeyError('label') |
| EnhancerDemo.KeyErrorMessage | enhancer.py:41 | `str(KeyError('label'))` is "'label'", quotes included |
| EnhancerDemo.NonStringCaptionError | enhancer.py:18 | a caption that is an int makes `re.sub` raise TypeError |
| EnhancerDemo.ClassifierErrorDict | enhancer.py:15 | the classifier's error dict in place of the label list gives the error for `'str'.get` |
| EnhancerDemo.NonStringLabelError | enhancer.py:45 | a kept label that is an int gives the error for `int.lower` |

## Left out

- `vision.py` (image classification), `caption.py` (caption generation), `caption_generator_python.py` (command-line wrapper) and the PHP scripts are not part of this model. They are foreign model inference, I/O and environment probes. Their outputs appear only as the `ClassifierOutput` and `CaptionInput` datatypes.
- `api.py` outside the gate is not modelled: the FastAPI app and CORS, logging, writing and deleting the temporary file, `datetime.now()`, the call to the enhancer and the response assembly. These are I/O and process state. The module-level model singletons appear only as the three loaded flags of `Upload.Models`.
- Upload.Gate: takes the file name as a string and the byte length as a number. A missing file name, which would make `allowed_file` raise inside the `try` and answer 500, is not modelled.
- Text: characters are ASCII only. Python's Unicode rules for `\s`, `split()`, `strip()`, `lower()` and `upper()` are out of scope.
- The three regular expressions are modelled as dedicated string functions, not through a regular-expression engine.
- Confidences are real numbers. Python floats are not modelled; only the strict comparison with 0.1 matters.
- Enhancer.EnhanceErrorSpec: promises only the message prefix. The exception texts follow CPython's wording in `Describe`; three message texts are stated as literals: the KeyError text "'label'" in `EnhancerDemo.KeyErrorMessage`, the TypeError text "expected string or bytes-like object, got 'int'" in `EnhancerDemo.NonStringCaptionError`, and the TypeError text "'>' not supported between instances of 'str' and 'float'" in `EnhancerDemo.ThresholdCases`. The AttributeError texts are stated only through `Describe`.
- Exceptions other than those the enhancer's own steps raise are not modelled. This covers memory errors, and exceptions from a `caption` value or a label of a type outside `PyValue`.
- The unused GPT-2 import at the top of `enhancer.py` is not modelled.
