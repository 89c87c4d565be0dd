/** The upload gate of api.py: the extension allow-list of allowed_file, the
    checks generate_caption_and_labels makes before it writes the upload to
    disk, in their fixed order, and the status reported by health_check. */
module Upload {
  import opened Text

  datatype Option<T> = None | Some(value: T)

  const AllowedExtensions: set<string> := {"png", "jpg", "jpeg", "gif", "bmp", "webp"}

  /** 16 MiB. */
  const MaxFileSize: nat := 16 * 1024 * 1024

  /** Which of the three module-level singletons were constructed; a failed
      construction leaves all three None (api.py:37-39). */
  datatype Models = Models(classifier: bool, captioner: bool, enhancer: bool)

  /** all([classifier, captioner, enhancer]) */
  predicate AllLoaded(m: Models) {
    m.classifier && m.captioner && m.enhancer
  }

  /** The position of the last '.' in `s`, where rsplit('.', 1) cuts. */
  function LastDot(s: string): (r: Option<nat>)
    ensures r.Some? ==> r.value < |s| && s[r.value] == '.' &&
                        forall j :: r.value < j < |s| ==> s[j] != '.'
    ensures r.None? ==> forall j :: 0 <= j < |s| ==> s[j] != '.'
  {
    if s == [] then None
    else if s[|s| - 1] == '.' then Some(|s| - 1)
    else LastDot(s[..|s| - 1])
  }

  /** allowed_file: '.' in filename and
      filename.rsplit('.', 1)[1].lower() in ALLOWED_EXTENSIONS */
  predicate AllowedFile(filename: string) {
    match LastDot(filename)
    case None => false
    case Some(i) => Lower(filename[i + 1..]) in AllowedExtensions
  }

  /** A name is allowed exactly when it has a '.' and the text after its
      last '.', lower-cased, is one of the six extensions; a name without
      '.' is refused. */
  lemma AllowedFileSpec(filename: string)
    ensures AllowedFile(filename) <==>
      exists i :: 0 <= i < |filename| && filename[i] == '.' &&
        (forall j :: i < j < |filename| ==> filename[j] != '.') &&
        Lower(filename[i + 1..]) in AllowedExtensions
    ensures (forall j :: 0 <= j < |filename| ==> filename[j] != '.') ==> !AllowedFile(filename)
  {
    match LastDot(filename)
    case None =>
    case Some(k) =>
      forall i | 0 <= i < |filename| && filename[i] == '.' &&
        (forall j :: i < j < |filename| ==> filename[j] != '.')
        ensures i == k
      {
        assert !(i < k) by { assert filename[k] == '.'; }
      }
  }

  /** What the endpoint does with a request before touching the file
      system. */
  datatype Decision = Accept | Reject(status: nat, message: string)

  /** The early returns of generate_caption_and_labels (api.py:61-73). */
  function Gate(models: Models, filename: string, size: nat): Decision {
    if !AllLoaded(models) then Reject(500, "Models not properly loaded")
    else if !AllowedFile(filename) then Reject(400, "Invalid file type")
    else if size > MaxFileSize then Reject(400, "File too large")
    else Accept
  }

  /** The gate accepts exactly a request with all models loaded, an
      allowed name and at most 16 MiB; otherwise the first failing check,
      in the order models, type, size, gives the answer. */
  lemma GateSpec(models: Models, filename: string, size: nat)
    ensures Gate(models, filename, size) == Accept <==>
      AllLoaded(models) && AllowedFile(filename) && size <= MaxFileSize
    ensures Gate(models, filename, size).Reject? && Gate(models, filename, size).status == 500 <==>
      !AllLoaded(models)
    ensures Gate(models, filename, size) == Reject(400, "Invalid file type") <==>
      AllLoaded(models) && !AllowedFile(filename)
    ensures Gate(models, filename, size) == Reject(400, "File too large") <==>
      AllLoaded(models) && AllowedFile(filename) && size > MaxFileSize
  {
  }

  /** The "status" field of health_check (api.py:47). */
  function HealthStatus(models: Models): string {
    if AllLoaded(models) then "healthy" else "degraded"
  }

  /** The health endpoint reports "degraded" exactly when the gate answers
      every upload with 500. */
  lemma HealthAgreesWithGate(models: Models, filename: string, size: nat)
    ensures HealthStatus(models) == "healthy" <==> AllLoaded(models)
    ensures HealthStatus(models) == "degraded" <==>
      Gate(models, filename, size) == Reject(500, "Models not properly loaded")
  {
  }

  /** rsplit('.', 1) cuts at the '.' before an extension without '.'. */
  lemma {:induction false} LastDotBefore(stem: string, ext: string)
    requires '.' !in ext
    ensures LastDot(stem + "." + ext) == Some(|stem|)
    decreases |ext|
  {
    var s := stem + "." + ext;
    if ext != [] {
      var e := ext[..|ext| - 1];
      assert s[|s| - 1] == ext[|ext| - 1];
      assert s[..|s| - 1] == stem + "." + e;
      LastDotBefore(stem, e);
    }
  }

  /** Only the text after the last '.' decides, in any letter case,
      whatever comes before it. */
  lemma AllowedByExtension(stem: string, ext: string)
    requires '.' !in ext
    ensures AllowedFile(stem + "." + ext) <==> Lower(ext) in AllowedExtensions
  {
    LastDotBefore(stem, ext);
    assert (stem + "." + ext)[|stem| + 1..] == ext;
  }

  lemma UpperCaseExtension()
    ensures AllowedFile("photo.tar" + "." + "PNG")
  {
    assert Lower("PNG") == "png";
    AllowedByExtension("photo.tar", "PNG");
  }

  lemma ExtensionOnly()
    ensures AllowedFile("" + "." + "png")
  {
    assert Lower("png") == "png";
    AllowedByExtension("", "png");
  }

  lemma InnerExtensionIgnored()
    ensures !AllowedFile("photo.png" + "." + "exe")
  {
    assert Lower("exe") == "exe";
    AllowedByExtension("photo.png", "exe");
  }

  lemma NoDotRefused()
    ensures !AllowedFile("png")
  {
    AllowedFileSpec("png");
  }

  /** A file of exactly 16 MiB passes the size check; one byte more does
      not. */
  lemma SizeBoundary(models: Models, filename: string)
    requires AllLoaded(models) && AllowedFile(filename)
    ensures Gate(models, filename, 16777216) == Accept
    ensures Gate(models, filename, 16777217) == Reject(400, "File too large")
  {
  }
}
