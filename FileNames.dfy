/**
 * File-name rules of the program: the output-name check with its default,
 * the `.pdf` test a discovered file must pass, and the default display label
 * (the base name with its last extension removed, as `os.path.splitext`
 * and `os.path.basename` compute it on POSIX).
 */
module FileNames {
  import opened Text

  /** The characters an output name may not contain. */
  const InvalidChars: string := "<>:\"/\\|?*"

  /** The name used when the operator answers the output-name prompt with nothing. */
  const DefaultOutputName: string := "pdf_links.html"

  /** An output name passes the check when none of its characters is invalid. */
  predicate ValidFileName(name: string)
  {
    forall i :: 0 <= i < |name| ==> name[i] !in InvalidChars
  }

  /**
   * `validate_filename`: tries each invalid character in turn and rejects the
   * name at the first one it contains.
   */
  method ValidateFilename(filename: string) returns (ok: bool)
    ensures ok <==> forall k :: 0 <= k < |InvalidChars| ==> InvalidChars[k] !in filename
    ensures ok <==> ValidFileName(filename)
  {
    var i := 0;
    while i < |InvalidChars|
      invariant 0 <= i <= |InvalidChars|
      invariant forall k :: 0 <= k < i ==> InvalidChars[k] !in filename
    {
      if InvalidChars[i] in filename {
        return false;
      }
      i := i + 1;
    }
    return true;
  }

  /** The default output name passes the check. */
  lemma DefaultOutputNameValid()
    ensures ValidFileName(DefaultOutputName)
  {
    forall i | 0 <= i < |DefaultOutputName|
      ensures DefaultOutputName[i] !in InvalidChars
    {
      assert DefaultOutputName[i] in "pdf_links.htm";
    }
  }

  /**
   * The name taken from an answer to the output-name prompt: the stripped
   * answer, or the default name when that is empty.
   */
  function PromptedOutputName(answer: string): (name: string)
    ensures name != ""
    ensures Strip(answer) == "" ==> name == DefaultOutputName
    ensures Strip(answer) != "" ==> name == Strip(answer)
  {
    var stripped := Strip(answer);
    if stripped == "" then DefaultOutputName else stripped
  }

  /** The index of the last `c` in `s`, or -1 when `s` has none (`str.rfind`). */
  function LastIndexOf(s: string, c: char): (r: int)
    ensures -1 <= r < |s|
    ensures r >= 0 ==> s[r] == c
    ensures forall k :: r < k < |s| ==> s[k] != c
  {
    if s == [] then -1
    else if s[|s| - 1] == c then |s| - 1
    else LastIndexOf(s[..|s| - 1], c)
  }

  /** `os.path.basename`: what follows the last '/'. */
  function Basename(p: string): string
  {
    p[LastIndexOf(p, '/') + 1..]
  }

  /**
   * The base name is the longest suffix of the path without '/': a '/'
   * precedes it unless it is the whole path, and a path without '/' is its
   * own base name.
   */
  lemma BasenameMeaning(p: string)
    ensures '/' !in Basename(p)
    ensures |Basename(p)| <= |p| && p == p[..|p| - |Basename(p)|] + Basename(p)
    ensures |Basename(p)| < |p| ==> p[|p| - |Basename(p)| - 1] == '/'
    ensures '/' !in p ==> Basename(p) == p
  {
  }

  /** Some character of `p[from..to]` is not a dot. */
  predicate HasStem(p: string, from: int, to: int)
    requires 0 <= from && to <= |p|
  {
    exists k :: from <= k < to && p[k] != '.'
  }

  /** A non-dot character before `to` is one before any later `to'`. */
  lemma HasStemWidens(p: string, from: int, to: int, to': int)
    requires 0 <= from && to <= to' <= |p|
    ensures HasStem(p, from, to) ==> HasStem(p, from, to')
  {
  }

  /**
   * `os.path.splitext`: splits at the last '.' after the last '/', unless
   * only dots precede it in the last path component (so ".pdf" has no
   * extension).
   */
  function SplitExt(p: string): (string, string)
  {
    var sep := LastIndexOf(p, '/');
    var dot := LastIndexOf(p, '.');
    if dot > sep && HasStem(p, sep + 1, dot) then (p[..dot], p[dot..])
    else (p, "")
  }

  /**
   * The root and the extension concatenate back to the path; the extension
   * is empty, or one '.' followed by neither '.' nor '/'; the root is empty
   * only for the empty path. A non-empty extension follows a non-dot
   * character of the last path component; an empty one means every '.' of
   * that component has only dots before it.
   */
  lemma SplitExtMeaning(p: string)
    ensures SplitExt(p).0 + SplitExt(p).1 == p
    ensures SplitExt(p).1 == "" || (SplitExt(p).1[0] == '.' && '.' !in SplitExt(p).1[1..] && '/' !in SplitExt(p).1)
    ensures SplitExt(p).0 == "" ==> p == ""
    ensures SplitExt(p).1 != "" ==> HasStem(p, LastIndexOf(p, '/') + 1, |SplitExt(p).0|)
    ensures SplitExt(p).1 == "" ==>
              forall k :: LastIndexOf(p, '/') < k < |p| && p[k] == '.' ==> !HasStem(p, LastIndexOf(p, '/') + 1, k)
  {
    var sep, dot := LastIndexOf(p, '/'), LastIndexOf(p, '.');
    if SplitExt(p).1 == "" {
      forall k | sep < k < |p| && p[k] == '.'
        ensures !HasStem(p, sep + 1, k)
      {
        HasStemWidens(p, sep + 1, k, dot);
      }
    }
  }

  /** `get_clean_file_name`: the base name without its last extension. */
  function CleanFileName(path: string): string
  {
    SplitExt(Basename(path)).0
  }

  /** A non-empty base name never yields an empty label. */
  lemma CleanFileNameNonEmpty(path: string)
    ensures CleanFileName(path) == "" <==> Basename(path) == ""
  {
  }

  /** A discovered file qualifies when its lower-cased name ends with ".pdf". */
  predicate IsPdf(name: string)
  {
    EndsWith(Lower(name), ".pdf")
  }

  /**
   * The test accepts every mix of cases of "pdf" after the final '.', and
   * nothing else.
   */
  lemma IsPdfExactly(name: string)
    ensures IsPdf(name) <==>
              && |name| >= 4
              && name[|name| - 4] == '.'
              && name[|name| - 3] in "pP"
              && name[|name| - 2] in "dD"
              && name[|name| - 1] in "fF"
  {
    var low := Lower(name);
    if |name| >= 4 {
      var n := |name|;
      LowerCharTo(name[n - 4], '.');
      LowerCharTo(name[n - 3], 'p');
      LowerCharTo(name[n - 2], 'd');
      LowerCharTo(name[n - 1], 'f');
      assert low[n - 4..] == [low[n - 4], low[n - 3], low[n - 2], low[n - 1]];
    }
  }

  /** Mixed-case ".PDF" and ".Pdf" endings qualify; a longer extension such as ".pdfx" does not. */
  lemma IsPdfExamples()
    ensures IsPdf("A.PDF") && IsPdf("b.Pdf") && !IsPdf("c.pdfx")
  {
    IsPdfExactly("A.PDF");
    IsPdfExactly("b.Pdf");
    IsPdfExactly("c.pdfx");
  }

  /**
   * The default label of a qualifying file name (one without '/', as a
   * directory listing gives it) is the name minus its four-character ".pdf"
   * ending, unless nothing but dots precedes that ending; then it is the
   * whole name.
   */
  lemma CleanPdfName(name: string)
    requires IsPdf(name) && '/' !in name
    ensures CleanFileName(name) ==
              if HasStem(name, 0, |name| - 4) then name[..|name| - 4] else name
  {
    IsPdfExactly(name);
    var n := |name|;
    var dot := LastIndexOf(name, '.');
    assert name[n - 4] == '.';
    assert name[n - 3] != '.' && name[n - 2] != '.' && name[n - 1] != '.';
    assert dot == n - 4;
    assert LastIndexOf(name, '/') == -1;
    assert Basename(name) == name;
  }
}
