/** The category table and first-match classification
    (file_organizer.py:54-63, 159-163). */
module Categories {
  import opened Filenames

  /** The category a file falls into when no list holds its extension. */
  const Fallback: string := "INNE"

  /** The category names, in the table's order: the keys of
      extension_mapping. */
  const Names: seq<string> := [
    "DOKUMENTY", "OBRAZY", "AUDIO", "WIDEO", "ARCHIWA", "EXE", "PROGRAMOWANIE", "INNE"
  ]

  /** Lists[i] holds the extensions of category Names[i]. */
  const Lists: seq<seq<string>> := [
    [".pdf", ".doc", ".docx", ".txt", ".rtf", ".odt"],
    [".jpg", ".jpeg", ".png", ".gif", ".bmp", ".tiff", ".webp"],
    [".mp3", ".wav", ".flac", ".m4a", ".aac"],
    [".mp4", ".avi", ".mkv", ".mov", ".wmv"],
    [".zip", ".rar", ".7z", ".tar", ".gz"],
    [".exe", ".msi"],
    [".py", ".java", ".cpp", ".c", ".html", ".css", ".js"],
    []
  ]

  /** name is one of the table's keys. */
  predicate IsCategory(name: string) {
    name in Names
  }

  /** The first category at or after row i whose list holds ext. */
  function MatchFrom(ext: string, i: nat): string
    requires i <= |Names|
    decreases |Names| - i
  {
    if i == |Names| then Fallback
    else if ext in Lists[i] then Names[i]
    else MatchFrom(ext, i + 1)
  }

  /** The category of a (lower-cased) extension. */
  function CategoryOf(ext: string): string {
    MatchFrom(ext, 0)
  }

  /** The for/break loop over the table (file_organizer.py:159-163). */
  method Classify(ext: string) returns (category: string)
    ensures category == CategoryOf(ext)
  {
    category := Fallback;
    for i := 0 to |Names|
      invariant category == Fallback
      invariant MatchFrom(ext, i) == CategoryOf(ext)
    {
      if ext in Lists[i] {
        category := Names[i];
        break;
      }
    }
  }

  /** MatchFrom picks the first row at or after i whose list holds ext, and
      the fallback when there is none. */
  lemma {:induction false} MatchFromIsFirstMatch(ext: string, i: nat)
    requires i <= |Names|
    ensures (exists k :: i <= k < |Names| && ext in Lists[k] &&
               MatchFrom(ext, i) == Names[k] &&
               forall j :: i <= j < k ==> ext !in Lists[j])
         || (MatchFrom(ext, i) == Fallback &&
               forall j :: i <= j < |Names| ==> ext !in Lists[j])
    decreases |Names| - i
  {
    if i == |Names| {
    } else if ext in Lists[i] {
      assert i <= i < |Names| && ext in Lists[i] && MatchFrom(ext, i) == Names[i];
    } else {
      MatchFromIsFirstMatch(ext, i + 1);
      assert MatchFrom(ext, i) == MatchFrom(ext, i + 1);
    }
  }

  /** Table shape: one list per key, the keys are distinct, and the
      fallback is the last key, with an empty list. */
  lemma TableShape()
    ensures |Lists| == |Names|
    ensures forall i, j :: 0 <= i < j < |Names| ==> Names[i] != Names[j]
    ensures Names[|Names| - 1] == Fallback && Lists[|Names| - 1] == []
  {
  }

  /** No extension is listed under two categories. */
  lemma TableDisjoint()
    ensures forall i, j, e :: 0 <= i < j < |Names| && e in Lists[i] ==> e !in Lists[j]
  {
  }

  /** Every listed extension is lower case and starts with a dot. */
  lemma TableExtensionsAreLower()
    ensures forall i, e :: 0 <= i < |Names| && e in Lists[i] ==> |e| > 0 && e[0] == '.'
    ensures forall i, e :: 0 <= i < |Names| && e in Lists[i] ==> Lower(e) == e
  {
    forall i, e | 0 <= i < |Names| && e in Lists[i] ensures Lower(e) == e {
      assert NoUpper(e);
      LowerOfNoUpper(e);
    }
  }

  /** Because the lists are disjoint, the first match is the only match: an
      extension listed under a category is classified there. */
  lemma ClassifiedUnderItsList(ext: string, i: nat)
    requires i < |Names| && ext in Lists[i]
    ensures CategoryOf(ext) == Names[i]
  {
    TableDisjoint();
    MatchFromIsFirstMatch(ext, 0);
  }

  /** The fallback is reached only when no list holds the extension. */
  lemma FallbackOnlyByDefault(ext: string)
    ensures CategoryOf(ext) == Fallback <==> forall i :: 0 <= i < |Names| ==> ext !in Lists[i]
  {
    TableShape();
    MatchFromIsFirstMatch(ext, 0);
  }

  /** A file without an extension goes to the fallback category. */
  lemma NoExtensionFallsBack()
    ensures CategoryOf("") == Fallback
  {
    TableExtensionsAreLower();
    assert forall i :: 0 <= i < |Names| ==> "" !in Lists[i];
    FallbackOnlyByDefault("");
  }

  /** Every file is classified into one of the table's categories. */
  lemma CategoryOfIsCategory(ext: string)
    ensures IsCategory(CategoryOf(ext))
  {
    MatchFromIsFirstMatch(ext, 0);
    TableShape();
  }

  /** Only the last suffix counts: "a.tar.gz" is an archive by ".gz". */
  lemma ArchiveExample()
    ensures SplitExt("a.tar.gz") == ("a.tar", ".gz")
    ensures CategoryOf(Extension("a.tar.gz")) == "ARCHIWA"
  {
    assert LastDot("a.tar.gz") == 5 && "a.tar.gz"[..5] == "a.tar" && "a.tar"[0] != '.';
    assert Lower(".gz") == ".gz";
    ClassifiedUnderItsList(".gz", 4);
  }

  /** A leading dot does not start an extension: ".bashrc" has none. */
  lemma DotfileExample()
    ensures SplitExt(".bashrc") == (".bashrc", "")
    ensures CategoryOf(Extension(".bashrc")) == Fallback
  {
    assert forall i :: 0 <= i < |".bashrc"| && ".bashrc"[i] == '.' ==> i == 0;
    NoExtensionFallsBack();
  }

  /** Letter case is ignored: "Photo.JPG" is an image. */
  lemma UpperCaseExample()
    ensures Extension("Photo.JPG") == ".jpg"
    ensures CategoryOf(Extension("Photo.JPG")) == "OBRAZY"
  {
    assert "Photo.JPG"[5] == '.' && forall j :: 5 < j < 9 ==> "Photo.JPG"[j] != '.';
    assert LastDot("Photo.JPG") == 5 && "Photo.JPG"[..5] == "Photo" && "Photo"[0] != '.';
    var ext := Lower(".JPG");
    assert ext[0] == '.' && ext[1] == 'j' && ext[2] == 'p' && ext[3] == 'g';
    assert ext == ".jpg";
    ClassifiedUnderItsList(".jpg", 1);
  }
}
