/**
 * The preview dialog's classifiers: a file's kind comes from the lowercased
 * text after its last `.`, and the dialog renders image, pdf, video and
 * audio files inline and offers everything else as a download.
 */
module FilePreview {
  import opened Strings

  /** The lowercased last `.`-piece of the name; the whole lowercased name when it has no `.`. */
  function Extension(fileName: string): (e: string)
    ensures '.' !in e
    ensures |e| <= |fileName|
  {
    ToLower(LastSegment(fileName, '.'))
  }

  const ImageExtensions: seq<string> := ["jpg", "jpeg", "png", "gif", "svg", "webp", "bmp"]
  const TextExtensions: seq<string> := ["txt", "md", "json", "xml", "csv", "js", "ts", "html", "css", "py", "java"]
  const VideoExtensions: seq<string> := ["mp4", "avi", "mov", "wmv", "flv", "webm"]
  const AudioExtensions: seq<string> := ["mp3", "wav", "ogg", "aac", "m4a"]

  predicate IsImage(fileName: string) {
    Extension(fileName) in ImageExtensions
  }

  predicate IsText(fileName: string) {
    Extension(fileName) in TextExtensions
  }

  predicate IsPdf(fileName: string) {
    Extension(fileName) == "pdf"
  }

  predicate IsVideo(fileName: string) {
    Extension(fileName) in VideoExtensions
  }

  predicate IsAudio(fileName: string) {
    Extension(fileName) in AudioExtensions
  }

  datatype PreviewKind = ImagePreview | PdfPreview | VideoPreview | AudioPreview | DownloadOnly

  /**
   * The branch the dialog renders, checked in the order image, pdf, video,
   * audio.  The sets are disjoint, so each branch is taken exactly when its
   * test holds.
   */
  function RenderPreview(fileName: string): (k: PreviewKind)
    ensures k == ImagePreview <==> IsImage(fileName)
    ensures k == PdfPreview <==> IsPdf(fileName)
    ensures k == VideoPreview <==> IsVideo(fileName)
    ensures k == AudioPreview <==> IsAudio(fileName)
    ensures k == DownloadOnly <==> !IsImage(fileName) && !IsPdf(fileName) && !IsVideo(fileName) && !IsAudio(fileName)
  {
    ExtensionSetsDisjoint();
    if IsImage(fileName) then ImagePreview
    else if IsPdf(fileName) then PdfPreview
    else if IsVideo(fileName) then VideoPreview
    else if IsAudio(fileName) then AudioPreview
    else DownloadOnly
  }

  // ---------------------------------------------------------------------------
  // Properties
  // ---------------------------------------------------------------------------

  /** The extension is the lowercased last piece of the name split at `.`. */
  lemma ExtensionIsLastPiece(fileName: string)
    ensures var parts := Split(fileName, '.'); Extension(fileName) == ToLower(parts[|parts| - 1])
  {
    LastPieceIsSuffix(fileName, '.');
  }

  /** A name without `.` is its own extension, lowercased. */
  lemma ExtensionWithoutDot(fileName: string)
    requires '.' !in fileName
    ensures Extension(fileName) == ToLower(fileName)
  {
    assert LastIndexOf(fileName, '.') == -1;
  }

  /** Names that agree once lowercased have the same extension. */
  lemma ExtensionIgnoresCase(a: string, b: string)
    requires ToLower(a) == ToLower(b)
    ensures Extension(a) == Extension(b)
  {
    ToLowerLastSegment(a, '.');
    ToLowerLastSegment(b, '.');
  }

  /** Classification is case-insensitive. */
  lemma ClassificationIgnoresCase(a: string, b: string)
    requires ToLower(a) == ToLower(b)
    ensures IsImage(a) == IsImage(b) && IsText(a) == IsText(b) && IsPdf(a) == IsPdf(b)
    ensures IsVideo(a) == IsVideo(b) && IsAudio(a) == IsAudio(b)
    ensures RenderPreview(a) == RenderPreview(b)
  {
    ExtensionIgnoresCase(a, b);
  }

  /** An upper-case image name is an image. */
  lemma UpperCaseImageName()
    ensures IsImage("A.PNG") && IsImage("A.PNG") == IsImage("a.png")
  {
    assert ToLower("A.PNG") == "a.png";
    ExtensionIgnoresCase("A.PNG", "a.png");
    assert LastIndexOf("a.png", '.') == 1;
    assert Extension("a.png") == "png";
  }

  /** No extension is in two of the five sets. */
  lemma ExtensionSetsDisjoint()
    ensures forall e :: e in ImageExtensions ==> e !in TextExtensions && e !in VideoExtensions && e !in AudioExtensions && e != "pdf"
    ensures forall e :: e in TextExtensions ==> e !in VideoExtensions && e !in AudioExtensions && e != "pdf"
    ensures forall e :: e in VideoExtensions ==> e !in AudioExtensions && e != "pdf"
    ensures "pdf" !in AudioExtensions
  {
  }

  /** `IsText` is never consulted: a text file is offered as a download. */
  lemma TextFilesAreDownloaded(fileName: string)
    requires IsText(fileName)
    ensures RenderPreview(fileName) == DownloadOnly
  {
    ExtensionSetsDisjoint();
  }

  /** `bmp` is an image to the preview. */
  lemma BmpIsPreviewImage(fileName: string)
    requires Extension(fileName) == "bmp"
    ensures RenderPreview(fileName) == ImagePreview
  {
  }
}
