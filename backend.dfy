/**
 * The backend's file and request rules (backend/app.py): the upload whitelist, the stored file
 * name, the /file path fallback, feedback validation and the /metadata text join. The file system
 * is a predicate saying which paths exist.
 */
module Backend {
  import opened Wrappers
  import opened Text
  import PdfView
  import DocumentIds

  const AllowedExtensions: set<string> := {"pdf", "png", "jpg", "jpeg", "mp3", "wav", "m4a", "flac", "ogg"}
  const AudioExtensions: set<string> := {"mp3", "wav", "m4a", "flac", "ogg"}
  const ImageExtensions: seq<string> := ["png", "jpg", "jpeg"]
  const UploadDir := "tmp_uploads"
  const DataDir := "data"

  // ---------------------------------------------------------------- extensions

  /** `filename.rsplit(".", 1)[1].lower()`, defined when the name holds a dot. */
  function LastExtension(filename: string): (ext: string)
    requires '.' in filename
    ensures '.' !in ext
    ensures exists i :: 0 <= i < |filename| && filename[i] == '.' && ext == Lower(filename[i + 1..]) && '.' !in filename[i + 1..]
  {
    var after := AfterLast(filename, '.');
    var i := |filename| - |after| - 1;
    assert filename[i + 1..] == after;
    Lower(after)
  }

  /** The lowered segment after a dot that has no dot after it is the last extension. */
  lemma LastExtensionUnique(filename: string, i: int)
    requires 0 <= i < |filename| && filename[i] == '.' && '.' !in filename[i + 1..]
    ensures LastExtension(filename) == Lower(filename[i + 1..])
  {
    AfterLastAt(filename, '.', i);
  }

  /** allowed_file: the name holds a dot and its last extension, lowered, is whitelisted. */
  predicate AllowedFile(filename: string)
    ensures AllowedFile(filename) ==> '.' in filename && LastExtension(filename) != ""
  {
    '.' in filename && LastExtension(filename) in AllowedExtensions
  }

  /** is_audio_file: the same test against the audio extensions. */
  predicate IsAudioFile(filename: string)
    ensures IsAudioFile(filename) ==> AllowedFile(filename)
  {
    '.' in filename && LastExtension(filename) in AudioExtensions
  }

  /** A whitelisted file is one whose text after its last dot lowers to a listed extension. */
  lemma AllowedFileMeaning(filename: string)
    ensures AllowedFile(filename) <==>
              exists i :: 0 <= i < |filename| && filename[i] == '.' && '.' !in filename[i + 1..]
                          && Lower(filename[i + 1..]) in AllowedExtensions
  {
    if exists i :: 0 <= i < |filename| && filename[i] == '.' && '.' !in filename[i + 1..]
                   && Lower(filename[i + 1..]) in AllowedExtensions {
      var i :| 0 <= i < |filename| && filename[i] == '.' && '.' !in filename[i + 1..]
               && Lower(filename[i + 1..]) in AllowedExtensions;
      LastExtensionUnique(filename, i);
    }
  }

  /** Every audio file passes the upload whitelist. */
  lemma AudioFilesAreAllowed(filename: string)
    requires IsAudioFile(filename)
    ensures AllowedFile(filename)
  {
  }

  /** A name without a dot is refused whatever it ends with. */
  lemma NoDotRefused(filename: string)
    requires '.' !in filename
    ensures !AllowedFile(filename) && !IsAudioFile(filename)
  {
  }

  // ---------------------------------------------------------------- stored names

  /** The `file_url` recorded for an upload: audio becomes its transcript PDF, images keep
      their extension, everything else is the original PDF. */
  function FileUrl(docId: string, filename: string, ext: string): (url: string)
    ensures |docId| < |url| && url[..|docId|] == docId
    ensures AfterLast(url, '.') == (if !IsAudioFile(filename) && ext in ImageExtensions then ext else "pdf")
  {
    if IsAudioFile(filename) then
      StoredNameShape(docId, "_native", "pdf");
      docId + "_native" + "." + "pdf"
    else if ext in ImageExtensions then
      StoredNameShape(docId, "", ext);
      assert docId + "" == docId;
      docId + "." + ext
    else
      StoredNameShape(docId, "_original", "pdf");
      docId + "_original" + "." + "pdf"
  }

  /** A stored name `<docId><tag>.<last>` starts with the id and ends in its extension. */
  lemma StoredNameShape(docId: string, tag: string, last: string)
    requires '.' !in last
    ensures var url := docId + tag + "." + last;
            |docId| < |url| && url[..|docId|] == docId && AfterLast(url, '.') == last
  {
    AfterLastOfSuffix(docId + tag, last);
    assert (docId + tag + "." + last)[..|docId|] == docId;
  }

  /** The `fileExt` /metadata reports: `file_url.split(".")[-1].lower()`. */
  function MetadataExt(fileUrl: string): (ext: string)
    ensures '.' !in ext
    ensures '.' !in fileUrl ==> ext == Lower(fileUrl)
  {
    Lower(AfterLast(fileUrl, '.'))
  }

  lemma AfterLastOfSuffix(prefix: string, ext: string)
    requires '.' !in ext
    ensures AfterLast(prefix + "." + ext, '.') == ext
  {
    var s := prefix + "." + ext;
    assert s[|prefix| + 1..] == ext;
    AfterLastAt(s, '.', |prefix|);
  }

  /** What the viewer learns from /metadata about an upload: audio and PDF uploads read back as
      "pdf", image uploads as their own extension. */
  lemma MetadataExtOfUpload(docId: string, filename: string)
    requires AllowedFile(filename)
    ensures var ext := LastExtension(filename);
            MetadataExt(FileUrl(docId, filename, ext)) == (if ext in ImageExtensions && !IsAudioFile(filename) then ext else "pdf")
  {
    var ext := LastExtension(filename);
    LowerOfListed(if ext in ImageExtensions && !IsAudioFile(filename) then ext else "pdf");
  }

  lemma LowerOfListed(ext: string)
    requires ext in ImageExtensions || ext == "pdf"
    ensures Lower(ext) == ext
  {
  }

  /** After /metadata answers for an audio upload, the viewer no longer picks the audio player. */
  lemma AudioUploadViewedAsPdf(docId: string, filename: string, nativeText: string, translatedText: string, viewLang: string)
    requires AllowedFile(filename) && IsAudioFile(filename)
    requires docId != "" && !StartsWith(docId, "temp-")
    ensures var ext := MetadataExt(FileUrl(docId, filename, LastExtension(filename)));
            var pane := PdfView.SelectPane(Some(docId), filename, ext, nativeText, translatedText, viewLang, false);
            pane.PdfOriginal? || pane.PdfTranslation?
  {
    MetadataExtOfUpload(docId, filename);
    PdfExtViewedAsPdf(docId, filename, nativeText, translatedText, viewLang);
  }

  lemma PdfExtViewedAsPdf(docId: string, filename: string, nativeText: string, translatedText: string, viewLang: string)
    requires docId != "" && !StartsWith(docId, "temp-")
    ensures var pane := PdfView.SelectPane(Some(docId), filename, "pdf", nativeText, translatedText, viewLang, false);
            pane.PdfOriginal? || pane.PdfTranslation?
  {
    assert Truthy(Some(docId)) && !DocumentIds.IsPlaceholder(docId);
    LowerOfListed("pdf");
    assert !PdfView.IsImageExt("pdf") && !PdfView.IsAudioExt("pdf");
  }

  // ---------------------------------------------------------------- /file/<document_id>

  /** The /file reply: a file sent with its mimetype, or 404. */
  datatype FileResponse = Served(path: string, mimetype: string) | NotFound

  function ImagePath(documentId: string, ext: string): string {
    UploadDir + "/" + documentId + "." + ext
  }

  function OriginalPdfPath(documentId: string): string {
    DataDir + "/" + documentId + "_original.pdf"
  }

  function EnglishPdfPath(documentId: string): string {
    DataDir + "/" + documentId + "_english.pdf"
  }

  lemma DistinctPaths(documentId: string)
    ensures forall ext :: ImagePath(documentId, ext) != EnglishPdfPath(documentId)
    ensures OriginalPdfPath(documentId) != EnglishPdfPath(documentId)
  {
    forall ext ensures ImagePath(documentId, ext) != EnglishPdfPath(documentId) {
      assert ImagePath(documentId, ext)[0] != EnglishPdfPath(documentId)[0];
    }
    assert |OriginalPdfPath(documentId)| != |EnglishPdfPath(documentId)|;
  }

  /** The first of `exts` with an uploaded image on disk. */
  function FirstImage(documentId: string, exts: seq<string>, exists_: string -> bool): (found: Option<string>)
    ensures found.Some? ==> found.value in exts && exists_(ImagePath(documentId, found.value))
    ensures found.Some? ==>
              exists k :: 0 <= k < |exts| && exts[k] == found.value &&
                          forall m :: 0 <= m < k ==> !exists_(ImagePath(documentId, exts[m]))
    ensures found.None? <==> forall k :: 0 <= k < |exts| ==> !exists_(ImagePath(documentId, exts[k]))
  {
    if exts == [] then None
    else if exists_(ImagePath(documentId, exts[0])) then Some(exts[0])
    else FirstImage(documentId, exts[1..], exists_)
  }

  /** get_file: an uploaded image first, whatever the language; then for "native" (the default)
      the original PDF, for any other language the translated PDF falling back to the original. */
  function GetFile(documentId: string, lang: Option<string>, exists_: string -> bool): (r: FileResponse)
    ensures r.Served? ==> exists_(r.path)
    ensures (exists k :: 0 <= k < 3 && exists_(ImagePath(documentId, ImageExtensions[k]))) ==>
              r.Served? && r.path in (set k | 0 <= k < 3 :: ImagePath(documentId, ImageExtensions[k]))
    ensures lang.GetOr("native") == "native" ==> r != Served(EnglishPdfPath(documentId), "application/pdf")
    ensures r.NotFound? <==>
              && (forall k :: 0 <= k < 3 ==> !exists_(ImagePath(documentId, ImageExtensions[k])))
              && !exists_(OriginalPdfPath(documentId))
              && (lang.GetOr("native") == "native" || !exists_(EnglishPdfPath(documentId)))
    ensures FirstImage(documentId, ImageExtensions, exists_).Some? ==>
              var e := FirstImage(documentId, ImageExtensions, exists_).value;
              r == Served(ImagePath(documentId, e), "image/" + e)
    ensures FirstImage(documentId, ImageExtensions, exists_).None? && lang.GetOr("native") == "native" ==>
              r == if exists_(OriginalPdfPath(documentId)) then Served(OriginalPdfPath(documentId), "application/pdf")
                   else NotFound
    ensures FirstImage(documentId, ImageExtensions, exists_).None? && lang.GetOr("native") != "native" ==>
              r == if exists_(EnglishPdfPath(documentId)) then Served(EnglishPdfPath(documentId), "application/pdf")
                   else if exists_(OriginalPdfPath(documentId)) then Served(OriginalPdfPath(documentId), "application/pdf")
                   else NotFound
  {
    DistinctPaths(documentId);
    match FirstImage(documentId, ImageExtensions, exists_)
    case Some(ext) => Served(ImagePath(documentId, ext), "image/" + ext)
    case None =>
      if lang.GetOr("native") == "native" then
        if exists_(OriginalPdfPath(documentId)) then Served(OriginalPdfPath(documentId), "application/pdf")
        else NotFound
      else if exists_(EnglishPdfPath(documentId)) then Served(EnglishPdfPath(documentId), "application/pdf")
      else if exists_(OriginalPdfPath(documentId)) then Served(OriginalPdfPath(documentId), "application/pdf")
      else NotFound
  }

  /** A translated PDF, when present and no image shadows it, is what a non-native request gets. */
  lemma TranslationPreferred(documentId: string, lang: string, exists_: string -> bool)
    requires lang != "native"
    requires forall k :: 0 <= k < 3 ==> !exists_(ImagePath(documentId, ImageExtensions[k]))
    requires exists_(EnglishPdfPath(documentId))
    ensures GetFile(documentId, Some(lang), exists_) == Served(EnglishPdfPath(documentId), "application/pdf")
  {
  }

  // ---------------------------------------------------------------- /feedback

  datatype FeedbackVerdict = Rejected(error: string) | Accepted(text: string)

  /** `rating` is a truthy JSON number: present and not zero. */
  predicate TruthyRating(rating: Option<real>) {
    rating.Some? && rating.value != 0.0
  }

  /** The checks of submit_feedback before anything is stored. */
  function ValidateFeedback(userId: Option<string>, feedbackText: Option<string>, rating: Option<real>): (v: FeedbackVerdict)
    ensures v.Accepted? <==>
              && Truthy(userId) && Truthy(feedbackText)
              && |Trim(feedbackText.value, IsPySpace)| >= 10
              && (!TruthyRating(rating) || 1.0 <= rating.value <= 5.0)
    ensures v.Accepted? ==> v.text == Trim(feedbackText.value, IsPySpace)
    ensures !Truthy(userId) || !Truthy(feedbackText) ==> v == Rejected("Missing required fields")
  {
    if !Truthy(userId) || !Truthy(feedbackText) then Rejected("Missing required fields")
    else if |Trim(feedbackText.value, IsPySpace)| < 10 then Rejected("Feedback must be at least 10 characters long")
    else if TruthyRating(rating) && (rating.value < 1.0 || rating.value > 5.0) then Rejected("Rating must be between 1 and 5")
    else Accepted(Trim(feedbackText.value, IsPySpace))
  }

  /** A rating of 0 is falsy and so skips the range check. */
  lemma ZeroRatingAccepted(userId: string, feedbackText: string)
    requires userId != "" && |Trim(feedbackText, IsPySpace)| >= 10
    ensures ValidateFeedback(Some(userId), Some(feedbackText), Some(0.0)).Accepted?
  {
  }

  // ---------------------------------------------------------------- /metadata

  /** A row of the translations table: one page's texts, either possibly missing. */
  datatype TranslationRecord = TranslationRecord(original_text: Option<string>, translated_text: Option<string>)

  /** The truthy texts of the records, in record order. */
  function PageTexts(records: seq<TranslationRecord>, translated: bool): (texts: seq<string>)
    ensures |texts| <= |records|
    ensures forall k :: 0 <= k < |texts| ==> texts[k] != ""
  {
    if records == [] then []
    else
      var t := if translated then records[0].translated_text else records[0].original_text;
      (if Truthy(t) then [t.value] else []) + PageTexts(records[1..], translated)
  }

  /** `"\n\n".join(...)` over the truthy texts. */
  function JoinedText(records: seq<TranslationRecord>, translated: bool): (text: string)
    ensures text == "" <==> PageTexts(records, translated) == []
  {
    var texts := PageTexts(records, translated);
    JoinNonEmpty(texts);
    Join(texts, "\n\n")
  }

  lemma {:induction false} JoinNonEmpty(texts: seq<string>)
    requires forall k :: 0 <= k < |texts| ==> texts[k] != ""
    ensures Join(texts, "\n\n") == "" <==> texts == []
  {
    if |texts| > 1 {
      assert |Join(texts, "\n\n")| >= |texts[0]|;
    }
  }

  /** Selecting the texts keeps record order: it distributes over concatenation. */
  lemma {:induction false} PageTextsAppend(xs: seq<TranslationRecord>, ys: seq<TranslationRecord>, translated: bool)
    ensures PageTexts(xs + ys, translated) == PageTexts(xs, translated) + PageTexts(ys, translated)
  {
    if xs == [] {
      assert xs + ys == ys;
    } else {
      assert (xs + ys)[0] == xs[0];
      assert (xs + ys)[1..] == xs[1..] + ys;
      PageTextsAppend(xs[1..], ys, translated);
    }
  }

  lemma {:induction false} JoinSnoc(texts: seq<string>, t: string, sep: string)
    requires texts != []
    ensures Join(texts + [t], sep) == Join(texts, sep) + sep + t
  {
    if |texts| == 1 {
      assert texts + [t] == [texts[0], t];
    } else {
      assert (texts + [t])[1..] == texts[1..] + [t];
      JoinSnoc(texts[1..], t, sep);
    }
  }

  /** One more page: its text, when truthy, follows the earlier ones after a blank line. */
  lemma JoinedTextAppend(records: seq<TranslationRecord>, r: TranslationRecord, translated: bool)
    ensures var t := if translated then r.translated_text else r.original_text;
            var before := JoinedText(records, translated);
            JoinedText(records + [r], translated) ==
              if !Truthy(t) then before else if before == "" then t.value else before + "\n\n" + t.value
  {
    PageTextsAppend(records, [r], translated);
    var t := if translated then r.translated_text else r.original_text;
    var texts := PageTexts(records, translated);
    assert PageTexts([r], translated) == (if Truthy(t) then [t.value] else []) by {
      assert [r][1..] == [];
    }
    if Truthy(t) {
      if texts != [] {
        JoinSnoc(texts, t.value, "\n\n");
      } else {
        assert texts + [t.value] == [t.value];
      }
    } else {
      assert texts + [] == texts;
    }
  }
}
