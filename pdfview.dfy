/**
 * The pane the viewer shows (linguabridge/src/components/PDFViewer.js): one nested
 * conditional over the viewer's props, returned here as a value.
 */
module PdfView {
  import opened Wrappers
  import opened Text
  import opened DocumentIds

  const AudioExtensions: set<string> := {"mp3", "wav", "m4a", "flac", "ogg"}
  const ImageExtensions: set<string> := {"png", "jpg", "jpeg"}
  const NoTranslation := "(No translation available)"
  const NoTranscription := "(No transcription available)"

  /** A backend URL the pane loads: `/file/{id}` (with `?lang=` when given) or `/audio/{id}`. */
  datatype Source = File(documentId: string, lang: Option<string>) | Audio(documentId: string)

  /** The transcription or translation area: a spinner, or text. */
  datatype Body = Spinner | Content(text: string)

  datatype Pane =
    | NoDocument
    | Switching
    | Processing(filename: string)
    | ImageOriginal(src: Source, alt: string)
    | ImageTranslation(text: string)
    | AudioPlayer(src: Source, filename: string, heading: string, body: Body)
    | PdfOriginal(src: Source, title: string)
    | PdfTranslation(filename: string, body: Body)

  predicate IsAudioExt(fileExt: string) {
    Lower(fileExt) in AudioExtensions
  }

  predicate IsImageExt(fileExt: string) {
    Lower(fileExt) in ImageExtensions
  }

  /** True of the panes that load something from the backend or show cached document text. */
  predicate ShowsBackendContent(p: Pane) {
    p.ImageOriginal? || p.ImageTranslation? || p.AudioPlayer? || p.PdfOriginal? || p.PdfTranslation?
  }

  /** `text || fallback` on a string prop. */
  function TextOr(text: string, fallback: string): string {
    if text != "" then text else fallback
  }

  /** The pane PDFViewer renders for its props. */
  function SelectPane(documentId: Option<string>, filename: string, fileExt: string, nativeText: string,
                      translatedText: string, viewLang: string, isSwitchingDocument: bool): (p: Pane)
    ensures p == NoDocument <==> !Truthy(documentId)
    ensures Truthy(documentId) && isSwitchingDocument ==> p == Switching
    ensures Truthy(documentId) && !isSwitchingDocument && IsPlaceholder(documentId.value) ==> p == Processing(filename)
    ensures ShowsBackendContent(p) ==> Truthy(documentId) && !isSwitchingDocument && !IsPlaceholder(documentId.value)
    // the inner placeholder checks of the audio and translated-PDF branches never fire
    ensures p.AudioPlayer? ==> p.body.Content?
    ensures p.PdfTranslation? ==> p.body.Content?
    ensures p.ImageOriginal? || p.ImageTranslation? <==>
              Truthy(documentId) && !isSwitchingDocument && !IsPlaceholder(documentId.value) && IsImageExt(fileExt)
    ensures p.AudioPlayer? <==>
              Truthy(documentId) && !isSwitchingDocument && !IsPlaceholder(documentId.value)
              && !IsImageExt(fileExt) && IsAudioExt(fileExt)
    ensures p.PdfOriginal? || p.PdfTranslation? <==>
              Truthy(documentId) && !isSwitchingDocument && !IsPlaceholder(documentId.value)
              && !IsImageExt(fileExt) && !IsAudioExt(fileExt)
    ensures p.ImageOriginal? ==> viewLang == "native" && p == ImageOriginal(File(documentId.value, None), filename)
    ensures p.ImageTranslation? ==> viewLang != "native" && p.text == TextOr(translatedText, NoTranslation)
    ensures p.PdfOriginal? ==> viewLang == "native" && p == PdfOriginal(File(documentId.value, Some("native")), filename)
    ensures p.PdfTranslation? ==> viewLang != "native" && p == PdfTranslation(filename, Content(TextOr(translatedText, NoTranslation)))
    ensures p.AudioPlayer? ==>
              && p.src == Audio(documentId.value)
              && p.body == Content(if viewLang == "native" then TextOr(nativeText, NoTranscription) else TextOr(translatedText, NoTranslation))
  {
    if !Truthy(documentId) then NoDocument
    else
      var id := documentId.value;
      var isTemporaryDocument := IsPlaceholder(id);
      if isSwitchingDocument then Switching
      else if isTemporaryDocument then Processing(filename)
      else if IsImageExt(fileExt) then
        if viewLang == "native" then ImageOriginal(File(id, None), filename)
        else ImageTranslation(TextOr(translatedText, NoTranslation))
      else if IsAudioExt(fileExt) then
        AudioPlayer(Audio(id), filename,
                    if viewLang == "native" then "Transcription" else "Translation",
                    if isTemporaryDocument then Spinner
                    else Content(if viewLang == "native" then TextOr(nativeText, NoTranscription)
                                 else TextOr(translatedText, NoTranslation)))
      else if viewLang == "native" then PdfOriginal(File(id, Some("native")), filename)
      else PdfTranslation(filename, if isTemporaryDocument then Spinner else Content(TextOr(translatedText, NoTranslation)))
  }

  /** The extension tests ignore letter case. */
  lemma ExtensionCaseInsensitive(fileExt: string)
    ensures IsImageExt(Lower(fileExt)) == IsImageExt(fileExt)
    ensures IsAudioExt(Lower(fileExt)) == IsAudioExt(fileExt)
  {
    LowerIdempotent(fileExt);
  }

  /** No extension is both an image and an audio extension. */
  lemma ImageAndAudioDisjoint(fileExt: string)
    ensures !(IsImageExt(fileExt) && IsAudioExt(fileExt))
  {
  }

  /** A placeholder id never reaches a pane that loads a file or shows document text. */
  lemma PlaceholderShowsNoContent(id: string, filename: string, fileExt: string, nativeText: string,
                                  translatedText: string, viewLang: string, isSwitchingDocument: bool)
    requires IsPlaceholder(id)
    ensures var p := SelectPane(Some(id), filename, fileExt, nativeText, translatedText, viewLang, isSwitchingDocument);
            p == (if isSwitchingDocument then Switching else Processing(filename))
  {
  }
}
