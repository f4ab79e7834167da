/** Document identities as the front end sees them: client-minted placeholders and backend ids. */
module DocumentIds {
  import opened Wrappers
  import opened Text

  const PlaceholderPrefix := "temp-"

  /** Ids minted at upload start carry the `temp-` prefix. */
  predicate IsPlaceholder(id: string) {
    StartsWith(id, PlaceholderPrefix)
  }

  /** fetchDocumentMetadata's guard: the id is truthy and is not the text "undefined". */
  predicate IsUsableId(id: Option<string>) {
    Truthy(id) && id.value != "undefined"
  }

  /** `temp-${Date.now()}-${Math.random().toString(36).substr(2, 9)}`, the clock reading and the random digits given. */
  function PlaceholderId(now: nat, random: string): (id: string)
    ensures IsPlaceholder(id) && IsUsableId(Some(id))
  {
    var id := PlaceholderPrefix + Decimal(now) + "-" + random;
    assert id[0] == 't';
    id
  }

  /** In `digits + "-" + rest` the first dash sits right after the digits. */
  lemma FirstDash(d: string, r: string)
    requires forall i :: 0 <= i < |d| ==> '0' <= d[i] <= '9'
    ensures |d + "-" + r| > |d| && (d + "-" + r)[|d|] == '-'
    ensures forall i :: 0 <= i < |d| ==> (d + "-" + r)[i] != '-'
  {
  }

  lemma DigitsPrefixEqual(d1: string, r1: string, d2: string, r2: string)
    requires forall i :: 0 <= i < |d1| ==> '0' <= d1[i] <= '9'
    requires forall i :: 0 <= i < |d2| ==> '0' <= d2[i] <= '9'
    requires d1 + "-" + r1 == d2 + "-" + r2
    ensures d1 == d2
  {
    FirstDash(d1, r1);
    FirstDash(d2, r2);
    var s := d1 + "-" + r1;
    assert |d1| == |d2|;
    assert d1 == s[..|d1|] == d2;
  }

  /** Placeholders minted at different clock readings differ, whatever the random digits. */
  lemma PlaceholderIdsDiffer(now1: nat, random1: string, now2: nat, random2: string)
    requires now1 != now2
    ensures PlaceholderId(now1, random1) != PlaceholderId(now2, random2)
  {
    if PlaceholderId(now1, random1) == PlaceholderId(now2, random2) {
      var d1, d2 := Decimal(now1), Decimal(now2);
      var s := PlaceholderId(now1, random1);
      assert s == PlaceholderPrefix + (d1 + "-" + random1);
      assert s == PlaceholderPrefix + (d2 + "-" + random2);
      assert d1 + "-" + random1 == s[|PlaceholderPrefix|..] == d2 + "-" + random2;
      DigitsPrefixEqual(d1, random1, d2, random2);
      DecimalRoundTrip(now1);
      DecimalRoundTrip(now2);
      assert false;
    }
  }
}

/**
 * The root page's document-session coordinator (linguabridge/src/app/page.js): the active
 * document, its cached texts, the placeholders of uploads in flight and the user's document
 * list. Each event handler is one method; each backend reply is delivered by its own method,
 * and a handler returns the backend requests it issues, in the order it issues them.
 */
module DocumentSession {
  import opened Wrappers
  import opened Text
  import opened DocumentIds
  import PdfView

  datatype UserDocument = UserDocument(document_id: string, title: string, created_at: string)

  /** The upload reply as the upload dialog hands it to onUploadComplete. */
  datatype UploadMeta = UploadMeta(documentId: Option<string>, id: Option<string>, name: Option<string>,
                                   filename: Option<string>, file_ext: Option<string>)

  /** A backend call issued by a handler: GET /metadata/{id} or GET /user/documents?user_id=. */
  datatype Request = GetMetadata(documentId: string) | ListDocuments(userId: string)

  /** Replies: an ok response with its JSON fields, a non-ok status, or a thrown error. */
  datatype MetadataReply =
    | MetadataOk(fileExt: Option<string>, nativeText: Option<string>, translatedText: Option<string>)
    | MetadataNotOk
    | MetadataError
  datatype DocumentsReply = DocumentsOk(documents: Option<seq<UserDocument>>) | DocumentsNotOk | DocumentsError
  datatype DeleteReply = DeleteOk | DeleteNotOk(error: Option<string>) | DeleteError(message: string)

  /** How deleteUserDocument ends: early return without a user, success, or a thrown error. */
  datatype DeleteOutcome = NotSignedIn | Deleted(requests: seq<Request>) | Thrown(message: string)

  /** `file.name.split('.').pop() || 'pdf'`. */
  function ExtensionOfName(name: string): (ext: string)
    ensures ext != "" && '.' !in ext
    ensures '.' !in name && name != "" ==> ext == name
  {
    var last := AfterLast(name, '.');
    if last == "" then "pdf" else last
  }

  /** The extension is the text after the name's last dot (the whole name when it has none);
      "pdf" stands in only when that text is empty: an empty name or one ending in a dot. */
  lemma ExtensionOfNameMeaning(name: string)
    ensures name != "" && name[|name| - 1] != '.' ==>
              var ext := ExtensionOfName(name);
              |ext| <= |name| && ext == name[|name| - |ext|..] && (|ext| == |name| || name[|name| - |ext| - 1] == '.')
    ensures name == "" || name[|name| - 1] == '.' ==> ExtensionOfName(name) == "pdf"
  {
    var last := AfterLast(name, '.');
    if name != "" && name[|name| - 1] != '.' {
      assert last != "";
    }
  }

  /** `meta.documentId || meta.id || meta.name`: the first truthy key, else `meta.name` as it is. */
  function CompletionId(meta: UploadMeta): (docId: Option<string>)
    ensures Truthy(meta.documentId) ==> docId == meta.documentId
    ensures !Truthy(meta.documentId) && Truthy(meta.id) ==> docId == meta.id
    ensures !Truthy(meta.documentId) && !Truthy(meta.id) ==> docId == meta.name
    ensures Truthy(docId) <==> Truthy(meta.documentId) || Truthy(meta.id) || Truthy(meta.name)
  {
    if Truthy(meta.documentId) then meta.documentId
    else if Truthy(meta.id) then meta.id
    else meta.name
  }

  /** A `documentId` of "undefined" wins the key choice and so rejects the reply, whatever `id` holds. */
  lemma UndefinedKeyRejects(meta: UploadMeta)
    requires meta.documentId == Some("undefined")
    ensures !IsUsableId(CompletionId(meta))
  {
  }

  /** The request fetchDocumentMetadata(docId) issues: none for a falsy or "undefined" id. */
  function MetadataFetch(docId: Option<string>): (requests: seq<Request>)
    ensures |requests| <= 1
    ensures requests != [] <==> IsUsableId(docId)
    ensures requests != [] ==> requests[0] == GetMetadata(docId.value)
  {
    if IsUsableId(docId) then [GetMetadata(docId.value)] else []
  }

  /** The request fetchUserDocuments issues: none without a signed-in user. */
  function DocumentsFetch(userId: Option<string>): (requests: seq<Request>)
    ensures |requests| <= 1
    ensures requests != [] <==> Truthy(userId)
    ensures requests != [] ==> requests[0] == ListDocuments(userId.value)
  {
    if Truthy(userId) then [ListDocuments(userId.value)] else []
  }

  /** The `processingDocuments` updater of onUploadComplete: copy the set, delete every placeholder. */
  method PrunePlaceholders(prev: set<string>) returns (next: set<string>)
    ensures next == set id | id in prev && !IsPlaceholder(id)
  {
    next := prev;
    var toVisit := prev;
    while toVisit != {}
      invariant toVisit <= prev
      invariant forall id :: id in next <==> id in prev && (id in toVisit || !IsPlaceholder(id))
      decreases toVisit
    {
      var id :| id in toVisit;
      if IsPlaceholder(id) {
        next := next - {id};
      }
      toVisit := toVisit - {id};
    }
  }

  /** Adding a placeholder to a set of placeholders leaves a set of placeholders. */
  lemma PlaceholderSetGrows(ids: set<string>, id: string)
    requires forall x :: x in ids ==> IsPlaceholder(x)
    requires IsPlaceholder(id)
    ensures forall x :: x in ids + {id} ==> IsPlaceholder(x)
  {
  }

  class Session {
    /** The signed-in user's id (`user?.id`). */
    const userId: Option<string>
    var documentId: Option<string>
    var filename: string
    var fileExt: string
    var nativeText: string
    var translatedText: string
    var pageNumber: int
    var zoom: real
    var isSwitchingDocument: bool
    var processingDocuments: set<string>
    var userDocuments: seq<UserDocument>

    /** Only upload start adds to `processingDocuments`, and what it adds is a placeholder. */
    ghost predicate Valid()
      reads this
    {
      forall id :: id in processingDocuments ==> IsPlaceholder(id)
    }

    /** The `useState` initial values. */
    constructor (userId: Option<string>)
      ensures Valid() && this.userId == userId
      ensures documentId == None && filename == "" && fileExt == "pdf" && nativeText == "" && translatedText == ""
      ensures pageNumber == 1 && zoom == 1.0 && !isSwitchingDocument
      ensures processingDocuments == {} && userDocuments == []
    {
      this.userId := userId;
      documentId := None;
      filename := "";
      fileExt := "pdf";
      nativeText := "";
      translatedText := "";
      pageNumber := 1;
      zoom := 1.0;
      isSwitchingDocument := false;
      processingDocuments := {};
      userDocuments := [];
    }

    /** The pane PDFViewer shows for this state and the given language toggle. */
    function Pane(viewLang: string): PdfView.Pane
      reads this
    {
      PdfView.SelectPane(documentId, filename, fileExt, nativeText, translatedText, viewLang, isSwitchingDocument)
    }

    /** onUploadStart: show a fresh placeholder for the file while it uploads. */
    method OnUploadStart(fileName: string, now: nat, random: string) returns (tempId: string)
      requires Valid()
      modifies this
      ensures Valid()
      ensures tempId == PlaceholderId(now, random)
      ensures processingDocuments == old(processingDocuments) + {tempId}
      ensures documentId == Some(tempId) && filename == fileName && fileExt == ExtensionOfName(fileName)
      ensures nativeText == "" && translatedText == ""
      ensures unchanged(this`pageNumber, this`zoom, this`isSwitchingDocument, this`userDocuments)
    {
      tempId := PlaceholderId(now, random);
      assert IsPlaceholder(tempId);
      var ext := ExtensionOfName(fileName);
      PlaceholderSetGrows(processingDocuments, tempId);
      processingDocuments := processingDocuments + {tempId};
      documentId := Some(tempId);
      filename := fileName;
      fileExt := ext;
      nativeText := "";
      translatedText := "";
    }

    /** onUploadComplete: drop every placeholder; on a usable id make it active, then fetch its
        metadata and, after that settles, refresh the list. */
    method OnUploadComplete(meta: UploadMeta) returns (requests: seq<Request>)
      requires Valid()
      modifies this
      ensures Valid()
      ensures processingDocuments == set id | id in old(processingDocuments) && !IsPlaceholder(id)
      ensures processingDocuments == {}
      ensures unchanged(this`nativeText, this`translatedText, this`isSwitchingDocument, this`userDocuments)
      ensures IsUsableId(CompletionId(meta)) ==>
                && documentId == CompletionId(meta)
                && fileExt == OrElse(meta.file_ext, "pdf")
                && filename == OrElse(meta.filename, OrElse(meta.name, "Document"))
                && pageNumber == 1 && zoom == 1.0
                && requests == [GetMetadata(CompletionId(meta).value)] + DocumentsFetch(userId)
      ensures !IsUsableId(CompletionId(meta)) ==>
                && unchanged(this`documentId, this`fileExt, this`filename, this`pageNumber, this`zoom)
                && requests == []
    {
      var docId := CompletionId(meta);
      if IsUsableId(docId) {
        processingDocuments := PrunePlaceholders(processingDocuments);
        documentId := docId;
        fileExt := OrElse(meta.file_ext, "pdf");
        filename := OrElse(meta.filename, OrElse(meta.name, "Document"));
        pageNumber := 1;
        zoom := 1.0;
        var metadata := MetadataFetch(docId);
        var listing := DocumentsFetch(userId);
        requests := metadata + listing;
      } else {
        processingDocuments := PrunePlaceholders(processingDocuments);
        requests := [];
      }
    }

    /** onDocumentSelect: clear the texts, switch to the document, fetch its metadata unless it is a placeholder. */
    method OnDocumentSelect(doc: UserDocument) returns (requests: seq<Request>)
      modifies this
      ensures isSwitchingDocument && nativeText == "" && translatedText == ""
      ensures documentId == Some(doc.document_id) && filename == doc.title && pageNumber == 1 && zoom == 1.0
      ensures requests == if IsPlaceholder(doc.document_id) then [] else MetadataFetch(Some(doc.document_id))
      ensures unchanged(this`fileExt, this`processingDocuments, this`userDocuments)
    {
      isSwitchingDocument := true;
      nativeText := "";
      translatedText := "";
      documentId := Some(doc.document_id);
      filename := doc.title;
      pageNumber := 1;
      zoom := 1.0;
      if !IsPlaceholder(doc.document_id) {
        requests := MetadataFetch(Some(doc.document_id));
      } else {
        requests := [];
      }
    }

    /** The timer onDocumentSelect starts: it clears the switching flag. */
    method OnSwitchTimerFired()
      modifies this`isSwitchingDocument
      ensures !isSwitchingDocument
    {
      isSwitchingDocument := false;
    }

    /** The reply to GET /metadata/{requestedId}. It is committed without comparing
        `requestedId` with the active `documentId`. */
    method ReceiveMetadata(requestedId: string, reply: MetadataReply)
      modifies this`fileExt, this`nativeText, this`translatedText
      ensures reply.MetadataOk? ==>
                && fileExt == OrElse(reply.fileExt, "pdf")
                && nativeText == OrElse(reply.nativeText, "")
                && translatedText == OrElse(reply.translatedText, "")
      ensures !reply.MetadataOk? ==> unchanged(this`fileExt, this`nativeText, this`translatedText)
    {
      if reply.MetadataOk? {
        fileExt := OrElse(reply.fileExt, "pdf");
        nativeText := OrElse(reply.nativeText, "");
        translatedText := OrElse(reply.translatedText, "");
      }
    }

    /** The reply to GET /user/documents: the list is replaced, never merged. */
    method ReceiveDocuments(reply: DocumentsReply)
      modifies this`userDocuments
      ensures reply.DocumentsOk? ==> userDocuments == reply.documents.GetOr([])
      ensures !reply.DocumentsOk? ==> userDocuments == old(userDocuments)
    {
      if reply.DocumentsOk? {
        userDocuments := reply.documents.GetOr([]);
      }
    }

    /** deleteUserDocument, given the DELETE reply: on success refresh the list and, if the
        deleted document is the active one, clear the view; otherwise throw and change nothing. */
    method DeleteUserDocument(doc: UserDocument, reply: DeleteReply) returns (outcome: DeleteOutcome)
      modifies this`documentId, this`filename, this`nativeText, this`translatedText
      ensures !Truthy(userId) ==> outcome == NotSignedIn
      ensures Truthy(userId) && reply.DeleteOk? ==> outcome == Deleted(DocumentsFetch(userId))
      ensures Truthy(userId) && reply.DeleteNotOk? ==> outcome == Thrown(OrElse(reply.error, "Failed to delete document"))
      ensures Truthy(userId) && reply.DeleteError? ==> outcome == Thrown(reply.message)
      ensures outcome.Deleted? && old(documentId) == Some(doc.document_id) ==>
                documentId == None && filename == "" && nativeText == "" && translatedText == ""
      ensures !(outcome.Deleted? && old(documentId) == Some(doc.document_id)) ==>
                unchanged(this`documentId, this`filename, this`nativeText, this`translatedText)
    {
      if !Truthy(userId) {
        return NotSignedIn;
      }
      match reply {
        case DeleteOk =>
          outcome := Deleted(DocumentsFetch(userId));
          if documentId == Some(doc.document_id) {
            documentId := None;
            filename := "";
            nativeText := "";
            translatedText := "";
          }
        case DeleteNotOk(error) =>
          outcome := Thrown(OrElse(error, "Failed to delete document"));
        case DeleteError(message) =>
          outcome := Thrown(message);
      }
    }
  }

  /**
   * Two selections whose metadata replies arrive out of order: B is selected after A, B's reply
   * arrives first, A's last. The view ends on B's id showing A's texts.
   */
  method StaleReplyOverwrites(userId: Option<string>, a: UserDocument, b: UserDocument,
                              replyA: MetadataReply, replyB: MetadataReply)
    returns (requestsA: seq<Request>, requestsB: seq<Request>, activeId: Option<string>,
             shownNative: string, shownTranslated: string)
    requires IsUsableId(Some(a.document_id)) && !IsPlaceholder(a.document_id)
    requires IsUsableId(Some(b.document_id)) && !IsPlaceholder(b.document_id)
    requires replyA.MetadataOk?
    ensures requestsA == [GetMetadata(a.document_id)] && requestsB == [GetMetadata(b.document_id)]
    ensures activeId == Some(b.document_id)
    ensures shownNative == OrElse(replyA.nativeText, "") && shownTranslated == OrElse(replyA.translatedText, "")
  {
    var session := new Session(userId);
    requestsA := session.OnDocumentSelect(a);
    requestsB := session.OnDocumentSelect(b);
    session.ReceiveMetadata(b.document_id, replyB);
    session.ReceiveMetadata(a.document_id, replyA);
    activeId, shownNative, shownTranslated := session.documentId, session.nativeText, session.translatedText;
  }

  /**
   * An upload from start to completion. A usable id replaces the placeholder and triggers the
   * metadata fetch, then the list refresh; an unusable one empties the placeholder set but leaves
   * the placeholder active, so the viewer stays on its processing pane.
   */
  method UploadLifecycle(userId: Option<string>, fileName: string, now: nat, random: string, meta: UploadMeta)
    returns (tempId: string, pendingWhileUploading: set<string>, pendingAfter: set<string>,
             activeAfter: Option<string>, requests: seq<Request>, paneAfter: PdfView.Pane)
    ensures tempId == PlaceholderId(now, random) && pendingWhileUploading == {tempId}
    ensures pendingAfter == {}
    ensures IsUsableId(CompletionId(meta)) ==>
              activeAfter == CompletionId(meta) && requests == [GetMetadata(activeAfter.value)] + DocumentsFetch(userId)
    ensures !IsUsableId(CompletionId(meta)) ==>
              activeAfter == Some(tempId) && requests == [] && paneAfter == PdfView.Processing(fileName)
  {
    var session := new Session(userId);
    tempId := session.OnUploadStart(fileName, now, random);
    pendingWhileUploading := session.processingDocuments;
    requests := session.OnUploadComplete(meta);
    pendingAfter, activeAfter := session.processingDocuments, session.documentId;
    paneAfter := session.Pane("native");
  }
}
