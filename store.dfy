/** The in-memory document store and the three ways documents enter it: a
    file upload dispatched on the file's extension, an e-mail posted as form
    fields, and a forwarded raw e-mail. The store only ever grows. */
module Store {
  import opened Text
  import opened Documents
  import opened EmailParser

  /** Which extractor an accepted upload goes through. */
  datatype FileKind = PlainText | Pdf | Word | Slides | Mail

  /** The extractor chosen, and the extension (without its dot) that chose it. */
  datatype Dispatch = Accept(kind: FileKind, extension: string) | Unsupported

  /** The extension test on the lower-cased filename, in the order of the
      source's `endswith` chain; only the Universal service takes e-mail files.
      An accepted name ends with a dot and the matched extension. */
  function Classify(variant: Variant, lowerName: string): (d: Dispatch)
    ensures d.Accept? ==> |d.extension| > 0 && '.' !in d.extension && EndsWith(lowerName, "." + d.extension)
  {
    if EndsWith(lowerName, ".txt") then Accept(PlainText, "txt")
    else if EndsWith(lowerName, ".pdf") then Accept(Pdf, "pdf")
    else if EndsWith(lowerName, ".docx") then Accept(Word, "docx")
    else if EndsWith(lowerName, ".doc") then Accept(Word, "doc")
    else if EndsWith(lowerName, ".pptx") then Accept(Slides, "pptx")
    else if EndsWith(lowerName, ".ppt") then Accept(Slides, "ppt")
    else if variant == Universal && EndsWith(lowerName, ".eml") then Accept(Mail, "eml")
    else if variant == Universal && EndsWith(lowerName, ".msg") then Accept(Mail, "msg")
    else Unsupported
  }

  /** `filename.split('.')[-1]`: the text after the last dot (the whole name
      when it has none). */
  function FileType(lowerName: string): string {
    var parts := SplitOn(lowerName, '.');
    parts[|parts| - 1]
  }

  /** The text a stored e-mail document holds. */
  function EmailDocumentText(subject: string, sender: string, body: string): string {
    "SUBJECT: " + subject + "\nFROM: " + sender + "\n\nCONTENT:\n" + body
  }

  function ParsedEmailText(e: Email): string {
    EmailDocumentText(e.subject, e.sender, e.body)
  }

  /** `f"Email_{subject[:30]}..."` */
  function EmailFilename(subject: string): string {
    "Email_" + subject[..Min(30, |subject|)] + "..."
  }

  /** The text the upload would store: for e-mail files the parsed message
      laid out by the template, otherwise the extracted text itself. */
  function StoredText(kind: FileKind, extracted: string): string {
    if kind == Mail then ParsedEmailText(ParseEmail(extracted)) else extracted
  }

  datatype UploadError = UnsupportedFileType(filename: string) | NoTextExtracted(filename: string)

  datatype Outcome = Stored(doc: Document) | Refused(error: UploadError)

  /** What an upload of `filename` whose extractor produced `extracted` does:
      refuse an unknown extension, refuse whitespace-only text, and otherwise
      store the text under the original filename with the extension of the
      lower-cased name as its type. */
  function Upload(variant: Variant, filename: string, extracted: string): Outcome {
    var lowerName := Lower(filename);
    match Classify(variant, lowerName)
    case Unsupported => Refused(UnsupportedFileType(filename))
    case Accept(kind, _) =>
      var text := StoredText(kind, extracted);
      if IsBlank(text) then Refused(NoTextExtracted(filename))
      else Stored(Document(text, filename, FileType(lowerName)))
  }

  /** The reply of the upload endpoint: the filename and the new store size,
      or the reason for refusing. */
  datatype UploadReply = Uploaded(filename: string, totalDocuments: nat) | Failed(error: UploadError)

  /** The reply of the two e-mail endpoints: the subject and the new store size. */
  datatype EmailReply = EmailStored(subject: string, totalDocuments: nat)

  /** No stored document is empty or whitespace-only. */
  ghost predicate AllHaveText(docs: seq<Document>) {
    forall i :: 0 <= i < |docs| ==> !IsBlank(docs[i].content)
  }

  /** The module-level `documents` list. */
  class DocumentStore {
    var documents: seq<Document>

    ghost predicate Valid()
      reads this
    {
      AllHaveText(documents)
    }

    constructor ()
      ensures documents == [] && Valid()
    {
      documents := [];
    }

    /** `documents.append(d)` */
    method Add(d: Document)
      requires Valid() && !IsBlank(d.content)
      modifies this
      ensures documents == old(documents) + [d] && Valid()
    {
      documents := documents + [d];
    }

    /** POST /upload. `extracted` is what the extension's extractor produced
        from the file's bytes (the decoded text for .txt, .eml and .msg); the
        `endswith` chain that picks the extractor is `Classify`. */
    method UploadFile(variant: Variant, filename: string, extracted: string) returns (reply: UploadReply)
      requires Valid()
      modifies this
      ensures Valid()
      ensures match Upload(variant, filename, extracted)
        case Stored(d) => documents == old(documents) + [d] && reply == Uploaded(filename, |documents|)
        case Refused(err) => documents == old(documents) && reply == Failed(err)
    {
      var lowerName := Lower(filename);
      var dispatch := Classify(variant, lowerName);
      if dispatch == Unsupported {
        return Failed(UnsupportedFileType(filename));
      }
      var textContent := extracted;
      if dispatch.kind == Mail {
        var emailData := ParseEmailContent(extracted);
        textContent := EmailDocumentText(emailData.subject, emailData.sender, emailData.body);
      }
      if IsBlank(textContent) {
        return Failed(NoTextExtracted(filename));
      }
      assert textContent == StoredText(dispatch.kind, extracted);
      Add(Document(textContent, filename, FileType(lowerName)));
      reply := Uploaded(filename, |documents|);
    }

    /** POST /email: the form fields become one e-mail document. */
    method ProcessEmail(subject: string, fromEmail: string, body: string) returns (reply: EmailReply)
      requires Valid()
      modifies this
      ensures Valid()
      ensures documents == old(documents) + [Document(EmailDocumentText(subject, fromEmail, body),
                                                       EmailFilename(subject), "email")]
      ensures reply == EmailStored(subject, |documents|)
    {
      var emailContent := EmailDocumentText(subject, fromEmail, body);
      TemplateHasText(subject, fromEmail, body);
      Add(Document(emailContent, EmailFilename(subject), "email"));
      reply := EmailStored(subject, |documents|);
    }

    /** POST /email/forward: the raw message is parsed and stored like a posted one. */
    method ForwardEmail(emailText: string) returns (reply: EmailReply)
      requires Valid()
      modifies this
      ensures Valid()
      ensures var e := ParseEmail(emailText);
        documents == old(documents) + [Document(ParsedEmailText(e), EmailFilename(e.subject), "email")]
        && reply == EmailStored(e.subject, |documents|)
    {
      var emailData := ParseEmailContent(emailText);
      var emailContent := EmailDocumentText(emailData.subject, emailData.sender, emailData.body);
      TemplateHasText(emailData.subject, emailData.sender, emailData.body);
      Add(Document(emailContent, EmailFilename(emailData.subject), "email"));
      reply := EmailStored(emailData.subject, |documents|);
    }
  }

  // ---------------------------------------------------------------------------
  // Properties of the upload rules

  /** The e-mail template is never whitespace-only, whatever the fields: it
      starts with "SUBJECT:". */
  lemma TemplateHasText(subject: string, sender: string, body: string)
    ensures !IsBlank(EmailDocumentText(subject, sender, body))
  {
    var t := EmailDocumentText(subject, sender, body);
    assert t[0] == 'S';
    assert !IsSpace(t[0]);
  }

  /** Exactly the six document extensions, plus .eml and .msg for the
      Universal service, are accepted. */
  lemma AcceptedExtensions(variant: Variant, lowerName: string)
    ensures Classify(variant, lowerName).Accept? <==>
      (EndsWith(lowerName, ".txt") || EndsWith(lowerName, ".pdf")
       || EndsWith(lowerName, ".docx") || EndsWith(lowerName, ".doc")
       || EndsWith(lowerName, ".pptx") || EndsWith(lowerName, ".ppt")
       || (variant == Universal && (EndsWith(lowerName, ".eml") || EndsWith(lowerName, ".msg"))))
  {
  }

  /** When a name ends with a dotted extension, its file type is that extension
      without the dot. */
  lemma FileTypeOfExtension(lowerName: string, ext: string)
    requires |ext| > 0 && '.' !in ext && EndsWith(lowerName, "." + ext)
    ensures FileType(lowerName) == ext
  {
    var n := |lowerName| - |ext| - 1;
    assert lowerName[n] == '.';
    assert lowerName[n + 1..] == ext;
    SplitOnLast(lowerName, '.', n);
  }

  /** The type recorded for an accepted upload is the extension the dispatch
      matched, without its dot. */
  lemma AcceptedFileType(variant: Variant, lowerName: string)
    requires Classify(variant, lowerName).Accept?
    ensures FileType(lowerName) == Classify(variant, lowerName).extension
  {
    FileTypeOfExtension(lowerName, Classify(variant, lowerName).extension);
  }

  /** A stored upload keeps the uploaded filename, is never whitespace-only,
      and its type is the extension the dispatch matched. */
  lemma StoredUploadShape(variant: Variant, filename: string, extracted: string)
    requires Upload(variant, filename, extracted).Stored?
    ensures var d := Upload(variant, filename, extracted).doc;
      d.filename == filename && !IsBlank(d.content)
      && d.fileType == Classify(variant, Lower(filename)).extension
      && d.fileType in {"txt", "pdf", "docx", "doc", "pptx", "ppt", "eml", "msg"}
  {
    var lowerName := Lower(filename);
    var c := Classify(variant, lowerName);
    AcceptedFileType(variant, lowerName);
    assert Upload(variant, filename, extracted).doc
      == Document(StoredText(c.kind, extracted), filename, FileType(lowerName));
    ExtensionListed(variant, lowerName);
  }

  /** Every extension the dispatch matches is one of the eight listed. */
  lemma ExtensionListed(variant: Variant, lowerName: string)
    requires Classify(variant, lowerName).Accept?
    ensures Classify(variant, lowerName).extension in {"txt", "pdf", "docx", "doc", "pptx", "ppt", "eml", "msg"}
  {
  }

  /** A document upload whose extracted text is whitespace-only is refused. */
  lemma BlankTextRefused(variant: Variant, filename: string, extracted: string)
    requires Classify(variant, Lower(filename)).Accept? && Classify(variant, Lower(filename)).kind != Mail
    requires IsBlank(extracted)
    ensures Upload(variant, filename, extracted) == Refused(NoTextExtracted(filename))
  {
  }

  /** An e-mail file is never refused for lack of text, since the template
      always has some. */
  lemma EmailFileAlwaysStored(filename: string, extracted: string)
    requires Classify(Universal, Lower(filename)).Accept? && Classify(Universal, Lower(filename)).kind == Mail
    ensures Upload(Universal, filename, extracted).Stored?
    ensures Upload(Universal, filename, extracted).doc.content == ParsedEmailText(ParseEmail(extracted))
  {
    var e := ParseEmail(extracted);
    TemplateHasText(e.subject, e.sender, e.body);
  }

  /** The Azure service refuses .eml files, which the Universal service parses. */
  lemma EmailFilesOnlyUniversal(lowerName: string)
    requires EndsWith(lowerName, ".eml")
    ensures Classify(Azure, lowerName) == Unsupported
    ensures Classify(Universal, lowerName) == Accept(Mail, "eml")
  {
    assert lowerName[|lowerName| - 1] == 'l';
  }

  /** Both services dispatch document files the same way. */
  lemma DocumentDispatchShared(lowerName: string)
    requires !(Classify(Universal, lowerName).Accept? && Classify(Universal, lowerName).kind == Mail)
    ensures Classify(Azure, lowerName) == Classify(Universal, lowerName)
  {
  }

  /** The generated e-mail filename is "Email_", at most 30 characters of the
      subject, and "...", and keeps the whole subject when it is short. */
  lemma EmailFilenameShape(subject: string)
    ensures StartsWith(EmailFilename(subject), "Email_") && EndsWith(EmailFilename(subject), "...")
    ensures |EmailFilename(subject)| <= 39
    ensures |subject| <= 30 ==> EmailFilename(subject) == "Email_" + subject + "..."
  {
    var f := EmailFilename(subject);
    assert f[..6] == "Email_";
    assert f[|f| - 3..] == "...";
    if |subject| <= 30 {
      assert subject[..|subject|] == subject;
    }
  }
}
