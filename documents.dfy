/** The documents the bot keeps in memory, and the read-only views of them
    that the listing and health endpoints report. */
module Documents {

  /** Which of the two services: the "Universal Knowledge Bot" (main.py), which
      also ingests e-mail, or the Azure-hosted "Tacit Knowledge Bot"
      (azure_main.py). */
  datatype Variant = Universal | Azure

  /** One ingested document: its text, the filename as uploaded and its type
      (the extension, or "email"). */
  datatype Document = Document(content: string, filename: string, fileType: string)

  const MailIcon := "\U{1F4E7}"
  const PageIcon := "\U{1F4C4}"

  /** One entry of the document listing; the Universal service adds an icon. */
  datatype Entry =
    | Entry(filename: string, fileType: string)
    | IconEntry(filename: string, fileType: string, icon: string)

  datatype Listing = Listing(totalDocuments: nat, entries: seq<Entry>)

  datatype Health = Health(status: string, message: string, documents: nat)

  function Icon(d: Document): string {
    if d.fileType == "email" then MailIcon else PageIcon
  }

  function EntryOf(variant: Variant, d: Document): (e: Entry)
    ensures e.filename == d.filename && e.fileType == d.fileType
  {
    match variant
    case Universal => IconEntry(d.filename, d.fileType, Icon(d))
    case Azure => Entry(d.filename, d.fileType)
  }

  /** GET /documents: the number of documents and one entry per document,
      in insertion order. */
  function ListDocuments(variant: Variant, docs: seq<Document>): (l: Listing)
    ensures l.totalDocuments == |docs| && |l.entries| == |docs|
    ensures forall i :: 0 <= i < |docs| ==>
      l.entries[i].filename == docs[i].filename && l.entries[i].fileType == docs[i].fileType
  {
    Listing(|docs|, seq(|docs|, i requires 0 <= i < |docs| => EntryOf(variant, docs[i])))
  }

  /** Appending a document to the store appends its entry at the end of the
      listing and leaves the earlier entries as they were. */
  lemma ListingAfterAppend(variant: Variant, docs: seq<Document>, d: Document)
    ensures ListDocuments(variant, docs + [d]).entries
         == ListDocuments(variant, docs).entries + [EntryOf(variant, d)]
    ensures ListDocuments(variant, docs + [d]).totalDocuments
         == ListDocuments(variant, docs).totalDocuments + 1
  {
    var l := ListDocuments(variant, docs + [d]).entries;
    var r := ListDocuments(variant, docs).entries + [EntryOf(variant, d)];
    assert |l| == |r|;
    forall i | 0 <= i < |l| ensures l[i] == r[i] {
      if i < |docs| { assert (docs + [d])[i] == docs[i]; }
    }
  }

  /** GET /health (azure_main.py): always healthy, with the store's size. */
  function HealthCheck(docs: seq<Document>): (h: Health)
    ensures h.documents == |docs| && h.status == "healthy"
  {
    Health("healthy", "Bot is running!", |docs|)
  }
}
