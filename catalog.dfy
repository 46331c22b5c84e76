/** The project catalog as the chat widget reads it: data/projects.json, or the
    JSON blob embedded in the page under the id projects-data when the fetch
    fails. The network and JSON parsing are outside the model; their outcomes
    are inputs. */
module Catalog {
  import opened Wrappers

  /** A project record. Only the fields the core reads are kept: the title and
      description for the chat highlights and the category for grouping;
      category None is a record without the field. */
  datatype Project = Project(title: string, description: string, category: Option<string>)

  /** The label a project is grouped under: `p.category || 'Other'`, so a
      missing and an empty category both fall back to "Other". */
  const DefaultCategory := "Other"

  function CategoryOf(p: Project): (c: string)
    ensures c != ""
    ensures p.category.Some? && p.category.value != "" ==> c == p.category.value
    ensures p.category.None? || p.category.value == "" ==> c == DefaultCategory
  {
    match p.category
    case Some(c) => if c != "" then c else DefaultCategory
    case None => DefaultCategory
  }

  /** An element of a parsed array: a project record, or JSON null, on which
      reading a field throws. */
  datatype Entry = Null | Record(project: Project)

  /** A parsed JSON document: an array or any other value. */
  datatype Document = Records(items: seq<Entry>) | NotAnArray

  /** The embedded node: absent, present with empty text, or present with text
      that JSON.parse turns into a document (None: JSON.parse throws). */
  datatype EmbeddedNode = NoNode | EmptyText | Blob(parsed: Option<Document>)

  /** What fetching data/projects.json and reading it as JSON gave:
      a document, or a rejection of fetch or res.json() (network error,
      a response body that is not JSON) with the embedded node to fall back on. */
  datatype CatalogSource = Fetched(doc: Document) | FetchFailed(node: EmbeddedNode)

  /** Why the projects answer cannot be built: the code calls `slice` on a
      value that is not an array (a TypeError), JSON.parse throws on the
      embedded text (a SyntaxError), or the `map` callback reads `p.title` of
      a null entry (a TypeError). Each rejects the promise of localAnswer. */
  datatype CatalogError = NotAList | Unparseable | NullEntry

  /** The list localAnswer works on. */
  function ResolveCatalog(src: CatalogSource): Result<seq<Entry>, CatalogError> {
    match src
    case Fetched(doc) => FromDocument(doc)
    case FetchFailed(node) =>
      match node
      case NoNode => Success([])
      case EmptyText => Success([])
      case Blob(parsed) =>
        match parsed
        case None => Failure(Unparseable)
        case Some(doc) => FromDocument(doc)
  }

  function FromDocument(doc: Document): Result<seq<Entry>, CatalogError> {
    match doc
    case Records(items) => Success(items)
    case NotAnArray => Failure(NotAList)
  }

  /** The catalog resolves exactly when the document used is an array, that
      array (fetched or embedded) is used as is, and a failed fetch with no
      embedded text is the empty list, never an error. */
  lemma ResolveCatalogCases(src: CatalogSource)
    ensures ResolveCatalog(src).Success? <==>
      || (src.Fetched? && src.doc.Records?)
      || (src.FetchFailed? && !src.node.Blob?)
      || (src.FetchFailed? && src.node.Blob? && src.node.parsed.Some? && src.node.parsed.value.Records?)
    ensures src.FetchFailed? && !src.node.Blob? ==> ResolveCatalog(src) == Success([])
    ensures src.Fetched? && src.doc.Records? ==> ResolveCatalog(src) == Success(src.doc.items)
    ensures src.FetchFailed? && src.node.Blob? && src.node.parsed.Some? && src.node.parsed.value.Records? ==>
      ResolveCatalog(src) == Success(src.node.parsed.value.items)
  {
  }
}
