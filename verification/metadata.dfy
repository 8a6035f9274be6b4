/** Choosing the workflow metadata when the metadata file holds a list of
    documents (croo/croo.py:41-48): the first one is taken, with a warning
    when there are several, and an empty list is an error. */
module Metadata {
  import opened Wrappers

  /** The top level of a loaded metadata file: one document, or a list. */
  datatype Loaded<T> = Document(doc: T) | Documents(docs: seq<T>)

  datatype MetadataError = EmptyMetadata // "metadata JSON file is empty"

  /** The document used, and whether the multiple-documents warning is printed. */
  datatype Chosen<T> = Chosen(doc: T, warned: bool)

  function SelectMetadata<T>(loaded: Loaded<T>): (r: Result<Chosen<T>, MetadataError>)
    ensures r.Failure? <==> loaded.Documents? && |loaded.docs| == 0
    ensures r.Failure? ==> r.error == EmptyMetadata
    ensures r.Success? ==> (r.value.warned <==> loaded.Documents? && |loaded.docs| > 1)
    ensures r.Success? && loaded.Document? ==> r.value.doc == loaded.doc
    ensures r.Success? && loaded.Documents? ==> r.value.doc == loaded.docs[0] && r.value.doc in loaded.docs
  {
    match loaded
    case Document(d) => Success(Chosen(d, false))
    case Documents(ds) =>
      if |ds| == 0 then Failure(EmptyMetadata)
      else Success(Chosen(ds[0], |ds| > 1))
  }

  /** A list holding one document is read as that document alone, with no
      warning; any longer list is read as its first document, with one. */
  lemma ListReadsAsFirst<T>(d: T, rest: seq<T>)
    ensures SelectMetadata(Documents([d] + rest)) ==
      Success(Chosen(SelectMetadata(Document(d)).value.doc, rest != []))
    ensures rest == [] ==> SelectMetadata(Documents([d] + rest)) == SelectMetadata(Document(d))
  {
  }
}
