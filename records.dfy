/**
 * The measurement record and its parts: the stored document, the record as
 * the application sees it (the document plus its id), the payload a form
 * submits and the partial payload of an update.
 */
module Records {
  import opened Wrappers

  /** A stored image: where it can be fetched from, and its label. */
  datatype Image = Image(url: string, caption: string)

  /**
   * A file picked in the browser. `localUrl` stands for the preview address
   * `URL.createObjectURL` gives the file; the browser chooses it.
   */
  datatype File = File(name: string, localUrl: string)

  /** The fields a form writes (`MeasurementFormData`); `references` may be absent. */
  datatype FormData = FormData(
    title: string,
    category: string,
    description: string,
    normalValue: string,
    searchTerms: seq<string>,
    references: Option<seq<string>>,
    images: seq<Image>)

  /** A document of the "measurements" collection: the data and the two server timestamps. */
  datatype Doc = Doc(data: FormData, createdAt: int, updatedAt: int)

  /** A record as the pages use it: a document together with its id, absent before the first write. */
  datatype Measurement = Measurement(id: Option<string>, data: FormData, createdAt: int, updatedAt: int)

  /** `Partial<MeasurementFormData>`: each field is either supplied or left out. */
  datatype Patch = Patch(
    title: Option<string>,
    category: Option<string>,
    description: Option<string>,
    normalValue: Option<string>,
    searchTerms: Option<seq<string>>,
    references: Option<seq<string>>,
    images: Option<seq<Image>>)

  /** The value of a field after a merge: the supplied value, or the old one. */
  function Merge<T>(stored: T, supplied: Option<T>): T
  {
    if supplied.Some? then supplied.value else stored
  }

  /** The document fields after a merge of `p` into `d`: supplied fields replace, the others stay. */
  function ApplyPatch(d: FormData, p: Patch): (r: FormData)
    ensures p.title.None? ==> r.title == d.title
    ensures p.title.Some? ==> r.title == p.title.value
    ensures p.category.None? ==> r.category == d.category
    ensures p.category.Some? ==> r.category == p.category.value
    ensures p.description.None? ==> r.description == d.description
    ensures p.description.Some? ==> r.description == p.description.value
    ensures p.normalValue.None? ==> r.normalValue == d.normalValue
    ensures p.normalValue.Some? ==> r.normalValue == p.normalValue.value
    ensures p.searchTerms.None? ==> r.searchTerms == d.searchTerms
    ensures p.searchTerms.Some? ==> r.searchTerms == p.searchTerms.value
    ensures p.references.None? ==> r.references == d.references
    ensures p.references.Some? ==> r.references == p.references
    ensures p.images.None? ==> r.images == d.images
    ensures p.images.Some? ==> r.images == p.images.value
  {
    FormData(
      Merge(d.title, p.title),
      Merge(d.category, p.category),
      Merge(d.description, p.description),
      Merge(d.normalValue, p.normalValue),
      Merge(d.searchTerms, p.searchTerms),
      if p.references.Some? then p.references else d.references,
      Merge(d.images, p.images))
  }

  /** A complete payload seen as a partial one: every field present supplied. */
  function FullPatch(f: FormData): Patch
  {
    Patch(Some(f.title), Some(f.category), Some(f.description), Some(f.normalValue),
          Some(f.searchTerms), f.references, Some(f.images))
  }

  /** Merging a complete payload with its references present replaces the whole document data. */
  lemma FullPatchReplaces(d: FormData, f: FormData)
    requires f.references.Some?
    ensures ApplyPatch(d, FullPatch(f)) == f
  {
  }
}
