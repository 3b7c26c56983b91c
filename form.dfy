/**
 * The admin form for creating and editing a measurement
 * (`MeasurementForm`): its schema, its default values, the comma-separated
 * list inputs, the working set of images, and the submission that uploads
 * new images and then writes the record.
 */
module MeasurementForm {
  import opened Wrappers
  import opened Text
  import opened Records
  import opened MeasurementService

  /** An entry of the form's image list: a stored image, or a picked file still to be uploaded. */
  datatype FormImage = FormImage(caption: string, url: string, file: Option<File>)

  /** The values the form holds, as the schema describes them. */
  datatype FormValues = FormValues(
    title: string,
    category: string,
    description: string,
    normalValue: string,
    searchTerms: seq<string>,
    references: seq<string>,
    images: seq<FormImage>)

  /** The required text fields. */
  datatype TextField = Title | Category | Description | NormalValue

  /** A schema violation: the field and the message shown under it. */
  datatype FieldError = FieldError(field: TextField, message: string)

  /** What a submission ends in. */
  datatype SubmitOutcome =
    | Invalid(errors: seq<FieldError>)   // the schema rejects the values; `onSubmit` is not called
    | Saved(id: string)                   // the record was written under `id`
    | Failed(error: StoreError)           // the write failed; a generic error is shown

  /** The message `formSchema` attaches to an empty required field. */
  function RequiredMessage(f: TextField): string
  {
    match f
    case Title => "Title is required"
    case Category => "Category is required"
    case Description => "Description is required"
    case NormalValue => "Normal value is required"
  }

  /** The current text of a required field. */
  function TextOf(v: FormValues, f: TextField): string
  {
    match f
    case Title => v.title
    case Category => v.category
    case Description => v.description
    case NormalValue => v.normalValue
  }

  /** The values with one required text field replaced. */
  function WithText(v: FormValues, f: TextField, s: string): (r: FormValues)
    ensures TextOf(r, f) == s
    ensures forall g :: g != f ==> TextOf(r, g) == TextOf(v, g)
    ensures r.searchTerms == v.searchTerms && r.references == v.references && r.images == v.images
  {
    match f
    case Title => v.(title := s)
    case Category => v.(category := s)
    case Description => v.(description := s)
    case NormalValue => v.(normalValue := s)
  }

  /** `.min(1)` on one field: an error when the text has no character at all. */
  function Require(v: FormValues, f: TextField): seq<FieldError>
  {
    if |TextOf(v, f)| < 1 then [FieldError(f, RequiredMessage(f))] else []
  }

  /**
   * `formSchema` on the form's values: one error per empty required field,
   * in field order. Only emptiness is checked, so a string of spaces passes.
   */
  function Validate(v: FormValues): (errors: seq<FieldError>)
    ensures errors == [] <==>
      |v.title| >= 1 && |v.category| >= 1 && |v.description| >= 1 && |v.normalValue| >= 1
    ensures forall e :: e in errors <==> |TextOf(v, e.field)| == 0 && e.message == RequiredMessage(e.field)
    ensures |errors| <= 4
  {
    Require(v, Title) + Require(v, Category) + Require(v, Description) + Require(v, NormalValue)
  }

  /** Whitespace is content as far as the schema is concerned. */
  lemma SpacesPassValidation(v: FormValues)
    requires v.title == " " && v.category == " " && v.description == " " && v.normalValue == " "
    ensures Validate(v) == []
  {
  }

  /** A stored image as an entry of the working set, with no file attached. */
  function AsFormImage(img: Image): FormImage
  {
    FormImage(img.caption, img.url, None)
  }

  /** The stored images of a record, as the working set starts out. */
  function AsFormImages(images: seq<Image>): (r: seq<FormImage>)
    ensures |r| == |images|
    ensures forall i :: 0 <= i < |images| ==> r[i] == AsFormImage(images[i])
  {
    if images == [] then [] else [AsFormImage(images[0])] + AsFormImages(images[1..])
  }

  /** `a || b` on strings: `a` unless it is empty. */
  function OrText(a: string, b: string): string
  {
    if a != "" then a else b
  }

  /**
   * `defaultValues`: the record's fields when editing, with `|| ''` and
   * `|| []` fallbacks; for a new record every text is "" and every list empty.
   */
  function DefaultValues(m: Option<Measurement>): (v: FormValues)
    ensures m.None? ==> v == FormValues("", "", "", "", [], [], [])
    ensures m.Some? ==>
      && v.title == m.value.data.title && v.category == m.value.data.category
      && v.description == m.value.data.description && v.normalValue == m.value.data.normalValue
      && v.searchTerms == m.value.data.searchTerms
      && v.references == (if m.value.data.references.Some? then m.value.data.references.value else [])
      && v.images == AsFormImages(m.value.data.images)
  {
    match m
    case None => FormValues("", "", "", "", [], [], [])
    case Some(r) =>
      FormValues(
        OrText(r.data.title, ""), OrText(r.data.category, ""),
        OrText(r.data.description, ""), OrText(r.data.normalValue, ""),
        r.data.searchTerms,
        if r.data.references.Some? then r.data.references.value else [],
        AsFormImages(r.data.images))
  }

  /** Trims every string of a list, keeping positions. */
  function TrimAll(xs: seq<string>): (r: seq<string>)
    ensures |r| == |xs|
    ensures forall i :: 0 <= i < |xs| ==> r[i] == Trim(xs[i])
  {
    if xs == [] then [] else [Trim(xs[0])] + TrimAll(xs[1..])
  }

  /**
   * `value.split(',').map(t => t.trim())`: one element more than there are
   * commas, none with whitespace at either end, none with a comma; empty
   * segments are kept.
   */
  function ParseList(text: string): (r: seq<string>)
    ensures |r| == Count(text, ',') + 1
    ensures forall i :: 0 <= i < |r| ==> Trimmed(r[i]) && ',' !in r[i]
  {
    var parts := Split(text, ',');
    var r := TrimAll(parts);
    forall i | 0 <= i < |r|
      ensures Trimmed(r[i]) && ',' !in r[i]
    {
      var t := parts[i];
      assert ',' !in t;
      assert r[i] == Trim(t);
    }
    r
  }

  /** `value.join(', ')`: what the list input shows. */
  function Display(xs: seq<string>): string
  {
    Join(xs, ", ")
  }

  /** A list the input can show and read back unchanged: at least one element, each trimmed and comma-free. */
  predicate Displayable(xs: seq<string>)
  {
    |xs| >= 1 && forall i :: 0 <= i < |xs| ==> Trimmed(xs[i]) && ',' !in xs[i]
  }

  /** The first comma ends the first element, which is trimmed; the rest parses on its own. */
  lemma ParseAtFirstComma(a: string, tail: string)
    requires ',' !in a
    ensures ParseList(a + [','] + tail) == [Trim(a)] + ParseList(tail)
  {
    SplitAtFirstSeparator(a, ',', tail);
    var parts := Split(tail, ',');
    assert TrimAll([a] + parts) == [Trim(a)] + TrimAll(parts);
  }

  /** The shown text of a list of two or more: the first element, a comma, then a space and the rest. */
  lemma DisplayCons(p: string, x: string, rest: seq<string>, q: string)
    requires |rest| >= 1
    ensures p + Display([x] + rest) + q == (p + x) + [','] + (" " + Display(rest) + q)
  {
    var xs := [x] + rest;
    assert xs[1..] == rest;
    assert Display(xs) == x + ", " + Display(rest);
  }

  /** Whitespace around the shown text does not change what it parses to. */
  lemma {:induction false} ParsePaddedDisplay(p: string, xs: seq<string>, q: string)
    requires Displayable(xs)
    requires AllWhitespace(p) && AllWhitespace(q)
    ensures ParseList(p + Display(xs) + q) == xs
    decreases |xs|
  {
    assert ',' !in p && ',' !in q;
    if |xs| == 1 {
      assert Display(xs) == xs[0];
      SplitWithoutSeparator(p + xs[0] + q, ',');
      TrimPadded(p, xs[0], q);
    } else {
      var x, rest := xs[0], xs[1..];
      assert xs == [x] + rest;
      DisplayCons(p, x, rest, q);
      ParseAtFirstComma(p + x, " " + Display(rest) + q);
      assert AllWhitespace(" ");
      ParsePaddedDisplay(" ", rest, q);
      assert p + x == p + x + "";
      TrimPadded(p, x, "");
    }
  }

  /** The list input round-trips a displayable list through its shown text. */
  lemma DisplayRoundTrip(xs: seq<string>)
    requires Displayable(xs)
    ensures ParseList(Display(xs)) == xs
  {
    assert "" + Display(xs) + "" == Display(xs);
    ParsePaddedDisplay("", xs, "");
  }

  /** The empty list shows as "", which reads back as one empty term. */
  lemma EmptyListReadsBackAsOneEmptyTerm()
    ensures Display([]) == "" && ParseList(Display([])) == [""]
  {
    assert Split("", ',') == [""];
    assert Trim("") == "";
  }

  /** What a change stores is shown and read back as the same list: the input settles after one change. */
  lemma ParsedListIsStable(text: string)
    ensures ParseList(Display(ParseList(text))) == ParseList(text)
  {
    DisplayRoundTrip(ParseList(text));
  }

  /**
   * A space typed at the end of the shown text is trimmed away and the text
   * shown again without it: typing "a", " ", "b" one key at a time at the end
   * gives "ab". A space typed between two characters is kept.
   */
  lemma TrailingSpaceIsDropped(xs: seq<string>)
    requires Displayable(xs)
    ensures ParseList(Display(xs) + " ") == xs
  {
    assert "" + Display(xs) + " " == Display(xs) + " ";
    assert AllWhitespace(" ");
    ParsePaddedDisplay("", xs, " ");
  }

  /** `images.filter((_, i) => i !== index)`, written from the end of the list. */
  function WithoutIndex<T>(s: seq<T>, index: int): seq<T>
  {
    if s == [] then []
    else WithoutIndex(s[..|s| - 1], index) + (if |s| - 1 != index then [s[|s| - 1]] else [])
  }

  /** Filtering out an index the list does not have keeps every element. */
  lemma {:induction false} WithoutIndexOutOfRange<T>(s: seq<T>, index: int)
    requires !(0 <= index < |s|)
    ensures WithoutIndex(s, index) == s
  {
    if s != [] {
      var init := s[..|s| - 1];
      WithoutIndexOutOfRange(init, index);
      assert init + [s[|s| - 1]] == s;
    }
  }

  /** Filtering out an index in range drops exactly that element and keeps the others in order. */
  lemma {:induction false} WithoutIndexRemovesOne<T>(s: seq<T>, index: int)
    requires 0 <= index < |s|
    ensures WithoutIndex(s, index) == s[..index] + s[index + 1..]
  {
    var init := s[..|s| - 1];
    var last := s[|s| - 1];
    if index == |s| - 1 {
      WithoutIndexOutOfRange(init, index);
      assert WithoutIndex(s, index) == init;
      assert s[..index] == init;
      assert s[index + 1..] == [];
    } else {
      WithoutIndexRemovesOne(init, index);
      assert WithoutIndex(s, index) == WithoutIndex(init, index) + [last];
      assert init[..index] == s[..index];
      assert init[index + 1..] + [last] == s[index + 1..];
    }
  }

  /** The entries `handleFileChange` makes: each file captioned with its name, previewed at its local address. */
  function NewEntries(files: seq<File>): (r: seq<FormImage>)
    ensures |r| == |files|
    ensures forall i :: 0 <= i < |files| ==> r[i] == FormImage(files[i].name, files[i].localUrl, Some(files[i]))
  {
    if files == [] then []
    else
      var f := files[|files| - 1];
      NewEntries(files[..|files| - 1]) + [FormImage(f.name, f.localUrl, Some(f))]
  }

  /** `images.filter(img => !img.file)`: the entries already stored, as images, in order. */
  function ExistingImages(images: seq<FormImage>): seq<Image>
  {
    if images == [] then []
    else
      var last := images[|images| - 1];
      ExistingImages(images[..|images| - 1]) + (if last.file.None? then [Image(last.url, last.caption)] else [])
  }

  /** `images.filter(img => img.file)`: the files waiting to be uploaded, in order. */
  function PendingFiles(images: seq<FormImage>): seq<File>
  {
    if images == [] then []
    else
      var last := images[|images| - 1];
      PendingFiles(images[..|images| - 1]) + (if last.file.Some? then [last.file.value] else [])
  }

  /** What `uploadImage` returns for each file under `owner`, in the files' order. */
  function Uploaded(owner: string, files: seq<File>): (r: seq<Image>)
    ensures |r| == |files|
    ensures forall i :: 0 <= i < |files| ==> r[i] == Image(StoragePath(owner, files[i].name), files[i].name)
  {
    if files == [] then []
    else
      var f := files[|files| - 1];
      Uploaded(owner, files[..|files| - 1]) + [Image(StoragePath(owner, f.name), f.name)]
  }

  /** The storage after uploading each file under `owner` in turn; a later file replaces an earlier one at the same path. */
  function StoreUploads(blobs: map<string, File>, owner: string, files: seq<File>): map<string, File>
  {
    if files == [] then blobs
    else
      var f := files[|files| - 1];
      StoreUploads(blobs, owner, files[..|files| - 1])[StoragePath(owner, f.name) := f]
  }

  /** The writes the uploads issue, one per file, in order. */
  function UploadLog(owner: string, files: seq<File>): seq<Effect>
  {
    if files == [] then []
    else
      var f := files[|files| - 1];
      UploadLog(owner, files[..|files| - 1]) + [UploadBytes(StoragePath(owner, f.name))]
  }

  /** The image list written on submit: the stored entries in order, then one uploaded image per new file in order. */
  function FinalImages(images: seq<FormImage>, owner: string): seq<Image>
  {
    ExistingImages(images) + Uploaded(owner, PendingFiles(images))
  }

  /** Every entry is either stored or pending, so submitting keeps the number of images. */
  lemma {:induction false} FinalImagesKeepsCount(images: seq<FormImage>, owner: string)
    ensures |ExistingImages(images)| + |PendingFiles(images)| == |images|
    ensures |FinalImages(images, owner)| == |images|
  {
    if images != [] {
      FinalImagesKeepsCount(images[..|images| - 1], owner);
    }
  }

  /** Both filters work entry by entry: the part of a concatenation comes from each side in order. */
  lemma {:induction false} PartitionAppend(a: seq<FormImage>, b: seq<FormImage>)
    ensures ExistingImages(a + b) == ExistingImages(a) + ExistingImages(b)
    ensures PendingFiles(a + b) == PendingFiles(a) + PendingFiles(b)
  {
    if b == [] {
      assert a + b == a;
    } else {
      var b' := b[..|b| - 1];
      assert (a + b)[..|a + b| - 1] == a + b';
      assert (a + b)[|a + b| - 1] == b[|b| - 1];
      PartitionAppend(a, b');
    }
  }

  /** With no file picked, every entry is a stored one, in order. */
  lemma {:induction false} AllStored(images: seq<FormImage>)
    requires forall i :: 0 <= i < |images| ==> images[i].file.None?
    ensures PendingFiles(images) == []
    ensures |ExistingImages(images)| == |images|
    ensures forall i :: 0 <= i < |images| ==> ExistingImages(images)[i] == Image(images[i].url, images[i].caption)
  {
    if images != [] {
      var init := images[..|images| - 1];
      AllStored(init);
      var last := images[|images| - 1];
      assert ExistingImages(images) == ExistingImages(init) + [Image(last.url, last.caption)];
    }
  }

  /** With no file picked, the entries are written back as they stand, edited captions included, in order. */
  lemma StoredEntriesWrittenBack(images: seq<FormImage>, owner: string)
    requires forall i :: 0 <= i < |images| ==> images[i].file.None?
    ensures |FinalImages(images, owner)| == |images|
    ensures forall i :: 0 <= i < |images| ==> FinalImages(images, owner)[i] == Image(images[i].url, images[i].caption)
  {
    AllStored(images);
    assert FinalImages(images, owner) == ExistingImages(images) + [];
  }

  /** Entries made from picked files are all pending, in the order picked. */
  lemma {:induction false} NewEntriesArePending(files: seq<File>)
    ensures ExistingImages(NewEntries(files)) == []
    ensures PendingFiles(NewEntries(files)) == files
  {
    if files != [] {
      var e := NewEntries(files);
      var init := files[..|files| - 1];
      assert e[..|e| - 1] == NewEntries(init);
      assert e[|e| - 1].file.Some?;
      NewEntriesArePending(init);
      assert init + [files[|files| - 1]] == files;
    }
  }

  /** Files picked after the current entries are uploaded after the earlier pending ones and written after every stored entry. */
  lemma PickedFilesUploadedLast(images: seq<FormImage>, files: seq<File>, owner: string)
    ensures FinalImages(images + NewEntries(files), owner)
         == ExistingImages(images) + Uploaded(owner, PendingFiles(images) + files)
  {
    PartitionAppend(images, NewEntries(files));
    NewEntriesArePending(files);
    assert ExistingImages(images) + [] == ExistingImages(images);
  }

  /**
   * A caption typed on a picked file is not what gets stored: the uploaded
   * image is captioned with the file name whatever the entry's caption was.
   */
  lemma NewImageKeepsFileNameCaption(caption: string, url: string, f: File, owner: string)
    ensures FinalImages([FormImage(caption, url, Some(f))], owner) == [Image(StoragePath(owner, f.name), f.name)]
  {
    var s := [FormImage(caption, url, Some(f))];
    assert ExistingImages(s) == [] && PendingFiles(s) == [f] by {
      assert s[..0] == [];
    }
    var u := Uploaded(owner, [f]);
    assert |u| == 1 && u[0] == Image(StoragePath(owner, f.name), f.name);
    assert FinalImages(s, owner) == [] + u;
  }

  /** A record to edit has an id that is present and not "" (`measurement?.id` is truthy). */
  predicate HasId(m: Option<Measurement>)
  {
    m.Some? && m.value.id.Some? && m.value.id.value != ""
  }

  /** The owner id of the uploads: the record's id when editing, the temporary id otherwise. */
  function Owner(m: Option<Measurement>, tempId: string): (owner: string)
    ensures HasId(m) ==> owner == m.value.id.value
    ensures !HasId(m) ==> owner == tempId
  {
    if HasId(m) then m.value.id.value else tempId
  }

  /** `finalData`: the form's values with the merged image list. */
  function FinalData(v: FormValues, owner: string): FormData
  {
    FormData(v.title, v.category, v.description, v.normalValue, v.searchTerms, Some(v.references),
             FinalImages(v.images, owner))
  }

  /** Uploading one more file returns one more image, stores that file at its path and logs one more write. */
  lemma UploadOneMore(blobs: map<string, File>, owner: string, files: seq<File>, f: File)
    ensures Uploaded(owner, files + [f]) == Uploaded(owner, files) + [Image(StoragePath(owner, f.name), f.name)]
    ensures StoreUploads(blobs, owner, files + [f]) == StoreUploads(blobs, owner, files)[StoragePath(owner, f.name) := f]
    ensures UploadLog(owner, files + [f]) == UploadLog(owner, files) + [UploadBytes(StoragePath(owner, f.name))]
  {
    assert (files + [f])[..|files|] == files;
  }

  /**
   * The uploads of a submission: `handleImageUpload` on every pending file of
   * the working set, in order, under `owner`; the images it returns, in order.
   */
  method UploadPending(store: Store, images: seq<FormImage>, owner: string) returns (uploaded: seq<Image>)
    modifies store
    ensures uploaded == Uploaded(owner, PendingFiles(images))
    ensures store.docs == old(store.docs)
    ensures store.blobs == StoreUploads(old(store.blobs), owner, PendingFiles(images))
    ensures store.log == old(store.log) + UploadLog(owner, PendingFiles(images))
  {
    var files := PendingFiles(images);
    ghost var blobs0, log0 := store.blobs, store.log;
    ghost var done: seq<File> := [];
    uploaded := [];
    var i := 0;
    while i < |files|
      invariant 0 <= i <= |files| && done == files[..i]
      invariant store.docs == old(store.docs)
      invariant uploaded == Uploaded(owner, done)
      invariant store.blobs == StoreUploads(blobs0, owner, done)
      invariant store.log == log0 + UploadLog(owner, done)
    {
      var f := files[i];
      UploadOneMore(blobs0, owner, done, f);
      var img := store.UploadImage(f, owner);
      uploaded := uploaded + [img];
      done := done + [f];
      i := i + 1;
    }
    assert done == files;
  }

  /**
   * The write at the end of `onSubmit`: `update` under the record's id when
   * editing, `create` otherwise. Storage is left alone.
   */
  method SaveRecord(store: Store, editing: bool, owner: string, final: FormData, newId: string, now1: int, now2: int)
    returns (outcome: SubmitOutcome)
    requires final.references.Some?
    requires !editing ==> newId !in store.docs
    modifies store
    ensures store.blobs == old(store.blobs)
    ensures !editing ==>
      && outcome == Saved(newId)
      && store.docs == old(store.docs)[newId := Doc(final, now1, now2)]
      && store.log == old(store.log) + [AddDoc(newId)]
    ensures editing && owner in old(store.docs) ==>
      && outcome == Saved(owner)
      && store.docs == old(store.docs)[owner := Doc(final, old(store.docs)[owner].createdAt, now1)]
      && store.log == old(store.log) + [UpdateDoc(owner)]
    ensures editing && owner !in old(store.docs) ==>
      && outcome == Failed(DocumentNotFound)
      && store.docs == old(store.docs) && store.log == old(store.log)
  {
    if editing {
      if owner in store.docs {
        FullPatchReplaces(store.docs[owner].data, final);
      }
      var r := store.Update(owner, FullPatch(final), now1);
      outcome := if r.Pass? then Saved(owner) else Failed(r.error);
    } else {
      var id := store.Create(final, newId, now1, now2);
      outcome := Saved(id);
    }
  }

  /** The form's state. */
  class Form {
    /** The record being edited, or none for a new one. */
    const measurement: Option<Measurement>
    var values: FormValues
    var isSubmitting: bool

    /** The form opens on the default values. */
    constructor (measurement: Option<Measurement>)
      ensures this.measurement == measurement
      ensures values == DefaultValues(measurement) && !isSubmitting
    {
      this.measurement := measurement;
      values := DefaultValues(measurement);
      isSubmitting := false;
    }

    /** A text input bound to a required field sets that field only. */
    method EditText(f: TextField, s: string)
      modifies this`values
      ensures values == WithText(old(values), f, s)
    {
      values := WithText(values, f, s);
    }

    /** `handleSearchTermsChange`: the input's text, split at commas and trimmed, becomes the search terms. */
    method HandleSearchTermsChange(text: string)
      modifies this`values
      ensures values == old(values).(searchTerms := ParseList(text))
    {
      values := values.(searchTerms := ParseList(text));
    }

    /** `handleReferencesChange`: the same for the references. */
    method HandleReferencesChange(text: string)
      modifies this`values
      ensures values == old(values).(references := ParseList(text))
    {
      values := values.(references := ParseList(text));
    }

    /** `handleFileChange`: the picked files are appended after the current entries; picking nothing changes nothing. */
    method HandleFileChange(files: seq<File>)
      modifies this`values
      ensures files == [] ==> values == old(values)
      ensures values == old(values).(images := old(values).images + NewEntries(files))
    {
      if |files| == 0 {
        return;
      }
      values := values.(images := values.images + NewEntries(files));
    }

    /** `removeImage`: drops the entry at `index` and keeps the others in order; an index out of range changes nothing. */
    method RemoveImage(index: int)
      modifies this`values
      ensures values == old(values).(images := WithoutIndex(old(values).images, index))
      ensures 0 <= index < |old(values).images| ==>
        values.images == old(values).images[..index] + old(values).images[index + 1..]
      ensures !(0 <= index < |old(values).images|) ==> values == old(values)
    {
      if 0 <= index < |values.images| {
        WithoutIndexRemovesOne(values.images, index);
      } else {
        WithoutIndexOutOfRange(values.images, index);
      }
      values := values.(images := WithoutIndex(values.images, index));
    }

    /** The caption input of entry `index`: that entry's caption changes, nothing else does. */
    method EditCaption(index: nat, caption: string)
      requires index < |values.images|
      modifies this`values
      ensures values == old(values).(images := old(values).images[index := old(values).images[index].(caption := caption)])
    {
      var images := values.images;
      images := images[index := images[index].(caption := caption)];
      values := values.(images := images);
    }

    /**
     * `handleSubmit(onSubmit)`: when the schema accepts the values, every
     * pending file is uploaded under the owner id, then the record is updated
     * (when editing) or created, with the stored entries followed by the
     * uploaded images. Uploads are not undone when the write fails.
     */
    method Submit(store: Store, tempId: string, newId: string, now1: int, now2: int)
      returns (outcome: SubmitOutcome)
        requires !HasId(measurement) ==> newId !in store.docs
      modifies this, store
        ensures values == old(values)
      ensures outcome.Invalid? <==> Validate(values) != []
      ensures outcome.Invalid? ==>
        outcome.errors == Validate(values) && isSubmitting == old(isSubmitting) &&
        store.docs == old(store.docs) && store.blobs == old(store.blobs) &&
        store.log == old(store.log)
      ensures !outcome.Invalid? ==>
        var owner := Owner(measurement, tempId);
        var files := PendingFiles(values.images);
        var final := FinalData(values, owner);
        && !isSubmitting
        && store.blobs == StoreUploads(old(store.blobs), owner, files)
        && (!HasId(measurement) ==>
              && outcome == Saved(newId)
              && store.docs == old(store.docs)[newId := Doc(final, now1, now2)]
              && store.log == old(store.log) + UploadLog(owner, files) + [AddDoc(newId)])
        && (HasId(measurement) && owner in old(store.docs) ==>
              && outcome == Saved(owner)
              && store.docs == old(store.docs)[owner := Doc(final, old(store.docs)[owner].createdAt, now1)]
              && store.log == old(store.log) + UploadLog(owner, files) + [UpdateDoc(owner)])
        && (HasId(measurement) && owner !in old(store.docs) ==>
              && outcome == Failed(DocumentNotFound)
              && store.docs == old(store.docs)
              && store.log == old(store.log) + UploadLog(owner, files))
    {
      var v := values;
      var errors := Validate(v);
      if errors != [] {
        return Invalid(errors);
      }
      isSubmitting := true;
      var owner := Owner(measurement, tempId);
      var uploaded := UploadPending(store, v.images, owner);
      var final := FormData(v.title, v.category, v.description, v.normalValue, v.searchTerms, Some(v.references),
                            ExistingImages(v.images) + uploaded);
      assert final == FinalData(v, owner);
      outcome := SaveRecord(store, HasId(measurement), owner, final, newId, now1, now2);
      isSubmitting := false;
    }
  }
}
