/**
  The admin console's state: for each JSON collection (products, projects) the
  loaded array, the sha of the version it came from and the position being
  edited, and the handlers that load, edit, reset, delete and save. The
  hosting API and the confirmation dialog are parameters; JSON serialisation
  is kept abstract.
*/
module AdminState {
  import opened Wrappers
  import opened AdminCodec
  import opened Hosting
  import opened Content
  import opened Text
  import opened AdminForms

  /** The parsed content of a collection file: an array whose entries are records or `null`, or another JSON value. */
  datatype Document<R> = Entries(entries: seq<Option<R>>) | NotAnArray

  /** `JSON.stringify` / `JSON.parse` for one kind of record; `parse` yields `None` where it throws. */
  datatype Json<!R> = Json(stringify: seq<Option<R>> -> string, parse: string -> Option<Document<R>>)

  /** An array serialises to text that opens with `[`, and parsing that text gives the same array back. */
  ghost predicate ParsesBack<R(!new)>(json: Json<R>) {
    forall d :: json.stringify(d) != [] && json.stringify(d)[0] == '[' && json.parse(json.stringify(d)) == Some(Entries(d))
  }

  /** The answer to the contents `GET` of `fetchFile`. */
  datatype FileResponse = FileResponse(ok: bool, content: string, sha: Option<string>)

  /** What `fetchFile` returns. */
  datatype Loaded<R> = Loaded(doc: Document<R>, sha: Option<string>)

  /** `fetchFile`: the parsed document and its sha; `None` where it throws. */
  function FetchFile<R>(utf8: TextCodec, json: Json<R>, response: FileResponse): (r: Option<Loaded<R>>)
    ensures r.Some? <==>
      response.ok && DecodedText(utf8, response.content).Some? && json.parse(DecodedText(utf8, response.content).value).Some?
    ensures r.Some? ==> r.value.sha == response.sha
  {
    if !response.ok then None
    else
      var text := DecodedText(utf8, response.content);
      if text.None? then None
      else
        var doc := json.parse(text.value);
        if doc.None? then None else Some(Loaded(doc.value, response.sha))
  }

  /** Loading the file a write created gives back exactly the array that was written. */
  lemma SaveThenLoad<R(!new)>(utf8: TextCodec, json: Json<R>, path: string, data: seq<Option<R>>,
                        sha: Option<string>, message: string, newSha: Option<string>)
    requires RoundTrips(utf8) && ParsesBack(json)
    ensures var w := UpdateRequest(utf8, path, json.stringify(data), sha, message);
      FetchFile(utf8, json, FileResponse(true, w.content, newSha)) == Some(Loaded(Entries(data), newSha))
  {
    UpdateRequestCarries(utf8, path, json.stringify(data), sha, message);
  }

  /** `Number.isInteger` on a number. */
  predicate IsInteger(x: real) {
    x.Floor as real == x
  }

  /** `data[index]` read as a record: holes, `null` and positions that are not array indices give none. */
  function RecordAt<R>(data: seq<Option<R>>, index: real): (r: Option<R>)
    ensures r.Some? <==> IsInteger(index) && 0 <= index.Floor < |data| && data[index.Floor].Some?
    ensures r.Some? ==> r == data[index.Floor]
  {
    if IsInteger(index) && 0 <= index.Floor < |data| then data[index.Floor] else None
  }

  /** Where `splice(index, 1)` starts: a negative index counts from the end; both are clamped to the bounds. */
  function SpliceStart(length: nat, index: int): (start: nat)
    ensures start <= length
  {
    if index < 0 then (if length + index < 0 then 0 else length + index)
    else if index < length then index
    else length
  }

  /** `splice(index, 1)` on a copy of `s`. */
  function SpliceOne<T>(s: seq<T>, index: int): (r: seq<T>)
    ensures 0 <= index < |s| ==> r == s[..index] + s[index + 1..]
    ensures -|s| <= index < 0 ==> r == s[..|s| + index] + s[|s| + index + 1..]
    ensures index < -|s| ==> r == if s == [] then [] else s[1..]
    ensures |s| <= index ==> r == s
  {
    var k := SpliceStart(|s|, index);
    if k < |s| then s[..k] + s[k + 1..] else s
  }

  /** Deleting a position that exists removes that entry and nothing else. */
  lemma SpliceOneRemovesOne<T>(s: seq<T>, k: int)
    requires 0 <= k < |s|
    ensures |SpliceOne(s, k)| == |s| - 1
    ensures multiset(SpliceOne(s, k)) + multiset{s[k]} == multiset(s)
    ensures forall i :: 0 <= i < |s| - 1 ==> SpliceOne(s, k)[i] == if i < k then s[i] else s[i + 1]
  {
    assert s == s[..k] + [s[k]] + s[k + 1..];
  }

  /** `n` positions of an array that were never written: they serialise as `null`. */
  function Holes<R>(n: nat): (r: seq<Option<R>>)
    ensures |r| == n
    ensures forall i :: 0 <= i < n ==> r[i].None?
  {
    seq(n, _ => None)
  }

  /**
    The array a submission writes: the record replaces the entry being edited
    (a write past the end leaves holes before it), or is appended when nothing
    is being edited.
  */
  function Upsert<R>(data: seq<Option<R>>, editIndex: Option<int>, rec: R): (r: seq<Option<R>>)
    ensures editIndex.None? || editIndex.value < 0 ==> r == data + [Some(rec)]
    ensures editIndex.Some? && editIndex.value >= 0 ==>
      var k := editIndex.value;
      && |r| == (if k < |data| then |data| else k + 1)
      && r[k] == Some(rec)
      && forall i :: 0 <= i < |r| && i != k ==> r[i] == if i < |data| then data[i] else None
  {
    if editIndex.None? || editIndex.value < 0 then data + [Some(rec)]
    else if editIndex.value < |data| then data[editIndex.value := Some(rec)]
    else data + Holes(editIndex.value - |data|) + [Some(rec)]
  }

  /** Saving the record already at the edited position leaves the array as it was. */
  lemma UpsertSame<R>(data: seq<Option<R>>, k: nat, rec: R)
    requires k < |data| && data[k] == Some(rec)
    ensures Upsert(data, Some(k), rec) == data
  {
    assert data[k := Some(rec)] == data;
  }

  /** Editing a stored product and saving the form unchanged writes back the same array. */
  lemma EditThenSaveKeepsProducts(data: seq<Option<Product>>, k: nat)
    requires k < |data| && data[k].Some?
    requires SavedProduct(data[k].value) && data[k].value.productType != "" && data[k].value.image != ""
    ensures ValidateProduct(FormOfProduct(data[k].value)).Success?
    ensures Upsert(data, Some(k), ValidateProduct(FormOfProduct(data[k].value)).value) == data
  {
    var p := data[k].value;
    EditThenSaveProduct(p);
    assert p.(productType := OrElse(p.productType, DefaultProductType), image := OrElse(p.image, FallbackImage)) == p;
    UpsertSame(data, k, p);
  }

  /** Editing a stored project and saving the form unchanged writes back the same array. */
  lemma EditThenSaveKeepsProjects(data: seq<Option<Project>>, k: nat)
    requires k < |data| && data[k].Some?
    requires SavedProject(data[k].value)
    ensures ValidateProject(FormOfProject(data[k].value)) == Success(data[k].value)
    ensures Upsert(data, Some(k), data[k].value) == data
  {
    EditThenSaveProject(data[k].value);
    UpsertSame(data, k, data[k].value);
  }

  /** One collection of the console's state (`state.products` or `state.projects`). */
  class Collection<R> {
    const path: string
    const utf8: TextCodec
    const json: Json<R>
    var data: seq<Option<R>>
    var sha: Option<string>
    var editIndex: Option<int>
    /** Every write request sent for this collection, oldest first. */
    ghost var writes: seq<Write>

    /** The position being edited is never negative, so the `>= 0` test on it always passes. */
    ghost predicate Valid()
      reads this
    {
      editIndex.Some? ==> editIndex.value >= 0
    }

    constructor (path: string, utf8: TextCodec, json: Json<R>)
      ensures Valid()
      ensures this.path == path && this.utf8 == utf8 && this.json == json
      ensures data == [] && sha == None && editIndex == None && writes == []
    {
      this.path := path;
      this.utf8 := utf8;
      this.json := json;
      data := [];
      sha := None;
      editIndex := None;
      writes := [];
    }

    /** `loadProducts` / `loadProjects`: a document that is not an array loads as empty; a failed fetch changes nothing. */
    method Load(response: FileResponse)
      requires Valid()
      modifies this
      ensures Valid()
      ensures var file := FetchFile(utf8, json, response);
        && (file.None? ==> data == old(data) && sha == old(sha))
        && (file.Some? ==> data == (if file.value.doc.Entries? then file.value.doc.entries else [])
                           && sha == file.value.sha)
      ensures editIndex == old(editIndex) && writes == old(writes)
    {
      var file := FetchFile(utf8, json, response);
      if file.Some? {
        data := if file.value.doc.Entries? then file.value.doc.entries else [];
        sha := file.value.sha;
      }
    }

    /** `editProduct` / `editProject`: the record at `index` is loaded into the form, if there is one. */
    method Edit(index: real) returns (record: Option<R>)
      requires Valid()
      modifies this
      ensures Valid()
      ensures record == RecordAt(data, index)
      ensures editIndex == if record.Some? then Some(index.Floor) else old(editIndex)
      ensures data == old(data) && sha == old(sha) && writes == old(writes)
    {
      record := RecordAt(data, index);
      if record.Some? {
        editIndex := Some(index.Floor);
      }
    }

    /** `resetProductForm` / `resetProjectForm`: nothing is being edited any more. */
    method Reset()
      requires Valid()
      modifies this
      ensures Valid()
      ensures editIndex == None
      ensures data == old(data) && sha == old(sha) && writes == old(writes)
    {
      editIndex := None;
    }

    /**
      The effect of writing `updated`: one request is sent with the sha of the
      loaded version; on success the array and sha are replaced and editing
      ends, on failure the state is as before.
    */
    ghost predicate Committed(updated: seq<Option<R>>, message: string, put: Write -> PutResponse,
                              outcome: Result<string, string>, data0: seq<Option<R>>,
                              sha0: Option<string>, editIndex0: Option<int>, writes0: seq<Write>)
      reads this
    {
      && outcome == UpdateFile(utf8, path, json.stringify(updated), sha0, message, put)
      && writes == writes0 + [UpdateRequest(utf8, path, json.stringify(updated), sha0, message)]
      && if outcome.Success? then data == updated && sha == Some(outcome.value) && editIndex == None
         else data == data0 && sha == sha0 && editIndex == editIndex0
    }

    /** The `updateFile` call shared by deletion and submission, and the state it leaves. */
    method Commit(updated: seq<Option<R>>, message: string, put: Write -> PutResponse)
      returns (outcome: Result<string, string>)
      requires Valid()
      modifies this
      ensures Valid()
      ensures Committed(updated, message, put, outcome, old(data), old(sha), old(editIndex), old(writes))
    {
      var request := UpdateRequest(utf8, path, json.stringify(updated), sha, message);
      writes := writes + [request];
      outcome := UpdateFile(utf8, path, json.stringify(updated), sha, message, put);
      if outcome.Success? {
        data := updated;
        sha := Some(outcome.value);
        editIndex := None;
      }
    }

    /**
      `deleteProduct` / `deleteProject`: an integer index the user confirms is
      spliced out of a copy, which is then written; `None` when it returns early.
    */
    method Delete(index: real, confirmed: bool, message: string, put: Write -> PutResponse)
      returns (outcome: Option<Result<string, string>>)
      requires Valid()
      modifies this
      ensures Valid()
      ensures !IsInteger(index) || !confirmed ==>
        outcome.None? && data == old(data) && sha == old(sha) && editIndex == old(editIndex) && writes == old(writes)
      ensures IsInteger(index) && confirmed ==>
        outcome.Some? && Committed(SpliceOne(old(data), index.Floor), message, put, outcome.value,
                                   old(data), old(sha), old(editIndex), old(writes))
    {
      if !IsInteger(index) || !confirmed {
        return None;
      }
      var updated := SpliceOne(data, index.Floor);
      var r := Commit(updated, message, put);
      outcome := Some(r);
    }
  }

  const ProductsPath := "data/products.json"
  const ProjectsPath := "data/projects.json"
  const ProductSaveMessage := "Mise à jour produits depuis admin"
  const ProjectSaveMessage := "Mise à jour projets depuis admin"
  const ProductDeleteMessage := "Suppression produit depuis admin"
  const ProjectDeleteMessage := "Suppression projet depuis admin"

  /** The image upload that precedes saving a product with a chosen file: the new sha, or none when no file was chosen. */
  function ImageUpload(file: Option<SelectedFile>, imagePath: string, probe: string -> Probe,
                       putImage: Write -> PutResponse): (r: Result<Option<string>, string>)
    ensures file.None? ==> r == Success(None)
    ensures file.Some? ==>
      var upload := UploadBinaryFile(imagePath, DataUrlPayload(file.value.dataUrl),
                                     "Mise à jour image " + file.value.name, probe(imagePath), putImage);
      && (r.Success? <==> upload.Success?)
      && (r.Success? ==> r.value == Some(upload.value))
      && (r.Failure? ==> r.error == upload.error)
  {
    if file.None? then Success(None)
    else
      var upload := UploadBinaryFile(imagePath, DataUrlPayload(file.value.dataUrl),
                                     "Mise à jour image " + file.value.name, probe(imagePath), putImage);
      if upload.Success? then Success(Some(upload.value)) else Failure(upload.error)
  }

  /**
    `handleProductSubmit`: a form missing a required field changes nothing;
    otherwise the chosen image is uploaded first, and only if that succeeds is
    the updated array written.
  */
  method SubmitProduct(products: Collection<Product>, form: ProductForm, probe: string -> Probe,
                       putImage: Write -> PutResponse, put: Write -> PutResponse)
    returns (outcome: Result<string, string>)
    requires products.Valid()
    modifies products
    ensures products.Valid()
    ensures ValidateProduct(form).Failure? ==> outcome == Failure(ProductFieldsRequired) && unchanged(products)
    ensures ValidateProduct(form).Success? ==>
      var product := ValidateProduct(form).value;
      var upload := ImageUpload(form.file, product.image, probe, putImage);
      && (upload.Failure? ==> outcome == Failure(upload.error) && unchanged(products))
      && (upload.Success? ==>
            products.Committed(Upsert(old(products.data), old(products.editIndex), product), ProductSaveMessage,
                               put, outcome, old(products.data), old(products.sha), old(products.editIndex),
                               old(products.writes)))
  {
    var checked := ValidateProduct(form);
    if checked.Failure? {
      return Failure(checked.error);
    }
    var product := checked.value;
    var updated := Upsert(products.data, products.editIndex, product);
    var upload := ImageUpload(form.file, product.image, probe, putImage);
    if upload.Failure? {
      return Failure(upload.error);
    }
    outcome := products.Commit(updated, ProductSaveMessage, put);
  }

  /** `handleProjectSubmit`: a form missing a required field changes nothing; otherwise the updated array is written. */
  method SubmitProject(projects: Collection<Project>, form: ProjectForm, put: Write -> PutResponse)
    returns (outcome: Result<string, string>)
    requires projects.Valid()
    modifies projects
    ensures projects.Valid()
    ensures ValidateProject(form).Failure? ==> outcome == Failure(ProjectFieldsRequired) && unchanged(projects)
    ensures ValidateProject(form).Success? ==>
      projects.Committed(Upsert(old(projects.data), old(projects.editIndex), ValidateProject(form).value),
                         ProjectSaveMessage, put, outcome, old(projects.data), old(projects.sha),
                         old(projects.editIndex), old(projects.writes))
  {
    var checked := ValidateProject(form);
    if checked.Failure? {
      return Failure(checked.error);
    }
    var updated := Upsert(projects.data, projects.editIndex, checked.value);
    outcome := projects.Commit(updated, ProjectSaveMessage, put);
  }

  /** `editProduct`: the form filled from the product at `index`, if there is one. */
  method EditProduct(products: Collection<Product>, index: real) returns (form: Option<ProductForm>)
    requires products.Valid()
    modifies products
    ensures products.Valid()
    ensures var record := RecordAt(old(products.data), index);
      form == if record.Some? then Some(FormOfProduct(record.value)) else None
    ensures products.editIndex == if form.Some? then Some(index.Floor) else old(products.editIndex)
    ensures products.data == old(products.data) && products.sha == old(products.sha)
    ensures products.writes == old(products.writes)
  {
    var record := products.Edit(index);
    form := if record.Some? then Some(FormOfProduct(record.value)) else None;
  }

  /** `editProject`: the form filled from the project at `index`, if there is one. */
  method EditProject(projects: Collection<Project>, index: real) returns (form: Option<ProjectForm>)
    requires projects.Valid()
    modifies projects
    ensures projects.Valid()
    ensures var record := RecordAt(old(projects.data), index);
      form == if record.Some? then Some(FormOfProject(record.value)) else None
    ensures projects.editIndex == if form.Some? then Some(index.Floor) else old(projects.editIndex)
    ensures projects.data == old(projects.data) && projects.sha == old(projects.sha)
    ensures projects.writes == old(projects.writes)
  {
    var record := projects.Edit(index);
    form := if record.Some? then Some(FormOfProject(record.value)) else None;
  }

  /** `deleteProduct`: the confirmed product is spliced out and the array written with the fixed message. */
  method DeleteProduct(products: Collection<Product>, index: real, confirmed: bool, put: Write -> PutResponse)
    returns (outcome: Option<Result<string, string>>)
    requires products.Valid()
    modifies products
    ensures products.Valid()
    ensures !IsInteger(index) || !confirmed ==>
      outcome.None? && products.data == old(products.data) && products.sha == old(products.sha)
      && products.editIndex == old(products.editIndex) && products.writes == old(products.writes)
    ensures IsInteger(index) && confirmed ==>
      outcome.Some? && products.Committed(SpliceOne(old(products.data), index.Floor), ProductDeleteMessage, put,
                                          outcome.value, old(products.data), old(products.sha),
                                          old(products.editIndex), old(products.writes))
  {
    outcome := products.Delete(index, confirmed, ProductDeleteMessage, put);
  }

  /** `deleteProject`: the confirmed project is spliced out and the array written with the fixed message. */
  method DeleteProject(projects: Collection<Project>, index: real, confirmed: bool, put: Write -> PutResponse)
    returns (outcome: Option<Result<string, string>>)
    requires projects.Valid()
    modifies projects
    ensures projects.Valid()
    ensures !IsInteger(index) || !confirmed ==>
      outcome.None? && projects.data == old(projects.data) && projects.sha == old(projects.sha)
      && projects.editIndex == old(projects.editIndex) && projects.writes == old(projects.writes)
    ensures IsInteger(index) && confirmed ==>
      outcome.Some? && projects.Committed(SpliceOne(old(projects.data), index.Floor), ProjectDeleteMessage, put,
                                          outcome.value, old(projects.data), old(projects.sha),
                                          old(projects.editIndex), old(projects.writes))
  {
    outcome := projects.Delete(index, confirmed, ProjectDeleteMessage, put);
  }
}
