/**
  The admin console's two editing forms: how a submitted form becomes a
  product or project record (trimming, list parsing, the image path, the
  required fields), and how `editProduct` / `editProject` fill the form back
  from a stored record. The form's fields are plain strings.
*/
module AdminForms {
  import opened Wrappers
  import opened Text
  import opened Seqs
  import opened Content

  /** The file picked in the product form: its name and the data URL the file reader produced. */
  datatype SelectedFile = SelectedFile(name: string, dataUrl: string)

  datatype ProductForm = ProductForm(
    ref: string,
    name: string,
    productType: string,
    price: string,
    description: string,
    imagePath: string,
    link: string,
    file: Option<SelectedFile>)

  datatype ProjectForm = ProjectForm(
    id: string,
    title: string,
    summary: string,
    thumbnail: string,
    description: string,
    highlights: string,
    services: string,
    gallery: string,
    cta: string,
    ctaLink: string)

  const ProductImageFolder := "images/products/"
  const FallbackImage := "images/products/doc.jpg"
  const DefaultProductType := "STL"
  const ProductFieldsRequired := "Référence, nom et description sont obligatoires."
  const ProjectFieldsRequired := "Identifiant, titre et description sont obligatoires."

  /**
    Where a submitted product's image lives: the typed path if it is not blank,
    else the chosen file under the product images folder, else the placeholder.
  */
  function ImagePath(customPath: string, file: Option<SelectedFile>): (r: string)
    ensures Trim(customPath) != "" ==> r == Trim(customPath)
    ensures Trim(customPath) == "" ==> r == if file.Some? then ProductImageFolder + file.value.name else FallbackImage
    ensures r != ""
  {
    OrElse(Trim(customPath), if file.Some? then ProductImageFolder + file.value.name else FallbackImage)
  }

  /** The base64 payload of a data URL, `split(',')[1]`: the text between its first and second comma ("" when it has no comma). */
  function DataUrlPayload(dataUrl: string): string {
    var parts := Split(dataUrl, ',');
    if |parts| >= 2 then parts[1] else ""
  }

  /** A data URL's payload is recovered when the header has no comma and the payload has none either. */
  lemma DataUrlPayloadOf(header: string, payload: string)
    requires ',' !in header && ',' !in payload
    ensures DataUrlPayload(header + "," + payload) == payload
  {
    SplitAtSeparator(header, ',', payload);
    SplitWithoutSeparator(payload, ',');
  }

  /** The record built from the product form (before the required fields are checked). */
  function ProductOfForm(f: ProductForm): Product {
    Product(Trim(f.ref), Trim(f.name), f.productType, Trim(f.price), Trim(f.description),
            ImagePath(f.imagePath, f.file), Trim(f.link))
  }

  /** The product a submission saves, or the message shown when a required field is blank. */
  function ValidateProduct(f: ProductForm): (r: Result<Product, string>)
    ensures r.Failure? <==> Trim(f.ref) == "" || Trim(f.name) == "" || Trim(f.description) == ""
    ensures r.Failure? ==> r.error == ProductFieldsRequired
    ensures r.Success? ==> r.value == ProductOfForm(f)
    ensures r.Success? ==> r.value.ref != "" && r.value.name != "" && r.value.description != "" && r.value.image != ""
  {
    var p := ProductOfForm(f);
    if p.ref == "" || p.name == "" || p.description == "" then Failure(ProductFieldsRequired)
    else Success(p)
  }

  /** `editProduct`: the form filled from a stored product; the file input is cleared. */
  function FormOfProduct(p: Product): (f: ProductForm)
    ensures f.file.None? && f.productType != ""
  {
    ProductForm(p.ref, p.name, OrElse(p.productType, DefaultProductType), p.price, p.description,
                p.image, p.link, None)
  }

  /** A product as a submission stores it: the required fields present, every text field trimmed. */
  predicate SavedProduct(p: Product) {
    && p.ref != "" && p.name != "" && p.description != ""
    && Trimmed(p.ref) && Trimmed(p.name) && Trimmed(p.price)
    && Trimmed(p.description) && Trimmed(p.image) && Trimmed(p.link)
  }

  /**
    Editing a product and saving it unchanged stores the same product, except
    that a missing type becomes "STL" and a missing image the placeholder.
  */
  lemma EditThenSaveProduct(p: Product)
    requires SavedProduct(p)
    ensures ValidateProduct(FormOfProduct(p))
         == Success(p.(productType := OrElse(p.productType, DefaultProductType),
                       image := OrElse(p.image, FallbackImage)))
  {
    TrimOfTrimmed(p.ref);
    TrimOfTrimmed(p.name);
    TrimOfTrimmed(p.price);
    TrimOfTrimmed(p.description);
    TrimOfTrimmed(p.image);
    TrimOfTrimmed(p.link);
  }

  /** Every piece trimmed (`map(item => item.trim())`). */
  function TrimAll(parts: seq<string>): (r: seq<string>)
    ensures |r| == |parts|
    ensures forall i :: 0 <= i < |r| ==> r[i] == Trim(parts[i])
  {
    seq(|parts|, i requires 0 <= i < |parts| => Trim(parts[i]))
  }

  predicate NonEmpty(s: string) {
    s != ""
  }

  /** A list typed in a text field: split on `sep`, each piece trimmed, blank pieces dropped. */
  function ParseList(value: string, sep: char): (items: seq<string>)
    ensures forall i :: 0 <= i < |items| ==> items[i] != "" && Trimmed(items[i]) && sep !in items[i]
  {
    var parts := Split(value, sep);
    var trimmed := TrimAll(parts);
    forall i | 0 <= i < |trimmed| ensures Trimmed(trimmed[i]) && sep !in trimmed[i] {
      TrimKeepsOut(parts[i], sep);
    }
    FilterKeeps(trimmed, NonEmpty, (t: string) => Trimmed(t) && sep !in t);
    Filter(trimmed, NonEmpty)
  }

  /** Trimming adds no character. */
  lemma TrimKeepsOut(s: string, c: char)
    requires c !in s
    ensures c !in Trim(s)
  {
    var r := Trim(s);
    var j: nat :| SurroundedBySpace(s, j, r);
  }

  /** The items of a stored list, each usable as one piece of a list field. */
  predicate CleanItems(items: seq<string>, sep: char) {
    forall i :: 0 <= i < |items| ==> items[i] != "" && Trimmed(items[i]) && sep !in items[i]
  }

  /** Each item after the first, led by a space. */
  function SpaceLed(items: seq<string>): (r: seq<string>)
    ensures |r| == |items|
    ensures forall i :: 0 <= i < |r| ==> r[i] == [' '] + items[i]
  {
    seq(|items|, i requires 0 <= i < |items| => [' '] + items[i])
  }

  /** Joining with ", " is joining with "," items that start with a space. */
  lemma {:induction false} JoinCommaSpace(items: seq<string>)
    requires |items| >= 1
    ensures [' '] + Join(items, ", ") == Join(SpaceLed(items), ",")
  {
    if |items| > 1 {
      JoinCommaSpace(items[1..]);
      assert SpaceLed(items)[1..] == SpaceLed(items[1..]);
      assert [' '] + Join(items, ", ")
          == ([' '] + items[0]) + "," + ([' '] + Join(items[1..], ", "));
    }
  }

  /** What `ParseList` keeps of pieces that are already clean and non-blank once trimmed. */
  lemma ParseListOfPieces(value: string, sep: char, pieces: seq<string>, items: seq<string>)
    requires Split(value, sep) == pieces && |pieces| == |items|
    requires forall i :: 0 <= i < |items| ==> Trim(pieces[i]) == items[i] && items[i] != ""
    ensures ParseList(value, sep) == items
  {
    assert TrimAll(pieces) == items;
    FilterAll(items, NonEmpty);
  }

  /** The highlights field round trip: one item per line is read back unchanged. */
  lemma HighlightsRoundTrip(items: seq<string>)
    requires CleanItems(items, '\n')
    ensures ParseList(Join(items, "\n"), '\n') == items
  {
    if items == [] {
      assert Split("", '\n') == [""];
      assert TrimAll([""]) == [""];
      assert Filter([""], NonEmpty) == [];
    } else {
      SplitJoin(items, '\n');
      forall i | 0 <= i < |items| ensures Trim(items[i]) == items[i] {
        TrimOfTrimmed(items[i]);
      }
      ParseListOfPieces(Join(items, "\n"), '\n', items, items);
    }
  }

  /** The services and gallery round trip: a ", "-joined list is read back unchanged. */
  lemma TagsRoundTrip(items: seq<string>)
    requires CleanItems(items, ',')
    ensures ParseList(Join(items, ", "), ',') == items
  {
    if items == [] {
      assert Split("", ',') == [""];
      assert TrimAll([""]) == [""];
      assert Filter([""], NonEmpty) == [];
    } else {
      var pieces := CommaPieces(items);
      CommaPiecesJoin(items);
      CommaPiecesTrim(items);
      SplitJoin(pieces, ',');
      ParseListOfPieces(Join(items, ", "), ',', pieces, items);
    }
  }

  /** The pieces a split on "," finds in a ", "-joined list: the first item, then each other one led by a space. */
  function CommaPieces(items: seq<string>): (pieces: seq<string>)
    requires |items| >= 1
    ensures |pieces| == |items|
  {
    [items[0]] + SpaceLed(items[1..])
  }

  lemma CommaPiecesJoin(items: seq<string>)
    requires |items| >= 1
    ensures Join(items, ", ") == Join(CommaPieces(items), ",")
  {
    var pieces := CommaPieces(items);
    if |items| > 1 {
      var tail := Join(items[1..], ", ");
      var led := SpaceLed(items[1..]);
      assert Join(items, ", ") == items[0] + ", " + tail;
      assert [' '] + tail == Join(led, ",") by {
        JoinCommaSpace(items[1..]);
      }
      assert Join(pieces, ",") == items[0] + "," + Join(led, ",") by {
        assert pieces[1..] == led;
      }
      CommaThenSpace(items[0], tail);
    }
  }

  lemma CommaThenSpace(a: string, t: string)
    ensures a + ", " + t == a + "," + ([' '] + t)
  {
  }

  lemma CommaPiecesTrim(items: seq<string>)
    requires |items| >= 1 && CleanItems(items, ',')
    ensures forall i :: 0 <= i < |items| ==> ',' !in CommaPieces(items)[i] && Trim(CommaPieces(items)[i]) == items[i]
  {
    var pieces := CommaPieces(items);
    forall i | 0 <= i < |pieces| ensures ',' !in pieces[i] && Trim(pieces[i]) == items[i] {
      if i == 0 {
        TrimOfTrimmed(items[0]);
      } else {
        assert pieces[i] == [' '] + items[i];
        TrimAfterSpace(items[i]);
      }
    }
  }

  /** The record built from the project form (before the required fields are checked). */
  function ProjectOfForm(f: ProjectForm): Project {
    Project(Trim(f.id), Trim(f.title), Trim(f.summary), Trim(f.thumbnail), Trim(f.description),
            ParseList(f.highlights, '\n'), ParseList(f.services, ','), ParseList(f.gallery, ','),
            Trim(f.cta), Trim(f.ctaLink))
  }

  /** The project a submission saves, or the message shown when a required field is blank. */
  function ValidateProject(f: ProjectForm): (r: Result<Project, string>)
    ensures r.Failure? <==> Trim(f.id) == "" || Trim(f.title) == "" || Trim(f.description) == ""
    ensures r.Failure? ==> r.error == ProjectFieldsRequired
    ensures r.Success? ==> r.value == ProjectOfForm(f)
    ensures r.Success? ==>
      CleanItems(r.value.highlights, '\n') && CleanItems(r.value.services, ',') && CleanItems(r.value.gallery, ',')
  {
    var p := ProjectOfForm(f);
    if p.id == "" || p.title == "" || p.description == "" then Failure(ProjectFieldsRequired)
    else Success(p)
  }

  /** `editProject`: the form filled from a stored project. */
  function FormOfProject(p: Project): ProjectForm {
    ProjectForm(p.id, p.title, p.summary, p.thumbnail, p.description,
                Join(p.highlights, "\n"), Join(p.services, ", "), Join(p.gallery, ", "),
                p.cta, p.ctaLink)
  }

  /** A project as a submission stores it: the required fields present, every text trimmed, every list clean. */
  predicate SavedProject(p: Project) {
    && p.id != "" && p.title != "" && p.description != ""
    && Trimmed(p.id) && Trimmed(p.title) && Trimmed(p.summary) && Trimmed(p.thumbnail)
    && Trimmed(p.description) && Trimmed(p.cta) && Trimmed(p.ctaLink)
    && CleanItems(p.highlights, '\n') && CleanItems(p.services, ',') && CleanItems(p.gallery, ',')
  }

  /** Editing a project that a submission stored and saving it unchanged stores the same project. */
  lemma EditThenSaveProject(p: Project)
    requires SavedProject(p)
    ensures ValidateProject(FormOfProject(p)) == Success(p)
  {
    TrimOfTrimmed(p.id);
    TrimOfTrimmed(p.title);
    TrimOfTrimmed(p.summary);
    TrimOfTrimmed(p.thumbnail);
    TrimOfTrimmed(p.description);
    TrimOfTrimmed(p.cta);
    TrimOfTrimmed(p.ctaLink);
    HighlightsRoundTrip(p.highlights);
    TagsRoundTrip(p.services);
    TagsRoundTrip(p.gallery);
  }
}
