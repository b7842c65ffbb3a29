/**
  The records stored in the site's JSON collections and shown by both scripts.
  A text field the JSON leaves out is represented by the empty string.
*/
module Content {

  /** One entry of data/products.json. */
  datatype Product = Product(
    ref: string,
    name: string,
    productType: string,
    price: string,
    description: string,
    image: string,
    link: string)

  /** One entry of data/projects.json. */
  datatype Project = Project(
    id: string,
    title: string,
    summary: string,
    thumbnail: string,
    description: string,
    highlights: seq<string>,
    services: seq<string>,
    gallery: seq<string>,
    cta: string,
    ctaLink: string)
}
