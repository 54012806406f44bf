/** One record of the line-delimited MeSH corpus file, as the augmentation
    code reads it. */
module Corpus {

  /** A MeSH descriptor name used as a classification label. */
  type Label = string

  datatype Record = Record(
    abstractText: string,
    meshMajor: seq<Label>,
    year: int,
    title: string,
    pmid: string,
    journal: string)
}
