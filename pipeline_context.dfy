/** The page and row kinds that the classifiers hand to the runner and the row processor. */
module PipelineContext {

  /** The kind of a document page, named after its header. */
  datatype PageType = Provinsi | KabKota | Kecamatan | KelurahanDesa | Unknown

  /** The administrative level a code denotes, by its shape. */
  datatype RowType = Province | Regency | District | Village | Other
}
