/** The five personality dimensions, in the fixed order every vector of the application uses. */
module Dimension {
  import Seqs

  const Names: seq<string> := ["Sostenibilidad", "Prestaciones", "Lujo y Confort", "Versatilidad", "Tech-savvy"]

  /** The number of dimensions; every well-formed vector has this length. */
  const Count: nat := 5

  lemma NamesDistinct()
    ensures |Names| == Count
    ensures Seqs.Distinct(Names)
  {
  }
}
