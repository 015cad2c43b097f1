/**
  `StatusData.Options`: the fixed list of development statuses an item can be given.
 */
module StatusData {

  /** A static readonly list: a constant of the model. */
  const Options: seq<string> := ["In development", "In testing", "Deployed", "Archived"]

  /** There are exactly four options, no two alike. */
  lemma OptionsDistinct()
    ensures |Options| == 4
    ensures forall i, j :: 0 <= i < j < |Options| ==> Options[i] != Options[j]
  {
  }
}
