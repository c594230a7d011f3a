/**
 * The extractor factory: a feature-type name selects one of the four descriptor
 * extractors, and any other name is rejected with `invalid_argument`.
 */
module FeatureExtractor {
  import opened Results

  /** The extractors `FeatureFactory::createFeature` can build. */
  datatype Extractor = ColorHistogram | ColorCorrelogram | Sift | Orb

  /** Default `colorLevels` of `quantizeColors`. */
  const DefaultColorLevels: int := 8

  /** Default `maxDistance` of `calculateCorrelogram`. */
  const DefaultMaxDistance: int := 5

  /** The feature-type name that selects each extractor. */
  function Name(e: Extractor): string
  {
    match e
    case ColorHistogram => "histogram"
    case ColorCorrelogram => "correlogram"
    case Sift => "sift"
    case Orb => "orb"
  }

  /**
   * `FeatureFactory::createFeature`: the extractor whose name is exactly `featureType`
   * (case-sensitive), or the `invalid_argument` message for every other string.
   */
  function CreateFeature(featureType: string): (r: Result<Extractor>)
    ensures forall e :: Name(e) == featureType ==> r == Success(e)
    ensures r.Success? ==> Name(r.value) == featureType
    ensures r.Failure? ==> r.error == "Unsupported feature type: " + featureType
  {
    if featureType == "histogram" then Success(ColorHistogram)
    else if featureType == "correlogram" then Success(ColorCorrelogram)
    else if featureType == "sift" then Success(Sift)
    else if featureType == "orb" then Success(Orb)
    else Failure("Unsupported feature type: " + featureType)
  }

  /**
   * Matching is exact and case-sensitive: the derived keys under which bag-of-words
   * histograms are stored, and upper-case spellings, select no extractor.
   */
  lemma DerivedKeysRejected()
    ensures CreateFeature("sift_histogram").Failure?
    ensures CreateFeature("orb_histogram").Failure?
    ensures CreateFeature("SIFT").Failure?
  {
  }
}
