/** Global configuration constants of the extractor (constants.py). */
module Constants {

  /** Property requests offered to a new user (constants.py:8-12). */
  const DefaultProperties: seq<string> := [
    "Assembly/Cast unit Mark",
    "Assembly/Cast unit position code",
    "Assembly/Cast unit top elevation"
  ]

  /** Entity classes that are containers or annotations and never yield a row
      (constants.py:15-18). Membership is by exact class name. */
  const SkipEntityTypes: set<string> := {
    "IfcProject", "IfcSite", "IfcBuilding", "IfcBuildingStorey",
    "IfcSpace", "IfcAnnotation", "IfcGrid", "IfcStructuralItem"
  }

  /** The strftime format of the date stamp in output file names (constants.py:21). */
  const DateFormat: string := "%m-%d"

  // The regular-expression character class of characters that file names may
  // not contain and that are replaced by an underscore (constants.py:27).
  const InvalidFilenameChars: set<char> := {'\\', '/', '*', '?', ':', '"', '<', '>', '|'}

  /** Exactly eight entity classes are skipped, and a subtype name is not one of them. */
  lemma SkipSetIsExact()
    ensures |SkipEntityTypes| == 8
    ensures "IfcWall" !in SkipEntityTypes && "IfcBeam" !in SkipEntityTypes
    ensures "IfcBuildingStorey" in SkipEntityTypes && "IfcStructuralItem" in SkipEntityTypes
  {
  }

  /** The invalid file-name characters are exactly nine, the double quote among them. */
  lemma InvalidCharsAreExact()
    ensures |InvalidFilenameChars| == 9
    ensures '"' in InvalidFilenameChars
    ensures '.' !in InvalidFilenameChars && '_' !in InvalidFilenameChars && '-' !in InvalidFilenameChars
  {
  }

  /** No default request contains a dot, so each one is an unqualified search. */
  lemma DefaultsAreUnqualified()
    ensures forall p :: p in DefaultProperties ==> '.' !in p
  {
  }
}
