/** The incident records the graph builders read (one JSON object per Licensee Event Report):
    the report's file name, the lists of values extracted for each attribute ("Task", "Event",
    "Cause", "Influence", "Corrective Actions", "HSI Issues", ...), and its metadata.

    A metadata entry or facility field that the JSON object lacks is `None`; indexing it with
    `[...]` raises `KeyError` in the scripts, reading it with `.get` gives the default. */
module Records {
  import opened Text

  datatype Facility = Facility(name: Option<string>, unit: Option<string>)

  datatype Metadata = Metadata(
    title: Option<string>,
    eventDate: Option<string>,
    facility: Option<Facility>,
    clause: Option<string>)

  datatype Record = Record(filename: string, attributes: map<string, seq<string>>, metadata: Metadata)

  /** `record["attributes"].get(name, [])` */
  function Items(r: Record, name: string): seq<string>
  {
    if name in r.attributes then r.attributes[name] else []
  }

  /** The sentence-embedding cosine similarity of two texts. It is not assumed to lie in
      [0, 1]: nothing in the scripts clips it. */
  type Oracle = (string, string) -> real

  /** A list of values that carries no text once joined with spaces. */
  predicate NoText(xs: seq<string>)
  {
    |xs| == 0 || xs == [""]
  }

  /** `calculate_similarity(attribute, data1, data2)`: the values of the attribute in each
      record joined with single spaces, compared by the oracle when both texts are non-empty. */
  function AttributeSimilarity(sim: Oracle, name: string, r1: Record, r2: Record): real
  {
    var text1 := Join(" ", Items(r1, name));
    var text2 := Join(" ", Items(r2, name));
    if text1 != "" && text2 != "" then sim(text1, text2) else 0.0
  }

  /** The score is 0.0 when either record lacks the attribute, has no value for it, or has only
      the empty value; in every other case it is what the oracle says about the joined texts. */
  lemma AttributeSimilarityCases(sim: Oracle, name: string, r1: Record, r2: Record)
    ensures NoText(Items(r1, name)) || NoText(Items(r2, name)) ==> AttributeSimilarity(sim, name, r1, r2) == 0.0
    ensures name !in r1.attributes || name !in r2.attributes ==> AttributeSimilarity(sim, name, r1, r2) == 0.0
    ensures !NoText(Items(r1, name)) && !NoText(Items(r2, name))
        ==> AttributeSimilarity(sim, name, r1, r2) == sim(Join(" ", Items(r1, name)), Join(" ", Items(r2, name)))
  {
    JoinEmptyIff(" ", Items(r1, name));
    JoinEmptyIff(" ", Items(r2, name));
  }
}
