/** The clusters a detector compares: those that report the field, in report order. */
module Populations {
  import opened SetFacts

  ghost function Population<V>(clusters: seq<string>, values: map<string, V>): (order: seq<string>)
    ensures forall c :: c in order <==> c in clusters && c in values
  {
    if clusters == [] then []
    else
      var last := clusters[|clusters| - 1];
      assert clusters == clusters[..|clusters| - 1] + [last];
      Population(clusters[..|clusters| - 1], values) + if last in values then [last] else []
  }

  /** Clusters listed once are compared once. */
  lemma {:induction false} PopulationOnce<V>(clusters: seq<string>, values: map<string, V>)
    requires NoDuplicates(clusters)
    ensures NoDuplicates(Population(clusters, values))
  {
    if clusters != [] {
      var k := |clusters| - 1;
      PopulationOnce(clusters[..k], values);
      assert clusters[k] !in clusters[..k];
    }
  }
}
