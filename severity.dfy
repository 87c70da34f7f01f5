/** The severity table `SEVERITY_ORDER` and the fail levels accepted on the command line. */
module Severity {
  import opened Seqs

  /** `SEVERITY_ORDER`: the rank of each severity name. */
  const SeverityOrder: map<string, nat> := map["LOW" := 1, "MEDIUM" := 2, "HIGH" := 3]

  /** The fail levels the command line accepts: exactly the keys of the table. */
  datatype Level = Low | Medium | High

  function Label(l: Level): string
  {
    match l
    case Low => "LOW"
    case Medium => "MEDIUM"
    case High => "HIGH"
  }

  /** `SEVERITY_ORDER[name]`, with None standing for the KeyError an unknown name raises. */
  function Lookup(name: string): (r: Option<nat>)
    ensures r.Some? <==> name == "LOW" || name == "MEDIUM" || name == "HIGH"
    ensures r.Some? ==> 1 <= r.value <= 3
  {
    if name in SeverityOrder then Some(SeverityOrder[name]) else None
  }

  /** The rank of a fail level, as the table gives it for the level's label. */
  function Rank(l: Level): (r: nat)
    ensures Lookup(Label(l)) == Some(r)
  {
    match l
    case Low => 1
    case Medium => 2
    case High => 3
  }

  /** The ranks put LOW below MEDIUM below HIGH, and distinct levels have distinct ranks. */
  lemma RankOrder(a: Level, b: Level)
    ensures Rank(Low) < Rank(Medium) < Rank(High)
    ensures Rank(a) == Rank(b) ==> a == b
  {
  }

  /** Every name the table knows is the label of exactly one level. */
  lemma LookupLevels(name: string)
    ensures Lookup(name).Some? <==> exists l: Level :: Label(l) == name
  {
    if Lookup(name).Some? {
      if name == "LOW" { assert Label(Low) == name; }
      else if name == "MEDIUM" { assert Label(Medium) == name; }
      else { assert Label(High) == name; }
    }
  }
}
