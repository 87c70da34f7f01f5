/** The rule records loaded from the rule document, and the per-language selection of them. */
module Rules {
  import opened Seqs

  /** One entry of the document's "rules" list. The severity is kept as the
      document's string: it is looked up in the severity table only when a
      finding of the rule is judged. */
  datatype Rule = Rule(id: string, pattern: string, language: string, severity: string, message: string)

  predicate AppliesTo(lang: string, r: Rule)
  {
    r.language == lang
  }

  /** `[r for r in rules if r["language"] == lang]`. */
  function ApplicableRules(rules: seq<Rule>, lang: string): (r: seq<Rule>)
    ensures |r| <= |rules|
    ensures forall k :: 0 <= k < |r| ==> r[k].language == lang
  {
    Filter(rules, (x: Rule) => AppliesTo(lang, x))
  }

  /** The applicable rules are the rules of that language, every one of them,
      each as often as it occurs, in their original relative order. */
  lemma ApplicableRulesExactly(rules: seq<Rule>, lang: string) returns (idx: seq<nat>)
    ensures forall x :: x in ApplicableRules(rules, lang) <==> x in rules && x.language == lang
    ensures |idx| == |ApplicableRules(rules, lang)|
    ensures forall k :: 0 <= k < |idx| ==> idx[k] < |rules| && ApplicableRules(rules, lang)[k] == rules[idx[k]]
    ensures forall a, b :: 0 <= a < b < |idx| ==> idx[a] < idx[b]
    ensures forall j :: 0 <= j < |rules| && rules[j].language == lang ==> j in idx
  {
    var p := (x: Rule) => AppliesTo(lang, x);
    forall x
      ensures x in ApplicableRules(rules, lang) <==> x in rules && x.language == lang
    {
      FilterMembership(rules, p, x);
    }
    idx := FilterKeepsOrder(rules, p);
  }
}
