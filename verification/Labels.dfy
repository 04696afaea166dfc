/** Suffix rules of the policy: the code's string test and what it means for DNS labels. */
module Labels {
  import opened Text

  function LabelsOf(name: string): (labels: seq<string>)
    ensures |labels| > 0
  {
    Split(name, '.')
  }

  /** authorize's test of one suffix rule; a depth of 0 means unlimited. */
  predicate SuffixMatches(name: string, suffix: string, depth: int) {
    && HasSuffix(name, "." + suffix)
    && !(depth > 0 && Count(name[..|name| - |suffix| - 1], '.') + 1 > depth)
  }

  /**
   * A suffix rule matches exactly the names that end in the suffix's labels and
   * have at least one more label, at most depth of them when depth is set.
   */
  lemma SuffixMeansLabels(name: string, suffix: string, depth: int)
    ensures SuffixMatches(name, suffix, depth) <==>
      var n, s := LabelsOf(name), LabelsOf(suffix);
      && |s| < |n|
      && n[|n| - |s|..] == s
      && (depth <= 0 || |n| - |s| <= depth)
  {
    var n, s := LabelsOf(name), LabelsOf(suffix);
    if HasSuffix(name, "." + suffix) {
      SuffixSplits(name, suffix);
      CountIsSplits(name[..|name| - |suffix| - 1], '.');
    } else if |s| < |n| && n[|n| - |s|..] == s {
      LabelsJoin(name, suffix);
    }
  }

  lemma SuffixSplits(name: string, suffix: string)
    requires HasSuffix(name, "." + suffix)
    ensures LabelsOf(name) == LabelsOf(name[..|name| - |suffix| - 1]) + LabelsOf(suffix)
  {
    var front := name[..|name| - |suffix| - 1];
    assert name == front + ['.'] + suffix;
    SplitAround(front, '.', suffix);
  }

  lemma LabelsJoin(name: string, suffix: string)
    requires |LabelsOf(suffix)| < |LabelsOf(name)|
    requires LabelsOf(name)[|LabelsOf(name)| - |LabelsOf(suffix)|..] == LabelsOf(suffix)
    ensures HasSuffix(name, "." + suffix)
  {
    hide HasSuffix, Split;
    var n, s := LabelsOf(name), LabelsOf(suffix);
    var front := n[..|n| - |s|];
    JoinSplit(name, '.');
    JoinSplit(suffix, '.');
    JoinAround(front, '.', s);
    assert n == front + s;
    assert name == Join(front, '.') + ("." + suffix);
    SuffixOfConcat(Join(front, '.'), "." + suffix);
  }

  /** So no suffix matches itself, and a deeper rule matches more. */
  lemma SuffixDepthMonotone(name: string, suffix: string, depth: int, deeper: int)
    requires deeper <= 0 || 0 < depth <= deeper
    ensures !SuffixMatches(suffix, suffix, depth)
    ensures SuffixMatches(name, suffix, depth) ==> SuffixMatches(name, suffix, deeper)
  {
    SuffixMeansLabels(suffix, suffix, depth);
    SuffixMeansLabels(name, suffix, depth);
    SuffixMeansLabels(name, suffix, deeper);
  }
}
