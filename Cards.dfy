/** What a project card shows beside the project's own text: the display name
    of its category and the badges of its tech stack. */
module Cards {
  import opened Text

  /** The four categories with a display name of their own. */
  const CategoryNames: map<string, string> :=
    map["web" := "Website", "ecommerce" := "E-commerce", "system" := "Sistema", "mobile" := "Mobile"]

  /** `names[category] || category`: the display name, or the key itself when it
      has none (every display name is non-empty, so the fallback only applies
      to unknown keys). */
  function GetCategoryName(category: string): (name: string)
    ensures category in CategoryNames ==> name == CategoryNames[category]
    ensures category !in CategoryNames ==> name == category
    ensures name == "" <==> category == ""
  {
    if category in CategoryNames && CategoryNames[category] != "" then CategoryNames[category] else category
  }

  const MaxNamedBadges: nat := 3

  /** The labels of the tech badges: the first three entries of the tech stack,
      then, when there are more, one badge `+n` counting the rest. */
  function TechBadges(techStack: seq<string>): (badges: seq<string>)
    ensures |badges| <= MaxNamedBadges + 1
    ensures |badges| == if |techStack| > MaxNamedBadges then MaxNamedBadges + 1 else |techStack|
    ensures forall k :: 0 <= k < |badges| && k < MaxNamedBadges ==> badges[k] == techStack[k]
  {
    if |techStack| > MaxNamedBadges
    then techStack[..MaxNamedBadges] + ["+" + NatToString(|techStack| - MaxNamedBadges)]
    else techStack
  }

  /** A label of the form `+n`. */
  predicate IsMoreBadge(badge: string)
  {
    |badge| >= 2 && badge[0] == '+' && IsCanonicalDecimal(badge[1..])
  }

  /** How many technologies a reader of the badges learns about: one per named
      badge, and `n` for a final `+n` badge. */
  function TechnologiesShown(badges: seq<string>): nat
  {
    if |badges| == MaxNamedBadges + 1 && IsMoreBadge(badges[MaxNamedBadges])
    then MaxNamedBadges + ParseDecimal(badges[MaxNamedBadges][1..])
    else |badges|
  }

  /** The badges account for the whole tech stack: a stack longer than three
      ends in a `+n` badge whose number counts the entries left unnamed, and the
      named badges plus that number add up to the stack's length. */
  lemma BadgesAccountForTechStack(techStack: seq<string>)
    ensures |techStack| > MaxNamedBadges ==>
      && IsMoreBadge(TechBadges(techStack)[MaxNamedBadges])
      && ParseDecimal(TechBadges(techStack)[MaxNamedBadges][1..]) == |techStack| - MaxNamedBadges
    ensures TechnologiesShown(TechBadges(techStack)) == |techStack|
  {
    if |techStack| > MaxNamedBadges {
      var n := |techStack| - MaxNamedBadges;
      ParseNatToString(n);
      var more := "+" + NatToString(n);
      assert more[1..] == NatToString(n);
      assert TechBadges(techStack)[MaxNamedBadges] == more;
    }
  }
}
