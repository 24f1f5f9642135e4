/**
 * The freshness badges (`R.drawable.bg_badge_*`) and the label keywords both
 * the history list and the result screen test for.
 */
module Badges {
  import opened Text

  datatype Badge = FreshBadge | RipeBadge | OverripeBadge | SpoiledBadge

  predicate MentionsFresh(freshness: string) {
    Contains(Lowercase(freshness), "fresh")
  }

  predicate MentionsOverripe(freshness: string) {
    Contains(Lowercase(freshness), "overripe")
  }

  predicate MentionsRipe(freshness: string) {
    Contains(Lowercase(freshness), "ripe")
  }

  predicate MentionsSpoiled(freshness: string) {
    Contains(Lowercase(freshness), "spoil") || Contains(Lowercase(freshness), "bad")
  }

  /** Every label that mentions "overripe" also mentions "ripe". */
  lemma OverripeMentionsRipe(freshness: string)
    ensures MentionsOverripe(freshness) ==> MentionsRipe(freshness)
  {
    if MentionsOverripe(freshness) {
      assert "overripe" == "over" + "ripe";
      ContainsTail(Lowercase(freshness), "over", "ripe");
    }
  }
}
