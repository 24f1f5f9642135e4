/**
 * `ScanHistoryAdapter`: the history list's positional edits (used by swipe to
 * delete and its undo), the badge a row shows, the relative date of a row,
 * and the item identity `DiffUtil` uses.
 */
module HistoryAdapter {
  import opened Wrappers
  import opened Ints
  import opened Text
  import opened Badges
  import opened ScanResults

  /** The list after `removeAt(position)`. */
  function Removed<T>(s: seq<T>, position: int): (r: seq<T>)
    requires 0 <= position < |s|
    ensures |r| == |s| - 1
    ensures forall i :: 0 <= i < position ==> r[i] == s[i]
    ensures forall i :: position <= i < |r| ==> r[i] == s[i + 1]
  {
    s[..position] + s[position + 1..]
  }

  /** Where `insertItem` puts the item: `position` when it is a valid insertion index, the end otherwise. */
  function InsertionIndex(size: int, position: int): (pos: int)
    ensures 0 <= size ==> 0 <= pos <= size
    ensures 0 <= position <= size ==> pos == position
    ensures position < 0 || position > size ==> pos == size
  {
    if position < 0 || position > size then size else position
  }

  /** The list after `add(pos, item)` at the clamped index. */
  function Inserted<T>(s: seq<T>, position: int, item: T): (r: seq<T>)
    ensures |r| == |s| + 1
    ensures var pos := InsertionIndex(|s|, position);
            r[pos] == item
            && (forall i :: 0 <= i < pos ==> r[i] == s[i])
            && (forall i :: pos < i < |r| ==> r[i] == s[i - 1])
  {
    var pos := InsertionIndex(|s|, position);
    s[..pos] + [item] + s[pos..]
  }

  /** Re-inserting a removed item at its old position restores the list: the undo of a swipe-to-delete. */
  lemma {:induction false} UndoRemove<T>(s: seq<T>, position: int)
    requires 0 <= position < |s|
    ensures Inserted(Removed(s, position), position, s[position]) == s
  {
    var r := Inserted(Removed(s, position), position, s[position]);
    forall i | 0 <= i < |s| ensures r[i] == s[i] {
      if i > position {
        assert r[i] == Removed(s, position)[i - 1];
      }
    }
  }

  /** An out-of-range insertion position appends. */
  lemma InsertOutOfRangeAppends<T>(s: seq<T>, position: int, item: T)
    requires position < 0 || position > |s|
    ensures Inserted(s, position, item) == s + [item]
  {
  }

  class ScanHistoryAdapter {
    /** `currentList`, replaced wholesale by each `submitList`. */
    var currentList: seq<ScanResultEntity>

    constructor ()
      ensures currentList == []
    {
      currentList := [];
    }

    /**
     * `removeItem(position)`. `removeAt` throws for a position outside the
     * list, before `submitList`: then `None`, and the list is unchanged.
     */
    method RemoveItem(position: int) returns (removed: Option<ScanResultEntity>)
      modifies this
      ensures 0 <= position < |old(currentList)| ==>
                removed == Some(old(currentList)[position]) && currentList == Removed(old(currentList), position)
      ensures !(0 <= position < |old(currentList)|) ==> removed == None && currentList == old(currentList)
    {
      var mutable := currentList;
      if !(0 <= position < |mutable|) {
        return None;
      }
      var item := mutable[position];
      mutable := mutable[..position] + mutable[position + 1..];
      currentList := mutable;
      removed := Some(item);
    }

    /** `insertItem(position, item)`. */
    method InsertItem(position: int, item: ScanResultEntity)
      modifies this
      ensures currentList == Inserted(old(currentList), position, item)
    {
      var mutable := currentList;
      var pos := if position < 0 || position > |mutable| then |mutable| else position;
      mutable := mutable[..pos] + [item] + mutable[pos..];
      currentList := mutable;
    }
  }

  /** The badge `bind` picks for a row, testing the lower-cased label in the order the code does. */
  function HistoryBadge(freshnessLabel: string): Badge {
    if MentionsFresh(freshnessLabel) then FreshBadge
    else if MentionsRipe(freshnessLabel) then RipeBadge
    else if MentionsOverripe(freshnessLabel) then OverripeBadge
    else if MentionsSpoiled(freshnessLabel) then SpoiledBadge
    else FreshBadge
  }

  /**
   * The test for "ripe" comes before the test for "overripe", so the
   * history list never shows the overripe badge: an overripe label gets the
   * ripe badge.
   */
  lemma HistoryBadgeNeverOverripe(freshnessLabel: string)
    ensures HistoryBadge(freshnessLabel) != OverripeBadge
    ensures MentionsOverripe(freshnessLabel) && !MentionsFresh(freshnessLabel) ==> HistoryBadge(freshnessLabel) == RipeBadge
  {
    OverripeMentionsRipe(freshnessLabel);
  }

  /** Which badge a label gets, by the keywords it mentions. */
  lemma HistoryBadgeRules(freshnessLabel: string)
    ensures HistoryBadge(freshnessLabel) == FreshBadge <==> MentionsFresh(freshnessLabel) || (!MentionsRipe(freshnessLabel) && !MentionsSpoiled(freshnessLabel))
    ensures HistoryBadge(freshnessLabel) == RipeBadge <==> !MentionsFresh(freshnessLabel) && MentionsRipe(freshnessLabel)
    ensures HistoryBadge(freshnessLabel) == SpoiledBadge <==> !MentionsFresh(freshnessLabel) && !MentionsRipe(freshnessLabel) && MentionsSpoiled(freshnessLabel)
  {
    OverripeMentionsRipe(freshnessLabel);
  }

  /** The relative date a row shows (`home_today`, `home_yesterday`, `home_days_ago_format`). */
  datatype RelativeDate = Today | Yesterday | DaysAgo(days: int32)

  const MILLIS_PER_DAY: int := 1000 * 60 * 60 * 24

  /** `(diffMs / (1000 * 60 * 60 * 24)).toInt()`, with `diffMs = now - timestamp` in `Long` arithmetic. */
  function ElapsedDays(timestamp: int64, now: int64): int32 {
    Wrap32(TruncDiv(Wrap64(now - timestamp), MILLIS_PER_DAY))
  }

  /** `formatRelative(timestamp)`, where `now` is `System.currentTimeMillis()`. */
  function FormatRelative(timestamp: int64, now: int64): (r: RelativeDate)
    ensures r.DaysAgo? ==> r.days >= 2
  {
    var days := ElapsedDays(timestamp, now);
    if days <= 0 then Today
    else if days == 1 then Yesterday
    else DaysAgo(days)
  }

  /**
   * For any elapsed time that spans fewer than 2^31 days either way:
   * the bucket is the number of whole days elapsed; a timestamp in the
   * future, or less than a day old, is today.
   */
  lemma FormatRelativeBuckets(timestamp: int64, now: int64)
    requires -TWO_31 * MILLIS_PER_DAY < now - timestamp < TWO_31 * MILLIS_PER_DAY
    ensures now - timestamp < MILLIS_PER_DAY ==> FormatRelative(timestamp, now) == Today
    ensures MILLIS_PER_DAY <= now - timestamp < 2 * MILLIS_PER_DAY ==> FormatRelative(timestamp, now) == Yesterday
    ensures 2 * MILLIS_PER_DAY <= now - timestamp ==> FormatRelative(timestamp, now) == DaysAgo((now - timestamp) / MILLIS_PER_DAY)
  {
    var diff := now - timestamp;
    if diff >= 0 {
      assert diff / MILLIS_PER_DAY < TWO_31;
      if diff >= 2 * MILLIS_PER_DAY {
        assert diff / MILLIS_PER_DAY >= 2;
      } else if diff >= MILLIS_PER_DAY {
        assert diff / MILLIS_PER_DAY == 1;
      }
    } else {
      assert (-diff) / MILLIS_PER_DAY < TWO_31;
    }
  }

  /** `ScanDiff.areItemsTheSame`: the same row iff the same id. */
  predicate AreItemsTheSame(oldItem: ScanResultEntity, newItem: ScanResultEntity) {
    oldItem.id == newItem.id
  }

  /** `ScanDiff.areContentsTheSame`: data-class equality. */
  predicate AreContentsTheSame(oldItem: ScanResultEntity, newItem: ScanResultEntity) {
    oldItem == newItem
  }

  /** Equal contents imply the same item; an edited row keeps its identity. */
  lemma ScanDiffConsistent(a: ScanResultEntity, b: ScanResultEntity, edited: ScanResultEntity)
    requires edited.id == a.id
    ensures AreContentsTheSame(a, b) ==> AreItemsTheSame(a, b)
    ensures AreItemsTheSame(a, edited)
    ensures AreItemsTheSame(a, b) <==> AreItemsTheSame(b, a)
  {
  }
}
