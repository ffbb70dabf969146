/** The clamped navigation shared by the three deck hooks:
    `setIndex(i => Math.min(i + 1, length - 1))` and
    `setIndex(i => Math.max(i - 1, 0))`. */
module Nav {

  /** `Math.min(i + 1, len - 1)`. */
  function NextIndex(i: int, len: nat): (r: int)
    ensures r <= i + 1 && r <= len - 1
    ensures r == i + 1 || r == len - 1
    ensures len == 0 && i >= -1 ==> r == -1
  {
    if i + 1 <= len - 1 then i + 1 else len - 1
  }

  /** `Math.max(i - 1, 0)`. */
  function PrevIndex(i: int): (r: int)
    ensures r >= 0 && r >= i - 1
    ensures r == i - 1 || r == 0
    ensures i == 0 ==> r == 0
  {
    if i - 1 >= 0 then i - 1 else 0
  }

  /** The indices the hooks can reach: -1 only through `goNext` on an empty
      list, otherwise 0 or a position of the list. */
  predicate InRange(i: int, len: nat)
  {
    -1 <= i && (i <= len - 1 || i == 0)
  }

  lemma StepsKeepRange(i: int, len: nat)
    requires InRange(i, len)
    ensures InRange(NextIndex(i, len), len)
    ensures InRange(PrevIndex(i), len)
  {
  }

  /** A longer list (more pages merged) keeps every reachable index reachable. */
  lemma GrowKeepsRange(i: int, len: nat, len': nat)
    requires InRange(i, len) && len <= len'
    ensures InRange(i, len')
  {
  }

  /** Inside the list, going back undoes going forward. */
  lemma PrevUndoesNext(i: int, len: nat)
    requires 0 <= i < len - 1
    ensures PrevIndex(NextIndex(i, len)) == i
  {
  }

  /** `isLast` (`i >= len - 1`) holds exactly when `goNext` cannot move on. */
  lemma NextStallsIffLast(i: int, len: nat)
    ensures NextIndex(i, len) <= i <==> i >= len - 1
  {
  }
}
