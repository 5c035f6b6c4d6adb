/** `show_next` and `show_previous` of the viewer window: moving the list selection with wrap-around.
    The Tk listbox is reduced to the number of labels and the index it reports as selected. */
module Navigation {
  import opened Outcomes
  import Arith

  /** `show_next`: `None` when the list is empty (the method returns without selecting); otherwise
      the index after the selection, wrapping to 0, or 0 when nothing is selected. */
  function ShowNext(count: nat, selected: Option<nat>): (r: Option<nat>)
    ensures count == 0 <==> r.None?
    ensures r.Some? ==> r.value < count
    ensures count > 0 && selected.None? ==> r == Some(0)
    ensures count > 0 && selected.Some? && selected.value + 1 < count ==> r == Some(selected.value + 1)
    ensures count > 0 && selected == Some(count - 1) ==> r == Some(0)
  {
    if count == 0 then None
    else
      var index := if selected.Some? then selected.value else -1;
      Some((index + 1) % count)
  }

  /** `show_previous`: `None` when the list is empty; otherwise the index before the selection,
      wrapping to the last one, which is also where it goes when nothing is selected (Python's `%`
      of `-1` is non-negative, as Dafny's is). */
  function ShowPrevious(count: nat, selected: Option<nat>): (r: Option<nat>)
    ensures count == 0 <==> r.None?
    ensures r.Some? ==> r.value < count
    ensures count > 0 && selected.None? ==> r == Some(count - 1)
    ensures count > 0 && selected.Some? && 0 < selected.value <= count ==> r == Some(selected.value - 1)
    ensures count > 0 && selected == Some(0) ==> r == Some(count - 1)
  {
    if count == 0 then None
    else
      var index := if selected.Some? then selected.value else 0;
      Some((index - 1) % count)
  }

  /** Next and previous undo each other on every valid selection. */
  lemma NextPreviousInverse(count: nat, i: nat)
    requires i < count
    ensures ShowPrevious(count, ShowNext(count, Some(i))) == Some(i)
    ensures ShowNext(count, ShowPrevious(count, Some(i))) == Some(i)
  {
  }

  /** Pressing next `k` times from a selection `i`. */
  function NextTimes(count: nat, i: nat, k: nat): (r: nat)
    requires i < count
    ensures r < count
  {
    if k == 0 then i else ShowNext(count, Some(NextTimes(count, i, k - 1))).value
  }

  /** Pressing next `k` times advances the selection by `k` modulo the list length, so `count`
      presses come back to the starting label. */
  lemma {:induction false} NextTimesWraps(count: nat, i: nat, k: nat)
    requires i < count
    ensures NextTimes(count, i, k) == (i + k) % count
  {
    if k > 0 {
      NextTimesWraps(count, i, k - 1);
      var j := (i + k - 1) % count;
      assert (j + 1) % count == (i + k) % count by {
        ModAddOne(i + k - 1, count);
      }
    }
  }

  /** `((a % n) + 1) % n == (a + 1) % n`. */
  lemma ModAddOne(a: nat, n: nat)
    requires n > 0
    ensures (a % n + 1) % n == (a + 1) % n
  {
    if a % n + 1 == n {
      Arith.DivModUnique(a + 1, n, a / n + 1, 0);
    } else {
      Arith.DivModUnique(a + 1, n, a / n, a % n + 1);
    }
  }
}
