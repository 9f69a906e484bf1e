/** The toast list: showToast appends a toast whose id is the current
    millisecond clock, and three seconds later the timer removes every toast
    carrying that id. The clock reading is a parameter and the timer is an
    explicit Dismiss event. */
module Toasts {
  import Seqs

  /** 'success' | 'error' */
  datatype Kind = Success | Failure

  datatype Toast = Toast(id: int, message: string, kind: Kind)

  /** Appends one toast stamped with the clock reading now. */
  function Show(toasts: seq<Toast>, now: int, message: string, kind: Kind): (r: seq<Toast>)
    ensures |r| == |toasts| + 1
    ensures r[..|toasts|] == toasts
    ensures r[|toasts|] == Toast(now, message, kind)
  {
    toasts + [Toast(now, message, kind)]
  }

  /** The timer for id firing: every toast with that id goes, the rest stay in order. */
  function Dismiss(toasts: seq<Toast>, id: int): (r: seq<Toast>)
    ensures forall i :: 0 <= i < |r| ==> r[i] in toasts && r[i].id != id
    ensures forall i :: 0 <= i < |toasts| && toasts[i].id != id ==> toasts[i] in r
    ensures forall t :: multiset(r)[t] == if t.id != id then multiset(toasts)[t] else 0
    ensures Seqs.IsSubsequence(r, toasts)
  {
    Seqs.FilterIsSubsequence(toasts, (t: Toast) => t.id != id);
    Seqs.Filter(toasts, (t: Toast) => t.id != id)
  }

  /** Dismissing an id nobody carries changes nothing. */
  lemma DismissAbsent(toasts: seq<Toast>, id: int)
    requires forall i :: 0 <= i < |toasts| ==> toasts[i].id != id
    ensures Dismiss(toasts, id) == toasts
  {
    Seqs.FilterKeepsAll(toasts, (t: Toast) => t.id != id);
  }

  /** Showing a toast under a clock reading no shown toast carries, then
      dismissing it, restores the list. */
  lemma ShowThenDismiss(toasts: seq<Toast>, now: int, message: string, kind: Kind)
    requires forall i :: 0 <= i < |toasts| ==> toasts[i].id != now
    ensures Dismiss(Show(toasts, now, message, kind), now) == toasts
  {
    var keep := (t: Toast) => t.id != now;
    var added := Toast(now, message, kind);
    Seqs.FilterAppend(toasts, [added], keep);
    Seqs.FilterKeepsAll(toasts, keep);
    assert Seqs.Filter([added], keep) == [];
    assert toasts + [] == toasts;
  }

  /** Two toasts shown in the same millisecond share an id, so the first
      timer removes both. */
  lemma SameMillisecondToastsLeaveTogether(now: int, first: string, second: string, kind: Kind)
    ensures Dismiss(Show(Show([], now, first, kind), now, second, kind), now) == []
  {
  }
}
