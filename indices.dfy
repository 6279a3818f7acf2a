/**
 * Index bounds and "exactly one active element" flags, shared by the
 * carousel (cards and indicator dots) and the section navigator (nav links).
 */
module Indices {

  /** A stored index for a list of `count` elements: inside the list, or the
      initial 0 when the list is empty. */
  predicate InRange(i: int, count: nat) {
    0 <= i && (i < count || i == 0)
  }

  /** The result of toggling the `active` class with `index === k` over a
      list of elements: exactly the element at position k is flagged. */
  predicate MarksExactly(flags: seq<bool>, k: int) {
    forall i :: 0 <= i < |flags| ==> flags[i] == (i == k)
  }

  /** Number of flagged elements. */
  function CountActive(flags: seq<bool>): nat {
    if flags == [] then 0 else (if flags[0] then 1 else 0) + CountActive(flags[1..])
  }

  /** A list toggled by `index === k` has exactly one active element when k
      is a position of the list, and none otherwise. */
  lemma {:induction false} MarkedCount(flags: seq<bool>, k: int)
    requires MarksExactly(flags, k)
    ensures CountActive(flags) == if 0 <= k < |flags| then 1 else 0
  {
    if flags != [] {
      var rest := flags[1..];
      assert MarksExactly(rest, k - 1) by {
        forall i | 0 <= i < |rest| ensures rest[i] == (i == k - 1) {
          assert rest[i] == flags[i + 1];
        }
      }
      MarkedCount(rest, k - 1);
    }
  }

  /** Conversely, a list with one active element at k is the one toggled by k. */
  lemma {:induction false} SingleActiveIsMarked(flags: seq<bool>, k: int)
    requires 0 <= k < |flags| && flags[k] && CountActive(flags) == 1
    ensures MarksExactly(flags, k)
  {
    if k == 0 {
      assert flags[0];
      NoneActive(flags[1..]);
      forall i | 1 <= i < |flags| ensures !flags[i] {
        assert flags[i] == flags[1..][i - 1];
      }
    } else {
      if flags[0] {
        NoneActive(flags[1..]);
        assert false;
      }
      assert flags[1..][k - 1] == flags[k];
      SingleActiveIsMarked(flags[1..], k - 1);
      forall i | 1 <= i < |flags| ensures flags[i] == (i == k) {
        assert flags[i] == flags[1..][i - 1];
      }
    }
  }

  /** A list with no active element has every flag off. */
  lemma {:induction false} NoneActive(flags: seq<bool>)
    requires CountActive(flags) == 0
    ensures forall i :: 0 <= i < |flags| ==> !flags[i]
  {
    if flags != [] {
      NoneActive(flags[1..]);
      forall i | 1 <= i < |flags| ensures !flags[i] {
        assert flags[i] == flags[1..][i - 1];
      }
    }
  }
}
