/** The viewer's ring buffer of plot rows (`Ring` in `px4_multirotor_viewer.py`). */
module RingBuffer {

  function MinNat(a: nat, b: nat): nat { if a < b then a else b }

  /** The last rows, at most `cap` of them, oldest first. */
  function LastRows<T>(history: seq<T>, cap: nat): (r: seq<T>)
    ensures |r| == MinNat(|history|, cap)
  {
    history[|history| - MinNat(|history|, cap)..]
  }

  class Ring<T> {
    ghost var history: seq<T>  // every row pushed so far
    const cap: nat
    const buf: array<T>
    var idx: nat
    var n: nat

    ghost predicate Valid()
      reads this, buf
    {
      && 0 < cap == buf.Length && idx < cap && n == MinNat(|history|, cap)
      && (n < cap ==> idx == n && buf[..n] == history)
      && (n == cap ==> buf[idx..] + buf[..idx] == LastRows(history, cap))
    }

    constructor (cap: nat, fill: T)
      requires 0 < cap
      ensures Valid() && fresh(buf) && this.cap == cap && history == []
    {
      this.cap, idx, n, history := cap, 0, 0, [];
      buf := new T[cap](_ => fill);
    }

    method Push(row: T)
      requires Valid()
      modifies this, buf
      ensures Valid() && history == old(history) + [row]
    {
      ghost var s := buf[..];
      PushedRows(history, cap, row, LastRows(history, cap));
      WrapAround(idx, cap);
      RotatedPush(s, idx, row);
      buf[idx] := row;
      assert buf[..] == s[idx := row];
      history := history + [row];
      idx := (idx + 1) % cap;
      n := MinNat(n + 1, cap);
      assert buf[..n] == buf[..][..n] && buf[idx..] == buf[..][idx..] && buf[..idx] == buf[..][..idx];
    }

    /** Exactly the last rows, at most `cap` of them, in the order of the pushes. */
    method Get() returns (rows: seq<T>)
      requires Valid()
      ensures rows == LastRows(history, cap)
    {
      if n == 0 {
        rows := [];
      } else if n < cap {
        rows := buf[..n];
      } else {
        rows := buf[idx..] + buf[..idx];
      }
    }
  }

  /** Writing a row at the index and stepping past it drops the first of the rotated rows and appends the new one. */
  lemma RotatedPush<T>(s: seq<T>, idx: nat, row: T)
    requires idx < |s|
    ensures var t, next := s[idx := row], if idx + 1 == |s| then 0 else idx + 1;
            t[..idx + 1] == s[..idx] + [row] && t[next..] + t[..next] == (s[idx..] + s[..idx])[1..] + [row]
  {
  }

  lemma WrapAround(idx: nat, cap: nat)
    requires idx < cap
    ensures (idx + 1) % cap == if idx + 1 == cap then 0 else idx + 1
  {
  }

  lemma PushedRows<T>(history: seq<T>, cap: nat, row: T, was: seq<T>)
    requires 0 < cap && was == LastRows(history, cap)
    ensures LastRows(history + [row], cap) == (if |was| < cap then was else was[1..]) + [row]
  {
  }
}
