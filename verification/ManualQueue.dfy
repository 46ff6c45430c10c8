/** MANUAL_Q: a ring buffer used as a first-in first-out queue. */
module ManualQueue {

  const Q_LEN: nat := 1000000

  /** What a push leaves of `s` when the ring is full or over-full: `op` joins at the end, and also
      takes every place that shares its cell, the one a whole ring earlier first of all. */
  function Overwritten<T>(s: seq<T>, op: T): (r: seq<T>)
    ensures |r| == |s| + 1
    ensures |s| >= Q_LEN ==> r[|s|] == r[|s| - Q_LEN] == op
  {
    seq(|s| + 1, i requires 0 <= i <= |s| => if (|s| - i) % Q_LEN == 0 then op else s[i])
  }

  /** `n` elements of a ring from place `h` on, around the end as often as it takes. */
  function Ring<T>(cells: seq<T>, h: nat, n: nat): (s: seq<T>)
    requires |cells| == Q_LEN
    ensures |s| == n
  {
    seq(n, i requires 0 <= i < n => cells[(h + i) % Q_LEN])
  }

  lemma RingPop<T>(cells: seq<T>, h: nat, n: nat)
    requires |cells| == Q_LEN && n > 0
    ensures Ring(cells, (h + 1) % Q_LEN, n - 1) == Ring(cells, h, n)[1..]
  {
    forall i | 0 <= i < n - 1 ensures Ring(cells, (h + 1) % Q_LEN, n - 1)[i] == Ring(cells, h, n)[1..][i] {
      AroundFirst(h, i);
    }
  }

  lemma RingPush<T>(cells: seq<T>, h: nat, n: nat, op: T)
    requires |cells| == Q_LEN
    ensures Ring(cells[(h + n) % Q_LEN := op], h, n + 1) == Overwritten(Ring(cells, h, n), op)
  {
    forall i | 0 <= i <= n
      ensures Ring(cells[(h + n) % Q_LEN := op], h, n + 1)[i] == Overwritten(Ring(cells, h, n), op)[i]
    {
      SamePlace(h, i, n);
    }
  }

  lemma NotFull<T>(s: seq<T>, op: T)
    requires |s| < Q_LEN
    ensures Overwritten(s, op) == s + [op]
  {
  }

  class Queue<T(0)> {
    var head: nat
    var tail: nat
    var counter: nat
    const q: array<T>
    var isEmpty: bool

    /** `tail` is where the next element goes: `counter` places behind `head`, around the ring. */
    ghost predicate Valid()
      reads this
    {
      && q.Length == Q_LEN && head < Q_LEN
      && tail == (head + counter) % Q_LEN && isEmpty == (counter == 0)
    }

    ghost function Contents(): (s: seq<T>)
      requires Valid()
      reads this, q
      ensures |s| == counter
    {
      Ring(q[..], head, counter)
    }

    constructor ()
      ensures Valid() && Contents() == [] && fresh(q)
    {
      q := new T[Q_LEN];
      head, tail, counter, isEmpty := 0, 0, 0, true;
    }

    method Clear()
      requires Valid()
      modifies this
      ensures Valid() && Contents() == []
    {
      head, tail, counter, isEmpty := 0, 0, 0, true;
    }

    method Pop()
      requires Valid()
      modifies this
      ensures Valid() && Contents() == if old(counter) == 0 then [] else old(Contents())[1..]
    {
      if counter == 0 {
        return;
      }
      RingPop(q[..], head, counter);
      head := head + 1;
      head := head % Q_LEN;
      counter := counter - 1;
      if counter == 0 { isEmpty := true; }
    }

    method Front() returns (x: T)
      requires Valid()
      ensures counter > 0 ==> x == Contents()[0]
    {
      x := q[head];
    }

    /** First in, first out as long as the ring is not full; nothing stops a push on a full
        ring, which then loses the oldest element. */
    method Push(op: T)
      requires Valid()
      modifies this, q
      ensures Valid()
      ensures old(counter) < Q_LEN ==> Contents() == old(Contents()) + [op]
      ensures old(counter) >= Q_LEN ==> Contents() == Overwritten(old(Contents()), op)
    {
      RingPush(q[..], head, counter, op);
      if counter < Q_LEN { NotFull(Contents(), op); }
      Around(head, counter);
      q[tail] := op;
      counter := counter + 1;
      if isEmpty { isEmpty := false; }
      tail := tail + 1;
      tail := tail % Q_LEN;
    }

    method Empty() returns (e: bool)
      requires Valid()
      ensures e <==> Contents() == []
    {
      e := isEmpty;
    }
  }

  lemma Around(h: nat, n: nat)
    ensures ((h + n) % Q_LEN + 1) % Q_LEN == (h + n + 1) % Q_LEN
  {
  }

  lemma AroundFirst(h: nat, i: nat)
    ensures ((h + 1) % Q_LEN + i) % Q_LEN == (h + 1 + i) % Q_LEN
  {
  }

  /** Two positions share a cell exactly when they are whole rings apart. */
  lemma SamePlace(h: nat, i: nat, j: nat)
    requires i <= j
    ensures (h + i) % Q_LEN == (h + j) % Q_LEN <==> (j - i) % Q_LEN == 0
  {
  }
}
