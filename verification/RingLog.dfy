/** The in-memory access log (internal/server/logbuf.go): a circular buffer that refines the whole history. */
module RingLog {

  const DEFAULT_CAPACITY := 500

  function Min(a: int, b: int): int {
    if a < b then a else b
  }

  /** The newest `n` entries of a history, newest first. */
  function Newest<T>(history: seq<T>, n: nat): (out: seq<T>)
    requires n <= |history|
    ensures |out| == n
  {
    seq(n, i requires 0 <= i < n => history[|history| - 1 - i])
  }

  /** Slots hold the tail of the history, each entry at its number modulo the capacity. */
  ghost predicate HoldsTail<T>(slots: seq<T>, history: seq<T>) {
    && |slots| > 0
    && forall j :: 0 <= j < |history| && |history| - |slots| <= j ==> slots[j % |slots|] == history[j]
  }

  lemma {:induction false} AddKeepsTheTail<T>(slots: seq<T>, history: seq<T>, e: T)
    requires HoldsTail(slots, history)
    ensures HoldsTail(slots[|history| % |slots| := e], history + [e])
  {
    var after, longer := slots[|history| % |slots| := e], history + [e];
    forall j | 0 <= j < |longer| && |longer| - |after| <= j ensures after[j % |after|] == longer[j] {
      if j < |history| {
        SlotsDiffer(j, |history|, |slots|);
      }
    }
  }

  class RingLog<T(0)> {
    var buf: array<T>
    var next: nat
    var full: bool
    ghost var history: seq<T>

    ghost predicate Valid()
      reads this, buf
    {
      && buf.Length > 0
      && next == |history| % buf.Length
      && (full <==> |history| >= buf.Length)
      && HoldsTail(buf[..], history)
    }

    constructor (capacity: int)
      ensures Valid() && fresh(buf) && history == []
      ensures buf.Length == if capacity <= 0 then 500 else capacity
    {
      var size := if capacity <= 0 then DEFAULT_CAPACITY else capacity;
      buf := new T[size];
      next, full, history := 0, false, [];
    }

    method Add(e: T)
      requires Valid()
      modifies this, buf
      ensures Valid() && buf == old(buf) && history == old(history) + [e]
    {
      NextSlot(|history|, buf.Length);
      AddKeepsTheTail(buf[..], history, e);
      ghost var slots := buf[..];
      buf[next] := e;
      assert buf[..] == slots[next := e];
      next := (next + 1) % buf.Length;
      if next == 0 {
        full := true;
      }
      history := history + [e];
    }

    /** The newest entries of the whole history, newest first, cut to the capacity and to a positive limit. */
    method Recent(limit: int) returns (out: seq<T>)
      requires Valid()
      ensures var held := Min(|history|, buf.Length);
              out == Newest(history, if limit <= 0 then held else Min(limit, held))
    {
      var n := next;
      if full {
        n := buf.Length;
      } else {
        SmallMod(|history|, buf.Length);
      }
      var take := if limit <= 0 || limit > n then n else limit;
      out := [];
      for i := 0 to take
        invariant out == Newest(history, i)
      {
        var idx := (next - 1 - i + buf.Length) % buf.Length;
        BackwardSlot(|history|, i, buf.Length);
        out := out + [buf[idx]];
      }
    }
  }

  lemma SmallMod(a: nat, n: nat)
    requires a < n
    ensures a % n == a
  {
  }

  /** Adding one wraps to 0 exactly at multiples of the capacity, which are first reached at the capacity. */
  lemma {:induction false} NextSlot(a: nat, n: nat)
    requires n > 0
    ensures (a % n + 1) % n == (a + 1) % n
    ensures a < n ==> ((a % n + 1) % n == 0 <==> a + 1 == n)
  {
    ModShift(a, 1, n);
    if a < n {
      SmallMod(a, n);
      if a + 1 < n { SmallMod(a + 1, n); }
    }
  }

  lemma {:induction false} ModShift(a: int, b: int, n: nat)
    requires n > 0
    ensures (a % n + b) % n == (a + b) % n
  {
    var q := a / n;
    assert a == q * n + a % n;
    ModAddMultiple(a % n + b, q, n);
    assert a % n + b + q * n == a + b;
  }

  lemma {:induction false} ModAddMultiple(x: int, q: int, n: nat)
    requires n > 0
    ensures (x + q * n) % n == x % n
    decreases if q < 0 then -q else q
  {
    if q > 0 {
      ModAddMultiple(x, q - 1, n);
      ModAddOne(x + (q - 1) * n, n);
      assert x + (q - 1) * n + n == x + q * n;
    } else if q < 0 {
      ModAddMultiple(x, q + 1, n);
      ModAddOne(x + q * n, n);
      assert x + q * n + n == x + (q + 1) * n;
    }
  }

  lemma {:induction false} ModAddOne(x: int, n: nat)
    requires n > 0
    ensures (x + n) % n == x % n
  {
    var q, r := x / n, x % n;
    assert x + n == (q + 1) * n + r;
    Unique(x + n, q + 1, r, n);
  }

  lemma {:induction false} Unique(x: int, q: int, r: nat, n: nat)
    requires n > 0 && x == q * n + r && r < n
    ensures x % n == r
  {
    var q', r' := x / n, x % n;
    assert (q - q') * n == r' - r;
    if q > q' {
      assert (q - q') * n >= n by { MulAtLeast(q - q', n); }
    } else if q < q' {
      assert (q' - q) * n >= n by { MulAtLeast(q' - q, n); }
    }
  }

  lemma MulAtLeast(k: int, n: nat)
    requires k >= 1
    ensures k * n >= n
  {
  }

  /** Entries less than a capacity apart sit in different slots. */
  lemma {:induction false} SlotsDiffer(i: nat, j: nat, n: nat)
    requires n > 0 && i < j < i + n
    ensures i % n != j % n
  {
    var r, d := i % n, j - i;
    ModShift(i, d, n);
    if r + d < n {
      SmallMod(r + d, n);
    } else {
      ModAddOne(r + d - n, n);
      SmallMod(r + d - n, n);
    }
  }

  /** Walking back `i` from the next slot lands on the entry `i` before the newest. */
  lemma {:induction false} BackwardSlot(len: nat, i: nat, n: nat)
    requires n > 0 && i < n && i < len
    ensures 0 <= len % n - 1 - i + n
    ensures (len % n - 1 - i + n) % n == (len - 1 - i) % n
  {
    ModAddOne(len % n - 1 - i, n);
    ModShift(len, -1 - i, n);
  }
}
