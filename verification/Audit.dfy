/** The bounded ring of audit entries. */
module Audit {
  import opened Arith

  datatype Outcome = Executed | Failed | DryRunReturned | Refused

  datatype Entry = Entry(
    time: int, tool: string, risk: int, role: string, session: string, remoteAddr: string,
    outcome: Outcome, inputHash: string)

  function Min(a: int, b: int): int {
    if a < b then a else b
  }

  /** The slot of the k-th entry in a ring of m */
  function Slot(k: nat, m: nat): (r: nat)
    requires m > 0
    ensures r < m
  {
    k % m
  }

  lemma SlotNext(n: nat, m: nat)
    requires m > 0
    ensures Slot(Slot(n, m) + 1, m) == Slot(n + 1, m)
    ensures n < m ==> Slot(n, m) == n
    ensures n + 1 == m ==> Slot(n + 1, m) == 0
    ensures n + 1 < m ==> Slot(n + 1, m) == n + 1
  {
    ModSucc(n, m);
    ModSucc(n % m, m);
    ModSmall(n % m, m);
    if n < m { ModSmall(n, m); }
  }

  lemma SlotDistinct(a: nat, b: nat, m: nat)
    requires a < b < a + m
    ensures Slot(a, m) != Slot(b, m)
  {
    ModDistinct(a, b, m);
  }

  /** Reading back n <= m slots from the write position lands on the slots of
      the last n entries. */
  lemma SlotBack(total: nat, n: nat, i: nat, m: nat)
    requires i < n <= m && n <= total
    ensures Slot(Slot(total, m) - n + i + m, m) == Slot(total - n + i, m)
  {
    ModBack(total, n - i, m);
    assert total % m + m - (n - i) == total % m - n + i + m;
  }

  class Ring {
    const buf: array<Entry>
    var next: nat
    var full: bool
    ghost var log: seq<Entry>   // every entry ever added

    ghost predicate Valid()
      reads this, buf
    {
      && buf.Length > 0
      && next == Slot(|log|, buf.Length)
      && (full <==> |log| >= buf.Length)
      && forall k | 0 <= k < |log| && |log| - buf.Length <= k :: buf[Slot(k, buf.Length)] == log[k]
    }

    constructor (size: nat)
      requires size > 0
      ensures Valid() && fresh(buf) && buf.Length == size && log == []
    {
      buf := new Entry[size];
      next := 0;
      full := false;
      log := [];
    }

    method Add(e: Entry)
      requires Valid()
      modifies this, buf
      ensures Valid() && log == old(log) + [e]
    {
      hide Slot;
      var size := buf.Length;
      SlotNext(|log|, size);
      forall k | 0 <= k < |log| && |log| + 1 - size <= k ensures Slot(k, size) != next {
        SlotDistinct(k, |log|, size);
      }
      buf[next] := e;
      next := Slot(next + 1, size);
      if next == 0 {
        full := true;
      }
      log := log + [e];
    }

    /** The newest min(n, capacity, total) entries, oldest first; every entry
        held when n <= 0. */
    method Recent(n: int) returns (out: seq<Entry>)
      requires Valid()
      ensures var held := Min(buf.Length, |log|);
              var count := if n <= 0 then held else Min(n, held);
              out == log[|log| - count..]
    {
      hide Slot, Valid;
      var size := buf.Length;
      Held();
      var count := next;
      if full {
        count := size;
      }
      var m := n;
      if n <= 0 || n > count {
        m := count;
      }
      out := [];
      var start := next - m;
      for i := 0 to m
        invariant |out| == i && forall k | 0 <= k < i :: out[k] == log[|log| - m + k]
      {
        EntryAt(m, i);
        var idx := Slot(start + i + size, size);
        out := out + [buf[idx]];
      }
    }

    lemma Held()
      requires Valid()
      ensures buf.Length > 0 && (if full then buf.Length else next) == Min(buf.Length, |log|)
    {
      SlotNext(|log|, buf.Length);
    }

    lemma EntryAt(m: nat, i: nat)
      requires Valid() && i < m <= Min(buf.Length, |log|)
      ensures next - m + i + buf.Length >= 0
      ensures buf[Slot(next - m + i + buf.Length, buf.Length)] == log[|log| - m + i]
    {
      SlotBack(|log|, m, i, buf.Length);
    }
  }
}
