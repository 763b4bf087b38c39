/**
 * The history kept by one register, as a value: a flat sequence of stored
 * strings and a parallel sequence of yank-batch sizes, least recent first.
 * The class `Store.Register` keeps exactly these two sequences and is
 * specified by the functions here.
 */
module RegisterHistory {
  import opened Wrappers

  /** A register keeps up to this many yanks before discarding the oldest. */
  const MAX_REGISTER_HISTORY_LEN: nat := 100

  datatype History = History(values: seq<string>, lengths: seq<nat>)

  /** A register as `Default` builds it: no values, no batches. */
  const Empty := History([], [])

  function Sum(ls: seq<nat>): nat {
    if ls == [] then 0 else ls[0] + Sum(ls[1..])
  }

  lemma {:induction false} SumConcat(a: seq<nat>, b: seq<nat>)
    ensures Sum(a + b) == Sum(a) + Sum(b)
  {
    if a != [] {
      assert (a + b)[1..] == a[1..] + b;
      SumConcat(a[1..], b);
    } else {
      assert a + b == b;
    }
  }

  /** Representation invariant: every batch is non-empty and the batch sizes add up to the stored values. */
  predicate Valid(h: History) {
    (forall i | 0 <= i < |h.lengths| :: h.lengths[i] >= 1) && Sum(h.lengths) == |h.values|
  }

  /** `Register::values`: the last `lengths.back()` values (none when there is no batch). */
  function Newest(h: History): (r: seq<string>)
    ensures |r| <= |h.values|
  {
    var n := if h.lengths == [] then 0 else h.lengths[|h.lengths| - 1];
    if n <= |h.values| then h.values[|h.values| - n..] else h.values
  }

  /** `Register::latest_value`: the last stored value. */
  function Latest(h: History): (r: Option<string>)
    ensures r.None? <==> h.values == []
    ensures r.Some? ==> r.value == h.values[|h.values| - 1]
  {
    if h.values == [] then None else Some(h.values[|h.values| - 1])
  }

  /** Size of the batch `Written` drops first: the oldest, when more than the maximum are kept. */
  function Evicted(h: History): (n: nat)
    requires Valid(h)
    ensures n <= |h.values|
  {
    if |h.lengths| > MAX_REGISTER_HISTORY_LEN then h.lengths[0] else 0
  }

  /**
   * `Register::write`: discard the oldest batch when more than
   * MAX_REGISTER_HISTORY_LEN batches are kept, then append `vs` as a new batch.
   * An empty `vs` is the `expect` failure of the source, hence the requires.
   */
  function Written(h: History, vs: seq<string>): History
    requires Valid(h) && |vs| > 0
  {
    var kept := if |h.lengths| > MAX_REGISTER_HISTORY_LEN
      then History(h.values[h.lengths[0]..], h.lengths[1..])
      else h;
    History(kept.values + vs, kept.lengths + [|vs|])
  }

  /**
   * After `write`, `values()` shows exactly `vs` and the latest value is the
   * last of them; the stored values lose exactly the evicted oldest batch;
   * the batch count grows by one unless a batch was evicted, so it never
   * exceeds MAX_REGISTER_HISTORY_LEN + 1 when it did not before.
   */
  lemma WrittenResult(h: History, vs: seq<string>)
    requires Valid(h) && |vs| > 0
    ensures Newest(Written(h, vs)) == vs
    ensures Latest(Written(h, vs)) == Some(vs[|vs| - 1])
    ensures Written(h, vs).values == h.values[Evicted(h)..] + vs
    ensures |Written(h, vs).lengths| == if |h.lengths| > MAX_REGISTER_HISTORY_LEN then |h.lengths| else |h.lengths| + 1
    ensures |h.lengths| <= MAX_REGISTER_HISTORY_LEN + 1 ==> |Written(h, vs).lengths| <= MAX_REGISTER_HISTORY_LEN + 1
  {
  }

  /** `Register::push`: `v` joins the newest batch, or starts the first one. */
  function Pushed(h: History, v: string): (r: History)
    ensures |r.values| == |h.values| + 1 && |r.lengths| >= 1
  {
    if h.lengths == [] then History(h.values + [v], [1])
    else
      var n := |h.lengths|;
      History(h.values + [v], h.lengths[..n - 1] + [h.lengths[n - 1] + 1])
  }

  /**
   * After `push`, `v` is the latest value and the last stored one; the batch
   * count stays the same, except that the first batch is created when there
   * was none.
   */
  lemma PushedResult(h: History, v: string)
    ensures Latest(Pushed(h, v)) == Some(v)
    ensures Pushed(h, v).values == h.values + [v]
    ensures |Pushed(h, v).lengths| == if h.lengths == [] then 1 else |h.lengths|
  {
  }

  /** Cuts `values` into consecutive batches of the given sizes. */
  function Split(values: seq<string>, lengths: seq<nat>): (bs: seq<seq<string>>)
    requires Sum(lengths) == |values|
    ensures |bs| == |lengths|
    decreases lengths
  {
    if lengths == [] then []
    else [values[..lengths[0]]] + Split(values[lengths[0]..], lengths[1..])
  }

  function Flatten(bs: seq<seq<string>>): seq<string> {
    if bs == [] then [] else bs[0] + Flatten(bs[1..])
  }

  /** The yank batches of a register, least recent first. */
  function Batches(h: History): seq<seq<string>>
    requires Valid(h)
  {
    Split(h.values, h.lengths)
  }

  /** Splitting a concatenation splits each part on its own sizes. */
  lemma {:induction false} SplitConcat(a: seq<string>, la: seq<nat>, b: seq<string>, lb: seq<nat>)
    requires Sum(la) == |a| && Sum(lb) == |b|
    ensures Sum(la + lb) == |a + b|
    ensures Split(a + b, la + lb) == Split(a, la) + Split(b, lb)
  {
    SumConcat(la, lb);
    if la == [] {
      assert a == [] && a + b == b && la + lb == lb;
    } else {
      var k := la[0];
      assert (la + lb)[0] == k && (la + lb)[1..] == la[1..] + lb;
      assert (a + b)[..k] == a[..k];
      assert (a + b)[k..] == a[k..] + b;
      SplitConcat(a[k..], la[1..], b, lb);
    }
  }

  /** The batches hold exactly the stored values, in order, and batch `i` has `lengths[i]` values. */
  lemma {:induction false} SplitShape(values: seq<string>, lengths: seq<nat>)
    requires Sum(lengths) == |values|
    ensures Flatten(Split(values, lengths)) == values
    ensures forall i | 0 <= i < |lengths| :: |Split(values, lengths)[i]| == lengths[i]
  {
    if lengths != [] {
      var k := lengths[0];
      SplitShape(values[k..], lengths[1..]);
      var bs := Split(values, lengths);
      assert bs[1..] == Split(values[k..], lengths[1..]);
      assert values == values[..k] + values[k..];
    }
  }

  /** Every batch of a valid register is non-empty, and the batches flatten back to the stored values. */
  lemma BatchesShape(h: History)
    requires Valid(h)
    ensures Flatten(Batches(h)) == h.values
    ensures forall b | b in Batches(h) :: |b| >= 1
  {
    SplitShape(h.values, h.lengths);
    forall b | b in Batches(h) ensures |b| >= 1 {
      var i :| 0 <= i < |Batches(h)| && Batches(h)[i] == b;
    }
  }

  /** What `values()` shows is the newest batch, or nothing when there is no batch. */
  lemma NewestIsLastBatch(h: History)
    requires Valid(h)
    ensures Batches(h) == [] ==> Newest(h) == []
    ensures Batches(h) != [] ==> Newest(h) == Batches(h)[|Batches(h)| - 1]
  {
    var n := |h.lengths|;
    if n > 0 {
      var la, lb := h.lengths[..n - 1], [h.lengths[n - 1]];
      assert h.lengths == la + lb;
      SumConcat(la, lb);
      var cut := Sum(la);
      var a, b := h.values[..cut], h.values[cut..];
      assert Sum(lb) == h.lengths[n - 1];
      assert h.values == a + b;
      SplitConcat(a, la, b, lb);
      assert Split(b, lb) == [b[..lb[0]]] + Split(b[lb[0]..], []);
      assert b[..lb[0]] == b;
    }
  }

  /** `write` keeps the representation invariant. */
  lemma WrittenValid(h: History, vs: seq<string>)
    requires Valid(h) && |vs| > 0
    ensures Valid(Written(h, vs))
  {
    var kept := if |h.lengths| > MAX_REGISTER_HISTORY_LEN
      then History(h.values[h.lengths[0]..], h.lengths[1..])
      else h;
    SumConcat(kept.lengths, [|vs|]);
  }

  /**
   * `write` discards exactly the oldest batch when more than the maximum are
   * kept, leaves every other batch as it was and adds `vs` as the newest.
   */
  lemma WrittenBatches(h: History, vs: seq<string>)
    requires Valid(h) && |vs| > 0
    ensures Valid(Written(h, vs))
    ensures |h.lengths| > MAX_REGISTER_HISTORY_LEN ==> h.values[..Evicted(h)] == Batches(h)[0]
    ensures Batches(Written(h, vs)) ==
      (if |h.lengths| > MAX_REGISTER_HISTORY_LEN then Batches(h)[1..] else Batches(h)) + [vs]
  {
    WrittenValid(h, vs);
    var kept := if |h.lengths| > MAX_REGISTER_HISTORY_LEN
      then History(h.values[h.lengths[0]..], h.lengths[1..])
      else h;
    assert Sum(kept.lengths) == |kept.values|;
    SplitConcat(kept.values, kept.lengths, vs, [|vs|]);
    assert Split(vs, [|vs|]) == [vs[..|vs|]] + Split(vs[|vs|..], []);
    assert vs[..|vs|] == vs;
  }

  /** `push` keeps the representation invariant. */
  lemma PushedValid(h: History, v: string)
    requires Valid(h)
    ensures Valid(Pushed(h, v))
  {
    var n := |h.lengths|;
    if n > 0 {
      assert h.lengths == h.lengths[..n - 1] + [h.lengths[n - 1]];
      SumConcat(h.lengths[..n - 1], [h.lengths[n - 1]]);
      SumConcat(h.lengths[..n - 1], [h.lengths[n - 1] + 1]);
    }
  }

  /** Cutting off the last batch: the final `|b|` values form the last batch. */
  lemma SplitLast(a: seq<string>, la: seq<nat>, b: seq<string>)
    requires Sum(la) == |a|
    ensures Sum(la + [|b|]) == |a + b|
    ensures Split(a + b, la + [|b|]) == Split(a, la) + [b]
  {
    assert Sum([|b|]) == |b|;
    SplitConcat(a, la, b, [|b|]);
    assert Split(b, [|b|]) == [b[..|b|]] + Split(b[|b|..], []);
    assert b[..|b|] == b;
  }

  /**
   * `push` appends `v` to the newest batch (or makes `[v]` the only batch)
   * and leaves every earlier batch as it was.
   */
  lemma PushedBatches(h: History, v: string)
    requires Valid(h)
    ensures Valid(Pushed(h, v))
    ensures var bs := Batches(h);
      Batches(Pushed(h, v)) == if bs == [] then [[v]] else bs[..|bs| - 1] + [bs[|bs| - 1] + [v]]
  {
    PushedValid(h, v);
    var n := |h.lengths|;
    if n == 0 {
      assert h.values == [];
      SplitLast([], [], [v]);
      assert [] + [v] == [v];
    } else {
      var la, last := h.lengths[..n - 1], h.lengths[n - 1];
      assert h.lengths == la + [last];
      SumConcat(la, [last]);
      var cut := Sum(la);
      var a, b := h.values[..cut], h.values[cut..];
      assert h.values == a + b;
      SplitLast(a, la, b);
      SplitLast(a, la, b + [v]);
      assert h.values + [v] == a + (b + [v]);
      assert Pushed(h, v).lengths == la + [|b + [v]|];
      var bs := Split(a, la) + [b];
      assert bs[..|bs| - 1] == Split(a, la);
    }
  }

  /** What `values()` shows after `push` is what it showed before, followed by `v`. */
  lemma PushedNewest(h: History, v: string)
    requires Valid(h)
    ensures Newest(Pushed(h, v)) == Newest(h) + [v]
  {
    PushedBatches(h, v);
    NewestIsLastBatch(h);
    NewestIsLastBatch(Pushed(h, v));
  }
}
