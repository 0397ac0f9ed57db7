/** Round-robin assignment of files to worker queues, as done by
    `UploadMaster.initialize` (src/upload.ts:183-191): file `i` is pushed onto
    queue `i mod W`. */
module Partition {

  /** The queues after the first `|files|` files have been pushed. */
  function RoundRobin<T>(files: seq<T>, workers: nat): (queues: seq<seq<T>>)
    requires workers > 0
    ensures |queues| == workers
    decreases |files|
  {
    if |files| == 0 then EmptyQueues(workers)
    else
      var queues := RoundRobin(files[..|files| - 1], workers);
      var b := (|files| - 1) % workers;
      queues[b := queues[b] + [files[|files| - 1]]]
  }

  /** `workers` empty queues, as `Array.from({ length }, () => [])` makes them. */
  function EmptyQueues<T>(workers: nat): (queues: seq<seq<T>>)
    ensures |queues| == workers
    ensures forall k :: 0 <= k < workers ==> queues[k] == []
  {
    if workers == 0 then [] else EmptyQueues(workers - 1) + [[]]
  }

  /** All queues one after the other. */
  function Flatten<T>(queues: seq<seq<T>>): seq<T>
  {
    if |queues| == 0 then [] else queues[0] + Flatten(queues[1..])
  }

  lemma {:induction false} DivModUnique(n: int, w: int, q: int, r: int)
    requires w > 0 && n == q * w + r && 0 <= r < w
    ensures n / w == q && n % w == r
  {
    var q', r' := n / w, n % w;
    assert n == q' * w + r' && 0 <= r' < w;
    assert (q - q') * w == r' - r;
    if q' < q {
      MulAtLeast(q - q', w);
    } else if q < q' {
      MulAtLeast(q' - q, w);
    }
  }

  lemma {:induction false} MulAtLeast(a: int, w: int)
    requires a >= 1 && w > 0
    ensures a * w >= w
  {
    assert a * w == (a - 1) * w + w;
    assert (a - 1) * w >= 0;
  }

  /** How quotient and remainder by `w` move when the dividend grows by one. */
  lemma {:induction false} DivModNext(m: nat, w: nat)
    requires w > 0
    ensures (m + 1) % w == (if m % w + 1 < w then m % w + 1 else 0)
    ensures (m + 1) / w == (if m % w + 1 < w then m / w else m / w + 1)
  {
    var q, r := m / w, m % w;
    assert m == q * w + r;
    if r + 1 < w {
      DivModUnique(m + 1, w, q, r + 1);
    } else {
      assert m + 1 == (q + 1) * w + 0;
      DivModUnique(m + 1, w, q + 1, 0);
    }
  }

  /** Queue `q` holds `|files| / W` files, plus one for the first
      `|files| mod W` queues. */
  lemma {:induction false} RoundRobinLength<T>(files: seq<T>, w: nat, q: nat)
    requires q < w
    ensures |RoundRobin(files, w)[q]| == |files| / w + (if q < |files| % w then 1 else 0)
    decreases |files|
  {
    if |files| > 0 {
      var m := |files| - 1;
      RoundRobinLength(files[..m], w, q);
      DivModNext(m, w);
    }
  }

  /** The `j`-th entry of queue `q` is `files[q + j * W]`: each queue keeps
      the relative order of its files. */
  lemma {:induction false} RoundRobinEntry<T>(files: seq<T>, w: nat, q: nat, j: nat)
    requires q < w && j < |RoundRobin(files, w)[q]|
    ensures q + j * w < |files| && RoundRobin(files, w)[q][j] == files[q + j * w]
    decreases |files|
  {
    if |files| == 0 {
      assert false;
    }
    var m := |files| - 1;
    var queues := RoundRobin(files[..m], w);
    var b := m % w;
    var i := q + j * w;
    assert RoundRobin(files, w) == queues[b := queues[b] + [files[m]]];
    if q == b && j == |queues[b]| {
      RoundRobinLength(files[..m], w, b);
      LastSlot(m, w, q, j);
    } else {
      RoundRobinEntry(files[..m], w, q, j);
      assert files[..m][i] == files[i];
    }
  }

  /** The last file pushed, `m`, sits at entry `m / W` of queue `m mod W`. */
  lemma LastSlot(m: nat, w: nat, q: nat, j: nat)
    requires w > 0 && q == m % w && j == m / w
    ensures q + j * w == m
  {
  }

  /** Any two queues differ in length by at most one. */
  lemma RoundRobinBalanced<T>(files: seq<T>, w: nat, p: nat, q: nat)
    requires w > 0 && p < w && q < w
    ensures -1 <= |RoundRobin(files, w)[p]| - |RoundRobin(files, w)[q]| <= 1
  {
    RoundRobinLength(files, w, p);
    RoundRobinLength(files, w, q);
  }

  /** File `i` is the `(i / W)`-th entry of queue `i mod W`. */
  lemma RoundRobinPlacement<T>(files: seq<T>, w: nat, i: nat)
    requires w > 0 && i < |files|
    ensures i / w < |RoundRobin(files, w)[i % w]|
    ensures RoundRobin(files, w)[i % w][i / w] == files[i]
  {
    var q, j, n := i % w, i / w, |files|;
    QuotientBound(i, n, w, q, j);
    RoundRobinLength(files, w, q);
    EntryAt(files, w, q, j, i);
  }

  lemma EntryAt<T>(files: seq<T>, w: nat, q: nat, j: nat, i: nat)
    requires q < w && j < |RoundRobin(files, w)[q]| && i == q + j * w
    ensures i < |files| && RoundRobin(files, w)[q][j] == files[i]
  {
    RoundRobinEntry(files, w, q, j);
  }

  /** An index below `n` has a quotient below the length that
      `RoundRobinLength` gives its queue. */
  lemma {:induction false} QuotientBound(i: nat, n: nat, w: nat, q: nat, j: nat)
    requires w > 0 && i < n && q == i % w && j == i / w
    ensures i == q + j * w && q < w
    ensures j < n / w + (if q < n % w then 1 else 0)
  {
    var c, d := n / w, n % w;
    assert i == j * w + q && n == c * w + d;
    if j > c {
      MulAtLeast(j - c, w);
      assert false;
    } else if j == c {
      assert q < d;
    }
  }

  lemma {:induction false} FlattenPush<T>(queues: seq<seq<T>>, b: nat, x: T)
    requires b < |queues|
    ensures multiset(Flatten(queues[b := queues[b] + [x]])) == multiset(Flatten(queues)) + multiset{x}
    decreases |queues|
  {
    var pushed := queues[b := queues[b] + [x]];
    if b == 0 {
      assert pushed[1..] == queues[1..];
    } else {
      assert pushed[1..] == queues[1..][b - 1 := queues[1..][b - 1] + [x]];
      FlattenPush(queues[1..], b - 1, x);
    }
  }

  lemma {:induction false} FlattenEmpty<T>(queues: seq<seq<T>>)
    requires forall k :: 0 <= k < |queues| ==> queues[k] == []
    ensures Flatten(queues) == []
    decreases |queues|
  {
    if |queues| > 0 {
      FlattenEmpty(queues[1..]);
    }
  }

  /** Every file lands in exactly one queue: together the queues hold exactly
      the input files, so their lengths add up to `|files|`. */
  lemma {:induction false} RoundRobinIsPermutation<T>(files: seq<T>, w: nat)
    requires w > 0
    ensures multiset(Flatten(RoundRobin(files, w))) == multiset(files)
    ensures |Flatten(RoundRobin(files, w))| == |files|
    decreases |files|
  {
    if |files| == 0 {
      FlattenEmpty(RoundRobin(files, w));
    } else {
      var m := |files| - 1;
      RoundRobinIsPermutation(files[..m], w);
      FlattenPush(RoundRobin(files[..m], w), m % w, files[m]);
      assert files == files[..m] + [files[m]];
    }
    assert |multiset(Flatten(RoundRobin(files, w)))| == |multiset(files)|;
  }
}
