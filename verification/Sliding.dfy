/** Which samples make up the k-th window of a stream: windows of a fixed size that advance by a step
    not larger than the size. */
module Sliding {

  /** A stride at least as large as the window just starts over after each window. */
  function StepOf(size: nat, stride: nat): nat {
    if stride < size then stride else size
  }

  /** Where the k-th window starts. */
  function At(k: nat, step: nat): nat {
    k * step
  }

  lemma AtNext(k: nat, step: nat)
    ensures At(k + 1, step) == At(k, step) + step
  {
  }

  lemma AtMonotone(a: nat, b: nat, step: nat)
    requires a <= b
    ensures At(a, step) <= At(b, step)
  {
  }

  /** How many windows n samples complete. */
  function Completed(n: nat, size: nat, step: nat): nat
    requires 0 < step <= size
  {
    if n < size then 0 else (n - size) / step + 1
  }

  /** c windows fit into n samples, and no more. */
  predicate Fit(n: nat, size: nat, step: nat, c: nat) {
    (c > 0 ==> At(c - 1, step) + size <= n) && n < At(c, step) + size
  }

  lemma CompletedFit(n: nat, size: nat, step: nat)
    requires 0 < step <= size
    ensures Fit(n, size, step, Completed(n, size, step))
  {
    if n >= size {
      var q, r := (n - size) / step, (n - size) % step;
      assert n - size == At(q, step) + r;
      AtNext(q, step);
    }
  }

  lemma FitUnique(n: nat, size: nat, step: nat, c: nat, d: nat)
    requires 0 < step <= size && Fit(n, size, step, c) && Fit(n, size, step, d)
    ensures c == d
  {
    hide At;
    if c < d {
      AtMonotone(c, d - 1, step);
    } else if d < c {
      AtMonotone(d, c - 1, step);
    }
  }

  /** The next sample completes a window exactly when the samples not yet shifted out fill one. */
  lemma CompletedStep(n: nat, size: nat, step: nat)
    requires 0 < step <= size
    ensures
      var c := Completed(n, size, step);
      && At(c, step) <= n < At(c, step) + size
      && Completed(n + 1, size, step) == if n + 1 == At(c, step) + size then c + 1 else c
  {
    var c := Completed(n, size, step);
    CompletedFit(n, size, step);
    CompletedFit(n + 1, size, step);
    AtStart(step);
    hide Completed, At;
    if c > 0 {
      AtNext(c - 1, step);
    }
    AtNext(c, step);
    FitUnique(n + 1, size, step, if n + 1 == At(c, step) + size then c + 1 else c, Completed(n + 1, size, step));
  }

  lemma AtStart(step: nat)
    ensures At(0, step) == 0
  {
  }

  function WindowAt<T>(stream: seq<T>, k: nat, size: nat, step: nat): (w: seq<T>)
    requires At(k, step) + size <= |stream|
    ensures |w| == size
  {
    stream[At(k, step)..At(k, step) + size]
  }

  lemma WindowFits(n: nat, size: nat, step: nat, k: nat)
    requires 0 < step <= size && k < Completed(n, size, step)
    ensures At(k, step) + size <= n
  {
    CompletedFit(n, size, step);
    AtMonotone(k, Completed(n, size, step) - 1, step);
  }

  /** Neighbouring windows share all but one step of their samples. */
  lemma WindowsOverlap<T>(stream: seq<T>, size: nat, step: nat, k: nat)
    requires 0 < step <= size && k + 1 < Completed(|stream|, size, step)
    ensures At(k, step) + size <= |stream| && At(k + 1, step) + size <= |stream|
    ensures WindowAt(stream, k, size, step)[step..] == WindowAt(stream, k + 1, size, step)[..size - step]
  {
    WindowFits(|stream|, size, step, k);
    WindowFits(|stream|, size, step, k + 1);
    AtNext(k, step);
    hide At;
  }

  /** The first c windows one after the other, when none overlap. */
  function Tiles<T>(stream: seq<T>, size: nat, c: nat): seq<T>
    requires At(c, size) <= |stream|
  {
    if c == 0 then [] else
      AtNext(c - 1, size);
      Tiles(stream, size, c - 1) + WindowAt(stream, c - 1, size, size)
  }

  lemma {:induction false} WindowsTile<T>(stream: seq<T>, size: nat, c: nat)
    requires At(c, size) <= |stream|
    ensures Tiles(stream, size, c) == stream[..At(c, size)]
  {
    AtStart(size);
    if c > 0 {
      AtNext(c - 1, size);
      hide At;
      WindowsTile(stream, size, c - 1);
    }
  }

  /** With a stride of at least the size, the completed windows tile the stream. */
  lemma TilesAll<T>(stream: seq<T>, size: nat)
    requires 0 < size
    ensures
      var c := Completed(|stream|, size, size);
      At(c, size) <= |stream| < At(c, size) + size && Tiles(stream, size, c) == stream[..At(c, size)]
  {
    CompletedStep(|stream|, size, size);
    WindowsTile(stream, size, Completed(|stream|, size, size));
  }
}
