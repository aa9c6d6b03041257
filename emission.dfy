/** What one emitter produces: the bytes it wrote to the stream, and whether
    it then stopped on a fatal error.  `log_error` ends the whole export, so
    output written before it stays in the stream and nothing after it is
    written. */
module Emit {
  import opened Bytes

  /** The fatal conditions of the backend. */
  datatype Error =
    | UnmappedCharacter(c: char)           // `maplu`: no cipher code for `c`
    | NeitherInputNorOutput(name: string)  // a connection, wire or port with no direction

  datatype Result<T> = Ok(value: T) | Err(error: Error)

  datatype Outcome = Done | Fatal(error: Error)

  datatype Emission = Emission(bytes: seq<byte>, outcome: Outcome) {

    /** Runs `next` after this one, unless this one stopped the export. */
    function Then(next: Emission): (r: Emission)
      ensures outcome.Fatal? ==> r == this
      ensures outcome.Done? ==> r.bytes == bytes + next.bytes && r.outcome == next.outcome
    {
      if outcome.Fatal? then this else Emission(bytes + next.bytes, next.outcome)
    }
  }

  /** What has been written stays at the front of the stream. */
  lemma ThenKeeps(a: Emission, b: Emission)
    ensures |a.Then(b).bytes| >= |a.bytes| && a.Then(b).bytes[..|a.bytes|] == a.bytes
  {
  }

  /** What two more emitters leave of the first one's output: it stays at
      the front, and when the first one stopped the export they add
      nothing. */
  lemma ThenThenKeeps(a: Emission, b: Emission, c: Emission)
    ensures |a.Then(b).Then(c).bytes| >= |a.bytes| && a.Then(b).Then(c).bytes[..|a.bytes|] == a.bytes
    ensures a.outcome.Fatal? ==> a.Then(b).Then(c) == a
  {
    ThenKeeps(a, b);
    ThenKeeps(a.Then(b), c);
    PrefixOfPrefix(a.Then(b).Then(c).bytes, a.Then(b).bytes, |a.bytes|);
  }

  /** A prefix of a prefix. */
  lemma PrefixOfPrefix(s: seq<byte>, t: seq<byte>, n: nat)
    requires |t| <= |s| && s[..|t|] == t && n <= |t|
    ensures s[..n] == t[..n]
  {
    assert forall i :: 0 <= i < n ==> s[i] == s[..|t|][i];
  }

  /** Appending to a stream is associative; stated once so that proofs about
      a stream written step by step need not re-derive it. */
  lemma AppendAssoc(a: seq<byte>, b: seq<byte>, c: seq<byte>)
    ensures (a + b) + c == a + (b + c)
  {
  }

  /** Writing `a`, then `b`, to a stream that holds `pre`. */
  lemma ThenAppend(pre: seq<byte>, a: Emission, b: Emission)
    requires a.outcome == Done
    ensures pre + a.Then(b).bytes == (pre + a.bytes) + b.bytes && a.Then(b).outcome == b.outcome
  {
    AppendAssoc(pre, a.bytes, b.bytes);
  }

  /** Writes `b` and carries on. */
  function Write(b: seq<byte>): Emission
  {
    Emission(b, Done)
  }

  /** Emitting `f(x)` for every `x` of `xs` in order, stopping at the first
      fatal error. */
  function ConcatMap<T>(xs: seq<T>, f: T -> Emission): Emission
  {
    if xs == [] then Write([]) else ConcatMap(xs[..|xs| - 1], f).Then(f(xs[|xs| - 1]))
  }

  function Sum<T>(xs: seq<T>, size: T -> nat): nat
  {
    if xs == [] then 0 else Sum(xs[..|xs| - 1], size) + size(xs[|xs| - 1])
  }

  lemma ThenAssociative(a: Emission, b: Emission, c: Emission)
    ensures a.Then(b).Then(c) == a.Then(b.Then(c))
  {
  }

  /** One more element: the step a loop over `xs` takes. */
  lemma ConcatMapSnoc<T>(xs: seq<T>, x: T, f: T -> Emission)
    ensures ConcatMap(xs + [x], f) == ConcatMap(xs, f).Then(f(x))
  {
    assert (xs + [x])[..|xs|] == xs;
  }

  /** Emitting `xs + ys` is emitting `xs`, then `ys`. */
  lemma {:induction false} ConcatMapAppend<T>(xs: seq<T>, ys: seq<T>, f: T -> Emission)
    ensures ConcatMap(xs + ys, f) == ConcatMap(xs, f).Then(ConcatMap(ys, f))
  {
    if ys == [] {
      assert xs + ys == xs;
    } else {
      var ys' := ys[..|ys| - 1];
      var y := ys[|ys| - 1];
      assert ys == ys' + [y];
      assert xs + ys == (xs + ys') + [y];
      ConcatMapSnoc(xs + ys', y, f);
      ConcatMapAppend(xs, ys', f);
      ConcatMapSnoc(ys', y, f);
      ThenAssociative(ConcatMap(xs, f), ConcatMap(ys', f), f(y));
    }
  }

  /** The export stops exactly at the first element whose emission is fatal:
      everything before it and that element's own partial output are
      written, nothing after it. */
  lemma {:induction false} ConcatMapStopsAt<T>(xs: seq<T>, k: nat, f: T -> Emission)
    requires k < |xs|
    requires forall j :: 0 <= j < k ==> f(xs[j]).outcome == Done
    requires f(xs[k]).outcome.Fatal?
    ensures ConcatMap(xs, f).outcome == f(xs[k]).outcome
    ensures ConcatMap(xs, f).bytes == ConcatMap(xs[..k], f).bytes + f(xs[k]).bytes
  {
    ConcatMapAllDone(xs[..k], f);
    assert xs == xs[..k] + [xs[k]] + xs[k + 1..];
    ConcatMapAppend(xs[..k] + [xs[k]], xs[k + 1..], f);
    ConcatMapSnoc(xs[..k], xs[k], f);
  }

  /** The emission of a sequence is fatal exactly when one element's is. */
  lemma {:induction false} ConcatMapAllDone<T>(xs: seq<T>, f: T -> Emission)
    ensures ConcatMap(xs, f).outcome == Done <==> forall j :: 0 <= j < |xs| ==> f(xs[j]).outcome == Done
  {
    if xs != [] {
      var xs' := xs[..|xs| - 1];
      ConcatMapAllDone(xs', f);
      assert forall j :: 0 <= j < |xs'| ==> xs'[j] == xs[j];
    }
  }

  /** When every element that fails fails with `o`, so does the sequence. */
  lemma {:induction false} ConcatMapFatalWith<T>(xs: seq<T>, f: T -> Emission, o: Outcome)
    requires forall x :: x in xs ==> f(x).outcome.Fatal? ==> f(x).outcome == o
    ensures ConcatMap(xs, f).outcome.Fatal? ==> ConcatMap(xs, f).outcome == o
  {
    if xs != [] {
      var init := xs[..|xs| - 1];
      assert forall x :: x in init ==> x in xs;
      ConcatMapFatalWith(init, f, o);
    }
  }

  /** When nothing fails, the output is as long as its parts together. */
  lemma {:induction false} ConcatMapLength<T>(xs: seq<T>, f: T -> Emission, size: T -> nat)
    requires forall x :: x in xs ==> f(x).outcome == Done && |f(x).bytes| == size(x)
    ensures ConcatMap(xs, f).outcome == Done
    ensures |ConcatMap(xs, f).bytes| == Sum(xs, size)
  {
    if xs != [] {
      ConcatMapLength(xs[..|xs| - 1], f, size);
    }
  }

  /** Sizes add up element by element. */
  lemma {:induction false} SumPlus<T>(xs: seq<T>, f: T -> nat, g: T -> nat, h: T -> nat)
    requires forall x :: x in xs ==> h(x) == f(x) + g(x)
    ensures Sum(xs, h) == Sum(xs, f) + Sum(xs, g)
  {
    if xs != [] {
      SumPlus(xs[..|xs| - 1], f, g, h);
    }
  }

  /** Once the export has stopped, further elements add nothing. */
  lemma {:induction false} ConcatMapFatalPrefix<T>(xs: seq<T>, ys: seq<T>, f: T -> Emission)
    requires ConcatMap(xs, f).outcome.Fatal?
    ensures ConcatMap(xs + ys, f) == ConcatMap(xs, f)
  {
    ConcatMapAppend(xs, ys, f);
  }

  /** A loop's step: the first `k + 1` elements are the first `k` and then
      element `k`. */
  lemma ConcatMapStep<T>(xs: seq<T>, k: nat, f: T -> Emission)
    requires k < |xs|
    ensures ConcatMap(xs[..k + 1], f) == ConcatMap(xs[..k], f).Then(f(xs[k]))
  {
    ConcatMapSnoc(xs[..k], xs[k], f);
    assert xs[..k] + [xs[k]] == xs[..k + 1];
  }

  /** A loop that stops at a fatal error after `k` elements has emitted the
      whole sequence. */
  lemma ConcatMapStopped<T>(xs: seq<T>, k: nat, f: T -> Emission)
    requires k <= |xs|
    requires ConcatMap(xs[..k], f).outcome.Fatal?
    ensures ConcatMap(xs, f) == ConcatMap(xs[..k], f)
  {
    ConcatMapFatalPrefix(xs[..k], xs[k..], f);
    assert xs[..k] + xs[k..] == xs;
  }

  /** What a loop that emits `xs` one element at a time into a stream that
      held `pre` knows after emitting element `n`: the stream holds the
      emission of the first `n + 1` elements, and if that one was fatal, of
      the whole sequence. */
  lemma ConcatMapLoopStep<T>(pre: seq<byte>, xs: seq<T>, n: nat, f: T -> Emission, cur: seq<byte>, o: Outcome)
    requires n < |xs|
    requires ConcatMap(xs[..n], f).outcome == Done
    requires cur == (pre + ConcatMap(xs[..n], f).bytes) + f(xs[n]).bytes
    requires o == f(xs[n]).outcome
    ensures cur == pre + ConcatMap(xs[..n + 1], f).bytes && o == ConcatMap(xs[..n + 1], f).outcome
    ensures o.Fatal? ==> cur == pre + ConcatMap(xs, f).bytes && o == ConcatMap(xs, f).outcome
  {
    ConcatMapStep(xs, n, f);
    ThenAppend(pre, ConcatMap(xs[..n], f), f(xs[n]));
    if o.Fatal? {
      ConcatMapStopped(xs, n + 1, f);
    }
  }

}
