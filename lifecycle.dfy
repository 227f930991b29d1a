// Deferred shutdown hooks (lifecycle/lifecycle.go). A `LifeCycle` queues
// functions with `Defer` and runs them, last deferred first, with
// `Resolve`; `Setup` derives a cancellable context once and `Shutdown`
// cancels it and allows `Setup` again. A deferred function is known by its
// identity (a `Hook`), and running it appends it to the `ran` log; a
// context is known by how it was derived. The mutex only serialises the
// calls and is not modelled.
module Lifecycle {
  import opened Outcomes

  /** A deferred function, by identity. */
  type Hook = nat

  /** A context: a root one, or one derived with `WithCancel` or with `NotifyContext` on SIGINT and SIGTERM. */
  datatype Context = Root(id: nat) | Cancellable(parent: Context) | OnSignal(parent: Context)

  /** `xs` from its last element to its first: the order `Resolve` runs a snapshot in. */
  function Reversed<T>(xs: seq<T>): (r: seq<T>)
    ensures |r| == |xs|
  {
    if xs == [] then [] else Reversed(xs[1..]) + [xs[0]]
  }

  /** The k-th function run is the k-th from the end of the queue. */
  lemma {:induction false} ReversedAt<T>(xs: seq<T>, k: nat)
    requires k < |xs|
    ensures Reversed(xs)[k] == xs[|xs| - 1 - k]
  {
    if k < |xs| - 1 {
      ReversedAt(xs[1..], k);
    }
  }

  /** Reversing one more element at the end puts it first. */
  lemma {:induction false} ReversedSnoc<T>(xs: seq<T>, x: T)
    ensures Reversed(xs + [x]) == [x] + Reversed(xs)
  {
    if xs != [] {
      assert (xs + [x])[1..] == xs[1..] + [x];
      ReversedSnoc(xs[1..], x);
    } else {
      assert [] + [x] == [x];
    }
  }

  /** Running the queue in reverse twice gives it back: nothing is lost, duplicated or reordered. */
  lemma {:induction false} ReversedInvolutive<T>(xs: seq<T>)
    ensures Reversed(Reversed(xs)) == xs
  {
    if xs != [] {
      ReversedInvolutive(xs[1..]);
      ReversedSnoc(Reversed(xs[1..]), xs[0]);
    }
  }

  /** Two batches queued one after the other run the second batch first. */
  lemma {:induction false} ReversedAppend<T>(xs: seq<T>, ys: seq<T>)
    ensures Reversed(xs + ys) == Reversed(ys) + Reversed(xs)
  {
    if xs == [] {
      assert xs + ys == ys;
    } else {
      assert (xs + ys)[1..] == xs[1..] + ys;
      ReversedAppend(xs[1..], ys);
    }
  }

  /** Every queued function runs exactly as often as it was queued. */
  lemma {:induction false} ReversedMultiset<T>(xs: seq<T>)
    ensures multiset(Reversed(xs)) == multiset(xs)
  {
    if xs != [] {
      ReversedMultiset(xs[1..]);
      assert xs == [xs[0]] + xs[1..];
    }
  }

  class LifeCycle {
    /** Whether `once` has fired since the last `Shutdown`. */
    var once: bool
    var funcs: seq<Hook>
    /** The contexts the `shutdown` and `halt` cancel functions cancel, when set. */
    var shutdown: Option<Context>
    var halt: Option<Context>
    /** The deferred functions run so far, in the order they ran. */
    var ran: seq<Hook>
    /** The contexts cancelled so far, in order. */
    var cancelled: seq<Context>

    /** `once` has fired exactly when both cancel functions are set, and `halt` cancels the child of `shutdown`'s context. */
    predicate Valid()
      reads this
    {
      && (once <==> shutdown.Some?)
      && (shutdown.Some? <==> halt.Some?)
      && (shutdown.Some? ==> halt.value == OnSignal(shutdown.value))
    }

    /** The zero `LifeCycle`. */
    constructor ()
      ensures Valid()
      ensures !once && funcs == [] && shutdown == None && halt == None && ran == [] && cancelled == []
    {
      once := false;
      funcs := [];
      shutdown := None;
      halt := None;
      ran := [];
      cancelled := [];
    }

    /** `Defer`: queue `fn`. */
    method Defer(fn: Hook)
      modifies this
      ensures funcs == old(funcs) + [fn]
      ensures ran == old(ran) && cancelled == old(cancelled)
      ensures once == old(once) && shutdown == old(shutdown) && halt == old(halt)
    {
      funcs := funcs + [fn];
    }

    /**
     * `Resolve`: take a snapshot of the queue, drop exactly the snapshot from
     * it, and run the snapshot from its last function to its first. A hook
     * runs as one step that does not call `Defer`; in Go the lock is released
     * before the hooks run, so a function a hook defers stays queued after
     * `Resolve` returns, where this contract says the queue is empty.
     */
    method Resolve()
      modifies this
      ensures funcs == []
      ensures ran == old(ran) + Reversed(old(funcs))
      ensures cancelled == old(cancelled)
      ensures once == old(once) && shutdown == old(shutdown) && halt == old(halt)
    {
      var fns := [] + funcs;
      funcs := funcs[|fns|..];
      var i := |fns|;
      while i > 0
        invariant 0 <= i <= |fns|
        invariant ran == old(ran) + Reversed(fns[i..])
        invariant funcs == [] && cancelled == old(cancelled)
        invariant once == old(once) && shutdown == old(shutdown) && halt == old(halt)
      {
        assert fns[i - 1..] == [fns[i - 1]] + fns[i..];
        assert fns[i - 1..][1..] == fns[i..];
        ran := ran + [fns[i - 1]];
        i := i - 1;
      }
      assert fns[0..] == fns;
    }

    /**
     * `Setup`: the first call since the last `Shutdown` derives a cancellable
     * context and from it one cancelled by SIGINT or SIGTERM, keeps both
     * cancel functions and returns the second; later calls return `ctx`.
     */
    method Setup(ctx: Context) returns (r: Context)
      requires Valid()
      modifies this
      ensures Valid() && once
      ensures !old(once) ==> r == OnSignal(Cancellable(ctx)) && shutdown == Some(Cancellable(ctx))
      ensures old(once) ==> r == ctx && shutdown == old(shutdown) && halt == old(halt)
      ensures funcs == old(funcs) && ran == old(ran) && cancelled == old(cancelled)
    {
      r := ctx;
      if !once {
        once := true;
        r := Cancellable(r);
        shutdown := Some(r);
        r := OnSignal(r);
        halt := Some(r);
      }
    }

    /**
     * `Shutdown`: when `Setup` has run, cancel both contexts, forget the
     * cancel functions and reset `once`; otherwise do nothing.
     */
    method Shutdown()
      requires Valid()
      modifies this
      ensures Valid() && !once && shutdown == None && halt == None
      ensures old(shutdown).Some? ==> cancelled == old(cancelled) + [old(shutdown).value, old(halt).value]
      ensures old(shutdown).None? ==> cancelled == old(cancelled)
      ensures funcs == old(funcs) && ran == old(ran)
    {
      if shutdown.Some? {
        cancelled := cancelled + [shutdown.value, halt.value];
        shutdown := None;
        halt := None;
        once := false;
      }
    }
  }

  /**
   * Two rounds of deferring three functions and resolving: each round runs
   * its own three, last first, and none runs twice.
   */
  method TwoRounds() returns (ran: seq<Hook>)
    ensures ran == [2, 1, 0, 5, 4, 3]
  {
    var lc := new LifeCycle();
    lc.Defer(0);
    lc.Defer(1);
    lc.Defer(2);
    lc.Resolve();
    assert [] + [0] + [1] + [2] == [0, 1, 2];
    assert Reversed([0, 1, 2]) == [2, 1, 0] by {
      assert [0, 1, 2][1..] == [1, 2];
      assert [1, 2][1..] == [2];
    }
    lc.Defer(3);
    lc.Defer(4);
    lc.Defer(5);
    lc.Resolve();
    assert [] + [3] + [4] + [5] == [3, 4, 5];
    assert Reversed([3, 4, 5]) == [5, 4, 3] by {
      assert [3, 4, 5][1..] == [4, 5];
      assert [4, 5][1..] == [5];
    }
    ran := lc.ran;
  }

  /** A `Shutdown` makes the next `Setup` derive fresh contexts again. */
  method SetupAgain(first: Context, second: Context) returns (a: Context, b: Context, c: Context)
    ensures a == OnSignal(Cancellable(first))
    ensures b == second
    ensures c == OnSignal(Cancellable(second))
  {
    var lc := new LifeCycle();
    a := lc.Setup(first);
    b := lc.Setup(second);
    lc.Shutdown();
    c := lc.Setup(second);
  }
}
