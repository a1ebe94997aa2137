/** The Option datatype used wherever the PHP source returns a value or `null`. */
module Wrappers {

  datatype Option<+T> = None | Some(value: T) {

    /** The value, or `default` when there is none (PHP's `?? $default`). */
    function GetOr(default: T): T {
      match this
      case Some(v) => v
      case None => default
    }
  }

  /** `f` applied to every element, in order: what a `foreach` computing one outcome per element sees. */
  function Map<A, B>(xs: seq<A>, f: A -> B): (r: seq<B>)
    ensures |r| == |xs| && forall i :: 0 <= i < |xs| ==> r[i] == f(xs[i])
  {
    seq(|xs|, i requires 0 <= i < |xs| => f(xs[i]))
  }

  /** Mapping a list with a head is mapping the head, then the tail. */
  lemma {:induction false} MapCons<A, B>(x: A, xs: seq<A>, f: A -> B)
    ensures Map([x] + xs, f) == [f(x)] + Map(xs, f)
  {
    var r := Map([x] + xs, f);
    assert r[0] == f(x);
    forall k | 0 <= k < |xs| ensures r[k + 1] == f(xs[k]) {
      assert ([x] + xs)[k + 1] == xs[k];
    }
  }

  /** Mapping a list with a last element is mapping the front, then that element. */
  lemma {:induction false} MapSnoc<A, B>(xs: seq<A>, x: A, f: A -> B)
    ensures Map(xs + [x], f) == Map(xs, f) + [f(x)]
  {
    var r := Map(xs + [x], f);
    assert r[|xs|] == f(x);
    forall k | 0 <= k < |xs| ensures r[k] == f(xs[k]) {
      assert (xs + [x])[k] == xs[k];
    }
  }

  /** The lists `g` gives for the elements of `xs`, one after the other: what a `foreach` appending to one result sees. */
  function Flatten<A, B>(xs: seq<A>, g: A -> seq<B>): seq<B> {
    if xs == [] then [] else Flatten(xs[..|xs| - 1], g) + g(xs[|xs| - 1])
  }

  /** A value is in the flattened list exactly when it is in the list of one of the elements. */
  lemma {:induction false} FlattenMembers<A, B>(xs: seq<A>, g: A -> seq<B>, y: B)
    ensures y in Flatten(xs, g) <==> exists x :: x in xs && y in g(x)
    decreases |xs|
  {
    if xs != [] {
      var init := xs[..|xs| - 1];
      FlattenMembers(init, g, y);
      assert xs == init + [xs[|xs| - 1]];
    }
  }

  /**
   * The first present value of a list of outcomes: what a loop that
   * returns on its first hit yields.
   */
  function FirstSome<T>(xs: seq<Option<T>>): Option<T>
  {
    if xs == [] then None
    else if xs[0].Some? then xs[0]
    else FirstSome(xs[1..])
  }

  /** `FirstSome` is absent exactly when every value is. */
  lemma {:induction false} FirstSomeNone<T>(xs: seq<Option<T>>)
    ensures FirstSome(xs).None? <==> forall i :: 0 <= i < |xs| ==> xs[i].None?
    decreases |xs|
  {
    if xs != [] && xs[0].None? {
      FirstSomeNone(xs[1..]);
      assert forall i :: 1 <= i < |xs| ==> xs[i] == xs[1..][i - 1];
    }
  }

  /** `FirstSome` is the earliest present value. */
  lemma {:induction false} FirstSomeEarliest<T>(xs: seq<Option<T>>)
    requires FirstSome(xs).Some?
    ensures exists i :: 0 <= i < |xs| && xs[i] == FirstSome(xs) && forall j :: 0 <= j < i ==> xs[j].None?
    decreases |xs|
  {
    if xs[0].None? {
      FirstSomeEarliest(xs[1..]);
      var i :| 0 <= i < |xs[1..]| && xs[1..][i] == FirstSome(xs[1..]) && forall j :: 0 <= j < i ==> xs[1..][j].None?;
      assert xs[i + 1] == FirstSome(xs);
      forall j | 0 <= j < i + 1 ensures xs[j].None? {
        if j > 0 {
          assert xs[j] == xs[1..][j - 1];
        }
      }
    } else {
      assert xs[0] == FirstSome(xs);
    }
  }

  /** A search over two stretches finds the first stretch's hit if it has one. */
  lemma {:induction false} FirstSomeAppend<T>(xs: seq<Option<T>>, ys: seq<Option<T>>)
    ensures FirstSome(xs + ys) == if FirstSome(xs).Some? then FirstSome(xs) else FirstSome(ys)
    decreases |xs|
  {
    if xs == [] {
      assert xs + ys == ys;
    } else {
      assert (xs + ys)[0] == xs[0] && (xs + ys)[1..] == xs[1..] + ys;
      FirstSomeAppend(xs[1..], ys);
    }
  }

  /** One more outcome after a stretch without a hit is the first hit exactly when it is present. */
  lemma {:induction false} FirstSomeSnoc<T>(xs: seq<Option<T>>, y: Option<T>)
    ensures FirstSome(xs + [y]) == if FirstSome(xs).Some? then FirstSome(xs) else y
  {
    FirstSomeAppend(xs, [y]);
    assert [y][1..] == [];
  }

  /** A hit in a prefix is the hit of the whole list. */
  lemma {:induction false} FirstSomePrefix<T>(xs: seq<Option<T>>, k: nat)
    requires k <= |xs| && FirstSome(xs[..k]).Some?
    ensures FirstSome(xs) == FirstSome(xs[..k])
  {
    assert xs == xs[..k] + xs[k..];
    FirstSomeAppend(xs[..k], xs[k..]);
  }

  /**
   * The last present value of a list of outcomes: what a loop that
   * overwrites a variable on every hit leaves behind.
   */
  function LastSome<T>(xs: seq<Option<T>>): Option<T>
  {
    if xs == [] then None
    else if xs[|xs| - 1].Some? then xs[|xs| - 1]
    else LastSome(xs[..|xs| - 1])
  }

  /** A later present outcome overrides every earlier one. */
  lemma {:induction false} LastSomeSnoc<T>(xs: seq<Option<T>>, y: Option<T>)
    ensures LastSome(xs + [y]) == if y.Some? then y else LastSome(xs)
  {
    assert (xs + [y])[..|xs|] == xs;
  }

  /** `LastSome` is absent exactly when every value is. */
  lemma {:induction false} LastSomeNone<T>(xs: seq<Option<T>>)
    ensures LastSome(xs).None? <==> forall i :: 0 <= i < |xs| ==> xs[i].None?
    decreases |xs|
  {
    if xs != [] && xs[|xs| - 1].None? {
      var init := xs[..|xs| - 1];
      LastSomeNone(init);
      assert forall i :: 0 <= i < |init| ==> xs[i] == init[i];
    }
  }

  /** `LastSome` is the latest present value. */
  lemma {:induction false} LastSomeLatest<T>(xs: seq<Option<T>>)
    requires LastSome(xs).Some?
    ensures exists i :: 0 <= i < |xs| && xs[i] == LastSome(xs) && forall j :: i < j < |xs| ==> xs[j].None?
    decreases |xs|
  {
    var n := |xs| - 1;
    if xs[n].None? {
      var init := xs[..n];
      LastSomeLatest(init);
      var i :| 0 <= i < |init| && init[i] == LastSome(init) && forall j :: i < j < |init| ==> init[j].None?;
      assert xs[i] == LastSome(xs);
      forall j | i < j < |xs| ensures xs[j].None? {
        if j < n {
          assert xs[j] == init[j];
        }
      }
    } else {
      assert xs[n] == LastSome(xs);
    }
  }
}
