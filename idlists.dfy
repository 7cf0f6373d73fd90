/**
 * The MongoDB array update operators the template routes apply to a user's
 * template-id lists: `$addToSet`, `$pull`, and `$push` with
 * `$each: [id]`, `$position: 0`, `$slice: 5` (prepend, keep the first five).
 */
module IdLists {
  import opened Schema

  /** The number of entries `$slice` keeps in `recents`. */
  const RecentsCap: nat := 5

  /** No entry occurs twice. */
  predicate NoDup(xs: seq<Id>)
  {
    forall i, j :: 0 <= i < j < |xs| ==> xs[i] != xs[j]
  }

  /** `$addToSet`: appends `x` unless it is already present. */
  function AddToSet(xs: seq<Id>, x: Id): (r: seq<Id>)
    ensures forall y :: y in r <==> y in xs || y == x
    ensures |xs| <= |r| && r[..|xs|] == xs
    ensures NoDup(xs) ==> NoDup(r)
    ensures x in xs ==> r == xs
  {
    if x in xs then xs else xs + [x]
  }

  /** `$pull`: removes every occurrence of `x`, keeping the order of the rest. */
  function Pull(xs: seq<Id>, x: Id): (r: seq<Id>)
    ensures forall y :: y in r <==> y in xs && y != x
    ensures |r| <= |xs|
    ensures x !in xs ==> r == xs
    ensures NoDup(xs) ==> NoDup(r)
    ensures NoDup(xs) && x in xs ==> |r| == |xs| - 1
  {
    if xs == [] then []
    else if xs[0] == x then Pull(xs[1..], x)
    else
      var rest := Pull(xs[1..], x);
      assert NoDup(xs) ==> xs[0] !in xs[1..];
      [xs[0]] + rest
  }

  /** `$pull` loses exactly the copies of `x`: every other id keeps its count. */
  lemma {:induction false} PullMultiset(xs: seq<Id>, x: Id)
    ensures multiset(Pull(xs, x)) == multiset(xs)[x := 0]
    decreases |xs|
  {
    if xs != [] {
      assert xs == [xs[0]] + xs[1..];
      PullMultiset(xs[1..], x);
    }
  }

  /** `$push` with `$each: [x]`, `$position: 0` and `$slice: 5`. */
  function PushFront(xs: seq<Id>, x: Id): (r: seq<Id>)
    ensures |r| == if |xs| < RecentsCap then |xs| + 1 else RecentsCap
    ensures r[0] == x
    ensures forall i :: 0 < i < |r| ==> r[i] == xs[i - 1]
    ensures forall y :: y in r ==> y == x || y in xs
    ensures NoDup(xs) && x !in xs ==> NoDup(r)
  {
    var ys := [x] + xs;
    if |ys| <= RecentsCap then ys else ys[..RecentsCap]
  }

  /**
   * What an update does to `recents`: `$pull` the id, then push it to the
   * front keeping five. The id ends up first and only there, at most five
   * entries remain, nothing new appears, and no duplicate is introduced.
   */
  function Touch(xs: seq<Id>, x: Id): (r: seq<Id>)
    ensures 0 < |r| <= RecentsCap && r[0] == x
    ensures forall i :: 0 < i < |r| ==> r[i] != x
    ensures forall y :: y in r ==> y == x || y in xs
    ensures NoDup(xs) ==> NoDup(r)
  {
    var p := Pull(xs, x);
    var r := PushFront(p, x);
    assert forall i :: 0 < i < |r| ==> r[i] in p;
    r
  }

  /** Creating prepends a fresh id, which is the same as touching it. */
  lemma PushFrontFreshIsTouch(xs: seq<Id>, x: Id)
    requires x !in xs
    ensures PushFront(xs, x) == Touch(xs, x)
  {
  }

  // ---------------------------------------------------------------------
  // `recents` holds the most recently touched ids.
  // ---------------------------------------------------------------------

  /** Keeps the first occurrence of each entry. */
  function Dedup(xs: seq<Id>): (r: seq<Id>)
    ensures forall y :: y in r <==> y in xs
    ensures NoDup(r)
    decreases |xs|
  {
    if xs == [] then []
    else
      var rest := Dedup(Pull(xs[1..], xs[0]));
      assert xs[0] !in rest;
      [xs[0]] + rest
  }

  /** The entries of `xs`, last first. */
  function Reverse(xs: seq<Id>): (r: seq<Id>)
    ensures |r| == |xs|
    ensures forall i :: 0 <= i < |xs| ==> r[i] == xs[|xs| - 1 - i]
  {
    if xs == [] then [] else [xs[|xs| - 1]] + Reverse(xs[..|xs| - 1])
  }

  /** The first `n` entries, or all of them when there are fewer. */
  function Take(xs: seq<Id>, n: nat): seq<Id>
  {
    if |xs| <= n then xs else xs[..n]
  }

  /** The `recents` list after touching the ids of `history` in order, from an empty list. */
  function TouchAll(history: seq<Id>): seq<Id>
  {
    if history == [] then []
    else Touch(TouchAll(history[..|history| - 1]), history[|history| - 1])
  }

  /** The five most recently touched distinct ids, most recent first. */
  function MostRecent(history: seq<Id>): seq<Id>
  {
    Take(Dedup(Reverse(history)), RecentsCap)
  }

  lemma {:induction false} PullConcat(a: seq<Id>, b: seq<Id>, x: Id)
    ensures Pull(a + b, x) == Pull(a, x) + Pull(b, x)
    decreases |a|
  {
    if a != [] {
      assert (a + b)[1..] == a[1..] + b;
      PullConcat(a[1..], b, x);
    } else {
      assert a + b == b;
    }
  }

  lemma {:induction false} PullCommute(xs: seq<Id>, x: Id, y: Id)
    ensures Pull(Pull(xs, x), y) == Pull(Pull(xs, y), x)
    decreases |xs|
  {
    if xs != [] {
      PullCommute(xs[1..], x, y);
    }
  }

  lemma {:induction false} DedupPull(xs: seq<Id>, x: Id)
    ensures Dedup(Pull(xs, x)) == Pull(Dedup(xs), x)
    decreases |xs|
  {
    if xs != [] {
      var a, rest := xs[0], xs[1..];
      if a == x {
        assert Pull(xs, x) == Pull(rest, x);
        assert Dedup(xs) == [x] + Dedup(Pull(rest, x));
      } else {
        assert Pull(xs, x) == [a] + Pull(rest, x);
        assert Dedup(Pull(xs, x)) == [a] + Dedup(Pull(Pull(rest, x), a));
        assert Dedup(xs) == [a] + Dedup(Pull(rest, a));
        DedupPull(Pull(rest, a), x);
        PullCommute(rest, x, a);
      }
    }
  }

  /** Truncating a duplicate-free list and then pulling loses at most one more entry. */
  lemma TakePull(d: seq<Id>, x: Id)
    requires NoDup(d)
    ensures Take(Pull(Take(d, RecentsCap), x), RecentsCap - 1) == Take(Pull(d, x), RecentsCap - 1)
  {
    if |d| > RecentsCap {
      var a, b := d[..RecentsCap], d[RecentsCap..];
      assert d == a + b;
      PullConcat(a, b, x);
      assert NoDup(a);
    }
  }

  /** Pushing to the front keeps `x` and the first four entries of the rest. */
  lemma PushFrontTake(p: seq<Id>, x: Id)
    ensures PushFront(p, x) == [x] + Take(p, RecentsCap - 1)
  {
  }

  /**
   * After any sequence of touches starting from an empty list, `recents`
   * holds the distinct ids most recently touched, most recent first, at most
   * five of them.
   */
  lemma {:induction false} RecentsAreMostRecent(history: seq<Id>)
    ensures TouchAll(history) == MostRecent(history)
    decreases |history|
  {
    if history != [] {
      var h, x := history[..|history| - 1], history[|history| - 1];
      RecentsAreMostRecent(h);
      var r := Reverse(h);
      var d := Dedup(r);
      assert TouchAll(history) == PushFront(Pull(Take(d, RecentsCap), x), x);
      PushFrontTake(Pull(Take(d, RecentsCap), x), x);
      TakePull(d, x);
      assert TouchAll(history) == [x] + Take(Pull(d, x), RecentsCap - 1);
      assert Reverse(history) == [x] + r;
      assert ([x] + r)[1..] == r;
      assert Dedup([x] + r) == [x] + Dedup(Pull(r, x));
      DedupPull(r, x);
      assert Dedup(Reverse(history)) == [x] + Pull(d, x);
    }
  }
}
