/** The optional value used wherever the source has `null`, `undefined`
    or a missing dictionary key, and the one list operation both parsers
    share. */
module Options {

  datatype Option<+T> = None | Some(value: T) {

    /** The JavaScript `??` operator: the value if present, else the default. */
    function GetOr(default: T): T {
      match this
      case Some(v) => v
      case None => default
    }
  }

  /** The values `f` gives for the elements of `xs`, in order, skipping the
      elements for which it gives nothing: a loop that pushes at most one
      item per element. */
  function FilterMap<A, B>(f: A -> Option<B>, xs: seq<A>): seq<B> {
    if xs == [] then []
    else FilterMap(f, xs[..|xs| - 1]) + match f(xs[|xs| - 1]) case Some(y) => [y] case None => []
  }

  /** Number of elements of `xs` for which `f` gives nothing. */
  function Dropped<A, B>(f: A -> Option<B>, xs: seq<A>): nat {
    if xs == [] then 0
    else Dropped(f, xs[..|xs| - 1]) + if f(xs[|xs| - 1]).None? then 1 else 0
  }

  /** The elements contribute independently and in order. */
  lemma {:induction false} FilterMapAppend<A, B>(f: A -> Option<B>, a: seq<A>, b: seq<A>)
    ensures FilterMap(f, a + b) == FilterMap(f, a) + FilterMap(f, b)
    decreases |b|
  {
    if b == [] {
      assert a + b == a;
    } else {
      var b' := b[..|b| - 1];
      assert (a + b)[..|a + b| - 1] == a + b';
      assert (a + b)[|a + b| - 1] == b[|b| - 1];
      FilterMapAppend(f, a, b');
    }
  }

  /** Every element for which `f` gives something yields exactly one item. */
  lemma {:induction false} FilterMapCount<A, B>(f: A -> Option<B>, xs: seq<A>)
    ensures |FilterMap(f, xs)| == |xs| - Dropped(f, xs)
    ensures Dropped(f, xs) <= |xs|
  {
    if xs != [] {
      FilterMapCount(f, xs[..|xs| - 1]);
    }
  }

  /** Every item comes from some element. */
  lemma {:induction false} FilterMapFrom<A, B>(f: A -> Option<B>, xs: seq<A>, k: nat)
    requires k < |FilterMap(f, xs)|
    ensures exists i :: 0 <= i < |xs| && f(xs[i]) == Some(FilterMap(f, xs)[k])
  {
    var init := xs[..|xs| - 1];
    if k < |FilterMap(f, init)| {
      FilterMapFrom(f, init, k);
      var i :| 0 <= i < |init| && f(init[i]) == Some(FilterMap(f, init)[k]);
      assert xs[i] == init[i];
    } else {
      assert f(xs[|xs| - 1]) == Some(FilterMap(f, xs)[k]);
    }
  }

  /** One more element contributes what `f` gives for it. */
  lemma FilterMapSnoc<A, B>(f: A -> Option<B>, xs: seq<A>, i: nat)
    requires i < |xs|
    ensures FilterMap(f, xs[..i + 1]) == FilterMap(f, xs[..i]) + match f(xs[i]) case Some(y) => [y] case None => []
  {
    assert xs[..i + 1][..i] == xs[..i];
  }

  /** The entries `f` gives for the elements of `xs`, gathered in a map in
      which a later element's entry replaces an earlier one with the same
      key: a loop that assigns at most one entry per element. */
  function Collect<A, K(==), V>(f: A -> Option<(K, V)>, xs: seq<A>): map<K, V> {
    if xs == [] then map[]
    else
      var m := Collect(f, xs[..|xs| - 1]);
      match f(xs[|xs| - 1])
      case Some(kv) => m[kv.0 := kv.1]
      case None => m
  }

  /** `f` gives an entry with key `k` for `x`. */
  predicate GivesKey<A, K(==), V>(f: A -> Option<(K, V)>, x: A, k: K) {
    f(x).Some? && f(x).value.0 == k
  }

  /** A key is in the map exactly when some element gives it, and then it
      holds the value the last such element gives. */
  lemma {:induction false} CollectLast<A, K, V>(f: A -> Option<(K, V)>, xs: seq<A>, k: K)
    ensures k in Collect(f, xs) <==> exists i :: 0 <= i < |xs| && GivesKey(f, xs[i], k)
    ensures k in Collect(f, xs) ==> exists i :: (0 <= i < |xs| && f(xs[i]) == Some((k, Collect(f, xs)[k]))
      && forall j :: i < j < |xs| ==> !GivesKey(f, xs[j], k))
  {
    if xs != [] {
      var init := xs[..|xs| - 1];
      CollectLast(f, init, k);
      if !GivesKey(f, xs[|xs| - 1], k) {
        if exists i :: 0 <= i < |xs| && GivesKey(f, xs[i], k) {
          var i :| 0 <= i < |xs| && GivesKey(f, xs[i], k);
          assert init[i] == xs[i];
        }
        if k in Collect(f, init) {
          var i :| 0 <= i < |init| && f(init[i]) == Some((k, Collect(f, init)[k]))
            && forall j :: i < j < |init| ==> !GivesKey(f, init[j], k);
          assert xs[i] == init[i];
          assert forall j :: i < j < |xs| - 1 ==> xs[j] == init[j];
        }
      }
    }
  }

  /** One more element adds the entry `f` gives for it. */
  lemma CollectSnoc<A, K, V>(f: A -> Option<(K, V)>, xs: seq<A>, i: nat)
    requires i < |xs|
    ensures Collect(f, xs[..i + 1]) == match f(xs[i]) case Some(kv) => Collect(f, xs[..i])[kv.0 := kv.1] case None => Collect(f, xs[..i])
  {
    assert xs[..i + 1][..i] == xs[..i];
  }
}
