/** Optional values, and the "keep the present ones" filter that the loaders use
    wherever the source skips a cell or a row with `continue`. */
module Base {

  /** A value that may be absent; `None` stands for a skipped or unparseable input. */
  datatype Option<+T> = None | Some(value: T)

  /** The present values of `xs`, in their original order. */
  function Present<T>(xs: seq<Option<T>>): seq<T>
    decreases |xs|
  {
    if |xs| == 0 then []
    else
      var front := Present(xs[..|xs| - 1]);
      match xs[|xs| - 1]
      case Some(v) => front + [v]
      case None => front
  }

  /** The number of present values is the number of positions holding one. */
  lemma {:induction false} PresentCount<T>(xs: seq<Option<T>>)
    ensures |Present(xs)| == |set i | 0 <= i < |xs| && xs[i].Some?|
    decreases |xs|
  {
    if |xs| > 0 {
      var n := |xs| - 1;
      var front := xs[..n];
      PresentCount(front);
      var sf := set i | 0 <= i < |front| && front[i].Some?;
      var s := set i | 0 <= i < |xs| && xs[i].Some?;
      if xs[n].Some? {
        assert s == sf + {n};
        assert n !in sf;
      } else {
        assert s == sf;
      }
    }
  }

  /** Filtering distributes over concatenation, so the filter keeps the order of
      its input: present values of an earlier part come first. */
  lemma {:induction false} PresentAppend<T>(a: seq<Option<T>>, b: seq<Option<T>>)
    ensures Present(a + b) == Present(a) + Present(b)
    decreases |b|
  {
    if |b| == 0 {
      assert a + b == a;
    } else {
      var n := |b| - 1;
      assert (a + b)[..|a + b| - 1] == a + b[..n];
      PresentAppend(a, b[..n]);
    }
  }

  /** A value is kept iff some position holds it. */
  lemma {:induction false} PresentMembers<T>(xs: seq<Option<T>>, v: T)
    ensures v in Present(xs) <==> exists i :: 0 <= i < |xs| && xs[i] == Some(v)
    decreases |xs|
  {
    if |xs| > 0 {
      var n := |xs| - 1;
      var front := xs[..n];
      PresentMembers(front, v);
      if v in Present(xs) && xs[n] != Some(v) {
        var i :| 0 <= i < |front| && front[i] == Some(v);
        assert xs[i] == Some(v);
      }
      if exists i :: 0 <= i < |xs| && xs[i] == Some(v) {
        var i :| 0 <= i < |xs| && xs[i] == Some(v);
        if i < n {
          assert front[i] == Some(v);
        }
      }
    }
  }

  /** `f` applied to each element of `xs`, in order. */
  function Map<A, B>(f: A -> B, xs: seq<A>): (ys: seq<B>)
    ensures |ys| == |xs|
    ensures forall i :: 0 <= i < |xs| ==> ys[i] == f(xs[i])
    decreases |xs|
  {
    if |xs| == 0 then []
    else
      var front := xs[..|xs| - 1];
      assert forall i :: 0 <= i < |front| ==> front[i] == xs[i];
      Map(f, front) + [f(xs[|xs| - 1])]
  }

  /** The sequences of `xss` one after another. */
  function Flatten<T(!new)>(xss: seq<seq<T>>): (r: seq<T>)
    ensures forall x :: x in r <==> exists i :: 0 <= i < |xss| && x in xss[i]
    decreases |xss|
  {
    if |xss| == 0 then []
    else
      var front := xss[..|xss| - 1];
      assert forall i :: 0 <= i < |front| ==> front[i] == xss[i];
      Flatten(front) + xss[|xss| - 1]
  }

  /** Concatenation is associative. */
  lemma ConcatAssoc<T>(a: seq<T>, b: seq<T>, c: seq<T>)
    ensures (a + b) + c == a + (b + c)
  {
  }

  /** Flattening distributes over concatenation. */
  lemma {:induction false} FlattenAppend<T(!new)>(a: seq<seq<T>>, b: seq<seq<T>>)
    ensures Flatten(a + b) == Flatten(a) + Flatten(b)
    decreases |b|
  {
    if |b| == 0 {
      assert a + b == a;
    } else {
      var n := |b| - 1;
      assert (a + b)[..|a + b| - 1] == a + b[..n];
      FlattenAppend(a, b[..n]);
    }
  }
}
