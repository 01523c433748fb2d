/** The calibration store (`KanalAbak` rows) as an immutable map from
    (channel id, height) to value, and the create-or-update write both loaders
    perform for every point. Keying the map by (channel, height) makes "at most
    one point per channel and height" hold by construction. */
module Calibration {

  /** (channel id, height). */
  type Key = (nat, real)

  type Store = map<Key, real>

  /** One point to write: `value` at `height` for the channel with id `channel`. */
  datatype Entry = Entry(channel: nat, height: real, value: real) {
    function Key(): Key {
      (channel, height)
    }
  }

  /** `get_or_create(kanal=…, yukseklik=…, defaults={'hacim': v})`, followed,
      when the row already existed, by overwriting its value and saving. */
  function Upsert(store: Store, e: Entry): (r: Store)
    ensures r.Keys == store.Keys + {e.Key()}
    ensures r[e.Key()] == e.value
    ensures forall k :: k in store && k != e.Key() ==> r[k] == store[k]
  {
    store[e.Key() := e.value]
  }

  /** A calibration point: a water height and the value measured there. */
  datatype Point = Point(height: real, value: real)

  /** The store entries for a channel's points, in order. */
  function Entries(channel: nat, pts: seq<Point>): (es: seq<Entry>)
    ensures |es| == |pts|
    ensures forall i :: 0 <= i < |pts| ==> es[i] == Entry(channel, pts[i].height, pts[i].value)
  {
    seq(|pts|, i requires 0 <= i < |pts| => Entry(channel, pts[i].height, pts[i].value))
  }

  lemma EntriesKeys(channel: nat, pts: seq<Point>)
    ensures KeysOf(Entries(channel, pts)) == (set p | p in pts :: (channel, p.height))
  {
    var es := Entries(channel, pts);
    forall k | k in KeysOf(es) ensures k in set p | p in pts :: (channel, p.height) {
      KeysOfMembers(es, k);
      var i :| 0 <= i < |es| && es[i].Key() == k;
      assert pts[i] in pts;
    }
    forall p | p in pts ensures (channel, p.height) in KeysOf(es) {
      var i :| 0 <= i < |pts| && pts[i] == p;
      assert es[i].Key() == (channel, p.height);
      KeysOfMembers(es, (channel, p.height));
    }
  }

  /** An entry is among a channel's entries iff it is for that channel and
      its height and value form one of the points. */
  lemma EntriesMembers(channel: nat, pts: seq<Point>, e: Entry)
    ensures e in Entries(channel, pts) <==> e.channel == channel && Point(e.height, e.value) in pts
  {
    var es := Entries(channel, pts);
    if e in es {
      var q :| 0 <= q < |es| && es[q] == e;
      assert pts[q] == Point(e.height, e.value);
    }
    if e.channel == channel && Point(e.height, e.value) in pts {
      var q :| 0 <= q < |pts| && pts[q] == Point(e.height, e.value);
      assert es[q] == e;
    }
  }

  /** The store after a run of upserts, with how many of them created a row
      and how many updated one. */
  datatype Applied = Applied(store: Store, created: nat, updated: nat)

  /** The keys the entries carry. */
  function KeysOf(es: seq<Entry>): set<Key>
    decreases |es|
  {
    if |es| == 0 then {} else KeysOf(es[..|es| - 1]) + {es[|es| - 1].Key()}
  }

  /** A key is among the entries' keys iff some entry carries it. */
  lemma {:induction false} KeysOfMembers(es: seq<Entry>, k: Key)
    ensures k in KeysOf(es) <==> exists i :: 0 <= i < |es| && es[i].Key() == k
    decreases |es|
  {
    if |es| > 0 {
      var n := |es| - 1;
      var front := es[..n];
      KeysOfMembers(front, k);
      if k in KeysOf(front) {
        var i :| 0 <= i < |front| && front[i].Key() == k;
        assert es[i].Key() == k;
      }
      if exists i :: 0 <= i < |es| && es[i].Key() == k {
        var i :| 0 <= i < |es| && es[i].Key() == k;
        if i < n {
          assert front[i].Key() == k;
        }
      }
    }
  }

  /** Upserts `es` in order. Every entry is counted once, as a create or as an
      update, and the keys afterwards are the old ones plus the entries'. */
  function ApplyAll(store: Store, es: seq<Entry>): (a: Applied)
    ensures a.created + a.updated == |es|
    ensures a.store.Keys == store.Keys + KeysOf(es)
    decreases |es|
  {
    if |es| == 0 then Applied(store, 0, 0)
    else
      var front := es[..|es| - 1];
      var e := es[|es| - 1];
      var prev := ApplyAll(store, front);
      assert KeysOf(es) == KeysOf(front) + {e.Key()} by {
        KeysOfSnoc(front, e);
        assert es == front + [e];
      }
      var next := Upsert(prev.store, e);
      if e.Key() in prev.store then Applied(next, prev.created, prev.updated + 1)
      else Applied(next, prev.created + 1, prev.updated)
  }

  lemma KeysOfSnoc(es: seq<Entry>, e: Entry)
    ensures KeysOf(es + [e]) == KeysOf(es) + {e.Key()}
  {
    assert (es + [e])[..|es|] == es;
  }

  /** The position of the last entry with key `k`, or -1 when there is none. */
  function LastWith(es: seq<Entry>, k: Key): (i: int)
    ensures -1 <= i < |es|
    ensures i >= 0 ==> es[i].Key() == k
    ensures forall j :: i < j < |es| ==> es[j].Key() != k
    decreases |es|
  {
    if |es| == 0 then -1
    else if es[|es| - 1].Key() == k then |es| - 1
    else LastWith(es[..|es| - 1], k)
  }

  /** Last write wins: after upserting `es`, a key some entry carries holds
      the value of the last such entry; any other key is as it was. */
  lemma {:induction false} ApplyValue(store: Store, es: seq<Entry>, k: Key)
    ensures var i := LastWith(es, k);
            var r := ApplyAll(store, es).store;
            && (i >= 0 ==> k in r && r[k] == es[i].value)
            && (i < 0 ==> (k in r <==> k in store) && (k in store ==> r[k] == store[k]))
    decreases |es|
  {
    if |es| > 0 {
      ApplyValue(store, es[..|es| - 1], k);
    }
  }

  /** An entry with no later entry for its key is that key's last. */
  lemma LastWithIs(es: seq<Entry>, k: Key, i: nat)
    requires i < |es| && es[i].Key() == k
    requires forall j :: i < j < |es| ==> es[j].Key() != k
    ensures LastWith(es, k) == i
  {
  }

  /** Upserting a channel's points: each point whose height no later point
      repeats is stored with its value, and a record under a key no point
      carries, in particular any record of another channel, keeps its value. */
  lemma UpsertPointsValues(store: Store, channel: nat, pts: seq<Point>)
    ensures var r := ApplyAll(store, Entries(channel, pts)).store;
            && (forall k :: k in store && k !in (set p | p in pts :: (channel, p.height)) ==> k in r && r[k] == store[k])
            && (forall k :: k in store && k.0 != channel ==> k in r && r[k] == store[k])
            && (forall i :: 0 <= i < |pts| && (forall j :: i < j < |pts| ==> pts[j].height != pts[i].height) ==>
                  (channel, pts[i].height) in r && r[(channel, pts[i].height)] == pts[i].value)
  {
    var es := Entries(channel, pts);
    var r := ApplyAll(store, es).store;
    EntriesKeys(channel, pts);
    forall k | k in store && k !in (set p | p in pts :: (channel, p.height))
      ensures k in r && r[k] == store[k]
    {
      ApplyValue(store, es, k);
    }
    forall k | k in store && k.0 != channel
      ensures k in r && r[k] == store[k]
    {
      ApplyValue(store, es, k);
    }
    forall i | 0 <= i < |pts| && (forall j :: i < j < |pts| ==> pts[j].height != pts[i].height)
      ensures (channel, pts[i].height) in r && r[(channel, pts[i].height)] == pts[i].value
    {
      LastWithIs(es, (channel, pts[i].height), i);
      ApplyValue(store, es, (channel, pts[i].height));
    }
  }

  /** Upserting into an empty store: the keys are exactly the entries' keys,
      each holding the value of its last entry. */
  lemma ApplyFresh(es: seq<Entry>)
    ensures var r := ApplyAll(map[], es).store;
            && r.Keys == KeysOf(es)
            && forall k :: k in r ==> LastWith(es, k) >= 0 && r[k] == es[LastWith(es, k)].value
  {
    var r := ApplyAll(map[], es).store;
    forall k | k in r ensures LastWith(es, k) >= 0 && r[k] == es[LastWith(es, k)].value {
      ApplyValue(map[], es, k);
    }
  }

  /** Upserting the same points a second time changes nothing. */
  lemma ApplyIdempotent(store: Store, es: seq<Entry>)
    ensures var once := ApplyAll(store, es).store;
            ApplyAll(once, es).store == once
  {
    var once := ApplyAll(store, es).store;
    var twice := ApplyAll(once, es).store;
    forall k | k in twice ensures k in once && twice[k] == once[k] {
      ApplyValue(store, es, k);
      ApplyValue(once, es, k);
    }
  }

  /** Upserting `a` then `b` is upserting `a + b`, and the counts add up. */
  lemma {:induction false} ApplyConcat(store: Store, a: seq<Entry>, b: seq<Entry>)
    ensures var first := ApplyAll(store, a);
            var both := ApplyAll(store, a + b);
            var second := ApplyAll(first.store, b);
            && both.store == second.store
            && both.created == first.created + second.created
            && both.updated == first.updated + second.updated
    decreases |b|
  {
    if |b| == 0 {
      assert a + b == a;
    } else {
      var n := |b| - 1;
      var ab := a + b;
      assert ab[..|ab| - 1] == a + b[..n];
      assert ab[|ab| - 1] == b[n];
      ApplyConcat(store, a, b[..n]);
      var first := ApplyAll(store, a);
      var prevBoth := ApplyAll(store, a + b[..n]);
      var prevSecond := ApplyAll(first.store, b[..n]);
      assert prevBoth.store == prevSecond.store;
      SnocStep(store, ab);
      SnocStep(first.store, b);
    }
  }

  /** One unfolding of `ApplyAll`, stated on its own. */
  lemma SnocStep(store: Store, es: seq<Entry>)
    requires |es| > 0
    ensures var prev := ApplyAll(store, es[..|es| - 1]);
            var e := es[|es| - 1];
            var a := ApplyAll(store, es);
            && a.store == Upsert(prev.store, e)
            && (e.Key() in prev.store ==> a.created == prev.created && a.updated == prev.updated + 1)
            && (e.Key() !in prev.store ==> a.created == prev.created + 1 && a.updated == prev.updated)
  {
  }

  /** Every create is a key that was new to the store: the number of creates
      is the number of distinct keys among the entries that the store lacked. */
  lemma ApplyCreated(store: Store, es: seq<Entry>)
    ensures ApplyAll(store, es).created == |KeysOf(es) - store.Keys|
  {
    ApplySize(store, es);
    UnionSize(store.Keys, KeysOf(es));
  }

  /** Each create adds one row to the store and each update none. */
  lemma {:induction false} ApplySize(store: Store, es: seq<Entry>)
    ensures |ApplyAll(store, es).store.Keys| == |store.Keys| + ApplyAll(store, es).created
    decreases |es|
  {
    if |es| > 0 {
      ApplySize(store, es[..|es| - 1]);
      SnocStep(store, es);
    }
  }

  lemma UnionSize(a: set<Key>, b: set<Key>)
    ensures |a + b| == |a| + |b - a|
  {
    assert a + b == a + (b - a);
  }
}
