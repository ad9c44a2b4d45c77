/** The cache of set expansions: sets are identified by number, and the least
    recently used expansions are dropped when the cache is full. */
module ExpansionCache {

  /** The most entries the cache holds, and how many go when it is full. */
  const BVC_SZ: nat := 5000000
  const BVC_REMOVE: nat := 10000

  // Sorted expansions.

  ghost predicate Ascending(v: seq<nat>) {
    forall i, j :: 0 <= i < j < |v| ==> v[i] < v[j]
  }

  /** `v` lists the elements of `s` in increasing order. */
  ghost predicate Expands(v: seq<nat>, s: set<nat>) {
    Ascending(v) && forall x :: x in s <==> x in v
  }

  /** There is only one such list. */
  lemma {:induction false} ExpansionUnique(v: seq<nat>, w: seq<nat>, s: set<nat>)
    requires Expands(v, s) && Expands(w, s)
    ensures v == w
  {
    EmptyExpansion(v, s);
    EmptyExpansion(w, s);
    if v != [] {
      var m, n := |v| - 1, |w| - 1;
      assert v[m] in s && w[n] in s;
      assert v[m] == w[n];
      var s' := s - {v[m]};
      ExpansionDrop(v, s);
      ExpansionDrop(w, s);
      ExpansionUnique(v[..m], w[..n], s');
      assert v == v[..m] + [v[m]] && w == w[..n] + [w[n]];
    }
  }

  lemma EmptyExpansion(v: seq<nat>, s: set<nat>)
    requires Expands(v, s)
    ensures v == [] <==> s == {}
  {
    assert v != [] ==> v[0] in v;
  }

  lemma ExpansionDrop(v: seq<nat>, s: set<nat>)
    requires Expands(v, s) && v != []
    ensures Expands(v[..|v| - 1], s - {v[|v| - 1]})
  {
    var m := |v| - 1;
    assert v == v[..m] + [v[m]];
  }

  /** Inserts every element at its place. */
  method Expand(s: set<nat>) returns (v: seq<nat>)
    ensures Expands(v, s)
  {
    v := [];
    var todo := s;
    while todo != {}
      invariant todo <= s && Expands(v, s - todo)
      decreases todo
    {
      var x :| x in todo;
      var i := |v|;
      while i > 0 && v[i - 1] > x
        invariant 0 <= i <= |v| && forall j :: i <= j < |v| ==> x < v[j]
      {
        i := i - 1;
      }
      assert i > 0 ==> v[i - 1] in v && v[i - 1] != x;
      InsertAscending(v, s - todo, i, x);
      v := v[..i] + [x] + v[i..];
      todo := todo - {x};
      assert s - todo == s - (todo + {x}) + {x};
    }
    assert s - todo == s;
  }

  lemma InsertAscending(v: seq<nat>, s: set<nat>, i: nat, x: nat)
    requires Expands(v, s) && i <= |v| && (forall j :: i <= j < |v| ==> x < v[j]) && (i > 0 ==> v[i - 1] < x)
    ensures Expands(v[..i] + [x] + v[i..], s + {x})
  {
    var w := v[..i] + [x] + v[i..];
    forall y
      ensures y in w <==> y in v || y == x
    {
      InsertMembers(v, i, x, y);
    }
    hide Expands;
    assert Ascending(v) by { AscendingExpansion(v, s); }
    forall a, b | 0 <= a < b < |w|
      ensures w[a] < w[b]
    {
      InsertPair(v, i, x, a, b);
    }
    ExpandsMeans(v, s);
    ExpandsMeans(w, s + {x});
  }

  lemma AscendingExpansion(v: seq<nat>, s: set<nat>)
    requires Expands(v, s)
    ensures Ascending(v)
  {
  }

  lemma ExpandsMeans(v: seq<nat>, s: set<nat>)
    ensures Expands(v, s) <==> Ascending(v) && forall x :: x in s <==> x in v
  {
  }

  lemma InsertMembers(v: seq<nat>, i: nat, x: nat, y: nat)
    requires i <= |v|
    ensures y in v[..i] + [x] + v[i..] <==> y in v || y == x
  {
    assert v == v[..i] + v[i..];
  }

  lemma InsertPair(v: seq<nat>, i: nat, x: nat, a: nat, b: nat)
    requires Ascending(v) && i <= |v| && (forall j :: i <= j < |v| ==> x < v[j]) && (i > 0 ==> v[i - 1] < x)
    requires a < b < |v| + 1
    ensures (v[..i] + [x] + v[i..])[a] < (v[..i] + [x] + v[i..])[b]
  {
    assert a < i - 1 ==> v[a] < v[i - 1];
  }

  // The cache.

  datatype Entry = Entry(time: nat, vec: seq<nat>)

  /** A use of a cached set. */
  datatype Use = Use(time: nat, id: nat)

  /** Uses are listed by increasing time, each of a cached set and no later
      than the time kept with it; that time itself is listed. */
  ghost predicate Tracks(lru: seq<Use>, cache: map<nat, Entry>, now: nat) {
    && (forall i, j :: 0 <= i < j < |lru| ==> lru[i].time < lru[j].time)
    && (forall u :: u in lru ==> UseOk(cache, now, u))
    && (forall id :: id in cache ==> Listed(lru, cache, id))
  }

  ghost predicate UseOk(cache: map<nat, Entry>, now: nat, u: Use) {
    u.time < now && u.id in cache && u.time <= cache[u.id].time
  }

  ghost predicate Listed(lru: seq<Use>, cache: map<nat, Entry>, id: nat)
    requires id in cache
  {
    Use(cache[id].time, id) in lru
  }

  ghost predicate Exact(cache: map<nat, Entry>, known: map<nat, set<nat>>) {
    forall id :: id in cache ==> id in known && Expands(cache[id].vec, known[id])
  }

  /** `gone` are the least recently used entries of `cache`. */
  ghost predicate LeastRecent(cache: map<nat, Entry>, gone: set<nat>) {
    && gone <= cache.Keys
    && forall a, b :: a in gone && b in cache && b !in gone ==> cache[a].time < cache[b].time
  }

  /** Using a set makes it the most recent one. */
  lemma UseTracks(lru: seq<Use>, cache: map<nat, Entry>, now: nat, id: nat, vec: seq<nat>)
    requires Tracks(lru, cache, now)
    ensures Tracks(lru + [Use(now, id)], cache[id := Entry(now, vec)], now + 1)
  {
    var lru', cache' := lru + [Use(now, id)], cache[id := Entry(now, vec)];
    forall u | u in lru'
      ensures UseOk(cache', now + 1, u)
    {
      assert u in lru || u == Use(now, id);
      assert u in lru ==> UseOk(cache, now, u);
    }
    forall i | i in cache'
      ensures Listed(lru', cache', i)
    {
      if i != id {
        assert Listed(lru, cache, i);
      } else {
        assert lru'[|lru|] == Use(now, id);
      }
    }
    assert forall i :: 0 <= i < |lru| ==> lru[i] in lru && UseOk(cache, now, lru[i]);
  }

  /** The first use in the list is out of date. */
  lemma StaleTracks(lru: seq<Use>, cache: map<nat, Entry>, now: nat)
    requires Tracks(lru, cache, now) && lru != [] && lru[0].id in cache && lru[0].time != cache[lru[0].id].time
    ensures Tracks(lru[1..], cache, now)
  {
    forall id | id in cache
      ensures Listed(lru[1..], cache, id)
    {
      assert Listed(lru, cache, id);
      assert lru == [lru[0]] + lru[1..];
    }
  }

  /** The first use in the list is the last use of its set: no other use of
      it is listed. */
  lemma OnlyUse(lru: seq<Use>, cache: map<nat, Entry>, now: nat, u: Use)
    requires Tracks(lru, cache, now) && lru != [] && lru[0].id in cache && lru[0].time == cache[lru[0].id].time && u in lru[1..]
    ensures u.time < now && u.id in cache && u.id != lru[0].id && u.time <= cache[u.id].time
  {
    var i :| 0 <= i < |lru[1..]| && lru[1..][i] == u;
    assert lru[i + 1] == u && u in lru && UseOk(cache, now, u);
    assert lru[0].time < lru[i + 1].time;
  }

  /** Every other set was used later. */
  lemma OthersLater(lru: seq<Use>, cache: map<nat, Entry>, now: nat, b: nat)
    requires Tracks(lru, cache, now) && lru != [] && lru[0].id in cache && lru[0].time == cache[lru[0].id].time
    requires b in cache && b != lru[0].id
    ensures Use(cache[b].time, b) in lru[1..] && cache[lru[0].id].time < cache[b].time
  {
    var u := Use(cache[b].time, b);
    assert Listed(lru, cache, b);
    var i :| 0 <= i < |lru| && lru[i] == u;
    assert lru[1..][i - 1] == u;
  }

  /** The set of the first use, if it is its last, is the least recently used. */
  lemma EvictTracks(lru: seq<Use>, cache: map<nat, Entry>, now: nat)
    requires Tracks(lru, cache, now) && lru != [] && lru[0].id in cache && lru[0].time == cache[lru[0].id].time
    ensures Tracks(lru[1..], cache - {lru[0].id}, now)
    ensures LeastRecent(cache, {lru[0].id})
  {
    var id, cache' := lru[0].id, cache - {lru[0].id};
    forall u | u in lru[1..]
      ensures UseOk(cache', now, u)
    {
      OnlyUse(lru, cache, now, u);
    }
    forall b | b in cache && b != id
      ensures Listed(lru[1..], cache', b) && cache[id].time < cache[b].time
    {
      OthersLater(lru, cache, now, b);
    }
  }

  lemma MinusTwice(cache: map<nat, Entry>, gone: set<nat>, id: nat)
    ensures cache - gone - {id} == cache - (gone + {id})
  {
  }

  lemma NoneLeastRecent(cache: map<nat, Entry>)
    ensures LeastRecent(cache, {})
  {
  }

  lemma LeastRecentMore(cache: map<nat, Entry>, gone: set<nat>, id: nat)
    requires LeastRecent(cache, gone) && LeastRecent(cache - gone, {id})
    ensures LeastRecent(cache, gone + {id}) && id !in gone
  {
    assert id in (cache - gone).Keys;
  }

  lemma ListedWhenCached(lru: seq<Use>, cache: map<nat, Entry>, now: nat)
    requires Tracks(lru, cache, now) && |cache| > 0
    ensures lru != []
  {
    assert |cache.Keys| == |cache|;
    var id :| id in cache.Keys;
    assert Listed(lru, cache, id);
  }

  lemma FirstCached(lru: seq<Use>, cache: map<nat, Entry>, now: nat)
    requires Tracks(lru, cache, now) && lru != []
    ensures lru[0].id in cache
  {
    assert lru[0] in lru && UseOk(cache, now, lru[0]);
  }

  lemma FewerEntries(cache: map<nat, Entry>, id: nat)
    requires id in cache
    ensures |cache - {id}| == |cache| - 1
  {
    assert (cache - {id}).Keys == cache.Keys - {id};
    assert |(cache - {id}).Keys| == |cache.Keys| - 1;
  }

  lemma ExactMore(cache: map<nat, Entry>, known: map<nat, set<nat>>, id: nat, e: Entry, s: set<nat>)
    requires Exact(cache, known) && Expands(e.vec, s) && (id in known ==> known[id] == s)
    ensures Exact(cache[id := e], known[id := s])
  {
  }

  class Cache {
    var cache: map<nat, Entry>
    var lru: seq<Use>
    var time: nat
    /** The set that each number stands for. */
    ghost var known: map<nat, set<nat>>

    ghost predicate Valid()
      reads this
    {
      Tracks(lru, cache, time) && Exact(cache, known)
    }

    constructor ()
      ensures Valid() && cache == map[] && known == map[]
    {
      cache, lru, time, known := map[], [], 0, map[];
    }

    /** Drops the least recently used entry. */
    method EvictOne()
      requires Valid() && |cache| > 0
      modifies this`cache, this`lru
      ensures Valid() && |cache| == |old(cache)| - 1
      ensures exists id :: id in old(cache) && cache == old(cache) - {id} && LeastRecent(old(cache), {id})
    {
      hide Expands, Tracks, LeastRecent;
      while true
        invariant Valid() && cache == old(cache)
        decreases |lru|
      {
        ListedWhenCached(lru, cache, time);
        FirstCached(lru, cache, time);
        var x := lru[0];
        if x.time == cache[x.id].time {
          EvictTracks(lru, cache, time);
          FewerEntries(cache, x.id);
          lru := lru[1..];
          cache := cache - {x.id};
          return;
        }
        StaleTracks(lru, cache, time);
        lru := lru[1..];
      }
    }

    /** Drops the `n` least recently used entries. */
    method Evict(n: nat)
      requires Valid() && n <= |cache|
      modifies this`cache, this`lru
      ensures Valid() && |cache| == |old(cache)| - n
      ensures exists gone :: |gone| == n && cache == old(cache) - gone && LeastRecent(old(cache), gone)
    {
      hide Tracks, Exact, LeastRecent;
      ghost var gone: set<nat> := {};
      NoneLeastRecent(cache);
      assert cache == old(cache) - gone;
      var i := 0;
      while i < n
        invariant 0 <= i <= n && Valid() && |cache| == |old(cache)| - i
        invariant |gone| == i && cache == old(cache) - gone && LeastRecent(old(cache), gone)
      {
        ghost var before := cache;
        EvictOne();
        ghost var id :| id in before && cache == before - {id} && LeastRecent(before, {id});
        LeastRecentMore(old(cache), gone, id);
        MinusTwice(old(cache), gone, id);
        gone := gone + {id};
        i := i + 1;
      }
    }

    /** The elements of the set `s` that is identified by `id`, in increasing
        order. A number stands for the same set on every call. */
    method BddToVec(id: nat, s: set<nat>) returns (v: seq<nat>)
      requires Valid() && (id in known ==> known[id] == s)
      modifies this
      ensures Valid() && Expands(v, s)
      ensures known == if s == {} then old(known) else old(known)[id := s]
      ensures s == {} ==> cache == old(cache) && lru == old(lru) && time == old(time)
      ensures s != {} ==> id in cache && cache[id] == Entry(old(time), v) && time == old(time) + 1
      ensures s != {} && (id in old(cache) || |old(cache)| < BVC_SZ) ==> cache == old(cache)[id := Entry(old(time), v)]
      ensures s != {} && id !in old(cache) && |old(cache)| >= BVC_SZ ==>
        exists gone :: |gone| == BVC_REMOVE && LeastRecent(old(cache), gone) && cache == (old(cache) - gone)[id := Entry(old(time), v)]
    {
      if s == {} {
        return [];
      }
      hide Tracks, Expands, LeastRecent;
      if id in cache {
        v := cache[id].vec;
      } else {
        if |cache| >= BVC_SZ {
          Evict(BVC_REMOVE);
        }
        v := Expand(s);
      }
      Remember(id, v, s);
    }

    /** Makes `id` the most recently used entry. */
    method Remember(id: nat, v: seq<nat>, ghost s: set<nat>)
      requires Valid() && Expands(v, s) && (id in known ==> known[id] == s)
      modifies this
      ensures Valid() && known == old(known)[id := s] && time == old(time) + 1
      ensures cache == old(cache)[id := Entry(old(time), v)]
    {
      hide Tracks, Expands;
      UseTracks(lru, cache, time, id, v);
      ExactMore(cache, known, id, Entry(time, v), s);
      cache := cache[id := Entry(time, v)];
      lru := lru + [Use(time, id)];
      time := time + 1;
      known := known[id := s];
    }
  }
}
