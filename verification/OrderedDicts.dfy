/**
 * `collections.OrderedDict` as the sources use it: a list of distinct keys, oldest first, and a map.
 * Both bounded caches of the client (pending chunk transfers, stashed receipts) are values of this type.
 */
module OrderedDicts {
  import opened Prelude

  datatype OrderedDict<V> = OrderedDict(keys: seq<string>, vals: map<string, V>) {

    ghost predicate Valid() {
      && (forall i, j | 0 <= i < j < |keys| :: keys[i] != keys[j])
      && (forall k :: k in keys <==> k in vals)
    }

    function Get(k: string): Option<V> {
      if k in vals then Some(vals[k]) else None
    }

    /** `d.pop(k, None)` */
    function Pop(k: string): OrderedDict<V> {
      OrderedDict(Without(keys, k), vals - {k})
    }

    /** Make `k` the most recent key and give it `v`: a new insertion, `move_to_end`, or pop and re-insert. */
    function Touch(k: string, v: V): OrderedDict<V> {
      OrderedDict(Without(keys, k) + [k], vals[k := v])
    }

    /** `while len(d) > cap: d.popitem(last=False)` */
    function EvictTo(cap: nat): OrderedDict<V>
      decreases |keys|
    {
      if |keys| <= cap then this
      else OrderedDict(keys[1..], vals - {keys[0]}).EvictTo(cap)
    }

    /** The keys that are more recent than `k`. */
    ghost function Newer(k: string): set<string> {
      NewerIn(keys, k)
    }
  }

  function Without(s: seq<string>, k: string): (r: seq<string>)
    ensures k !in r
    ensures forall x | x != k :: x in s <==> x in r
  {
    if s == [] then []
    else if s[0] == k then Without(s[1..], k)
    else [s[0]] + Without(s[1..], k)
  }

  function Empty<V>(): OrderedDict<V> { OrderedDict([], map[]) }

  ghost predicate Distinct(s: seq<string>) {
    forall i, j | 0 <= i < j < |s| :: s[i] != s[j]
  }

  /** The keys that follow the first `k` in `s`; empty when `k` is not there. */
  ghost function NewerIn(s: seq<string>, k: string): set<string> {
    if s == [] then {}
    else if s[0] == k then set x | x in s[1..]
    else NewerIn(s[1..], k)
  }

  // ---- lists of distinct keys ----

  lemma {:induction false} WithoutKeepsDistinct(s: seq<string>, k: string)
    requires Distinct(s)
    ensures Distinct(Without(s, k))
    ensures |Without(s, k)| == if k in s then |s| - 1 else |s|
  {
    if s != [] {
      WithoutKeepsDistinct(s[1..], k);
      assert Distinct(s[1..]);
      assert s[0] !in s[1..];
      assert s == [s[0]] + s[1..];
    }
  }

  lemma {:induction false} WithoutAbsent(s: seq<string>, k: string)
    requires k !in s
    ensures Without(s, k) == s
  {
    if s != [] {
      WithoutAbsent(s[1..], k);
      assert s == [s[0]] + s[1..];
    }
  }

  /** Removing another key leaves at most as many keys newer than `k`. */
  lemma {:induction false} NewerWithout(s: seq<string>, k: string, other: string)
    requires k != other
    ensures NewerIn(Without(s, other), k) <= NewerIn(s, k)
  {
    if s != [] {
      NewerWithout(s[1..], k, other);
      if s[0] == other {
        assert s[0] != k;
      } else {
        var w := Without(s, other);
        assert w[1..] == Without(s[1..], other);
        if s[0] == k {
          forall x | x in w[1..] ensures x in s[1..] {}
        }
      }
    }
  }

  lemma {:induction false} NewerAppend(s: seq<string>, k: string, last: string)
    ensures NewerIn(s + [last], k) == if k in s then NewerIn(s, k) + {last} else {}
  {
    if s == [] {
      assert s + [last] == [last];
      assert [last][1..] == [];
    } else {
      assert (s + [last])[0] == s[0];
      assert (s + [last])[1..] == s[1..] + [last];
      if s[0] != k {
        NewerAppend(s[1..], k, last);
        assert k in s <==> k in s[1..];
      }
    }
  }

  /** In a list of distinct keys, a key in front has all the others behind it. */
  lemma NewerThanFirst(s: seq<string>)
    requires Distinct(s) && s != []
    ensures |NewerIn(s, s[0])| == |s| - 1
  {
    DistinctSize(s[1..]);
  }

  lemma {:induction false} DistinctSize(s: seq<string>)
    requires Distinct(s)
    ensures |set x | x in s| == |s|
  {
    if s != [] {
      DistinctSize(s[1..]);
      assert (set x | x in s) == {s[0]} + (set x | x in s[1..]);
    }
  }

  // ---- the operations keep the dictionary well formed ----

  lemma TouchKeepsValid<V>(d: OrderedDict<V>, k: string, v: V)
    requires d.Valid()
    ensures d.Touch(k, v).Valid()
    ensures |d.Touch(k, v).keys| == if k in d.vals then |d.keys| else |d.keys| + 1
  {
    WithoutKeepsDistinct(d.keys, k);
  }

  lemma PopKeepsValid<V>(d: OrderedDict<V>, k: string)
    requires d.Valid()
    ensures d.Pop(k).Valid()
    ensures |d.Pop(k).keys| == if k in d.vals then |d.keys| - 1 else |d.keys|
  {
    WithoutKeepsDistinct(d.keys, k);
  }

  lemma EvictKeepsValid<V>(d: OrderedDict<V>, cap: nat)
    requires d.Valid()
    ensures d.EvictTo(cap).Valid()
    ensures |d.EvictTo(cap).keys| == if |d.keys| <= cap then |d.keys| else cap
  {
    EvictShape(d, cap);
  }

  /** Eviction keeps exactly the last `cap` keys, with their values. */
  lemma {:induction false} EvictShape<V>(d: OrderedDict<V>, cap: nat)
    requires d.Valid()
    ensures d.EvictTo(cap).keys == if |d.keys| <= cap then d.keys else d.keys[|d.keys| - cap..]
    ensures forall k :: k in d.EvictTo(cap).vals <==> k in d.EvictTo(cap).keys
    ensures forall k | k in d.EvictTo(cap).vals :: k in d.vals && d.EvictTo(cap).vals[k] == d.vals[k]
    decreases |d.keys|
  {
    if |d.keys| > cap {
      DropOldest(d);
      var rest := OrderedDict(d.keys[1..], d.vals - {d.keys[0]});
      EvictShape(rest, cap);
      assert d.EvictTo(cap) == rest.EvictTo(cap);
      assert rest.keys[|rest.keys| - cap..] == d.keys[|d.keys| - cap..];
    }
  }

  lemma DropOldest<V>(d: OrderedDict<V>)
    requires d.Valid() && d.keys != []
    ensures OrderedDict(d.keys[1..], d.vals - {d.keys[0]}).Valid()
  {
    assert d.keys == [d.keys[0]] + d.keys[1..];
  }

  // ---- which keys survive ----

  /** Touching a key puts it last, and adds it (at most) to the keys newer than any other. */
  lemma TouchNewer<V>(d: OrderedDict<V>, k: string, v: V)
    requires d.Valid()
    ensures d.Touch(k, v).Newer(k) == {}
    ensures forall x | x in d.vals && x != k :: d.Touch(k, v).Newer(x) <= d.Newer(x) + {k}
  {
    NewerAppend(Without(d.keys, k), k, k);
    forall x | x in d.vals && x != k
      ensures d.Touch(k, v).Newer(x) <= d.Newer(x) + {k}
    {
      NewerAppend(Without(d.keys, k), x, k);
      NewerWithout(d.keys, x, k);
    }
  }

  /** A key with fewer than `cap` newer keys is not evicted, and eviction does not age it. */
  lemma {:induction false} EvictKeepsRecent<V>(d: OrderedDict<V>, cap: nat, k: string)
    requires d.Valid() && k in d.vals && |d.Newer(k)| < cap
    ensures k in d.EvictTo(cap).vals && d.EvictTo(cap).vals[k] == d.vals[k]
    ensures d.EvictTo(cap).Newer(k) == d.Newer(k)
    decreases |d.keys|
  {
    if |d.keys| > cap {
      if d.keys[0] == k {
        NewerThanFirst(d.keys);
        assert false;
      }
      DropOldest(d);
      EvictKeepsRecent(OrderedDict(d.keys[1..], d.vals - {d.keys[0]}), cap, k);
    }
  }

  /** Conversely, a key with at least `cap` newer keys is evicted: the bound above is exact. */
  lemma {:induction false} EvictDropsOld<V>(d: OrderedDict<V>, cap: nat, k: string)
    requires d.Valid() && k in d.vals && |d.Newer(k)| >= cap
    ensures k !in d.EvictTo(cap).vals
    decreases |d.keys|
  {
    NewerBelowSize(d.keys, k);
    DropOldest(d);
    var rest := OrderedDict(d.keys[1..], d.vals - {d.keys[0]});
    if d.keys[0] == k {
      EvictShape(rest, cap);
    } else {
      EvictDropsOld(rest, cap, k);
    }
  }

  lemma {:induction false} NewerBelowSize(s: seq<string>, k: string)
    requires Distinct(s) && k in s
    ensures |NewerIn(s, k)| < |s|
  {
    if s[0] == k {
      NewerThanFirst(s);
    } else {
      NewerBelowSize(s[1..], k);
    }
  }

  /** A new key pushes out exactly the oldest one, and exactly from a full dictionary. */
  lemma NewKeyEvicts<V>(d: OrderedDict<V>, cap: nat, k: string, v: V)
    requires d.Valid() && 1 <= cap && |d.keys| <= cap && k !in d.vals
    ensures forall x | x in d.vals :: x !in d.Touch(k, v).EvictTo(cap).vals <==> |d.keys| == cap && x == d.keys[0]
  {
    var more := d.Touch(k, v);
    WithoutAbsent(d.keys, k);
    TouchKeepsValid(d, k, v);
    EvictShape(more, cap);
    assert more.keys == d.keys + [k];
    if |d.keys| == cap {
      assert more.EvictTo(cap).keys == d.keys[1..] + [k];
      assert d.keys == [d.keys[0]] + d.keys[1..];
    }
  }
}
