/** Bucket order of the pixels: what the linked list built by lsd.cpp (ll_angle) must hold. */
module PixelOrder {
  import opened Pixels

  /** The positions that fell into bucket b, in the order in which they came. */
  ghost function Bucket(keys: seq<nat>, b: nat): seq<nat> {
    if keys == [] then
      []
    else
      var n := |keys| - 1;
      if keys[n] == b then Bucket(keys[..n], b) + [n] else Bucket(keys[..n], b)
  }

  /** The buckets from the highest down to bucket `low`, one after the other. */
  ghost function Order(keys: seq<nat>, nBins: nat, low: nat): seq<nat>
    requires low <= nBins
    decreases nBins - low
  {
    if low == nBins then [] else Order(keys, nBins, low + 1) + Bucket(keys, low)
  }

  lemma {:induction false} BucketMembers(keys: seq<nat>, b: nat)
    ensures forall e :: e in Bucket(keys, b) <==> 0 <= e < |keys| && keys[e] == b
    ensures forall i, j | 0 <= i < j < |Bucket(keys, b)| :: Bucket(keys, b)[i] < Bucket(keys, b)[j]
  {
    if keys != [] {
      var n := |keys| - 1;
      BucketMembers(keys[..n], b);
      var earlier := Bucket(keys[..n], b);
      forall i | 0 <= i < |earlier|
        ensures earlier[i] < n
      {
        assert earlier[i] in earlier;
      }
    }
  }

  /** Positions in list order: higher keys first, equal keys in order of arrival. */
  ghost predicate Listed(keys: seq<nat>, a: nat, b: nat)
    requires a < |keys| && b < |keys|
  {
    keys[a] > keys[b] || (keys[a] == keys[b] && a < b)
  }

  ghost predicate InListOrder(keys: seq<nat>, o: seq<nat>) {
    && (forall i | 0 <= i < |o| :: o[i] < |keys|)
    && (forall i, j | 0 <= i < j < |o| :: Listed(keys, o[i], o[j]))
  }

  lemma AppendBucket(keys: seq<nat>, h: seq<nat>, b: seq<nat>, low: nat)
    requires InListOrder(keys, h) && forall e | e in h :: e < |keys| && keys[e] > low
    requires (forall e | e in b :: e < |keys| && keys[e] == low) && forall i, j | 0 <= i < j < |b| :: b[i] < b[j]
    ensures InListOrder(keys, h + b)
  {
    var o := h + b;
    forall i | 0 <= i < |o|
      ensures o[i] < |keys|
    {
      SplitAt(h, b, i);
    }
    forall i, j | 0 <= i < j < |o|
      ensures Listed(keys, o[i], o[j])
    {
      SplitAt(h, b, i);
      SplitAt(h, b, j);
    }
  }

  /** The order holds every position whose key is `low` or more, strictly sorted. */
  lemma {:induction false} OrderSorted(keys: seq<nat>, nBins: nat, low: nat)
    requires low <= nBins
    ensures forall e :: e in Order(keys, nBins, low) <==> 0 <= e < |keys| && low <= keys[e] < nBins
    ensures InListOrder(keys, Order(keys, nBins, low))
    decreases nBins - low
  {
    if low < nBins {
      OrderSorted(keys, nBins, low + 1);
      BucketMembers(keys, low);
      AppendBucket(keys, Order(keys, nBins, low + 1), Bucket(keys, low), low);
    }
  }

  lemma SplitAt<T>(a: seq<T>, b: seq<T>, i: nat)
    requires i < |a| + |b|
    ensures if i < |a| then (a + b)[i] == a[i] && a[i] in a else (a + b)[i] == b[i - |a|] && b[i - |a|] in b
  {
  }

  /** A cell of the list; `next` is a position in the pool, or NULL. */
  datatype Coor = Coor(x: int, y: int, next: int)

  const NULL: int := -1

  /** The cells of `c` are linked in this order, and the last one ends the list. */
  ghost predicate Chained(pool: seq<Coor>, c: seq<nat>) {
    && (forall i | 0 <= i < |c| :: c[i] < |pool|)
    && (forall i | 0 <= i < |c| - 1 :: pool[c[i]].next == c[i + 1])
    && (c != [] ==> pool[c[|c| - 1]].next == NULL)
  }

  /** `first` points to the head of the list. */
  predicate Heads(first: int, c: seq<nat>) {
    if c == [] then first == NULL else first == c[0]
  }

  predicate Tails(last: int, c: seq<nat>) {
    if c == [] then last == NULL else last == c[|c| - 1]
  }

  /** Hanging one list behind another. */
  lemma Join(pool: seq<Coor>, a: seq<nat>, b: seq<nat>)
    requires Chained(pool, a) && Chained(pool, b) && a != [] && b != []
    requires Distinct(a) && forall e | e in a :: e !in b
    ensures var l := a[|a| - 1];
            Chained(pool[l := pool[l].(next := b[0])], a + b)
  {
    var l := a[|a| - 1];
    var q := pool[l := pool[l].(next := b[0])];
    var c := a + b;
    assert forall i | 0 <= i < |b| :: b[i] in b;
    forall i | 0 <= i < |c| - 1
      ensures q[c[i]].next == c[i + 1]
    {
      SplitAt(a, b, i);
      SplitAt(a, b, i + 1);
    }
  }

  /** A list that does not own a cell is not affected by a change of the cell. */
  lemma Untouched(pool: seq<Coor>, c: seq<nat>, l: nat, cell: Coor)
    requires Chained(pool, c) && l < |pool| && l !in c
    ensures Chained(pool[l := cell], c)
  {
    assert forall i | 0 <= i < |c| :: c[i] in c;
  }

  /** The pixels with coordinates below (w,h), column by column. */
  ghost function Column(x: int, h: nat): seq<Point> {
    seq(h, y requires 0 <= y < h => Point(x, y))
  }

  ghost function Scan(w: nat, h: nat): seq<Point> {
    if w == 0 then [] else Scan(w - 1, h) + Column(w - 1, h)
  }

  lemma {:induction false} ScanMembers(w: nat, h: nat)
    ensures |Scan(w, h)| == w * h
    ensures forall p :: p in Scan(w, h) <==> InGrid(p, w, h)
    ensures Distinct(Scan(w, h))
  {
    if w > 0 {
      ScanMembers(w - 1, h);
      var s, c := Scan(w - 1, h), Column(w - 1, h);
      assert w * h == (w - 1) * h + h;
      assert forall p :: p in c <==> p.x == w - 1 && 0 <= p.y < h by {
        forall p: Point | p.x == w - 1 && 0 <= p.y < h
          ensures p in c
        {
          assert c[p.y] == p;
        }
      }
      forall i, j | 0 <= i < j < |s + c|
        ensures (s + c)[i] != (s + c)[j]
      {
        SplitAt(s, c, i);
        SplitAt(s, c, j);
      }
    }
  }
}
