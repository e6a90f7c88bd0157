/** Indices whose rows belong to plugins: keyed rows, and buckets that keep the order rows came in. */
module Indices {

  /** All rows, later ones over earlier ones. */
  function Insert<K, V>(m: map<K, V>, rows: seq<(K, V)>): map<K, V>
  {
    if rows == [] then m
    else
      var last := rows[|rows| - 1];
      Insert(m, rows[..|rows| - 1])[last.0 := last.1]
  }

  /** Every row but those of `p`. */
  function Drop<K, V>(m: map<K, V>, owner: (K, V) -> string, p: string): map<K, V>
  {
    map k | k in m && owner(k, m[k]) != p :: m[k]
  }

  ghost predicate OwnedIn<K(!new), V(!new)>(m: map<K, V>, owner: (K, V) -> string, live: set<string>)
  {
    forall k | k in m :: owner(k, m[k]) in live
  }

  /** The rows of `p` alone. */
  function Only<K, V>(m: map<K, V>, owner: (K, V) -> string, p: string): map<K, V>
  {
    map k | k in m && owner(k, m[k]) == p :: m[k]
  }

  /** Inserting rows lays them over what is there, whatever that is. */
  lemma {:induction false} InsertMerges<K(!new), V(!new)>(m: map<K, V>, rows: seq<(K, V)>)
    ensures Insert(m, rows) == m + Insert(map[], rows)
  {
    if rows != [] {
      InsertMerges(m, rows[..|rows| - 1]);
    }
  }

  /** The rows a plugin inserted where it had none are the rows it has. */
  lemma {:induction false} InsertOnly<K(!new), V(!new)>(m: map<K, V>, rows: seq<(K, V)>, owner: (K, V) -> string,
                                                        p: string)
    requires forall k | k in m :: owner(k, m[k]) != p
    requires forall i | 0 <= i < |rows| :: owner(rows[i].0, rows[i].1) == p
    ensures Only(Insert(m, rows), owner, p) == Insert(map[], rows)
  {
    if rows == [] {
      assert Only(m, owner, p) == map[];
    } else {
      var n := |rows| - 1;
      InsertOnly(m, rows[..n], owner, p);
      var before := Insert(m, rows[..n]);
      assert Only(before[rows[n].0 := rows[n].1], owner, p) == Only(before, owner, p)[rows[n].0 := rows[n].1];
    }
  }

  /** Rows of somebody else, put over none of the rows of `p`, leave those as they are. */
  lemma {:induction false} InsertLeavesOnly<K(!new), V(!new)>(m: map<K, V>, rows: seq<(K, V)>, owner: (K, V) -> string,
                                                              p: string)
    requires forall i | 0 <= i < |rows| :: owner(rows[i].0, rows[i].1) != p
    requires forall i | 0 <= i < |rows| :: rows[i].0 in m ==> owner(rows[i].0, m[rows[i].0]) != p
    ensures Only(Insert(m, rows), owner, p) == Only(m, owner, p)
  {
    if rows != [] {
      var n := |rows| - 1;
      InsertLeavesOnly(m, rows[..n], owner, p);
      var before := Insert(m, rows[..n]);
      assert Only(before[rows[n].0 := rows[n].1], owner, p) == Only(before, owner, p);
    }
  }

  lemma {:induction false} DropLeavesOnly<K(!new), V(!new)>(m: map<K, V>, owner: (K, V) -> string, q: string, p: string)
    requires q != p
    ensures Only(Drop(m, owner, q), owner, p) == Only(m, owner, p)
  {
  }

  /** Dropping a plugin's rows and inserting them again changes nothing. */
  lemma {:induction false} InsertUndoesDrop<K(!new), V(!new)>(m: map<K, V>, rows: seq<(K, V)>, owner: (K, V) -> string,
                                                              p: string)
    requires Only(m, owner, p) == Insert(map[], rows)
    ensures Insert(Drop(m, owner, p), rows) == m
  {
    InsertMerges(Drop(m, owner, p), rows);
    assert m == Drop(m, owner, p) + Only(m, owner, p);
  }

  lemma {:induction false} InsertDrops<K(!new), V(!new)>(m: map<K, V>, rows: seq<(K, V)>, owner: (K, V) -> string,
                                                         p: string)
    requires forall k | k in m :: owner(k, m[k]) != p
    requires forall i | 0 <= i < |rows| :: owner(rows[i].0, rows[i].1) == p && rows[i].0 !in m
    ensures Drop(Insert(m, rows), owner, p) == m
    ensures forall k | k in Insert(m, rows) :: k in m || owner(k, Insert(m, rows)[k]) == p
  {
    if rows != [] {
      InsertDrops(m, rows[..|rows| - 1], owner, p);
    }
  }

  lemma {:induction false} InsertOwned<K(!new), V(!new)>(m: map<K, V>, rows: seq<(K, V)>, owner: (K, V) -> string,
                                                         live: set<string>, p: string)
    requires OwnedIn(m, owner, live)
    requires forall i | 0 <= i < |rows| :: owner(rows[i].0, rows[i].1) == p
    ensures OwnedIn(Insert(m, rows), owner, live + {p})
  {
    if rows != [] {
      InsertOwned(m, rows[..|rows| - 1], owner, live, p);
    }
  }

  lemma {:induction false} DropOwned<K(!new), V(!new)>(m: map<K, V>, owner: (K, V) -> string, live: set<string>,
                                                       p: string)
    requires OwnedIn(m, owner, live)
    ensures OwnedIn(Drop(m, owner, p), owner, live - {p})
  {
  }

  // ------------------------------------------------------------ buckets

  type Buckets<T> = map<string, seq<T>>

  function Bucket<T>(m: Buckets<T>, key: string): seq<T>
  {
    if key in m then m[key] else []
  }

  function Push<T>(m: Buckets<T>, key: string, x: T): Buckets<T>
  {
    m[key := Bucket(m, key) + [x]]
  }

  /** A second push of the same entry has no effect. */
  function PushNew<T(==)>(m: Buckets<T>, key: string, x: T): Buckets<T>
  {
    if x in Bucket(m, key) then m[key := Bucket(m, key)] else Push(m, key, x)
  }

  function Keep<T>(xs: seq<T>, owner: T -> string, p: string): seq<T>
  {
    if xs == [] then []
    else
      var rest, last := Keep(xs[..|xs| - 1], owner, p), xs[|xs| - 1];
      if owner(last) == p then rest else rest + [last]
  }

  /** Every entry but those of `p`, and no empty bucket. */
  function Sift<T>(m: Buckets<T>, owner: T -> string, p: string): Buckets<T>
  {
    map key | key in m && Keep(m[key], owner, p) != [] :: Keep(m[key], owner, p)
  }

  ghost predicate NoEmpty<T>(m: Buckets<T>)
  {
    forall key | key in m :: m[key] != []
  }

  ghost predicate EntriesIn<T(!new)>(m: Buckets<T>, owner: T -> string, live: set<string>)
  {
    forall key, x | key in m && x in m[key] :: owner(x) in live
  }

  lemma {:induction false} KeepSnoc<T>(xs: seq<T>, x: T, owner: T -> string, p: string)
    ensures Keep(xs + [x], owner, p) == Keep(xs, owner, p) + if owner(x) == p then [] else [x]
  {
    assert (xs + [x])[..|xs|] == xs;
  }

  lemma {:induction false} KeepAll<T>(xs: seq<T>, owner: T -> string, p: string)
    requires forall x | x in xs :: owner(x) != p
    ensures Keep(xs, owner, p) == xs
  {
    if xs != [] {
      KeepAll(xs[..|xs| - 1], owner, p);
      assert xs == xs[..|xs| - 1] + [xs[|xs| - 1]];
    }
  }

  lemma {:induction false} KeepHas<T(!new)>(xs: seq<T>, owner: T -> string, p: string)
    ensures forall x :: x in Keep(xs, owner, p) <==> x in xs && owner(x) != p
  {
    if xs != [] {
      KeepHas(xs[..|xs| - 1], owner, p);
      assert xs == xs[..|xs| - 1] + [xs[|xs| - 1]];
    }
  }

  function Mine<T>(xs: seq<T>, owner: T -> string, p: string): seq<T>
  {
    if xs == [] then []
    else
      var rest, last := Mine(xs[..|xs| - 1], owner, p), xs[|xs| - 1];
      if owner(last) == p then rest + [last] else rest
  }

  lemma {:induction false} MineNone<T(!new)>(xs: seq<T>, owner: T -> string, p: string)
    requires forall x | x in xs :: owner(x) != p
    ensures Mine(xs, owner, p) == []
  {
    if xs != [] {
      MineNone(xs[..|xs| - 1], owner, p);
    }
  }

  /** What others' entries are followed by is what is left when those are passed over. */
  lemma {:induction false} MineAfter<T(!new)>(xs: seq<T>, ys: seq<T>, owner: T -> string, p: string)
    requires forall x | x in xs :: owner(x) != p
    requires forall y | y in ys :: owner(y) == p
    ensures Mine(xs + ys, owner, p) == ys
  {
    if ys == [] {
      assert xs + ys == xs;
      MineNone(xs, owner, p);
    } else {
      var n := |ys| - 1;
      MineAfter(xs, ys[..n], owner, p);
      assert (xs + ys)[..|xs + ys| - 1] == xs + ys[..n];
    }
  }

  lemma {:induction false} MineBefore<T(!new)>(xs: seq<T>, ys: seq<T>, owner: T -> string, p: string)
    requires forall y | y in ys :: owner(y) != p
    ensures Mine(xs + ys, owner, p) == Mine(xs, owner, p)
  {
    if ys == [] {
      assert xs + ys == xs;
    } else {
      var n := |ys| - 1;
      MineBefore(xs, ys[..n], owner, p);
      assert (xs + ys)[..|xs + ys| - 1] == xs + ys[..n];
    }
  }

  lemma {:induction false} MineSnoc<T>(xs: seq<T>, x: T, owner: T -> string, p: string)
    ensures Mine(xs + [x], owner, p) == Mine(xs, owner, p) + if owner(x) == p then [x] else []
  {
    assert (xs + [x])[..|xs|] == xs;
  }

  lemma {:induction false} KeepLeavesMine<T>(xs: seq<T>, owner: T -> string, q: string, p: string)
    requires q != p
    ensures Mine(Keep(xs, owner, q), owner, p) == Mine(xs, owner, p)
  {
    if xs != [] {
      var n := |xs| - 1;
      KeepLeavesMine(xs[..n], owner, q, p);
      MineSnoc(Keep(xs[..n], owner, q), xs[n], owner, p);
    }
  }

  /** Each bucket is the old one followed by the new one. */
  ghost predicate Appended<T>(m: Buckets<T>, base: Buckets<T>, more: Buckets<T>)
  {
    forall key :: Bucket(m, key) == Bucket(base, key) + Bucket(more, key)
  }

  /** What the buckets of `m` are once `p` is sifted out of them. */
  ghost predicate SiftsTo<T>(m: Buckets<T>, owner: T -> string, p: string, base: Buckets<T>)
  {
    forall key :: Keep(Bucket(m, key), owner, p) == Bucket(base, key)
  }

  lemma {:induction false} SiftIs<T>(m: Buckets<T>, owner: T -> string, p: string, base: Buckets<T>)
    requires SiftsTo(m, owner, p, base) && NoEmpty(base)
    ensures Sift(m, owner, p) == base
  {
    var sifted := Sift(m, owner, p);
    forall key
      ensures key in sifted <==> key in base
      ensures key in sifted ==> sifted[key] == base[key]
    {
      assert Keep(Bucket(m, key), owner, p) == Bucket(base, key);
    }
  }

  lemma {:induction false} SiftBucket<T(!new)>(m: Buckets<T>, owner: T -> string, p: string, key: string)
    ensures Bucket(Sift(m, owner, p), key) == Keep(Bucket(m, key), owner, p)
  {
  }

  lemma {:induction false} NothingToSift<T(!new)>(m: Buckets<T>, owner: T -> string, p: string)
    requires forall key, x | key in m && x in m[key] :: owner(x) != p
    ensures SiftsTo(m, owner, p, m)
  {
    forall key
      ensures Keep(Bucket(m, key), owner, p) == Bucket(m, key)
    {
      KeepAll(Bucket(m, key), owner, p);
    }
  }

  lemma {:induction false} PushNewBucket<T>(m: Buckets<T>, key: string, x: T, k: string)
    ensures Bucket(PushNew(m, key, x), k) == Bucket(m, k) + if k == key && x !in Bucket(m, key) then [x] else []
  {
  }

  lemma {:induction false} PushSifts<T>(m: Buckets<T>, owner: T -> string, p: string, base: Buckets<T>, key: string,
                                        x: T)
    requires SiftsTo(m, owner, p, base) && owner(x) == p
    ensures SiftsTo(Push(m, key, x), owner, p, base)
  {
    forall k
      ensures Keep(Bucket(Push(m, key, x), k), owner, p) == Bucket(base, k)
    {
      assert Keep(Bucket(m, k), owner, p) == Bucket(base, k);
      KeepSnoc(Bucket(m, k), x, owner, p);
    }
  }

  lemma {:induction false} PushNewSifts<T>(m: Buckets<T>, owner: T -> string, p: string, base: Buckets<T>, key: string,
                                           x: T)
    requires SiftsTo(m, owner, p, base) && owner(x) == p
    ensures SiftsTo(PushNew(m, key, x), owner, p, base)
  {
    PushSifts(m, owner, p, base, key, x);
    forall k
      ensures Keep(Bucket(m[key := Bucket(m, key)], k), owner, p) == Bucket(base, k)
    {
      assert Keep(Bucket(m, k), owner, p) == Bucket(base, k);
    }
  }

  lemma {:induction false} PushEntries<T(!new)>(m: Buckets<T>, owner: T -> string, live: set<string>, key: string, x: T)
    requires EntriesIn(m, owner, live) && NoEmpty(m)
    ensures EntriesIn(Push(m, key, x), owner, live + {owner(x)}) && NoEmpty(Push(m, key, x))
    ensures EntriesIn(PushNew(m, key, x), owner, live + {owner(x)}) && NoEmpty(PushNew(m, key, x))
  {
  }

  lemma {:induction false} SiftEntries<T(!new)>(m: Buckets<T>, owner: T -> string, live: set<string>, p: string)
    requires EntriesIn(m, owner, live)
    ensures EntriesIn(Sift(m, owner, p), owner, live - {p}) && NoEmpty(Sift(m, owner, p))
  {
    forall key, x | key in m && x in Keep(m[key], owner, p)
      ensures owner(x) in live - {p}
    {
      KeepHas(m[key], owner, p);
    }
  }
}
