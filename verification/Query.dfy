/** The insertion-ordered set `_objset` of cssquery/query.py and the loop of
    `PrecompiledSelector.query` that fills one such set from every selector in turn. */
module Query {
  import opened Wrappers

  /** A Python object as `_objset.add` sees it: its identity `id(obj)`, its truth value, and,
      when its class defines `__hash__`, the value under which `hash` and `==` identify it. */
  datatype Obj = Obj(addr: int, truthy: bool, hash: Option<int>)

  /** What `_objset` remembers of an object: hash-equality for truthy hashable objects
      (kept in `_hashed`), identity otherwise (kept in `_ids`). */
  datatype Key = Hashed(h: int) | Ident(addr: int)

  function KeyOf(o: Obj): (k: Key)
    ensures k.Hashed? <==> o.truthy && o.hash.Some?
    ensures k.Hashed? ==> k.h == o.hash.value
    ensures k.Ident? ==> k.addr == o.addr
  {
    if o.truthy && o.hash.Some? then Hashed(o.hash.value) else Ident(o.addr)
  }

  /** The keys of the objects in `xs`. */
  function KeySet(xs: seq<Obj>): set<Key>
    decreases |xs|
  {
    if xs == [] then {} else KeySet(xs[..|xs| - 1]) + {KeyOf(xs[|xs| - 1])}
  }

  lemma KeySetSnoc(xs: seq<Obj>, x: Obj)
    ensures KeySet(xs + [x]) == KeySet(xs) + {KeyOf(x)}
  {
    assert (xs + [x])[..|xs|] == xs;
  }

  /** A key is among the keys of `xs` exactly when some object of `xs` has it. */
  lemma {:induction false} KeySetMembers(xs: seq<Obj>, k: Key)
    ensures k in KeySet(xs) <==> exists i :: 0 <= i < |xs| && KeyOf(xs[i]) == k
    decreases |xs|
  {
    if xs != [] {
      var init := xs[..|xs| - 1];
      KeySetMembers(init, k);
      if k in KeySet(init) {
        var i :| 0 <= i < |init| && KeyOf(init[i]) == k;
        assert xs[i] == init[i];
      }
      if exists i :: 0 <= i < |xs| && KeyOf(xs[i]) == k {
        var i :| 0 <= i < |xs| && KeyOf(xs[i]) == k;
        if i < |init| {
          assert init[i] == xs[i];
        }
      }
    }
  }

  /** No two objects of `xs` share a key. */
  ghost predicate Distinct(xs: seq<Obj>)
  {
    forall i, j :: 0 <= i < j < |xs| ==> KeyOf(xs[i]) != KeyOf(xs[j])
  }

  /** The objects of `xs` whose key did not occur earlier, in their order in `xs`: the
      contents of an `_objset` to which `xs` was added one by one. */
  function Dedup(xs: seq<Obj>): seq<Obj>
    decreases |xs|
  {
    if xs == [] then []
    else
      var init, x := xs[..|xs| - 1], xs[|xs| - 1];
      if KeyOf(x) in KeySet(init) then Dedup(init) else Dedup(init) + [x]
  }

  /** Adding one object to what `Dedup` kept. */
  lemma DedupSnoc(xs: seq<Obj>, x: Obj)
    ensures Dedup(xs + [x]) == if KeyOf(x) in KeySet(xs) then Dedup(xs) else Dedup(xs) + [x]
  {
    assert (xs + [x])[..|xs|] == xs;
  }

  /** Deduplication keeps every key that occurs. */
  lemma {:induction false} DedupKeys(xs: seq<Obj>)
    ensures KeySet(Dedup(xs)) == KeySet(xs)
    decreases |xs|
  {
    if xs != [] {
      var init, x := xs[..|xs| - 1], xs[|xs| - 1];
      assert xs == init + [x];
      DedupKeys(init);
      DedupSnoc(init, x);
      KeySetSnoc(Dedup(init), x);
      KeySetSnoc(init, x);
    }
  }

  /** No two kept objects share a key. */
  lemma {:induction false} DedupDistinct(xs: seq<Obj>)
    ensures Distinct(Dedup(xs))
    decreases |xs|
  {
    if xs != [] {
      var init, x := xs[..|xs| - 1], xs[|xs| - 1];
      assert xs == init + [x];
      DedupDistinct(init);
      DedupSnoc(init, x);
      if KeyOf(x) !in KeySet(init) {
        var d := Dedup(init);
        DedupKeys(init);
        forall i | 0 <= i < |d| ensures KeyOf(d[i]) != KeyOf(x) {
          KeySetMembers(d, KeyOf(d[i]));
        }
        assert Distinct(d + [x]) by {
          forall i, j | 0 <= i < j < |d + [x]| ensures KeyOf((d + [x])[i]) != KeyOf((d + [x])[j]) {
            if j < |d| {
              assert (d + [x])[i] == d[i] && (d + [x])[j] == d[j];
            } else {
              assert (d + [x])[i] == d[i] && (d + [x])[j] == x;
            }
          }
        }
      }
    }
  }

  /** Every kept object comes from the input. */
  lemma {:induction false} DedupFrom(xs: seq<Obj>)
    ensures forall o :: o in Dedup(xs) ==> o in xs
    decreases |xs|
  {
    if xs != [] {
      var init, x := xs[..|xs| - 1], xs[|xs| - 1];
      assert xs == init + [x];
      DedupFrom(init);
      DedupSnoc(init, x);
    }
  }

  /** Later additions never reorder or drop what was kept: what `xs` gives is a prefix of
      what `xs + ys` gives. */
  lemma {:induction false} DedupPrefix(xs: seq<Obj>, ys: seq<Obj>)
    ensures Dedup(xs) <= Dedup(xs + ys)
    decreases |ys|
  {
    if ys != [] {
      var init, y := ys[..|ys| - 1], ys[|ys| - 1];
      assert xs + ys == (xs + init) + [y];
      DedupPrefix(xs, init);
      DedupSnoc(xs + init, y);
    } else {
      assert xs + ys == xs;
    }
  }

  /** A sequence without repeated keys is its own deduplication, so deduplicating twice
      changes nothing. */
  lemma {:induction false} DedupOfDistinct(xs: seq<Obj>)
    requires Distinct(xs)
    ensures Dedup(xs) == xs
    decreases |xs|
  {
    if xs != [] {
      var init, x := xs[..|xs| - 1], xs[|xs| - 1];
      assert xs == init + [x];
      assert Distinct(init) by {
        forall i, j | 0 <= i < j < |init| ensures KeyOf(init[i]) != KeyOf(init[j]) {
          assert init[i] == xs[i] && init[j] == xs[j];
        }
      }
      DedupOfDistinct(init);
      DedupSnoc(init, x);
      KeySetMembers(init, KeyOf(x));
    }
  }

  lemma DedupIdempotent(xs: seq<Obj>)
    ensures Dedup(Dedup(xs)) == Dedup(xs)
  {
    DedupDistinct(xs);
    DedupOfDistinct(Dedup(xs));
  }

  /** `_objset`. `added` is the history of `add` calls, which the fields summarise. */
  class ObjSet {
    var items: seq<Obj>
    var ids: set<int>
    var hashed: set<int>
    ghost var added: seq<Obj>

    /** `items` is the deduplicated history; `_hashed` and `_ids` hold exactly the keys of
        `items`, one per entry. */
    ghost predicate Valid()
      reads this
    {
      Summarises(items, ids, hashed, added)
    }

    /** `_objset()`: nothing added, nothing seen. */
    constructor ()
      ensures Valid()
      ensures items == [] && ids == {} && hashed == {} && added == []
    {
      items, ids, hashed := [], {}, {};
      added := [];
    }

    /** `add(obj)`: an object whose key was seen changes nothing; any other is appended and
        its key recorded in the set its kind of key belongs to. */
    method Add(o: Obj)
      requires Valid()
      modifies this
      ensures Valid()
      ensures added == old(added) + [o]
      ensures KeyOf(o) in KeySet(old(items)) ==>
        items == old(items) && ids == old(ids) && hashed == old(hashed)
      ensures KeyOf(o) !in KeySet(old(items)) ==> items == old(items) + [o]
      ensures KeyOf(o) !in KeySet(old(items)) && KeyOf(o).Hashed? ==>
        hashed == old(hashed) + {o.hash.value} && ids == old(ids)
      ensures KeyOf(o) !in KeySet(old(items)) && KeyOf(o).Ident? ==>
        ids == old(ids) + {o.addr} && hashed == old(hashed)
    {
      if o.truthy && o.hash.Some? {
        var h := o.hash.value;
        if h in hashed {
          AddSeen(items, ids, hashed, added, o);
          added := added + [o];
          return;
        }
        AddHashed(items, ids, hashed, added, o);
        hashed := hashed + {h};
      } else {
        if o.addr in ids {
          AddSeen(items, ids, hashed, added, o);
          added := added + [o];
          return;
        }
        AddIdent(items, ids, hashed, added, o);
        ids := ids + {o.addr};
      }
      items := items + [o];
      added := added + [o];
    }
  }

  /** The fields of an `_objset` after the additions `added`: `items` is their
      deduplication, and `_hashed` and `_ids` hold exactly the keys of `items`, one per entry. */
  ghost predicate Summarises(items: seq<Obj>, ids: set<int>, hashed: set<int>, added: seq<Obj>)
  {
    && items == Dedup(added)
    && (forall h :: h in hashed <==> Hashed(h) in KeySet(items))
    && (forall a :: a in ids <==> Ident(a) in KeySet(items))
    && |items| == |hashed| + |ids|
  }

  /** Adding an object whose key was seen leaves the fields a summary of the longer history. */
  lemma AddSeen(items: seq<Obj>, ids: set<int>, hashed: set<int>, added: seq<Obj>, o: Obj)
    requires Summarises(items, ids, hashed, added) && KeyOf(o) in KeySet(items)
    ensures Summarises(items, ids, hashed, added + [o])
  {
    DedupKeys(added);
    DedupSnoc(added, o);
  }

  /** Adding a truthy hashable object with an unseen hash appends it and records the hash. */
  lemma AddHashed(items: seq<Obj>, ids: set<int>, hashed: set<int>, added: seq<Obj>, o: Obj)
    requires Summarises(items, ids, hashed, added) && KeyOf(o).Hashed? && KeyOf(o) !in KeySet(items)
    ensures o.hash.value !in hashed
    ensures Summarises(items + [o], ids, hashed + {o.hash.value}, added + [o])
  {
    DedupKeys(added);
    DedupSnoc(added, o);
    KeySetSnoc(items, o);
  }

  /** Adding any other object with an unseen identity appends it and records the identity. */
  lemma AddIdent(items: seq<Obj>, ids: set<int>, hashed: set<int>, added: seq<Obj>, o: Obj)
    requires Summarises(items, ids, hashed, added) && KeyOf(o).Ident? && KeyOf(o) !in KeySet(items)
    ensures o.addr !in ids
    ensures Summarises(items + [o], ids + {o.addr}, hashed, added + [o])
  {
    DedupKeys(added);
    DedupSnoc(added, o);
    KeySetSnoc(items, o);
  }

  /** The objects the selectors add, selector after selector. */
  function Flatten(m: seq<seq<Obj>>): seq<Obj>
    decreases |m|
  {
    if m == [] then [] else Flatten(m[..|m| - 1]) + m[|m| - 1]
  }

  lemma FlattenSnoc(m: seq<seq<Obj>>, ms: seq<Obj>)
    ensures Flatten(m + [ms]) == Flatten(m) + ms
  {
    assert (m + [ms])[..|m|] == m;
  }

  /** One selector's `_subquery` call, as far as the shared set sees it: the objects it
      matches, `ms`, are added in order. */
  method AddEach(result: ObjSet, ms: seq<Obj>)
    requires result.Valid()
    modifies result
    ensures result.Valid() && result.added == old(result.added) + ms
  {
    for k := 0 to |ms|
      invariant result.Valid()
      invariant result.added == old(result.added) + ms[..k]
    {
      result.Add(ms[k]);
      assert ms[..k + 1] == ms[..k] + [ms[k]];
    }
    assert ms[..|ms|] == ms;
  }

  /** The merging loop of `PrecompiledSelector.query`: one shared `_objset` receives, for
      each selector in order, the objects its sub-query adds (`matches[g]` for selector
      `g`); the result is its `items`. */
  method QueryAll(matches: seq<seq<Obj>>) returns (r: seq<Obj>)
    ensures r == Dedup(Flatten(matches))
    ensures Distinct(r)
    ensures KeySet(r) == KeySet(Flatten(matches))
    ensures forall o :: o in r ==> o in Flatten(matches)
  {
    var result := new ObjSet();
    for g := 0 to |matches|
      invariant result.Valid()
      invariant result.added == Flatten(matches[..g])
    {
      var ms := matches[g];
      AddEach(result, ms);
      assert matches[..g + 1] == matches[..g] + [ms];
      FlattenSnoc(matches[..g], ms);
    }
    assert matches[..|matches|] == matches;
    r := result.items;
    DedupDistinct(Flatten(matches));
    DedupKeys(Flatten(matches));
    DedupFrom(Flatten(matches));
  }

  /** What the first selectors contribute stays at the front of the result, in order:
      a later selector only appends objects not seen before. */
  lemma EarlierSelectorsFirst(matches: seq<seq<Obj>>, g: nat)
    requires g <= |matches|
    ensures Dedup(Flatten(matches[..g])) <= Dedup(Flatten(matches))
  {
    FlattenPrefix(matches, g);
    var rest :| Flatten(matches) == Flatten(matches[..g]) + rest;
    DedupPrefix(Flatten(matches[..g]), rest);
  }

  lemma {:induction false} FlattenPrefix(m: seq<seq<Obj>>, g: nat)
    requires g <= |m|
    ensures exists rest :: Flatten(m) == Flatten(m[..g]) + rest
    decreases |m| - g
  {
    if g == |m| {
      assert m[..g] == m;
      assert Flatten(m) == Flatten(m[..g]) + [];
    } else {
      FlattenPrefix(m, g + 1);
      var rest :| Flatten(m) == Flatten(m[..g + 1]) + rest;
      assert m[..g + 1] == m[..g] + [m[g]];
      FlattenSnoc(m[..g], m[g]);
      assert Flatten(m) == Flatten(m[..g]) + (m[g] + rest);
    }
  }
}
