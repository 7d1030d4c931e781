/** What the update functions of the editor do to the lookups the resolver performs. */
module EditingFacts {
  import opened Wrappers
  import opened Sequences
  import opened Ordering
  import opened Evidence
  import opened Catalog
  import opened Editing
  import opened OrderIndependence

  // ----- bindings

  function BindingOrEmpty(bindings: seq<Binding>, childId: string): Binding {
    match FindBinding(bindings, childId)
    case Some(b) => b
    case None => Binding(childId, [], [])
  }

  /** An update reaches exactly one child. */
  lemma {:induction false} UpdatedBinding(bindings: seq<Binding>, childId: string, update: Binding -> Binding,
                                          other: string)
    requires forall b: Binding :: update(b).childId == b.childId
    ensures FindBinding(WithBinding(bindings, childId, update), other)
            == if other == childId then Some(update(BindingOrEmpty(bindings, childId)))
               else FindBinding(bindings, other)
  {
    if bindings != [] && bindings[0].childId != childId {
      UpdatedBinding(bindings[1..], childId, update, other);
    }
  }

  lemma {:induction false} UpdatedChildIds(bindings: seq<Binding>, childId: string, update: Binding -> Binding)
    requires forall b: Binding :: update(b).childId == b.childId
    ensures ChildIds(WithBinding(bindings, childId, update))
            == ChildIds(bindings) + if childId in ChildIds(bindings) then [] else [childId]
  {
    if bindings != [] {
      assert ChildIds(bindings) == [bindings[0].childId] + ChildIds(bindings[1..]);
      if bindings[0].childId != childId {
        UpdatedChildIds(bindings[1..], childId, update);
      }
    }
  }

  lemma {:induction false} UpdatedMembers(bindings: seq<Binding>, childId: string, update: Binding -> Binding)
    ensures forall b :: b in WithBinding(bindings, childId, update)
                        ==> b in bindings || b == update(BindingOrEmpty(bindings, childId))
  {
    if bindings != [] && bindings[0].childId != childId {
      UpdatedMembers(bindings[1..], childId, update);
    }
  }

  // ----- products

  lemma {:induction false} UpdatedProducts(products: seq<Product>, id: string, update: Product -> Product)
    requires Distinct(ProductIds(products))
    requires forall p: Product :: update(p).id == p.id
    ensures ProductIds(WithProduct(products, id, update)) == ProductIds(products)
    ensures forall q :: q in WithProduct(products, id, update)
                        <==> (q in products && q.id != id)
                             || (exists p :: p in products && p.id == id && q == update(p))
  {
    if products != [] {
      assert products == [products[0]] + products[1..];
      assert ProductIds(products)[1..] == ProductIds(products[1..]);
      if products[0].id == id {
        assert forall p :: p in products[1..] ==> p.id != id by {
          forall p | p in products[1..] ensures p.id != id {
            var i :| 0 <= i < |products[1..]| && products[1..][i] == p;
            assert ProductIds(products)[i + 1] == p.id;
          }
        }
      } else {
        UpdatedProducts(products[1..], id, update);
      }
    }
  }

  lemma {:induction false} FindProductByKey(products: seq<Product>, p: Product)
    requires Distinct(ProductIds(products)) && p in products
    ensures FindProduct(products, p.id) == Some(p)
  {
    FindByKey(products, p, (x: Product) => x.id == p.id, (x: Product) => x.id);
  }

  lemma {:induction false} DistinctAfterFilter<T>(s: seq<T>, keep: T -> bool, key: T -> string)
    requires Distinct(Map(s, key))
    ensures Distinct(Map(Filter(s, keep), key))
  {
    if s != [] {
      assert Map(s, key)[1..] == Map(s[1..], key);
      DistinctAfterFilter(s[1..], keep, key);
      var rest := Filter(s[1..], keep);
      forall j | 0 <= j < |rest| ensures key(rest[j]) != key(s[0]) {
        assert rest[j] in s[1..];
        var i :| 0 <= i < |s[1..]| && s[1..][i] == rest[j];
        assert Map(s, key)[i + 1] == key(rest[j]);
      }
    }
  }

  // ----- identified lists

  /** With unique product ids the identified list has no repetitions. */
  lemma {:induction false} IdentifiedOnce(products: seq<Product>, ev: AppEvidence)
    requires Distinct(ProductIds(products))
    ensures Distinct(IdentifyProducts(products, ev))
    ensures SortedBy(IdentifyProducts(products, ev), AtMost)
  {
    var test := (p: Product) => Identifies(p, ev);
    DistinctAfterFilter(products, test, (p: Product) => p.id);
    DistinctPermutes(ProductIds(Filter(products, test)), IdentifyProducts(products, ev));
    AtMostIsTotal();
    SortSorts(ProductIds(Filter(products, test)), AtMost);
  }

  /** Two ascending lists without repetitions that have the same members are the same list. */
  lemma {:induction false} SameIdentified(s: seq<string>, t: seq<string>)
    requires SortedBy(s, AtMost) && SortedBy(t, AtMost) && Distinct(s) && Distinct(t)
    requires forall x :: x in s <==> x in t
    ensures s == t
  {
    if s == [] {
      assert forall i :: 0 <= i < |t| ==> t[i] in t;
    } else {
      assert s[0] in s && s[0] in t;
      assert t[0] in t && t[0] in s;
      AtMostAntisymmetric(s[0], t[0]);
      forall x ensures x in s[1..] <==> x in t[1..] {
        assert x in s <==> x == s[0] || x in s[1..];
        assert x in t <==> x == t[0] || x in t[1..];
      }
      SameIdentified(s[1..], t[1..]);
    }
  }

  lemma {:induction false} SingleIdentified(s: seq<string>, x: string)
    requires Distinct(s) && forall y :: y in s <==> y == x
    ensures s == [x]
  {
    assert x in s;
    assert s[0] in s && s[|s| - 1] in s;
  }
}
