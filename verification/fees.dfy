/**
 The fee quote: the subtotal of the selected courses' fees, a discount tier
 chosen by the length of the selection, and 15% VAT charged on the
 discounted amount. All amounts are exact rationals in rand.
 */
module Fees {
  import opened Catalog
  import opened Selection

  /** The VAT factor applied after the discount (15% VAT). */
  const VatFactor: real := 1.15

  /** What one selected id adds to the subtotal: its course's fee, or 0 when it resolves to nothing. */
  function FeeOf(catalog: seq<Course>, id: int): (f: real)
    ensures !HasId(catalog, id) ==> f == 0.0
    ensures forall i :: 0 <= i < |catalog| && catalog[i].id == id && UniqueIds(catalog) ==>
                        f == catalog[i].fee
    ensures NonNegativeFees(catalog) ==> f >= 0.0
  {
    match Find(catalog, id)
    case Some(c) => c.fee
    case None => 0.0
  }

  /**
   The subtotal, accumulated from the left over the selection as a reduce
   starting at 0 would.
   */
  function Subtotal(catalog: seq<Course>, selection: seq<int>): (r: real)
    ensures NonNegativeFees(catalog) ==> r >= 0.0
  {
    if |selection| == 0 then 0.0
    else Subtotal(catalog, selection[..|selection| - 1]) + FeeOf(catalog, selection[|selection| - 1])
  }

  /** The running total splits over any cut of the selection. */
  lemma {:induction false} SubtotalAppend(catalog: seq<Course>, a: seq<int>, b: seq<int>)
    ensures Subtotal(catalog, a + b) == Subtotal(catalog, a) + Subtotal(catalog, b)
    decreases |b|
  {
    if |b| == 0 {
      assert a + b == a;
    } else {
      var init := b[..|b| - 1];
      assert (a + b)[..|a + b| - 1] == a + init;
      SubtotalAppend(catalog, a, init);
    }
  }

  /** Which of two runs of picks came first never changes the subtotal. */
  lemma SubtotalOrderFree(catalog: seq<Course>, a: seq<int>, b: seq<int>)
    ensures Subtotal(catalog, a + b) == Subtotal(catalog, b + a)
  {
    SubtotalAppend(catalog, a, b);
    SubtotalAppend(catalog, b, a);
  }

  /**
   Reference definition of the subtotal of a set of ids: walk the catalog
   and add the fee of each course whose id is in the set.
   */
  function CatalogSum(catalog: seq<Course>, ids: set<int>): real
  {
    if |catalog| == 0 then 0.0
    else (if catalog[0].id in ids then catalog[0].fee else 0.0) + CatalogSum(catalog[1..], ids)
  }

  /** Adding an id that no course carries leaves the reference sum alone. */
  lemma {:induction false} CatalogSumIgnoresUnknown(catalog: seq<Course>, ids: set<int>, x: int)
    requires !HasId(catalog, x)
    ensures CatalogSum(catalog, ids + {x}) == CatalogSum(catalog, ids)
    decreases |catalog|
  {
    if |catalog| > 0 {
      assert catalog[0].id != x;
      assert !HasId(catalog[1..], x) by {
        assert forall i :: 1 <= i < |catalog| ==> catalog[1..][i - 1] == catalog[i];
      }
      CatalogSumIgnoresUnknown(catalog[1..], ids, x);
    }
  }

  /** Adding a new id to the set adds exactly the fee it resolves to. */
  lemma {:induction false} CatalogSumAdd(catalog: seq<Course>, ids: set<int>, x: int)
    requires UniqueIds(catalog)
    requires x !in ids
    ensures CatalogSum(catalog, ids + {x}) == CatalogSum(catalog, ids) + FeeOf(catalog, x)
    decreases |catalog|
  {
    if |catalog| > 0 {
      var tail := catalog[1..];
      assert forall i :: 1 <= i < |catalog| ==> tail[i - 1] == catalog[i];
      assert UniqueIds(tail);
      if catalog[0].id == x {
        assert !HasId(tail, x);
        CatalogSumIgnoresUnknown(tail, ids, x);
        FindResolvesUniquely(catalog, 0);
      } else {
        CatalogSumAdd(tail, ids, x);
        assert FeeOf(catalog, x) == FeeOf(tail, x) by {
          assert Find(catalog, x) == Find(tail, x);
        }
      }
    }
  }

  /**
   For a duplicate-free selection over a catalog with unique ids, the
   subtotal is the sum of the fees of exactly the catalog courses that are
   selected: order does not matter and unknown ids add nothing.
   */
  lemma {:induction false} SubtotalIsCatalogSum(catalog: seq<Course>, selection: seq<int>)
    requires UniqueIds(catalog)
    requires NoDup(selection)
    ensures Subtotal(catalog, selection) == CatalogSum(catalog, Ids(selection))
    decreases |selection|
  {
    if |selection| == 0 {
      assert Ids(selection) == {};
      CatalogSumEmpty(catalog);
    } else {
      var init := selection[..|selection| - 1];
      var last := selection[|selection| - 1];
      assert selection == init + [last];
      assert NoDup(init);
      assert last !in init;
      assert Ids(selection) == Ids(init) + {last};
      SubtotalIsCatalogSum(catalog, init);
      CatalogSumAdd(catalog, Ids(init), last);
    }
  }

  lemma {:induction false} CatalogSumEmpty(catalog: seq<Course>)
    ensures CatalogSum(catalog, {}) == 0.0
    decreases |catalog|
  {
    if |catalog| > 0 {
      CatalogSumEmpty(catalog[1..]);
    }
  }

  /** An id that resolves to no course contributes nothing to the subtotal. */
  lemma UnknownIdAddsNothing(catalog: seq<Course>, selection: seq<int>, x: int)
    requires !HasId(catalog, x)
    ensures Subtotal(catalog, selection + [x]) == Subtotal(catalog, selection)
  {
    assert (selection + [x])[..|selection|] == selection;
  }

  /**
   The discount rate for a selection of `count` ids: none for zero or one,
   5% for two, 10% for three, 15% for any larger count.
   */
  function DiscountRate(count: nat): (d: real)
    ensures 0.0 <= d <= 0.15
  {
    if count == 2 then 0.05
    else if count == 3 then 0.10
    else if count > 3 then 0.15
    else 0.0
  }

  /**
   The tiers as one closed form: 5 percentage points per selected course
   beyond the first, capped at three steps.
   */
  lemma DiscountRateClosedForm(count: nat)
    ensures DiscountRate(count) ==
            (if count <= 1 then 0 else if count >= 4 then 3 else count - 1) as real * 0.05
  {
  }

  /** More courses never earn a smaller discount, and the tier stops growing at four. */
  lemma DiscountRateMonotone(m: nat, n: nat)
    requires m <= n
    ensures DiscountRate(m) <= DiscountRate(n)
    ensures m >= 4 ==> DiscountRate(m) == DiscountRate(n)
  {
  }

  /**
   The quote for a subtotal and a selection length: the subtotal less the
   tier's discount, then with VAT added on the discounted amount.
   */
  function Quote(subtotal: real, count: nat): (q: real)
    ensures subtotal >= 0.0 ==> subtotal * 0.85 * VatFactor <= q <= subtotal * VatFactor
    ensures subtotal >= 0.0 ==> q >= 0.0
    ensures subtotal == 0.0 ==> q == 0.0
  {
    var rate := DiscountRate(count);
    assert subtotal >= 0.0 ==> subtotal * 0.85 <= subtotal * (1.0 - rate) <= subtotal by {
      if subtotal >= 0.0 {
        Scale(subtotal, 0.85, 1.0 - rate);
        Scale(subtotal, 1.0 - rate, 1.0);
      }
    }
    var discounted := subtotal * (1.0 - rate);
    assert subtotal >= 0.0 ==> subtotal * 0.85 * VatFactor <= discounted * VatFactor <= subtotal * VatFactor by {
      if subtotal >= 0.0 {
        Scale(VatFactor, subtotal * 0.85, discounted);
        Scale(VatFactor, discounted, subtotal);
      }
    }
    discounted * VatFactor
  }

  /** The quote for a selection: its subtotal, tiered by the selection's length. */
  function Total(catalog: seq<Course>, selection: seq<int>): (t: real)
    ensures |selection| == 0 ==> t == 0.0
    ensures Subtotal(catalog, selection) >= 0.0 ==>
              Subtotal(catalog, selection) * 0.85 * VatFactor <= t <= Subtotal(catalog, selection) * VatFactor
    ensures NonNegativeFees(catalog) ==> t >= 0.0
  {
    Quote(Subtotal(catalog, selection), |selection|)
  }

  lemma Scale(k: real, a: real, b: real)
    requires k >= 0.0 && a <= b
    ensures k * a <= k * b && a * k <= b * k
  {
  }

  /**
   The tier a quote lands in, by selection length: the subtotal scaled by
   1, 0.95, 0.90 or 0.85, then by 1.15.
   */
  lemma TotalByTier(catalog: seq<Course>, selection: seq<int>)
    ensures |selection| <= 1 ==> Total(catalog, selection) == Subtotal(catalog, selection) * 1.15
    ensures |selection| == 2 ==> Total(catalog, selection) == Subtotal(catalog, selection) * 0.95 * 1.15
    ensures |selection| == 3 ==> Total(catalog, selection) == Subtotal(catalog, selection) * 0.90 * 1.15
    ensures |selection| >= 4 ==> Total(catalog, selection) == Subtotal(catalog, selection) * 0.85 * 1.15
  {
  }

  /**
   Unresolved ids still count towards the tier: adding one leaves the
   subtotal alone but may move the quote into a higher discount tier.
   */
  lemma UnknownIdStillCountsForTier(catalog: seq<Course>, selection: seq<int>, x: int)
    requires !HasId(catalog, x)
    ensures Total(catalog, selection + [x]) == Quote(Subtotal(catalog, selection), |selection| + 1)
  {
    UnknownIdAddsNothing(catalog, selection, x);
  }

  /**
   End to end: after any sequence of taps from the empty selection, the
   quote is the reference sum over the selected catalog courses, discounted
   by the tier for the number of distinct selected ids, plus VAT.
   */
  lemma QuoteAfterTaps(taps: seq<int>)
    ensures |Run(taps)| == |Ids(Run(taps))|
    ensures Total(Courses, Run(taps)) == Quote(CatalogSum(Courses, Ids(Run(taps))), |Ids(Run(taps))|)
  {
    var s := Run(taps);
    CatalogShape();
    SubtotalIsCatalogSum(Courses, s);
    NoDupCard(s);
  }

  /** Looking up any catalog id gives its listed fee: 1500 for ids 1 to 4, 750 for ids 5 to 7. */
  lemma FeeOfCatalog(id: int)
    requires 1 <= id <= 7
    ensures FeeOf(Courses, id) == if id <= 4 then 1500.0 else 750.0
  {
    CatalogShape();
    assert Courses[id - 1].id == id;
  }

  /** A two-entry selection costs the two looked-up fees. */
  lemma SubtotalOfPair(catalog: seq<Course>, selection: seq<int>)
    requires |selection| == 2
    ensures Subtotal(catalog, selection) == FeeOf(catalog, selection[0]) + FeeOf(catalog, selection[1])
  {
    var first := selection[..1];
    assert first[0] == selection[0];
    assert Subtotal(catalog, first) == FeeOf(catalog, selection[0]) by {
      assert first[..0] == [];
    }
  }

  /** First Aid (1500) and Child Minding (750) add up to 2250. */
  lemma SubtotalFirstAidAndChildMinding()
    ensures Subtotal(Courses, [1, 5]) == 2250.0
  {
    SubtotalOfPair(Courses, [1, 5]);
    FeeOfCatalog(1);
    FeeOfCatalog(5);
  }

  /** First Aid and Child Minding: 2250 less 5%, plus VAT, is 2458.125. */
  lemma QuoteFirstAidAndChildMinding()
    ensures Total(Courses, [1, 5]) == 2458.125
  {
    SubtotalFirstAidAndChildMinding();
    assert Quote(2250.0, 2) == 2458.125;
  }

  /** Any set of ids that covers the whole catalog sums to 4 * 1500 + 3 * 750 = 8250. */
  lemma CatalogSumFull(ids: set<int>)
    requires {1, 2, 3, 4, 5, 6, 7} <= ids
    ensures CatalogSum(Courses, ids) == 8250.0
  {
    var c := Courses;
    assert CatalogSum(c[7..], ids) == 0.0;
    assert CatalogSum(c[6..], ids) == 750.0 by { assert c[6..][1..] == c[7..]; }
    assert CatalogSum(c[5..], ids) == 1500.0 by { assert c[5..][1..] == c[6..]; }
    assert CatalogSum(c[4..], ids) == 2250.0 by { assert c[4..][1..] == c[5..]; }
    assert CatalogSum(c[3..], ids) == 3750.0 by { assert c[3..][1..] == c[4..]; }
    assert CatalogSum(c[2..], ids) == 5250.0 by { assert c[2..][1..] == c[3..]; }
    assert CatalogSum(c[1..], ids) == 6750.0 by { assert c[1..][1..] == c[2..]; }
  }

  /** A duplicate-free selection that covers the whole catalog costs 8250 before discount and VAT. */
  lemma SubtotalFullSelection(selection: seq<int>)
    requires NoDup(selection)
    requires {1, 2, 3, 4, 5, 6, 7} <= Ids(selection)
    ensures Subtotal(Courses, selection) == 8250.0
  {
    CatalogShape();
    SubtotalIsCatalogSum(Courses, selection);
    CatalogSumFull(Ids(selection));
  }

  /**
   Any duplicate-free selection that covers all seven courses, in any order
   and with or without unknown ids, is quoted 8250 less 15%, plus VAT:
   8064.375.
   */
  lemma QuoteFullSelection(selection: seq<int>)
    requires NoDup(selection)
    requires {1, 2, 3, 4, 5, 6, 7} <= Ids(selection)
    ensures Total(Courses, selection) == 8064.375
  {
    SubtotalFullSelection(selection);
    FullSelectionLength(selection);
    TotalByTier(Courses, selection);
  }

  /** Selecting every course in catalog order: 8250 less 15%, plus VAT, is 8064.375. */
  lemma QuoteAllCourses()
    ensures Total(Courses, [1, 2, 3, 4, 5, 6, 7]) == 8064.375
  {
    var all := [1, 2, 3, 4, 5, 6, 7];
    assert NoDup(all) by {
      forall i, j | 0 <= i < j < |all| ensures all[i] != all[j] {
        assert all[i] == i + 1 && all[j] == j + 1;
      }
    }
    assert {1, 2, 3, 4, 5, 6, 7} <= Ids(all) by {
      assert all[0] in Ids(all) && all[1] in Ids(all) && all[2] in Ids(all) && all[3] in Ids(all);
      assert all[4] in Ids(all) && all[5] in Ids(all) && all[6] in Ids(all);
    }
    QuoteFullSelection(all);
  }

  lemma FullSelectionLength(selection: seq<int>)
    requires NoDup(selection)
    requires {1, 2, 3, 4, 5, 6, 7} <= Ids(selection)
    ensures |selection| >= 7
  {
    NoDupCard(selection);
    SubsetCard({1, 2, 3, 4, 5, 6, 7}, Ids(selection));
    SevenIds();
  }

  lemma SevenIds()
    ensures |{1, 2, 3, 4, 5, 6, 7}| == 7
  {
  }

  lemma SubsetCard(a: set<int>, b: set<int>)
    requires a <= b
    ensures |a| <= |b|
  {
    assert b == a + (b - a);
  }
}
