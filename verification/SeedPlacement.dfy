/**
  Which hosts and plans the generated instances of the bulk seed ever use (server/scripts/seed-bulk-local-data.ts).
  Package, plan and host of an instance are all taken by the remainder of its index, so they are not independent.
 */
module SeedPlacement {
  import opened SeedCatalogue

  // ---------- Multiples and common divisors ----------

  function Prod(a: int, b: int): int {
    a * b
  }

  ghost predicate Multiple(n: int, d: int) {
    exists m: int :: n == Prod(d, m)
  }

  /** The positive common divisor that all common divisors divide. */
  ghost predicate IsGcd(g: int, a: int, b: int) {
    && g > 0 && Multiple(a, g) && Multiple(b, g)
    && forall d :: d > 0 && Multiple(a, d) && Multiple(b, d) ==> Multiple(g, d)
  }

  lemma Distributes(d: int, a: int, b: int)
    ensures Prod(d, a + b) == Prod(d, a) + Prod(d, b) && Prod(d, a - b) == Prod(d, a) - Prod(d, b)
    ensures Prod(a + b, d) == Prod(a, d) + Prod(b, d) && Prod(a - b, d) == Prod(a, d) - Prod(b, d)
  {
  }

  lemma Associates(a: int, b: int, c: int)
    ensures Prod(Prod(a, b), c) == Prod(a, Prod(b, c)) && Prod(a, b) == Prod(b, a)
    ensures Prod(a, Prod(b, c)) == Prod(b, Prod(a, c))
  {
  }

  lemma MultipleSum(a: int, b: int, d: int)
    requires Multiple(a, d) && Multiple(b, d)
    ensures Multiple(a + b, d) && Multiple(a - b, d)
  {
    hide Prod;
    var m, n :| a == Prod(d, m) && b == Prod(d, n);
    Distributes(d, m, n);
    assert a + b == Prod(d, m + n) && a - b == Prod(d, m - n);
  }

  lemma MultipleTimes(a: int, d: int, c: int)
    requires Multiple(a, d)
    ensures Multiple(Prod(a, c), d)
  {
    hide Prod;
    var m :| a == Prod(d, m);
    Associates(d, m, c);
  }

  lemma DivModIs(a: nat, b: nat)
    requires b > 0
    ensures a == Prod(b, a / b) + a % b
  {
  }

  lemma ProdBounds(n: int, u: int)
    requires n > 0
    ensures u >= 1 ==> Prod(n, u) >= n
    ensures u <= -1 ==> Prod(n, u) <= -n
    ensures u == 0 ==> Prod(n, u) == 0
  {
    if u >= 1 {
      assert n * (u - 1) >= 0;
    } else if u <= -1 {
      assert n * (-u - 1) >= 0;
    }
  }

  lemma RemainderIs(i: nat, n: nat, w: int, j: int)
    requires i == Prod(n, w) + j && 0 <= j < n
    ensures i % n == j
  {
    DivModIs(i, n);
    hide Prod;
    Distributes(n, w, i / n);
    ProdBounds(n, w - i / n);
  }

  /** Two numbers have a common divisor that is a combination of them. */
  lemma {:induction false} Bezout(a: nat, b: nat) returns (g: int, x: int, y: int)
    requires a > 0 || b > 0
    ensures g > 0 && Multiple(a, g) && Multiple(b, g) && g == Prod(a, x) + Prod(b, y)
    decreases b
  {
    if b == 0 {
      g, x, y := a, 1, 0;
      assert a == Prod(a, 1) && 0 == Prod(a, 0) && Prod(0, 0) == 0;
    } else {
      var q, r := a / b, a % b;
      DivModIs(a, b);
      var x', y';
      g, x', y' := Bezout(b, r);
      hide Prod;
      x, y := y', x' - Prod(q, y');
      MultipleTimes(b, g, q);
      MultipleSum(Prod(b, q), r, g);
      Distributes(y', Prod(b, q), r);
      Distributes(b, x', Prod(q, y'));
      Associates(b, q, y');
    }
  }

  lemma DividesPositive(d: int, n: int)
    requires d > 0 && n > 0 && Multiple(n, d)
    ensures d <= n
  {
    hide Prod;
    var m :| n == Prod(d, m);
    ProdBounds(d, m);
  }

  /** The greatest common divisor is itself such a combination. */
  lemma GcdIsCombination(g: int, a: nat, b: nat) returns (x: int, y: int)
    requires IsGcd(g, a, b) && a > 0
    ensures g == Prod(a, x) + Prod(b, y)
  {
    var c: int;
    c, x, y := Bezout(a, b);
    hide Prod;
    MultipleTimes(a, g, x);
    MultipleTimes(b, g, y);
    MultipleSum(Prod(a, x), Prod(b, y), g);
    DividesPositive(g, c);
    DividesPositive(c, g);
  }

  // ---------- Two remainders of one index ----------

  predicate Hits(i: nat, l: nat, n: nat, k: nat, j: nat)
    requires l > 0 && n > 0
  {
    i % l == k && i % n == j
  }

  lemma HitDiffers(i: nat, l: nat, n: nat, k: nat, j: nat, g: int)
    requires l > 0 && n > 0 && IsGcd(g, l, n) && Hits(i, l, n, k, j)
    ensures Multiple(k - j, g)
  {
    DivModIs(i, l);
    DivModIs(i, n);
    hide Prod;
    MultipleTimes(n, g, i / n);
    MultipleTimes(l, g, i / l);
    MultipleSum(Prod(n, i / n), Prod(l, i / l), g);
  }

  lemma HitExists(l: nat, n: nat, k: nat, j: nat, g: int) returns (i: nat)
    requires l > 0 && n > 0 && k < l && j < n && IsGcd(g, l, n) && Multiple(k - j, g)
    ensures Hits(i, l, n, k, j) && i < Prod(l, n)
  {
    var x, y := GcdIsCombination(g, l, n);
    var m :| k - j == Prod(g, m);
    var t, z := (0 - Prod(x, m)) % n, (0 - Prod(x, m)) / n;
    assert 0 - Prod(x, m) == Prod(n, z) + t;
    Below(l, n, k, t);
    i := k + Prod(l, t);
    Solves(l, n, k, j, g, m, x, y, t, z);
    RemainderIs(i, l, t, k);
    RemainderIs(i, n, Prod(m, y) - Prod(l, z), j);
  }

  lemma Below(l: nat, n: nat, k: nat, t: nat)
    requires k < l && t < n
    ensures 0 <= k + Prod(l, t) < Prod(l, n)
  {
    hide Prod;
    ProdBounds(l, t);
    Distributes(l, n, t);
    ProdBounds(l, n - t);
  }

  lemma Solves(l: int, n: int, k: int, j: int, g: int, m: int, x: int, y: int, t: int, z: int)
    requires g == Prod(l, x) + Prod(n, y) && k - j == Prod(g, m) && 0 - Prod(x, m) == Prod(n, z) + t
    ensures k + Prod(l, t) == Prod(n, Prod(m, y) - Prod(l, z)) + j
  {
    hide Prod;
    Distributes(m, Prod(l, x), Prod(n, y));
    Associates(l, x, m);
    Associates(n, y, m);
    Associates(m, y, n);
    Distributes(l, Prod(x, m), t);
    Distributes(l, Prod(x, m) + t, Prod(n, z));
    Distributes(n, Prod(m, y), Prod(l, z));
    Associates(l, n, z);
    Associates(m, y, 1);
    assert Prod(x, m) + t == 0 - Prod(n, z);
    NegatedFactor(l, Prod(n, z));
  }

  lemma NegatedFactor(a: int, b: int)
    ensures Prod(a, 0 - b) == 0 - Prod(a, b)
  {
  }

  /** Among the indices with one remainder those with another exist exactly when the greatest divisor allows it. */
  lemma HitIff(l: nat, n: nat, k: nat, j: nat, g: int)
    requires l > 0 && n > 0 && k < l && j < n && IsGcd(g, l, n)
    ensures (exists i: nat :: Hits(i, l, n, k, j)) <==> Multiple(k - j, g)
    ensures (exists i: nat :: Hits(i, l, n, k, j)) <==> exists i: nat :: i < Prod(l, n) && Hits(i, l, n, k, j)
  {
    hide Prod, Hits, Multiple, IsGcd;
    if i: nat :| Hits(i, l, n, k, j) {
      HitDiffers(i, l, n, k, j, g);
    }
    if Multiple(k - j, g) {
      var i := HitExists(l, n, k, j, g);
    }
  }

  // ---------- Instances ----------

  predicate Placeable(packages: seq<Package>) {
    packages != [] && forall p :: p in packages ==> p.plans != [] && p.hostNames != []
  }

  lemma InPackage(packages: seq<Package>, k: nat)
    requires Placeable(packages) && k < |packages|
    ensures packages[k].plans != [] && packages[k].hostNames != []
  {
    assert packages[k] in packages;
  }

  /** The instance of that index is one of package `k`, on its host `j`. */
  ghost predicate UsesHost(packages: seq<Package>, index: nat, k: nat, j: nat)
    requires Placeable(packages) && k < |packages| && j < |packages[k].hostNames|
  {
    InPackage(packages, index % |packages|);
    && index % |packages| == k && Place(packages, index).package == packages[k]
    && Place(packages, index).hostName == packages[k].hostNames[j]
  }

  ghost predicate UsesPlan(packages: seq<Package>, index: nat, k: nat, j: nat)
    requires Placeable(packages) && k < |packages| && j < |packages[k].plans|
  {
    InPackage(packages, index % |packages|);
    && index % |packages| == k && Place(packages, index).package == packages[k]
    && Place(packages, index).plan == packages[k].plans[j]
  }

  /**
    A package places an instance on a host of its own if and only if the greatest common divisor of the numbers of
    packages and of its hosts divides the difference of the two positions.
   */
  lemma HostUsedIff(packages: seq<Package>, k: nat, j: nat, g: int)
    requires Placeable(packages) && k < |packages| && j < |packages[k].hostNames|
    requires forall a, b :: 0 <= a < b < |packages[k].hostNames| ==>
               packages[k].hostNames[a] != packages[k].hostNames[b]
    requires IsGcd(g, |packages|, |packages[k].hostNames|)
    ensures (exists index: nat :: UsesHost(packages, index, k, j)) <==> Multiple(k - j, g)
  {
    var l, n := |packages|, |packages[k].hostNames|;
    HitIff(l, n, k, j, g);
    forall index: nat ensures UsesHost(packages, index, k, j) <==> Hits(index, l, n, k, j) {
    }
    if index: nat :| Hits(index, l, n, k, j) {
      assert UsesHost(packages, index, k, j);
    }
  }

  /** The same for the plans of a package. */
  lemma PlanUsedIff(packages: seq<Package>, k: nat, j: nat, g: int)
    requires Placeable(packages) && k < |packages| && j < |packages[k].plans|
    requires forall a, b :: 0 <= a < b < |packages[k].plans| ==> packages[k].plans[a] != packages[k].plans[b]
    requires IsGcd(g, |packages|, |packages[k].plans|)
    ensures (exists index: nat :: UsesPlan(packages, index, k, j)) <==> Multiple(k - j, g)
  {
    var l, n := |packages|, |packages[k].plans|;
    HitIff(l, n, k, j, g);
    forall index: nat ensures UsesPlan(packages, index, k, j) <==> Hits(index, l, n, k, j) {
    }
    if index: nat :| Hits(index, l, n, k, j) {
      assert UsesPlan(packages, index, k, j);
    }
  }

  /** When the number of packages is a multiple of it, the remainder of the index is fixed by the package. */
  lemma RemainderFixed(index: nat, l: nat, n: nat)
    requires n > 0 && l > 0 && l % n == 0
    ensures index % n == index % l % n
  {
    DivModIs(index, l);
    DivModIs(l, n);
    DivModIs(index % l, n);
    hide Prod;
    var q, a, b := index / l, l / n, index % l / n;
    Associates(n, a, q);
    Associates(q, n, a);
    Distributes(n, Prod(a, q), b);
    RemainderIs(index, n, Prod(a, q) + b, index % l % n);
  }

  /** In that case a package uses a single one of its hosts, and a single one of its plans. */
  lemma OneOfEach(packages: seq<Package>, index: nat)
    requires Placeable(packages)
    ensures var k := index % |packages|;
            && packages[k].plans != [] && packages[k].hostNames != []
            && (|packages| % |packages[k].hostNames| == 0 ==>
                  Place(packages, index).hostName == packages[k].hostNames[k % |packages[k].hostNames|])
            && (|packages| % |packages[k].plans| == 0 ==>
                  Place(packages, index).plan == packages[k].plans[k % |packages[k].plans|])
  {
    var k := index % |packages|;
    InPackage(packages, k);
    if |packages| % |packages[k].hostNames| == 0 {
      RemainderFixed(index, |packages|, |packages[k].hostNames|);
    }
    if |packages| % |packages[k].plans| == 0 {
      RemainderFixed(index, |packages|, |packages[k].plans|);
    }
  }

  lemma MultipleIff(n: int, d: int)
    requires d > 0
    ensures Multiple(n, d) <==> n % d == 0
  {
    assert n == d * (n / d) + n % d;
    if n % d == 0 {
      assert n == Prod(d, n / d);
    }
    if m: int :| n == Prod(d, m) {
      assert n == d * m;
      MultipleRemainder(d, m);
    }
  }

  lemma MultipleRemainder(d: int, m: int)
    requires d > 0
    ensures (d * m) % d == 0
  {
    var n, q, r := d * m, (d * m) / d, (d * m) % d;
    assert n == d * q + r;
    ProdBounds(d, m - q);
    Distributes(d, m, q);
  }

  /** With three plans, the divisor is three or one. */
  lemma GcdWithThree(l: nat)
    requires l > 0
    ensures IsGcd(if l % 3 == 0 then 3 else 1, l, 3)
  {
    hide Multiple;
    var g := if l % 3 == 0 then 3 else 1;
    MultipleIff(l, g);
    MultipleIff(3, g);
    forall d | d > 0 && Multiple(l, d) && Multiple(3, d)
      ensures Multiple(g, d)
    {
      MultipleIff(l, d);
      MultipleIff(3, d);
      MultipleIff(g, d);
      DividesThree(d);
    }
  }

  lemma DividesThree(d: int)
    requires d > 0 && 3 % d == 0
    ensures d == 1 || d == 3
  {
    assert 3 % 2 == 1;
    MultipleIff(3, d);
    DividesPositive(d, 3);
  }

  lemma PlansDiffer(fl: real -> real, owners: seq<string>, hosts: seq<Host>, k: nat)
    requires k < 4 * |owners|
    ensures var plans := PackagesUpTo(fl, owners, hosts, |owners|)[k].plans;
            |plans| == 3 && forall a, b :: 0 <= a < b < |plans| ==> plans[a] != plans[b]
  {
    hide PackagesUpTo;
    PlansPresent(fl, owners, hosts, |owners|, k);
    PackageTerms(fl, owners, hosts, |owners|, k);
    var plans := PackagesUpTo(fl, owners, hosts, |owners|)[k].plans;
    assert plans[0].price < plans[1].price < plans[2].price;
  }

  /** Some instance of the package has that plan. */
  ghost predicate PlanUsed(packages: seq<Package>, k: nat, j: nat)
    requires Placeable(packages) && k < |packages| && j < |packages[k].plans|
  {
    exists index: nat :: UsesPlan(packages, index, k, j)
  }

  /** Every plan of every generated package gets an instance if and only if the owners are no multiple of three. */
  lemma EveryPlanUsedIff(fl: real -> real, owners: seq<string>, hosts: seq<Host>)
    requires owners != [] && Placeable(PackagesUpTo(fl, owners, hosts, |owners|))
    ensures var packages := PackagesUpTo(fl, owners, hosts, |owners|);
            && (forall k :: 0 <= k < |packages| ==> |packages[k].plans| == 3)
            && ((forall k: nat, j: nat :: k < |packages| && j < 3 ==> PlanUsed(packages, k, j)) <==>
                |owners| % 3 != 0)
  {
    hide PackagesUpTo, UsesPlan, Placeable;
    var packages := PackagesUpTo(fl, owners, hosts, |owners|);
    forall k: nat | k < |packages| ensures |packages[k].plans| == 3 {
      PlansPresent(fl, owners, hosts, |owners|, k);
    }
    var g := if |packages| % 3 == 0 then 3 else 1;
    GcdWithThree(|packages|);
    forall k: nat, j: nat | k < |packages| && j < 3
      ensures PlanUsed(packages, k, j) <==> (k - j) % g == 0
    {
      PlansDiffer(fl, owners, hosts, k);
      PlanUsedIff(packages, k, j, g);
      MultipleIff(k - j, g);
    }
    if |packages| % 3 == 0 {
      assert !PlanUsed(packages, 0, 1);
    }
  }
}
