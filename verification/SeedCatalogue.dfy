/**
  The generated hosts, packages, plans and instances of the bulk seed
  (server/scripts/seed-bulk-local-data.ts): rounding of plan sizes, placement of instances on admissible
  hosts, and the layout of public ports.
 */
module SeedCatalogue {

  // ---------- Rounding ----------

  /** The relative error of an operation on double-precision numbers. */
  const UNIT := 1.0 / 9007199254740992.0

  /** Up to here every whole number is a double. */
  const EXACT := 9007199254740992.0

  /**
    How a real result becomes a double: monotonically, with zero and one half kept, and with a relative error of at
    most one unit for magnitudes far from overflow and underflow; about others nothing more is said.
   */
  ghost predicate Doubles(fl: real -> real) {
    && (forall x, y :: x <= y ==> fl(x) <= fl(y))
    && (forall x :: UNIT <= x <= EXACT ==> x - x * UNIT <= fl(x) <= x + x * UNIT)
    && fl(0.0) == 0.0 && fl(0.5) == 0.5
  }

  /** The quotient as the code computes it, rounded half up to a whole number. */
  function Steps(fl: real -> real, value: real, step: nat): int
    requires step > 0
  {
    (fl(value / step as real) + 0.5).Floor
  }

  /** Whole steps, and at least one; products of whole numbers of this size are exact. */
  function RoundToStep(fl: real -> real, value: real, step: nat): int
    requires step > 0
  {
    var rounded := Steps(fl, value, step) * step;
    if rounded >= step then rounded else step
  }

  // Small facts about products and quotients of reals.

  lemma Product(x: real, y: real)
    requires x >= 0.0 && y >= 0.0
    ensures x * y >= 0.0
  {
  }

  lemma LeqTimes(a: real, b: real, s: real)
    requires a <= b && s >= 0.0
    ensures a * s <= b * s
  {
    Product(b - a, s);
    Distribute(b, a, s);
  }

  lemma DivTimes(v: real, s: real)
    requires s > 0.0
    ensures v / s * s == v
  {
  }

  lemma LeqWithoutFactor(a: real, b: real, s: real)
    requires a * s <= b * s && s > 0.0
    ensures a <= b
  {
    Distribute(a, b, s);
    if a > b {
      PositiveProduct(a - b, s);
    }
  }

  lemma Distribute(a: real, b: real, s: real)
    ensures (a - b) * s == a * s - b * s
  {
  }

  lemma PositiveProduct(x: real, y: real)
    requires x > 0.0 && y > 0.0
    ensures x * y > 0.0
  {
  }

  lemma Associate(a: real, b: real, c: real)
    ensures a * (b * c) == (a * b) * c
  {
  }

  lemma QuotientBelow(v: real, s: real)
    requires v >= 0.0 && s >= 1.0
    ensures v / s <= v
  {
    DivTimes(v, s);
    LeqTimes(1.0, s, v);
    LeqWithoutFactor(v / s, v, s);
  }

  lemma QuotientAbove(v: real, s: real)
    requires 0.0 < s <= v
    ensures v / s >= 1.0
  {
    DivTimes(v, s);
    LeqWithoutFactor(1.0, v / s, s);
  }

  lemma ScaledWithoutFactor(q: real, m: real, s: real)
    requires s > 0.0 && 0.0 <= q * s <= 0.682 * (m * s)
    ensures 0.0 <= q <= 0.682 * m
  {
    Associate(0.682, m, s);
    LeqWithoutFactor(q, 0.682 * m, s);
    LeqWithoutFactor(0.0, q, s);
  }

  lemma QuotientScaled(share: real, v: real, s: real)
    requires s > 0.0 && 0.0 <= share <= 0.682 * v
    ensures 0.0 <= share / s <= 0.682 * (v / s)
  {
    DivTimes(share, s);
    DivTimes(v, s);
    ScaledWithoutFactor(share / s, v / s, s);
  }

  lemma TimesStep(a: int, b: int, step: nat)
    requires a <= b
    ensures a * step <= b * step
  {
  }

  lemma IntTimesReal(k: int, step: nat)
    ensures (k * step) as real == k as real * step as real
  {
  }

  lemma RoundMonotone(fl: real -> real, a: real, b: real, step: nat)
    requires Doubles(fl) && step > 0 && a <= b
    ensures RoundToStep(fl, a, step) <= RoundToStep(fl, b, step)
  {
    var s := step as real;
    DivTimes(a, s);
    DivTimes(b, s);
    LeqWithoutFactor(a / s, b / s, s);
    TimesStep(Steps(fl, a, step), Steps(fl, b, step), step);
  }

  lemma FloorNear(x: real)
    ensures x - 0.5 <= (x + 0.5).Floor as real <= x + 0.5
    ensures x >= 0.5 ==> (x + 0.5).Floor >= 1
  {
  }

  /**
    A rounded value is a positive multiple of the step, and from half a step on it is off by at most half a step
    and the rounding of the quotient.
   */
  lemma RoundNear(fl: real -> real, value: real, step: nat)
    requires Doubles(fl) && step > 0
    ensures exists k: int :: k >= 1 && RoundToStep(fl, value, step) == k * step
    ensures 0.5 * step as real <= value <= EXACT ==>
              value - 0.5 * step as real - value * UNIT <= RoundToStep(fl, value, step) as real <=
              value + 0.5 * step as real + value * UNIT
  {
    hide Doubles;
    var k := Steps(fl, value, step);
    if k >= 1 {
      TimesStep(1, k, step);
      assert RoundToStep(fl, value, step) == k * step;
    } else {
      TimesStep(k, 0, step);
      assert RoundToStep(fl, value, step) == 1 * step;
    }
    if 0.5 * step as real <= value <= EXACT {
      StepsNear(fl, value, step);
      TimesStep(1, k, step);
      IntTimesReal(k, step);
    }
  }

  lemma QuotientRounded(fl: real -> real, q: real)
    requires Doubles(fl) && 0.5 <= q <= EXACT
    ensures q - q * UNIT <= fl(q) <= q + q * UNIT && (fl(q) + 0.5).Floor >= 1
  {
    assert fl(0.5) <= fl(q);
  }

  lemma StepsNear(fl: real -> real, value: real, step: nat)
    requires Doubles(fl) && step > 0 && 0.5 * step as real <= value <= EXACT
    ensures Steps(fl, value, step) >= 1
    ensures var s := step as real;
            value - 0.5 * s - value * UNIT <= Steps(fl, value, step) as real * s <= value + 0.5 * s + value * UNIT
  {
    hide Doubles;
    var s := step as real;
    var q := value / s;
    DivTimes(value, s);
    LeqWithoutFactor(0.5, q, s);
    QuotientBelow(value, s);
    QuotientRounded(fl, q);
    FloorNear(fl(q));
    NearInSteps(q, fl(q), Steps(fl, value, step), value, s);
  }

  lemma NearInSteps(q: real, computed: real, k: int, value: real, s: real)
    requires s > 0.0 && q * s == value
    requires q - q * UNIT <= computed <= q + q * UNIT
    requires computed - 0.5 <= k as real <= computed + 0.5
    ensures value - 0.5 * s - value * UNIT <= k as real * s <= value + 0.5 * s + value * UNIT
  {
    Commute(q, UNIT, s);
    Between(q, q * UNIT, k as real, s, value * UNIT);
  }

  lemma Between(q: real, u: real, k: real, s: real, us: real)
    requires s > 0.0 && u * s == us && q - u - 0.5 <= k <= q + u + 0.5
    ensures q * s - us - 0.5 * s <= k * s <= q * s + us + 0.5 * s
  {
    LeqTimes(q - u - 0.5, k, s);
    LeqTimes(k, q + u + 0.5, s);
    Spread(q, u, 0.5, s);
  }

  lemma Spread(a: real, b: real, c: real, s: real)
    ensures (a - b - c) * s == a * s - b * s - c * s
    ensures (a + b + c) * s == a * s + b * s + c * s
  {
  }

  lemma Commute(a: real, b: real, c: real)
    ensures (a * b) * c == (a * c) * b
  {
  }

  /** A share of a maximum, as the code computes it from the scale. */
  function Share(fl: real -> real, max: int, scale: real): real {
    fl(Times(max as real, fl(scale)))
  }

  function Times(a: real, b: real): real {
    a * b
  }

  lemma ErrorStep(fl: real -> real, x: real, bound: real)
    requires Doubles(fl) && 0.0 <= x <= bound && 0.5 <= bound <= EXACT
    ensures 0.0 <= fl(x) <= bound + bound * UNIT
  {
    assert fl(0.0) <= fl(x) <= fl(bound);
  }

  lemma ErrorSmall(bound: real)
    requires bound >= 0.0
    ensures bound * UNIT <= bound * 0.001
  {
    LeqTimes(UNIT, 0.001, bound);
  }

  lemma ShareBounded(fl: real -> real, max: int, scale: real)
    requires Doubles(fl) && 1.0 <= max as real <= EXACT && 0.0 <= scale <= 0.68
    ensures 0.0 <= Share(fl, max, scale) <= 0.682 * max as real
  {
    hide Doubles;
    ErrorStep(fl, scale, 0.68);
    ErrorSmall(0.68);
    hide Times;
    ProductRounded(fl, max as real, fl(scale));
  }

  lemma ProductBetween(whole: real, part: real)
    requires whole >= 0.0 && 0.0 <= part <= 0.681
    ensures 0.0 <= Times(whole, part) <= 0.681 * whole
  {
    Product(whole, part);
    LeqTimes(part, 0.681, whole);
  }

  lemma ProductRounded(fl: real -> real, whole: real, part: real)
    requires Doubles(fl) && 1.0 <= whole <= EXACT && 0.0 <= part <= 0.681
    ensures 0.0 <= fl(Times(whole, part)) <= 0.682 * whole
  {
    hide Doubles, Times;
    var x := Times(whole, part);
    ProductBetween(whole, part);
    ErrorStep(fl, x, 0.681 * whole);
    ErrorSmall(0.681 * whole);
  }

  /** The computed number of steps of a share of at most 0.68 is at most 0.69 times that of the maximum. */
  lemma ShareInSteps(fl: real -> real, max: int, scale: real, s: real)
    requires Doubles(fl) && 1.0 <= s <= max as real <= EXACT && 0.0 <= scale <= 0.68
    ensures max as real / s >= 1.0
    ensures fl(Share(fl, max, scale) / s) <= 0.69 * (max as real / s)
  {
    hide Doubles, Share;
    hide Times;
    var m, whole, share := max as real / s, max as real, Share(fl, max, scale);
    ShareBounded(fl, max, scale);
    QuotientAbove(whole, s);
    QuotientBelow(whole, s);
    QuotientScaled(share, whole, s);
    ErrorStep(fl, share / s, 0.682 * m);
    ErrorSmall(0.682 * m);
  }

  /** Below 1.7 steps a share rounds to at most one step, and from there on to at most the maximum itself. */
  lemma FloorBound(q: real, m: real)
    requires m >= 1.0 && q <= 0.69 * m
    ensures m < 1.7 ==> (q + 0.5).Floor <= 1
    ensures m >= 1.7 ==> (q + 0.5).Floor as real <= m
  {
    var f := (q + 0.5).Floor;
    assert f as real <= q + 0.5;
    if m < 1.7 {
      assert f as real < 2.0;
    }
  }

  /** A share of a maximum, rounded, does not exceed the maximum, however the maximum relates to the step. */
  lemma RoundWithinMaximum(fl: real -> real, max: int, scale: real, step: nat)
    requires Doubles(fl) && 0 < step <= max && max as real <= EXACT && 0.0 <= scale <= 0.68
    ensures RoundToStep(fl, Share(fl, max, scale), step) <= max
  {
    hide Share, Doubles;
    var s, m := step as real, max as real / step as real;
    var q := fl(Share(fl, max, scale) / s);
    var k := Steps(fl, Share(fl, max, scale), step);
    ShareInSteps(fl, max, scale, s);
    FloorBound(q, m);
    assert k == (q + 0.5).Floor;
    if m < 1.7 {
      TimesStep(k, 1, step);
    } else {
      LeqTimes(k as real, m, s);
      DivTimes(max as real, s);
      IntTimesReal(k, step);
    }
  }

  // ---------- Plans ----------

  datatype HostType = ContainerOnly | VmOnly | Both

  datatype Host = Host(index: nat, owner: string, name: string, kind: HostType) {
    function PortStart(): int {
      20000 + (index - 1) * 400
    }
    function PortEnd(): int {
      20000 + (index - 1) * 400 + 399
    }
  }

  datatype PlanSpec = PlanSpec(cpu: int, memory: int, disk: int, price: int)

  datatype Package = Package(
    key: string, owner: string, isVm: bool, hostNames: seq<string>, cpuMax: int, memoryMax: int, diskMax: int,
    plans: seq<PlanSpec>)

  function Scale(isVm: bool, i: nat): real
    requires i < 3
  {
    if isVm then [0.28, 0.46, 0.68][i] else [0.18, 0.36, 0.58][i]
  }

  function CpuStep(isVm: bool): nat {
    if isVm then 20 else 5
  }

  function MakePlan(
    fl: real -> real, index: nat, isVm: bool, cpuMax: int, memoryMax: int, diskMax: int, i: nat): PlanSpec
    requires i < 3
  {
    PlanSpec(
      RoundToStep(fl, Share(fl, cpuMax, Scale(isVm, i)), CpuStep(isVm)),
      RoundToStep(fl, Share(fl, memoryMax, Scale(isVm, i)), 256),
      RoundToStep(fl, Share(fl, diskMax, Scale(isVm, i)), 1024),
      (if isVm then 2990 else 890) + index * (if isVm then 60 else 25) + i * (if isVm then 1800 else 900))
  }

  lemma TimesMonotone(whole: real, a: real, b: real)
    requires whole >= 0.0 && a <= b
    ensures Times(whole, a) <= Times(whole, b)
  {
    LeqTimes(a, b, whole);
  }

  /** Along the plans of a package sizes do not decrease and stay within the maxima, and prices increase. */
  lemma PlansBounded(
    fl: real -> real, index: nat, isVm: bool, cpuMax: int, memoryMax: int, diskMax: int, i: nat, j: nat)
    requires Doubles(fl)
    requires cpuMax >= CpuStep(isVm) && memoryMax >= 256 && diskMax >= 1024 && i < j < 3
    requires cpuMax as real <= EXACT && memoryMax as real <= EXACT && diskMax as real <= EXACT
    ensures var p, q := MakePlan(fl, index, isVm, cpuMax, memoryMax, diskMax, i),
                        MakePlan(fl, index, isVm, cpuMax, memoryMax, diskMax, j);
            && p.cpu <= q.cpu <= cpuMax && p.memory <= q.memory <= memoryMax && p.disk <= q.disk <= diskMax
            && p.price < q.price
  {
    hide RoundToStep, Share, Doubles;
    assert 0.0 <= Scale(isVm, i) <= Scale(isVm, j) <= 0.68;
    SharesBounded(fl, cpuMax, Scale(isVm, i), Scale(isVm, j), CpuStep(isVm));
    SharesBounded(fl, memoryMax, Scale(isVm, i), Scale(isVm, j), 256);
    SharesBounded(fl, diskMax, Scale(isVm, i), Scale(isVm, j), 1024);
  }

  lemma SharesBounded(fl: real -> real, max: int, a: real, b: real, step: nat)
    requires Doubles(fl) && 0 < step <= max && max as real <= EXACT && 0.0 <= a <= b <= 0.68
    ensures RoundToStep(fl, Share(fl, max, a), step) <= RoundToStep(fl, Share(fl, max, b), step) <= max
  {
    hide RoundToStep;
    TimesMonotone(max as real, fl(a), fl(b));
    hide Times;
    RoundMonotone(fl, Share(fl, max, a), Share(fl, max, b), step);
    RoundWithinMaximum(fl, max, b, step);
  }

  predicate Near(x: real, y: real, error: real) {
    y - error <= x <= y + error
  }

  lemma TimesApart(whole: real, a: real, b: real)
    ensures Times(whole, a - b) == Times(whole, a) - Times(whole, b)
    ensures Times(whole, a + b) == Times(whole, a) + Times(whole, b)
  {
  }

  lemma ProductSized(whole: real, part: real)
    requires 1.0 <= whole <= 1000000000.0 && 0.09 <= part <= 1.0
    ensures 0.09 <= Times(whole, part) <= 1000000000.0
  {
    TimesMonotone(whole, 0.09, part);
    TimesMonotone(whole, part, 1.0);
    assert Times(whole, 0.09) == 0.09 * whole && Times(whole, 1.0) == whole;
  }

  lemma PartNear(whole: real, scale: real, part: real)
    requires 1.0 <= whole <= 1000000000.0 && Near(part, scale, UNIT)
    ensures Near(Times(whole, part), Times(whole, scale), 0.0002)
  {
    TimesMonotone(whole, scale - UNIT, part);
    TimesMonotone(whole, part, scale + UNIT);
    TimesApart(whole, scale, UNIT);
    assert Times(whole, UNIT) == whole * UNIT <= 0.0002;
  }

  /** A share of a maximum of up to a thousand million is computed almost exactly. */
  lemma ShareNear(fl: real -> real, max: int, scale: real)
    requires Doubles(fl) && 1 <= max <= 1000000000 && 0.1 <= scale <= 0.68
    ensures Near(Share(fl, max, scale), Times(max as real, scale), 0.0005)
  {
    var whole, part := max as real, fl(scale);
    assert scale - scale * UNIT <= part <= scale + scale * UNIT;
    PartNear(whole, scale, part);
    ProductSized(whole, part);
    hide Times;
    var x := Times(whole, part);
    assert x - x * UNIT <= fl(x) <= x + x * UNIT;
  }

  /** From half a step on, a size is its share of the maximum to within half a step. */
  lemma SizeNear(fl: real -> real, max: int, scale: real, step: nat)
    requires Doubles(fl) && 1 <= max <= 1000000000 && 0.1 <= scale <= 0.68 && step > 0
    requires 0.5 * step as real + 0.001 <= Times(max as real, scale)
    ensures Near(RoundToStep(fl, Share(fl, max, scale), step) as real, Times(max as real, scale),
                 0.5 * step as real + 0.001)
  {
    hide Doubles, RoundToStep, Share;
    ShareNear(fl, max, scale);
    ProductSized(max as real, scale);
    hide Times;
    RoundNear(fl, Share(fl, max, scale), step);
  }

  /** What percentage of a package's maxima its plans are. */
  function Percentage(isVm: bool, i: nat): int
    requires i < 3
  {
    if isVm then [28, 46, 68][i] else [18, 36, 58][i]
  }

  lemma ScalePercent(max: int, isVm: bool, i: nat)
    requires i < 3 && max >= 1
    ensures Times(max as real, Scale(isVm, i)) == max as real * Percentage(isVm, i) as real / 100.0
    ensures max as real * (if isVm then 0.28 else 0.18) <= max as real * Percentage(isVm, i) as real / 100.0
    ensures 0.18 <= Scale(isVm, i) <= 0.68
  {
    assert Scale(isVm, i) == Percentage(isVm, i) as real / 100.0;
    assert Percentage(isVm, i) >= if isVm then 28 else 18;
    match i
    case 0 =>
    case 1 =>
    case 2 =>
  }

  lemma SizeOfPlan(fl: real -> real, max: int, isVm: bool, i: nat, step: nat)
    requires Doubles(fl) && i < 3 && 1 <= max <= 1000000000 && step > 0
    requires 0.5 * step as real + 0.001 <= max as real * (if isVm then 0.28 else 0.18)
    ensures Near(RoundToStep(fl, Share(fl, max, Scale(isVm, i)), step) as real,
                 max as real * Percentage(isVm, i) as real / 100.0, 0.5 * step as real + 0.001)
  {
    ScalePercent(max, isVm, i);
    hide Doubles, RoundToStep, Share, Times, Scale, Percentage;
    SizeNear(fl, max, Scale(isVm, i), step);
  }

  /**
    The sizes of a package's three plans are 18, 36 and 58 percent of its maxima, or 28, 46 and 68 percent for
    virtual machines, each to within half of its step.
   */
  lemma PlanSizesNear(
    fl: real -> real, index: nat, isVm: bool, cpuMax: int, memoryMax: int, diskMax: int, i: nat)
    requires Doubles(fl) && i < 3
    requires 100 <= cpuMax <= 1000000000 && 1024 <= memoryMax <= 1000000000 && 4096 <= diskMax <= 1000000000
    ensures var plan := MakePlan(fl, index, isVm, cpuMax, memoryMax, diskMax, i);
            var percent := (if isVm then [28, 46, 68][i] else [18, 36, 58][i]) as real;
            && Near(plan.cpu as real, cpuMax as real * percent / 100.0, if isVm then 10.001 else 2.501)
            && Near(plan.memory as real, memoryMax as real * percent / 100.0, 128.001)
            && Near(plan.disk as real, diskMax as real * percent / 100.0, 512.001)
  {
    hide Doubles, RoundToStep, Share, Scale;
    SizeOfPlan(fl, cpuMax, isVm, i, CpuStep(isVm));
    SizeOfPlan(fl, memoryMax, isVm, i, 256);
    SizeOfPlan(fl, diskMax, isVm, i, 1024);
  }

  /** Exact arithmetic is a special case. */
  lemma ExactIsDoubles()
    ensures Doubles(x => x)
  {
  }

  // ---------- Packages ----------

  function Digit(n: nat): char
    requires n < 10
  {
    "0123456789"[n]
  }

  function Decimal(n: nat): string {
    if n < 10 then [Digit(n)] else Decimal(n / 10) + [Digit(n % 10)]
  }

  /** Left-padded with zeros to at least the given width. */
  function Pad(n: nat, width: nat): string {
    var d := Decimal(n);
    if |d| >= width then d else seq(width - |d|, _ => '0') + d
  }

  function PackageKey(index: nat): string {
    "bulkseed-pkg-" + Pad(index, 2)
  }

  function Admits(kind: HostType, isVm: bool): bool {
    if isVm then !kind.ContainerOnly? else !kind.VmOnly?
  }

  function AdmissibleNames(hosts: seq<Host>, owner: string, isVm: bool): seq<string> {
    if hosts == [] then []
    else
      (if hosts[0].owner == owner && Admits(hosts[0].kind, isVm) then [hosts[0].name] else []) +
      AdmissibleNames(hosts[1..], owner, isVm)
  }

  /** Each name once, in the order of the first occurrences. */
  function Unique(names: seq<string>): seq<string> {
    if names == [] then []
    else
      var front := Unique(names[..|names| - 1]);
      if names[|names| - 1] in front then front else front + [names[|names| - 1]]
  }

  lemma {:induction false} UniqueSame(names: seq<string>)
    ensures forall x :: x in Unique(names) <==> x in names
    ensures forall j, k :: 0 <= j < k < |Unique(names)| ==> Unique(names)[j] != Unique(names)[k]
    decreases |names|
  {
    if names != [] {
      UniqueSame(names[..|names| - 1]);
      assert names == names[..|names| - 1] + [names[|names| - 1]];
    }
  }

  /** The name is the one at `i`, and not before. */
  predicate OccursFirst(names: seq<string>, name: string, i: int) {
    0 <= i < |names| && names[i] == name && forall k :: 0 <= k < i ==> names[k] != name
  }

  /** Names are kept in the order in which they occur first. */
  lemma {:induction false} UniqueOrder(names: seq<string>, j: nat, k: nat, a: nat, b: nat)
    requires j < k < |Unique(names)| && OccursFirst(names, Unique(names)[j], a)
    requires OccursFirst(names, Unique(names)[k], b)
    ensures a < b
    decreases |names|
  {
    var front := names[..|names| - 1];
    UniqueSame(front);
    if k < |Unique(front)| {
      assert Unique(names)[j] == Unique(front)[j] && Unique(names)[k] == Unique(front)[k];
      InFront(names, Unique(front)[j], a);
      InFront(names, Unique(front)[k], b);
      UniqueOrder(front, j, k, a, b);
    } else {
      InFront(names, Unique(front)[j], a);
      assert Unique(names)[k] == names[|names| - 1];
    }
  }

  lemma InFront(names: seq<string>, name: string, a: nat)
    requires names != [] && OccursFirst(names, name, a) && name in names[..|names| - 1]
    ensures OccursFirst(names[..|names| - 1], name, a)
  {
    var i :| 0 <= i < |names| - 1 && names[i] == name;
  }

  function MakePackage(
    fl: real -> real, index: nat, owner: string, isVm: bool, hosts: seq<Host>, cpu: int, memory: int, disk: int):
    Package
  {
    Package(
      PackageKey(index), owner, isVm, Unique(AdmissibleNames(hosts, owner, isVm)), cpu, memory, disk,
      seq(3, i requires 0 <= i < 3 => MakePlan(fl, index, isVm, cpu, memory, disk, i)))
  }

  /** The four packages of an owner; `base` packages precede them. */
  function OwnerPackages(fl: real -> real, owner: string, o: nat, hosts: seq<Host>, base: nat): seq<Package> {
    var cpu, memory, disk := 220 + o * 20, 8192 + o * 1024, 102400 + o * 10240;
    [MakePackage(fl, base + 1, owner, false, hosts, cpu, memory, disk),
     MakePackage(fl, base + 2, owner, false, hosts, cpu + 30, memory + 1024, disk + 10240),
     MakePackage(fl, base + 3, owner, false, hosts, cpu + 10, memory + 512, disk),
     MakePackage(fl, base + 4, owner, true, hosts, 300 + o * 30, 12288 + o * 1024, 153600 + o * 10240)]
  }

  function PackagesUpTo(fl: real -> real, owners: seq<string>, hosts: seq<Host>, o: nat): (r: seq<Package>)
    requires o <= |owners|
    ensures |r| == 4 * o
  {
    if o == 0 then []
    else PackagesUpTo(fl, owners, hosts, o - 1) + OwnerPackages(fl, owners[o - 1], o - 1, hosts, 4 * (o - 1))
  }

  method BuildPackageSpecs(fl: real -> real, owners: seq<string>, hosts: seq<Host>) returns (packageList: seq<Package>)
    ensures packageList == PackagesUpTo(fl, owners, hosts, |owners|)
  {
    packageList := [];
    for o := 0 to |owners|
      invariant packageList == PackagesUpTo(fl, owners, hosts, o)
    {
      packageList := packageList + OwnerPackages(fl, owners[o], o, hosts, |packageList|);
    }
  }

  // ---------- Keys ----------

  function DigitValue(c: char): int {
    c as int - '0' as int
  }

  function Value(s: string): int {
    if s == "" then 0 else Value(s[..|s| - 1]) * 10 + DigitValue(s[|s| - 1])
  }

  lemma {:induction false} ValueOfDecimal(n: nat)
    ensures Value(Decimal(n)) == n
  {
    var s := Decimal(n);
    if n < 10 {
      assert s[..|s| - 1] == "";
    } else {
      ValueOfDecimal(n / 10);
      assert s[..|s| - 1] == Decimal(n / 10);
    }
  }

  lemma {:induction false} ValueOfZeros(zeros: string, s: string)
    requires forall c :: c in zeros ==> c == '0'
    ensures Value(zeros + s) == Value(s)
    decreases |zeros| + |s|
  {
    if s != "" {
      assert (zeros + s)[..|zeros + s| - 1] == zeros + s[..|s| - 1];
      ValueOfZeros(zeros, s[..|s| - 1]);
    } else if zeros != "" {
      assert zeros + s == zeros;
      var front := zeros[..|zeros| - 1];
      assert forall c :: c in front ==> c in zeros;
      ValueOfZeros(front, "");
      assert front + "" == front;
      assert zeros[|zeros| - 1] in zeros;
    }
  }

  /** Padding loses nothing, so different packages have different keys. */
  lemma KeysDiffer(m: nat, n: nat)
    requires PackageKey(m) == PackageKey(n)
    ensures m == n
  {
    assert PackageKey(m)[13..] == Pad(m, 2) && PackageKey(n)[13..] == Pad(n, 2);
    ValueOfPad(m, 2);
    ValueOfPad(n, 2);
  }

  lemma ValueOfPad(n: nat, width: nat)
    ensures Value(Pad(n, width)) == n
  {
    ValueOfDecimal(n);
    var d := Decimal(n);
    if |d| < width {
      ValueOfZeros(seq(width - |d|, _ => '0'), d);
    }
  }

  lemma {:induction false} PackageAt(fl: real -> real, owners: seq<string>, hosts: seq<Host>, o: nat, k: nat)
    requires o <= |owners| && k < 4 * o
    ensures PackagesUpTo(fl, owners, hosts, o)[k].key == PackageKey(k + 1)
    ensures PackagesUpTo(fl, owners, hosts, o)[k].owner == owners[k / 4]
    ensures PackagesUpTo(fl, owners, hosts, o)[k].hostNames ==
            Unique(AdmissibleNames(hosts, owners[k / 4], PackagesUpTo(fl, owners, hosts, o)[k].isVm))
  {
    hide PackageKey, Unique;
    if k < 4 * (o - 1) {
      PackageAt(fl, owners, hosts, o - 1, k);
    } else {
      assert k / 4 == o - 1;
    }
  }

  /**
    The terms of the package at place `k`: of each owner's four packages the last is for virtual machines. The
    maxima grow from owner to owner and prices with the number of the package and from plan to plan.
   */
  lemma {:induction false} PackageTerms(fl: real -> real, owners: seq<string>, hosts: seq<Host>, o: nat, k: nat)
    requires o <= |owners| && k < 4 * o
    ensures var p, owner := PackagesUpTo(fl, owners, hosts, o)[k], k / 4;
            && (p.isVm <==> k % 4 == 3)
            && p.cpuMax == (if k % 4 == 3 then 300 + 30 * owner else 220 + 20 * owner + [0, 30, 10][k % 4])
            && p.memoryMax == (if k % 4 == 3 then 12288 else 8192 + [0, 1024, 512][k % 4]) + 1024 * owner
            && p.diskMax == (if k % 4 == 3 then 153600 else 102400 + [0, 10240, 0][k % 4]) + 10240 * owner
            && |p.plans| == 3
            && forall i :: 0 <= i < 3 ==>
                 p.plans[i].price == if k % 4 == 3 then 2990 + 60 * (k + 1) + 1800 * i else 890 + 25 * (k + 1) + 900 * i
  {
    hide PackageKey, Unique, AdmissibleNames, RoundToStep, Share;
    if k < 4 * (o - 1) {
      PackageTerms(fl, owners, hosts, o - 1, k);
    } else {
      assert k / 4 == o - 1;
    }
  }

  lemma PackageKeysUnique(fl: real -> real, owners: seq<string>, hosts: seq<Host>, j: nat, k: nat)
    requires j < k < 4 * |owners|
    ensures PackagesUpTo(fl, owners, hosts, |owners|)[j].key != PackagesUpTo(fl, owners, hosts, |owners|)[k].key
  {
    hide PackagesUpTo, PackageKey, Unique, AdmissibleNames;
    PackageAt(fl, owners, hosts, |owners|, j);
    PackageAt(fl, owners, hosts, |owners|, k);
    if PackageKey(j + 1) == PackageKey(k + 1) {
      KeysDiffer(j + 1, k + 1);
    }
  }

  // ---------- Placement ----------

  datatype Placement = Placement(package: Package, plan: PlanSpec, hostName: string)

  /** The package, plan and host of an instance; a package without hosts places nothing. */
  function Place(packages: seq<Package>, index: nat): Placement
    requires packages != []
    requires packages[index % |packages|].plans != [] && packages[index % |packages|].hostNames != []
  {
    var p := packages[index % |packages|];
    Placement(p, p.plans[index % |p.plans|], p.hostNames[index % |p.hostNames|])
  }

  ghost predicate HasHost(hosts: seq<Host>, owner: string, isVm: bool) {
    exists h :: h in hosts && h.owner == owner && Serves(h.kind, isVm)
  }

  /** Hosts of both types serve either kind of instance. */
  predicate Serves(kind: HostType, isVm: bool) {
    kind == Both || kind == (if isVm then VmOnly else ContainerOnly)
  }

  lemma {:induction false} AdmissibleNamesAre(hosts: seq<Host>, owner: string, isVm: bool, name: string)
    ensures name in AdmissibleNames(hosts, owner, isVm) <==>
            exists h :: h in hosts && h.owner == owner && Serves(h.kind, isVm) && h.name == name
  {
    if hosts != [] {
      AdmissibleNamesAre(hosts[1..], owner, isVm, name);
    }
  }

  /** A package has hosts exactly when its owner has one that admits its kind of instance. */
  lemma PlaceableIffHost(fl: real -> real, owners: seq<string>, hosts: seq<Host>, k: nat)
    requires k < 4 * |owners|
    ensures var p := PackagesUpTo(fl, owners, hosts, |owners|)[k];
            p.hostNames != [] <==> HasHost(hosts, p.owner, p.isVm)
  {
    PackageAt(fl, owners, hosts, |owners|, k);
    var p := PackagesUpTo(fl, owners, hosts, |owners|)[k];
    var names := AdmissibleNames(hosts, p.owner, p.isVm);
    UniqueSame(names);
    if HasHost(hosts, p.owner, p.isVm) {
      var h :| h in hosts && h.owner == p.owner && Serves(h.kind, p.isVm);
      AdmissibleNamesAre(hosts, p.owner, p.isVm, h.name);
    }
    if p.hostNames != [] {
      assert p.hostNames[0] in p.hostNames;
      AdmissibleNamesAre(hosts, p.owner, p.isVm, p.hostNames[0]);
    }
  }

  /** Every generated instance is placed on a host of its package's owner that admits the package's kind. */
  lemma PlacedAdmissibly(fl: real -> real, owners: seq<string>, hosts: seq<Host>, index: nat)
    requires owners != []
    requires forall o :: o in owners ==> HasHost(hosts, o, false) && HasHost(hosts, o, true)
    ensures var packages := PackagesUpTo(fl, owners, hosts, |owners|);
            && |packages| > 0
            && packages[index % |packages|].plans != [] && packages[index % |packages|].hostNames != []
            && var at := Place(packages, index);
               exists h :: h in hosts && h.name == at.hostName && h.owner == at.package.owner &&
                           Serves(h.kind, at.package.isVm)
  {
    var packages := PackagesUpTo(fl, owners, hosts, |owners|);
    var k := index % |packages|;
    var p := packages[k];
    PackageAt(fl, owners, hosts, |owners|, k);
    assert p.owner in owners;
    PlaceableIffHost(fl, owners, hosts, k);
    PlansPresent(fl, owners, hosts, |owners|, k);
    var at := Place(packages, index);
    assert at.hostName in p.hostNames;
    UniqueSame(AdmissibleNames(hosts, p.owner, p.isVm));
    AdmissibleNamesAre(hosts, p.owner, p.isVm, at.hostName);
  }

  lemma {:induction false} PlansPresent(fl: real -> real, owners: seq<string>, hosts: seq<Host>, o: nat, k: nat)
    requires o <= |owners| && k < 4 * o
    ensures |PackagesUpTo(fl, owners, hosts, o)[k].plans| == 3
  {
    hide MakePlan, PackageKey, Unique;
    if k < 4 * (o - 1) {
      PlansPresent(fl, owners, hosts, o - 1, k);
    }
  }

  // ---------- Ports ----------

  function PublicPort(host: Host, instance: nat, mapping: nat): int {
    host.PortStart() + 20 + instance * 4 + mapping
  }

  /** The two mappings of an instance stay in its host's range exactly for instance indices up to 94. */
  lemma PortsInRangeIff(host: Host, instance: nat)
    ensures (forall m: nat :: m < 2 ==> host.PortStart() <= PublicPort(host, instance, m) <= host.PortEnd()) <==>
            instance <= 94
  {
    assert PublicPort(host, instance, 1) == host.PortStart() + 21 + instance * 4;
  }

  /** The port ranges of different hosts have no port in common. */
  lemma HostRangesDisjoint(h: Host, h': Host, port: int)
    requires h.index >= 1 && h'.index >= 1
    requires h.PortStart() <= port <= h.PortEnd() && h'.PortStart() <= port <= h'.PortEnd()
    ensures h.index == h'.index
  {
  }

  /** Up to that index no two mappings of any instances on any hosts share a public port. */
  lemma PortsDistinct(h: Host, i: nat, m: nat, h': Host, i': nat, m': nat)
    requires h.index >= 1 && h'.index >= 1 && m < 2 && m' < 2 && i <= 94 && i' <= 94
    requires PublicPort(h, i, m) == PublicPort(h', i', m')
    ensures h.index == h'.index && i == i' && m == m'
  {
  }
}
