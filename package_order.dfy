/** Ordering two packages: the wrappers that check or compare package names
    and reshape `(name, version, release, epoch)` data into the
    `[epoch, version, release]` lists handed to rpm's `labelCompare`. That
    comparison itself is foreign code; the model takes it as a parameter and
    assumes nothing about it beyond what a lemma states it needs. */
module PackageOrder {
  import opened Results

  /** The Python values that reach these wrappers: `None`, an int or a str. */
  datatype PyValue = PyNone | PyInt(i: int) | PyStr(s: string)

  /** Python truthiness of such a value. */
  predicate Truthy(v: PyValue) {
    match v
    case PyNone => false
    case PyInt(i) => i != 0
    case PyStr(s) => s != ""
  }

  function DecimalDigit(d: nat): (c: char)
    requires d < 10
    ensures '0' <= c <= '9'
  {
    ('0' as int + d) as char
  }

  predicate IsDecimalText(s: string) {
    forall i :: 0 <= i < |s| ==> '0' <= s[i] <= '9'
  }

  /** The number a string of decimal digits denotes, most significant first. */
  function DecimalValue(s: string): nat
    requires IsDecimalText(s)
  {
    if s == [] then 0 else DecimalValue(s[..|s| - 1]) * 10 + (s[|s| - 1] as int - '0' as int)
  }

  /** The decimal digits of `n`, most significant first: non-empty digits
      that denote `n`. */
  function Decimal(n: nat): (s: string)
    ensures |s| >= 1 && IsDecimalText(s)
    ensures DecimalValue(s) == n
  {
    if n < 10 then [DecimalDigit(n)]
    else
      var s := Decimal(n / 10) + [DecimalDigit(n % 10)];
      assert s[..|s| - 1] == Decimal(n / 10);
      s
  }

  /** Python's `str()`: only a string can come out empty; `None` prints as
      the word `None`. */
  function Str(v: PyValue): (s: string)
    ensures v.PyStr? ==> s == v.s
    ensures !v.PyStr? ==> s != ""
  {
    match v
    case PyNone => "None"
    case PyInt(i) => if i < 0 then "-" + Decimal(-i) else Decimal(i)
    case PyStr(s) => s
  }

  /** Different integers print differently, so an int epoch reaches
      `labelCompare` as the text of its own value. */
  lemma StrIntInjective(i: int, j: int)
    ensures Str(PyInt(i)) == Str(PyInt(j)) <==> i == j
  {
    var s, t := Str(PyInt(i)), Str(PyInt(j));
    if i < 0 && j < 0 {
      if s == t {
        assert Decimal(-i) == s[1..] == t[1..] == Decimal(-j);
      }
    } else if i >= 0 && j >= 0 {
      if s == t {
        assert DecimalValue(Decimal(i)) == DecimalValue(Decimal(j));
      }
    } else {
      // One side starts with a sign, the other with a digit.
      assert s[0] != t[0];
    }
  }

  /** The `[epoch, version, release]` list `labelCompare` receives. */
  datatype Evr = Evr(epoch: PyValue, version: string, release: string)

  /** rpm's `labelCompare`: a three-way comparison of two EVR lists,
      negative, zero or positive. */
  type LabelCompare = (Evr, Evr) -> int

  /** A `(name, version, release, epoch)` tuple as `nvre_compare` takes it. */
  datatype Nvre = Nvre(name: PyValue, version: PyValue, release: PyValue, epoch: PyValue)

  /** `build_evr`: positions 3, 1 and 2 of the tuple, stringified, with an
      empty epoch string replaced by `None`. Because `str(None)` is `"None"`,
      only an epoch that is the empty string becomes `None`. */
  function BuildEvr(p: Nvre): (evr: Evr)
    ensures evr.version == Str(p.version) && evr.release == Str(p.release)
    ensures evr.epoch == PyNone <==> p.epoch == PyStr("")
    ensures evr.epoch != PyNone ==> evr.epoch == PyStr(Str(p.epoch)) && Str(p.epoch) != ""
  {
    var epoch := Str(p.epoch);
    Evr(if epoch == "" then PyNone else PyStr(epoch), Str(p.version), Str(p.release))
  }

  /** `nvre_compare` raises `ValueError` for tuples of different names. */
  datatype CompareError = NameMismatch

  /** `nvre_compare`: fails when the names differ, otherwise delegates the
      comparison of the two reshaped tuples to `labelCompare`. */
  function NvreCompare(t1: Nvre, t2: Nvre, labelCompare: LabelCompare): (r: Result<int, CompareError>)
    ensures r.Err? <==> t1.name != t2.name
    ensures r.Ok? ==> r.value == labelCompare(BuildEvr(t1), BuildEvr(t2))
  {
    if t1.name != t2.name then Err(NameMismatch)
    else Ok(labelCompare(BuildEvr(t1), BuildEvr(t2)))
  }

  /** The result depends only on the version, release and epoch fields: two
      tuples with the same name and the same stringified fields compare
      alike against anything. */
  lemma NvreCompareSeesOnlyStrings(t1: Nvre, t1': Nvre, t2: Nvre, labelCompare: LabelCompare)
    requires t1.name == t1'.name
    requires Str(t1.version) == Str(t1'.version) && Str(t1.release) == Str(t1'.release)
    requires Str(t1.epoch) == Str(t1'.epoch)
    ensures NvreCompare(t1, t2, labelCompare) == NvreCompare(t1', t2, labelCompare)
  {
    assert BuildEvr(t1) == BuildEvr(t1');
  }

  function Sign(x: int): int {
    if x < 0 then -1 else if x > 0 then 1 else 0
  }

  /** A comparison whose verdict flips when its arguments are swapped. */
  ghost predicate Antisymmetric<T(!new)>(cmp: (T, T) -> int) {
    forall a, b :: Sign(cmp(a, b)) == -Sign(cmp(b, a))
  }

  /** A comparison whose "at most" relation is transitive. */
  ghost predicate TransitiveAtMost<T(!new)>(cmp: (T, T) -> int) {
    forall a, b, c :: cmp(a, b) <= 0 && cmp(b, c) <= 0 ==> cmp(a, c) <= 0
  }

  /** `nvre_compare` inherits antisymmetry from `labelCompare`. */
  lemma NvreCompareAntisymmetric(t1: Nvre, t2: Nvre, labelCompare: LabelCompare)
    requires Antisymmetric(labelCompare)
    ensures NvreCompare(t1, t2, labelCompare).Err? == NvreCompare(t2, t1, labelCompare).Err?
    ensures NvreCompare(t1, t2, labelCompare).Ok?
            ==> Sign(NvreCompare(t1, t2, labelCompare).value) == -Sign(NvreCompare(t2, t1, labelCompare).value)
  {
  }

  // ---------------------------------------------------------------------------
  // hdrLabelCompare

  /** Python's `<` on two strings: code point by code point, a proper prefix
      first. */
  predicate StrLess(a: string, b: string)
    decreases |a|
  {
    if a == [] then b != []
    else if b == [] then false
    else if a[0] != b[0] then a[0] < b[0]
    else StrLess(a[1..], b[1..])
  }

  lemma {:induction false} StrLessIrreflexive(a: string)
    ensures !StrLess(a, a)
  {
    if a != [] {
      StrLessIrreflexive(a[1..]);
    }
  }

  /** For two different names exactly one is less than the other. */
  lemma {:induction false} StrLessTrichotomy(a: string, b: string)
    ensures a != b ==> (StrLess(a, b) <==> !StrLess(b, a))
    ensures a == b ==> !StrLess(a, b)
  {
    if a == b {
      StrLessIrreflexive(a);
    } else if a != [] && b != [] && a[0] == b[0] {
      StrLessTrichotomy(a[1..], b[1..]);
      assert a[1..] != b[1..] by {
        assert a == [a[0]] + a[1..] && b == [b[0]] + b[1..];
      }
    }
  }

  lemma {:induction false} StrLessTransitive(a: string, b: string, c: string)
    requires StrLess(a, b) && StrLess(b, c)
    ensures StrLess(a, c)
  {
    if a != [] && b != [] && c != [] && a[0] == b[0] && b[0] == c[0] {
      StrLessTransitive(a[1..], b[1..], c[1..]);
    }
  }

  /** What `hdrLabelCompare` reads of an RPM or header: the name, the epoch
      (`None` or an int) and the version and release text. */
  datatype PackageLabel = PackageLabel(name: string, epoch: PyValue, version: string, release: string)

  /** A truthy epoch is stringified; `None` and `0` are passed on as they are. */
  function LabelEpoch(e: PyValue): (r: PyValue)
    ensures Truthy(e) ==> r == PyStr(Str(e)) && Truthy(r)
    ensures !Truthy(e) ==> r == e
  {
    if Truthy(e) then PyStr(Str(e)) else e
  }

  /** The EVR list of a package: a non-zero int epoch never reaches
      `labelCompare` as an int, and the epoch keeps its truthiness. */
  function LabelEvr(h: PackageLabel): (evr: Evr)
    ensures evr.epoch.PyInt? ==> evr.epoch.i == 0
    ensures Truthy(evr.epoch) <==> Truthy(h.epoch)
  {
    Evr(LabelEpoch(h.epoch), h.version, h.release)
  }

  /** `hdrLabelCompare`: packages of different names are ordered by name
      alone; packages of the same name by `labelCompare` on their EVRs. */
  function HdrLabelCompare(h1: PackageLabel, h2: PackageLabel, labelCompare: LabelCompare): (r: int)
    ensures StrLess(h1.name, h2.name) ==> r == -1
    ensures StrLess(h2.name, h1.name) ==> r == 1
    ensures h1.name != h2.name ==> r == -1 || r == 1
    ensures h1.name == h2.name ==> r == labelCompare(LabelEvr(h1), LabelEvr(h2))
  {
    StrLessTrichotomy(h1.name, h2.name);
    if h1.name == h2.name then labelCompare(LabelEvr(h1), LabelEvr(h2))
    else if StrLess(h1.name, h2.name) then -1
    else 1
  }

  /** Swapping the arguments of `hdrLabelCompare` flips its verdict whenever
      `labelCompare` behaves so. */
  lemma HdrLabelCompareAntisymmetric(h1: PackageLabel, h2: PackageLabel, labelCompare: LabelCompare)
    requires Antisymmetric(labelCompare)
    ensures Sign(HdrLabelCompare(h1, h2, labelCompare)) == -Sign(HdrLabelCompare(h2, h1, labelCompare))
  {
    StrLessTrichotomy(h1.name, h2.name);
  }

  /** `hdrLabelCompare` keeps `labelCompare`'s transitivity, so a sort keyed
      on it (as `sortRPMs` does) sees a consistent order. */
  lemma HdrLabelCompareTransitive(h1: PackageLabel, h2: PackageLabel, h3: PackageLabel, labelCompare: LabelCompare)
    requires TransitiveAtMost(labelCompare)
    requires HdrLabelCompare(h1, h2, labelCompare) <= 0 && HdrLabelCompare(h2, h3, labelCompare) <= 0
    ensures HdrLabelCompare(h1, h3, labelCompare) <= 0
  {
    StrLessTrichotomy(h1.name, h2.name);
    StrLessTrichotomy(h2.name, h3.name);
    StrLessTrichotomy(h1.name, h3.name);
    if h1.name != h2.name && h2.name != h3.name {
      StrLessTransitive(h1.name, h2.name, h3.name);
    }
  }
}
