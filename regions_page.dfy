/** The region analysis page (frontend/pages/_Regions.py): the name-to-code
    selector, the gap between the chosen region and the national mean, and
    the region's rank by reimbursed amount. */
module RegionsPage {
  import opened Seqs
  import opened Models
  import opened Stats
  import opened Frames
  import Regions
  import opened Charts

  // ---------------------------------------------------------------------------
  // Python's string order, and `sorted` over distinct strings.

  /** `a < b` on Python strings: lexicographic by code point, a proper
      prefix first. */
  predicate StrLt(a: string, b: string)
    decreases |a|
  {
    if a == [] then b != []
    else if b == [] then false
    else if a[0] != b[0] then a[0] < b[0]
    else StrLt(a[1..], b[1..])
  }

  lemma {:induction false} StrLtIrreflexive(a: string)
    ensures !StrLt(a, a)
    decreases |a|
  {
    if a != [] {
      StrLtIrreflexive(a[1..]);
    }
  }

  lemma {:induction false} StrLtAsymmetric(a: string, b: string)
    requires StrLt(a, b)
    ensures !StrLt(b, a)
    decreases |a|
  {
    if a != [] && b != [] && a[0] == b[0] {
      StrLtAsymmetric(a[1..], b[1..]);
    }
  }

  lemma {:induction false} StrLtTransitive(a: string, b: string, c: string)
    requires StrLt(a, b) && StrLt(b, c)
    ensures StrLt(a, c)
    decreases |a|
  {
    if a != [] && b != [] && c != [] && a[0] == b[0] && b[0] == c[0] {
      StrLtTransitive(a[1..], b[1..], c[1..]);
    }
  }

  lemma {:induction false} StrLtTotal(a: string, b: string)
    requires a != b
    ensures StrLt(a, b) || StrLt(b, a)
    decreases |a|
  {
    if a != [] && b != [] && a[0] == b[0] {
      assert a == [a[0]] + a[1..] && b == [b[0]] + b[1..];
      StrLtTotal(a[1..], b[1..]);
    }
  }

  predicate StrictlySorted(s: seq<string>)
  {
    forall i, j :: 0 <= i < j < |s| ==> StrLt(s[i], s[j])
  }

  function InsertString(x: string, s: seq<string>): (r: seq<string>)
    requires StrictlySorted(s) && x !in s
    ensures StrictlySorted(r)
    ensures multiset(r) == multiset{x} + multiset(s)
  {
    if s == [] then [x]
    else if StrLt(x, s[0]) then
      assert forall j :: 0 <= j < |s| ==> StrLt(x, s[j]) by {
        forall j | 0 < j < |s| ensures StrLt(x, s[j]) {
          StrLtTransitive(x, s[0], s[j]);
        }
      }
      [x] + s
    else
      StrLtTotal(x, s[0]);
      var t := InsertString(x, s[1..]);
      assert s == [s[0]] + s[1..];
      assert forall j :: 0 <= j < |t| ==> StrLt(s[0], t[j]) by {
        forall j | 0 <= j < |t| ensures StrLt(s[0], t[j]) {
          assert t[j] in multiset(t);
          assert t[j] == x || t[j] in s[1..];
        }
      }
      [s[0]] + t
  }

  /** `sorted` of a list of distinct strings. */
  function SortStrings(s: seq<string>): (r: seq<string>)
    requires NoDuplicates(s)
    ensures StrictlySorted(r)
    ensures multiset(r) == multiset(s)
  {
    if s == [] then []
    else
      assert s == [s[0]] + s[1..];
      var t := SortStrings(s[1..]);
      assert s[0] !in multiset(t);
      InsertString(s[0], t)
  }

  /** Two strictly sorted lists of the same strings are the same list, so
      `sorted` over a key set does not depend on the order the keys come
      in. */
  lemma {:induction false} StrictlySortedUnique(a: seq<string>, b: seq<string>)
    requires StrictlySorted(a) && StrictlySorted(b)
    requires forall x :: x in a <==> x in b
    ensures a == b
    decreases |a|
  {
    assert a != [] ==> a[0] in b;
    assert b != [] ==> b[0] in a;
    if a != [] && b != [] {
      if a[0] != b[0] {
        var k :| 0 <= k < |b| && b[k] == a[0];
        var m :| 0 <= m < |a| && a[m] == b[0];
        StrLtAsymmetric(b[0], a[0]);
        assert false;
      }
      forall x ensures x in a[1..] <==> x in b[1..] {
        if x in a[1..] {
          var i :| 1 <= i < |a| && a[i] == x;
          assert x in b;
          var j :| 0 <= j < |b| && b[j] == x;
          if j == 0 {
            StrLtIrreflexive(a[0]);
            assert false;
          }
          assert b[1..][j - 1] == x;
        }
        if x in b[1..] {
          var j :| 1 <= j < |b| && b[j] == x;
          assert x in a;
          var i :| 0 <= i < |a| && a[i] == x;
          if i == 0 {
            StrLtIrreflexive(b[0]);
            assert false;
          }
          assert a[1..][i - 1] == x;
        }
      }
      StrictlySortedUnique(a[1..], b[1..]);
      assert a == [a[0]] + a[1..] && b == [b[0]] + b[1..];
    }
  }

  // ---------------------------------------------------------------------------
  // The selector.

  function Names(regions: seq<Region>): set<string>
  {
    set r | r in regions :: r.nom_region
  }

  /** `{r['nom_region']: r['code_region'] for r in regions}`: a later region
      with the same name overwrites an earlier one. */
  function RegionsDict(regions: seq<Region>): (d: map<string, int>)
    ensures d.Keys == Names(regions)
    ensures forall name :: name in d ==>
      exists i :: 0 <= i < |regions| && regions[i].nom_region == name && regions[i].code_region == d[name]
    decreases |regions|
  {
    if regions == [] then map[]
    else
      var init := regions[..|regions| - 1];
      var last := regions[|regions| - 1];
      assert regions == init + [last];
      assert Names(regions) == Names(init) + {last.nom_region};
      var d := RegionsDict(init);
      assert forall i :: 0 <= i < |init| ==> init[i] == regions[i];
      d[last.nom_region := last.code_region]
  }

  /** A name maps to the code of its last region in list order. */
  lemma {:induction false} RegionsDictLastWins(regions: seq<Region>, i: nat)
    requires i < |regions|
    requires forall j :: i < j < |regions| ==> regions[j].nom_region != regions[i].nom_region
    ensures RegionsDict(regions)[regions[i].nom_region] == regions[i].code_region
    decreases |regions|
  {
    if i < |regions| - 1 {
      var init := regions[..|regions| - 1];
      assert init[i] == regions[i];
      RegionsDictLastWins(init, i);
    }
  }

  /** With distinct names every region's name maps to its own code. */
  lemma RegionsDictDistinctNames(regions: seq<Region>)
    requires forall i, j :: 0 <= i < j < |regions| ==> regions[i].nom_region != regions[j].nom_region
    ensures forall i :: 0 <= i < |regions| ==> RegionsDict(regions)[regions[i].nom_region] == regions[i].code_region
  {
    forall i | 0 <= i < |regions| ensures RegionsDict(regions)[regions[i].nom_region] == regions[i].code_region {
      RegionsDictLastWins(regions, i);
    }
  }

  function NameList(regions: seq<Region>): (names: seq<string>)
    ensures forall x :: x in names <==> x in Names(regions)
  {
    var names := seq(|regions|, i requires 0 <= i < |regions| => regions[i].nom_region);
    assert forall r :: r in regions ==> r.nom_region in names by {
      forall r | r in regions ensures r.nom_region in names {
        var i :| 0 <= i < |regions| && regions[i] == r;
        assert names[i] == r.nom_region;
      }
    }
    names
  }

  /** `sorted(regions_dict.keys())`: every name once, in string order. */
  function SelectorOptions(regions: seq<Region>): (opts: seq<string>)
    ensures forall x :: x in opts <==> x in RegionsDict(regions)
    ensures StrictlySorted(opts)
  {
    var keys := Distinct(NameList(regions));
    var opts := SortStrings(keys);
    assert forall x :: x in opts <==> x in multiset(keys);
    opts
  }

  /** Any strictly sorted listing of the dictionary's keys is the option
      list: the options do not depend on the key order of the dictionary. */
  lemma SelectorOptionsDetermined(regions: seq<Region>, listing: seq<string>)
    requires StrictlySorted(listing)
    requires forall x :: x in listing <==> x in RegionsDict(regions)
    ensures listing == SelectorOptions(regions)
  {
    StrictlySortedUnique(listing, SelectorOptions(regions));
  }

  /** `regions_dict[region_selectionnee]` for the option at index `choice`
      (the select box only returns one of its options). */
  function SelectedCode(regions: seq<Region>, choice: nat): (code: int)
    requires choice < |SelectorOptions(regions)|
    ensures exists i :: 0 <= i < |regions| && regions[i].nom_region == SelectorOptions(regions)[choice] && regions[i].code_region == code
  {
    RegionsDict(regions)[SelectorOptions(regions)[choice]]
  }

  // ---------------------------------------------------------------------------
  // Comparison with the national mean.

  /** The amounts shown in the comparison block, in euros. `pct` is `None`
      where the mean is zero: the float division then gives an infinite or
      undefined value. */
  datatype Gap = Gap(region: real, mean: real, diff: real, pct: Option<real>)

  function NationalGap(detail: RegionDetail, all: seq<RegionStats>): (g: Gap)
    requires |all| > 0
    ensures g.mean == Mean(RembColumn(all))
    ensures g.region == ToEuros(detail.total_remb)
    ensures g.region == g.mean + g.diff
    ensures g.pct.Some? <==> g.mean != 0.0
    ensures g.pct.Some? ==> g.pct.value * g.mean == g.diff * 100.0
  {
    var mean := Mean(RembColumn(all));
    var region := ToEuros(detail.total_remb);
    var diff := region - mean;
    if mean == 0.0 then Gap(region, mean, diff, None)
    else
      assert (diff / mean) * mean == diff;
      Gap(region, mean, diff, Some((diff / mean) * 100.0))
  }

  /** Against a positive mean the percentage has the sign of the gap. */
  lemma GapSign(detail: RegionDetail, all: seq<RegionStats>)
    requires |all| > 0 && Mean(RembColumn(all)) > 0.0
    ensures var g := NationalGap(detail, all);
      && g.pct.Some?
      && (g.pct.value > 0.0 <==> g.region > g.mean)
      && (g.pct.value == 0.0 <==> g.region == g.mean)
  {
    var g := NationalGap(detail, all);
    assert g.pct.value * g.mean == g.diff * 100.0;
    if g.pct.value > 0.0 {
      assert g.pct.value * g.mean > 0.0;
    }
    if g.pct.value < 0.0 {
      assert g.pct.value * g.mean < 0.0;
    }
  }

  // ---------------------------------------------------------------------------
  // Rank.

  /** The 1-based position of the first row carrying `code`. */
  function PositionOf(rows: seq<RegionStats>, code: int): (r: Option<nat>)
    ensures r.Some? <==> HasCode(rows, code)
    ensures r.Some? ==> 1 <= r.value <= |rows| && rows[r.value - 1].code_region == code
    ensures r.Some? ==> forall j :: 0 <= j < r.value - 1 ==> rows[j].code_region != code
  {
    var found := FindFirst(rows, (x: RegionStats) => x.code_region == code);
    if found.None? then None else Some(found.value + 1)
  }

  /** `df_sorted.index` after `reset_index` and `+ 1`: the 1-based position
      of the first row carrying `code` once the rows are sorted by
      reimbursed amount, largest first. `None` where `index[0]` has no row
      to read. */
  function Rank(all: seq<RegionStats>, code: int): (r: Option<nat>)
    ensures r.Some? <==> HasCode(all, code)
    ensures r.Some? ==> 1 <= r.value <= |all|
    ensures r.Some? ==> SortByRembDesc(all)[r.value - 1].code_region == code
    ensures r.Some? ==> forall j :: 0 <= j < r.value - 1 ==> SortByRembDesc(all)[j].code_region != code
  {
    var sorted := SortByRembDesc(all);
    assert |sorted| == |multiset(sorted)| == |all|;
    PermutationHasCode(all, sorted, code);
    PositionOf(sorted, code)
  }

  predicate HasCode(rows: seq<RegionStats>, code: int)
  {
    exists i :: 0 <= i < |rows| && rows[i].code_region == code
  }

  lemma PermutationHasCode(a: seq<RegionStats>, b: seq<RegionStats>, code: int)
    requires multiset(a) == multiset(b)
    ensures HasCode(a, code) <==> HasCode(b, code)
  {
    if HasCode(a, code) {
      var i :| 0 <= i < |a| && a[i].code_region == code;
      assert a[i] in multiset(b);
      var j :| 0 <= j < |b| && b[j] == a[i];
    }
    if HasCode(b, code) {
      var j :| 0 <= j < |b| && b[j].code_region == code;
      assert b[j] in multiset(a);
      var i :| 0 <= i < |a| && a[i] == b[j];
    }
  }

  function AmountAbove(v: int): RegionStats -> bool { (x: RegionStats) => x.total_remb > v }
  function AmountAtLeast(v: int): RegionStats -> bool { (x: RegionStats) => x.total_remb >= v }

  /** Whatever order ties take, a region is ranked after every region with
      a larger amount and no later than the number of regions with at least
      its amount: with no tie, its rank is exactly one more than the number
      of regions above it. */
  lemma RankBounds(all: seq<RegionStats>, i: nat)
    requires i < |all|
    requires forall k, l :: 0 <= k < l < |all| ==> all[k].code_region != all[l].code_region
    ensures var r := Rank(all, all[i].code_region);
      && r.Some?
      && Count(all, AmountAbove(all[i].total_remb)) < r.value
      && r.value <= Count(all, AmountAtLeast(all[i].total_remb))
  {
    var code := all[i].code_region;
    var v := all[i].total_remb;
    var sorted := SortByRembDesc(all);
    assert HasCode(all, code);
    var k := Rank(all, code).value - 1;
    assert sorted[k].code_region == code;
    assert sorted[k] == all[i] by {
      assert sorted[k] in multiset(all);
      var j :| 0 <= j < |all| && all[j] == sorted[k];
      assert all[j].code_region == all[i].code_region;
    }
    SortedPositionBounds(sorted, k);
    CountPermutation(all, sorted, AmountAbove(v));
    CountPermutation(all, sorted, AmountAtLeast(v));
  }

  /** In rows sorted largest first, the row at position `k` has at most `k`
      rows with a larger amount and at least `k + 1` with at least its
      amount. */
  lemma SortedPositionBounds(sorted: seq<RegionStats>, k: nat)
    requires SortedByRembDesc(sorted) && k < |sorted|
    ensures Count(sorted, AmountAbove(sorted[k].total_remb)) <= k
    ensures k + 1 <= Count(sorted, AmountAtLeast(sorted[k].total_remb))
  {
    SortedAboveBound(sorted, k);
    SortedAtLeastBound(sorted, k);
  }

  lemma SortedAboveBound(sorted: seq<RegionStats>, k: nat)
    requires SortedByRembDesc(sorted) && k < |sorted|
    ensures Count(sorted, AmountAbove(sorted[k].total_remb)) <= k
  {
    var p := AmountAbove(sorted[k].total_remb);
    forall i | k <= i < |sorted| ensures !p(sorted[i]) {
      assert sorted[k].total_remb >= sorted[i].total_remb;
    }
    CountSuffixNone(sorted, k, p);
    assert sorted == sorted[..k] + sorted[k..];
    CountAppend(sorted[..k], sorted[k..], p);
    CountBounded(sorted[..k], p);
  }

  lemma SortedAtLeastBound(sorted: seq<RegionStats>, k: nat)
    requires SortedByRembDesc(sorted) && k < |sorted|
    ensures k + 1 <= Count(sorted, AmountAtLeast(sorted[k].total_remb))
  {
    var v := sorted[k].total_remb;
    var head := sorted[..k + 1];
    var tail := sorted[k + 1..];
    assert sorted == head + tail;
    CountPrefixAll(sorted, k + 1, AmountAtLeast(v));
    CountAppend(head, tail, AmountAtLeast(v));
  }

  // ---------------------------------------------------------------------------
  // The rank as written: `sort_values` on the JSON text of the amounts.

  /** Appending a digit to a numeral multiplies its value by ten and adds
      the digit. */
  lemma ParseDigitsSnoc(e: string, d: nat)
    requires AllDigits(e) && d < 10
    ensures AllDigits(e + [DigitChar(d)])
    ensures ParseDigits(e + [DigitChar(d)]) == ParseDigits(e) * 10 + d
  {
    assert (e + [DigitChar(d)])[..|e|] == e;
  }

  /** The digits of `q` euros followed by the two digits of `r` cents read
      back as `100 * q + r`. */
  lemma CentsDigits(q: nat, r: nat)
    requires r < 100
    ensures var u := Digits(q) + [DigitChar(r / 10), DigitChar(r % 10)];
      AllDigits(u) && ParseDigits(u) == 100 * q + r
  {
    var e := Digits(q);
    var a := e + [DigitChar(r / 10)];
    ParseDigitsOfDigits(q);
    ParseDigitsSnoc(e, r / 10);
    ParseDigitsSnoc(a, r % 10);
    assert e + [DigitChar(r / 10), DigitChar(r % 10)] == a + [DigitChar(r % 10)];
  }

  /** A sign, a numeral and two more digits joined around a point: its
      last three characters are the point and those two digits, and without
      the point it is the sign, the numeral and the digits. */
  lemma PointedParts(sign: string, e: string, d: string)
    requires |e| >= 1 && |d| == 2
    ensures var t := sign + e + "." + d;
      && |t| >= 4 && t[|t| - 3] == '.' && t[|t| - 2] == d[0] && t[|t| - 1] == d[1]
      && t[..|t| - 3] == sign + e
      && t[..|t| - 3] + t[|t| - 2..] == sign + (e + d)
      && t[0] == (sign + (e + d))[0]
  {
    var t := sign + e + "." + d;
    assert t[..|t| - 3] == sign + e;
    assert t[|t| - 2..] == d;
  }

  /** An optional minus sign before a numeral reads back as the numeral's
      value with that sign. */
  lemma SignedNumeral(sign: string, w: string, n: nat)
    requires sign == "-" || sign == ""
    requires w != [] && AllDigits(w) && ParseDigits(w) == n
    ensures var u := sign + w;
      && u != [] && (u[0] == '-' <==> sign == "-")
      && (if u[0] == '-' then AllDigits(u[1..]) else AllDigits(u))
      && ParseDecimal(u) == if sign == "-" then -(n as int) else n as int
  {
    if sign == "-" {
      assert (sign + w)[1..] == w;
    } else {
      assert sign + w == w;
    }
  }

  /** The JSON form of a per-region `total_remb`: the sum of a
      `NUMERIC(15, 2)` column under a `Decimal` response field is sent as
      the string `str(Decimal)`, that is the sign, the euros and exactly two
      decimals ("99.00", "-0.05"). Dropping the point reads back as the
      amount in cents. */
  function AmountText(cents: int): (t: string)
    ensures |t| >= 4 && t[|t| - 3] == '.'
    ensures IsDigit(t[|t| - 2]) && IsDigit(t[|t| - 1])
    ensures t[0] == '-' <==> cents < 0
    ensures var u := t[..|t| - 3] + t[|t| - 2..];
      && u != [] && (if u[0] == '-' then AllDigits(u[1..]) else AllDigits(u))
      && ParseDecimal(u) == cents
    ensures var start := if cents < 0 then 1 else 0;
      |t| >= start + 4 && (t[start] == '0' ==> |t| == start + 4)
  {
    var m := if cents < 0 then -cents else cents;
    var sign := if cents < 0 then "-" else "";
    var e := Digits(m / 100);
    var d := [DigitChar(m % 100 / 10), DigitChar(m % 100 % 10)];
    var t := sign + e + "." + d;
    PointedParts(sign, e, d);
    CentsDigits(m / 100, m % 100);
    SignedNumeral(sign, e + d, m);
    t
  }


  /** `x` sorts no later than `y` in the descending text order. */
  predicate TextAtLeast(x: RegionStats, y: RegionStats)
  {
    !StrLt(AmountText(x.total_remb), AmountText(y.total_remb))
  }

  /** Rows in descending Python string order of their amount texts. */
  predicate TextSorted(s: seq<RegionStats>)
  {
    forall i, j :: 0 <= i < j < |s| ==> TextAtLeast(s[i], s[j])
  }

  /** "Not below" is transitive in Python's string order. */
  lemma NotLtTransitive(a: string, b: string, c: string)
    requires !StrLt(a, b) && !StrLt(b, c)
    ensures !StrLt(a, c)
  {
    if StrLt(a, c) && b != c {
      StrLtTotal(b, c);
      StrLtTransitive(a, c, b);
    }
  }

  /** A row whose text is not below any text of a sorted list can go in
      front. */
  lemma ConsTextSorted(h: RegionStats, t: seq<RegionStats>)
    requires TextSorted(t)
    requires forall j :: 0 <= j < |t| ==> TextAtLeast(h, t[j])
    ensures TextSorted([h] + t)
  {
    var r := [h] + t;
    forall i, j | 0 <= i < j < |r| ensures TextAtLeast(r[i], r[j]) {
      assert r[j] == t[j - 1];
      if i > 0 {
        assert r[i] == t[i - 1];
      }
    }
  }

  /** A row not below the head of a sorted list is not below any of it. */
  lemma AboveHeadText(x: RegionStats, s: seq<RegionStats>)
    requires TextSorted(s) && s != [] && TextAtLeast(x, s[0])
    ensures forall j :: 0 <= j < |s| ==> TextAtLeast(x, s[j])
  {
    forall j | 0 < j < |s| ensures TextAtLeast(x, s[j]) {
      NotLtTransitive(AmountText(x.total_remb), AmountText(s[0].total_remb), AmountText(s[j].total_remb));
    }
  }

  lemma TextSortedTail(s: seq<RegionStats>)
    requires TextSorted(s) && s != []
    ensures TextSorted(s[1..])
    ensures forall j :: 0 <= j < |s[1..]| ==> TextAtLeast(s[0], s[1..][j])
  {
    forall i, j | 0 <= i < j < |s[1..]| ensures TextAtLeast(s[1..][i], s[1..][j]) {
      assert s[1..][i] == s[i + 1] && s[1..][j] == s[j + 1];
    }
    forall j | 0 <= j < |s[1..]| ensures TextAtLeast(s[0], s[1..][j]) {
      assert s[1..][j] == s[j + 1];
    }
  }

  /** A row not below `x` and every row of `s` is not below any row of a
      permutation of `x` and `s`. */
  lemma MultisetTextBound(h: RegionStats, t: seq<RegionStats>, x: RegionStats, s: seq<RegionStats>)
    requires multiset(t) == multiset{x} + multiset(s)
    requires TextAtLeast(h, x)
    requires forall j :: 0 <= j < |s| ==> TextAtLeast(h, s[j])
    ensures forall j :: 0 <= j < |t| ==> TextAtLeast(h, t[j])
  {
    forall j | 0 <= j < |t| ensures TextAtLeast(h, t[j]) {
      assert t[j] in multiset(t);
      if t[j] != x {
        assert t[j] in multiset(s);
        var k :| 0 <= k < |s| && s[k] == t[j];
      }
    }
  }

  /** Places `x` before the first row whose text it is not below. */
  function InsertByText(x: RegionStats, s: seq<RegionStats>): (r: seq<RegionStats>)
    requires TextSorted(s)
    ensures |r| == |s| + 1
    ensures multiset(r) == multiset{x} + multiset(s)
    ensures TextSorted(r)
  {
    if s == [] then [x]
    else
      TextSortedTail(s);
      assert s == [s[0]] + s[1..];
      if TextAtLeast(x, s[0]) then
        AboveHeadText(x, s);
        ConsTextSorted(x, s);
        [x] + s
      else
        var t := InsertByText(x, s[1..]);
        StrLtAsymmetric(AmountText(x.total_remb), AmountText(s[0].total_remb));
        MultisetTextBound(s[0], t, x, s[1..]);
        ConsTextSorted(s[0], t);
        [s[0]] + t
  }

  /** `sort_values('total_remb', ascending=False)` on a column of strings:
      Python string order, largest first. */
  function SortByTextDesc(s: seq<RegionStats>): (r: seq<RegionStats>)
    ensures |r| == |s|
    ensures multiset(r) == multiset(s)
    ensures TextSorted(r)
  {
    if s == [] then []
    else
      assert s == [s[0]] + s[1..];
      InsertByText(s[0], SortByTextDesc(s[1..]))
  }

  /** The rank as the page computes it: the 1-based position of the first
      row carrying `code` once the rows are sorted by the text of their
      amount. */
  function TextRank(all: seq<RegionStats>, code: int): (r: Option<nat>)
    ensures r.Some? <==> HasCode(all, code)
    ensures r.Some? ==> 1 <= r.value <= |all|
    ensures r.Some? ==> SortByTextDesc(all)[r.value - 1].code_region == code
    ensures r.Some? ==> forall j :: 0 <= j < r.value - 1 ==> SortByTextDesc(all)[j].code_region != code
  {
    var sorted := SortByTextDesc(all);
    PermutationHasCode(all, sorted, code);
    PositionOf(sorted, code)
  }

  /** The text of 100.00 and 99.00 euros. */
  lemma AmountTextExamples()
    ensures AmountText(10000) == "100.00"
    ensures AmountText(9900) == "99.00"
  {
    AmountTextOf10000();
    AmountTextOf9900();
  }

  lemma DigitsExamples()
    ensures Digits(100) == "100" && Digits(99) == "99"
  {
    assert Digits(1) == "1";
    assert Digits(10) == "10";
    assert Digits(9) == "9";
  }

  lemma AmountTextOf10000()
    ensures AmountText(10000) == "100.00"
  {
    DigitsExamples();
    assert DigitChar(0) == '0';
  }

  lemma AmountTextOf9900()
    ensures AmountText(9900) == "99.00"
  {
    DigitsExamples();
    assert DigitChar(0) == '0';
  }

  /** Sorted on their texts, rows at 100.00 and 99.00 euros come out with
      the smaller amount first. */
  lemma TextSortSwaps(a: RegionStats, b: RegionStats)
    requires a.total_remb == 10000 && b.total_remb == 9900
    ensures SortByTextDesc([a, b]) == [b, a]
  {
    AmountTextExamples();
    assert !TextAtLeast(a, b) by {
      assert StrLt("100.00", "99.00");
    }
    assert SortByTextDesc([b]) == [b] by {
      assert [b][1..] == [];
    }
    assert InsertByText(a, [b]) == [b, a] by {
      assert [b][1..] == [];
    }
    assert [a, b][1..] == [b];
  }

  /** A region whose amount no other region reaches is ranked first. */
  lemma StrictTopRanksFirst(all: seq<RegionStats>, i: nat)
    requires i < |all|
    requires forall k, l :: 0 <= k < l < |all| ==> all[k].code_region != all[l].code_region
    requires Count(all, AmountAtLeast(all[i].total_remb)) == 1
    ensures Rank(all, all[i].code_region) == Some(1)
  {
    RankBounds(all, i);
  }

  /** Île-de-France at 100.00 euros and Centre-Val de Loire at 99.00: as
      strings "99.00" sorts above "100.00", so the page as written ranks
      Île-de-France second although no region reaches its amount, while the
      numeric rank puts it first. */
  lemma TextRankExample()
    ensures var all := [RegionStats(11, "Île-de-France", 1, 10000), RegionStats(24, "Centre-Val de Loire", 1, 9900)];
      && Count(all, AmountAtLeast(10000)) == 1
      && TextRank(all, 11) == Some(2)
      && Rank(all, 11) == Some(1)
  {
    var a := RegionStats(11, "Île-de-France", 1, 10000);
    var b := RegionStats(24, "Centre-Val de Loire", 1, 9900);
    LargerAmountRankedSecond(a, b);
  }

  /** The same on any two regions at 100.00 and 99.00 euros. */
  lemma LargerAmountRankedSecond(a: RegionStats, b: RegionStats)
    requires a.total_remb == 10000 && b.total_remb == 9900 && a.code_region != b.code_region
    ensures Count([a, b], AmountAtLeast(a.total_remb)) == 1
    ensures TextRank([a, b], a.code_region) == Some(2)
    ensures Rank([a, b], a.code_region) == Some(1)
  {
    TextSortSwaps(a, b);
    assert [a, b] == [a] + [b];
    CountAppend([a], [b], AmountAtLeast(10000));
    StrictTopRanksFirst([a, b], 0);
  }

  // ---------------------------------------------------------------------------
  // The comparison block as written and as intended.

  datatype Comparison = Comparison(gap: Gap, rank: Option<nat>, count: nat)

  /** The page below the selector: the warning when the detail reply carries
      an `error` key, the detail alone when there are no per-region rows,
      the detail with the comparison block otherwise. `Crash` is the
      `IndexError` of `index[0]`. */
  datatype View = NoData | Shown(detail: RegionDetail, comparison: Option<Comparison>) | Crash

  /** The page as written: the rank is read with `index[0]` whether or not
      the region has a per-region row, on the rows sorted by the text of
      their amounts. */
  function RegionViewAsWritten(stats: RegionStatsReply, all: seq<RegionStats>): (v: View)
    ensures v.NoData? <==> stats.ErrorBody?
    ensures v.Crash? <==> stats.Detail? && all != [] && !HasCode(all, stats.detail.code_region)
    ensures v.Shown? ==> v.detail == stats.detail
    ensures stats.Detail? && all == [] ==> v == Shown(stats.detail, None)
    ensures stats.Detail? && HasCode(all, stats.detail.code_region) ==>
      v == Shown(stats.detail, Some(Comparison(NationalGap(stats.detail, all), TextRank(all, stats.detail.code_region), |all|)))
  {
    match stats
    case ErrorBody(_) => NoData
    case Detail(detail) =>
      if all == [] then Shown(detail, None)
      else
        match TextRank(all, detail.code_region)
        case None => Crash
        case Some(k) => Shown(detail, Some(Comparison(NationalGap(detail, all), Some(k), |all|)))
  }

  /** A view with its rank line blanked, to compare pages apart from the
      rank. */
  function WithoutRank(v: View): View
  {
    if v.Shown? && v.comparison.Some? then Shown(v.detail, Some(v.comparison.value.(rank := None))) else v
  }

  /** The corrected page: the rows ranked by amount, and the rank line left
      out for a region that has no per-region row. */
  function RegionView(stats: RegionStatsReply, all: seq<RegionStats>): (v: View)
    ensures !v.Crash?
    ensures v.NoData? <==> stats.ErrorBody?
    ensures v.Shown? ==> v.detail == stats.detail
    ensures v.Shown? && all != [] ==> v.comparison.Some? && v.comparison.value.rank == Rank(all, stats.detail.code_region)
    ensures stats.Detail? && all == [] ==> v == Shown(stats.detail, None)
    ensures stats.Detail? && all != [] ==>
      v == Shown(stats.detail, Some(Comparison(NationalGap(stats.detail, all), Rank(all, stats.detail.code_region), |all|)))
    ensures RegionViewAsWritten(stats, all) != Crash ==> WithoutRank(v) == WithoutRank(RegionViewAsWritten(stats, all))
  {
    match stats
    case ErrorBody(_) => NoData
    case Detail(detail) =>
      if all == [] then Shown(detail, None)
      else Shown(detail, Some(Comparison(NationalGap(detail, all), Rank(all, detail.code_region), |all|)))
  }

  /** The whole page for the option at index `choice` of the region
      selector and the one year its year selector offers; `None` is the
      error shown when the region list is empty. */
  function RegionPageAsWritten(store: Store, choice: nat): (v: Option<View>)
    requires store.regions != [] ==> choice < |SelectorOptions(store.regions)|
    ensures v.None? <==> store.regions == []
    ensures v.Some? ==> !v.value.NoData?
  {
    var regions := Regions.GetAllRegions(store);
    if regions == [] then None
    else
      var code := SelectedCode(regions, choice);
      Some(RegionViewAsWritten(GetRegionStats(store, code, DEFAULT_ANNEE), GetRegionsStats(store, DEFAULT_ANNEE)))
  }

  /** The same page built on the corrected comparison block. */
  function RegionPage(store: Store, choice: nat): (v: Option<View>)
    requires store.regions != [] ==> choice < |SelectorOptions(store.regions)|
    ensures v.None? <==> store.regions == []
    ensures v.Some? ==> v.value.Shown?
  {
    var regions := Regions.GetAllRegions(store);
    if regions == [] then None
    else
      var code := SelectedCode(regions, choice);
      Some(RegionView(GetRegionStats(store, code, DEFAULT_ANNEE), GetRegionsStats(store, DEFAULT_ANNEE)))
  }

  /** On a well-formed store, the page as written crashes exactly for a
      known region that has no facts in the year while some other region
      has. */
  lemma CrashIffIdleRegion(store: Store, i: nat, annee: int)
    requires RegionKeysUnique(store.regions) && i < |store.regions|
    requires GetRegionsStats(store, annee) != []
    ensures var code := store.regions[i].code_region;
      (RegionViewAsWritten(GetRegionStats(store, code, annee), GetRegionsStats(store, annee)).Crash? <==>
       RegionYearFacts(store, annee, store.regions[i].id) == [])
  {
    var region := store.regions[i];
    var rows := GetRegionsStats(store, annee);
    var fs := YearFacts(store, annee);
    RegionWithCodeUnique(store.regions, i);
    RegionsStatsRows(store, annee);
    if RegionYearFacts(store, annee, region.id) != [] {
      assert RowOf(region, fs) in rows;
      var k :| 0 <= k < |rows| && rows[k] == RowOf(region, fs);
      assert rows[k].code_region == region.code_region;
    } else {
      forall k | 0 <= k < |rows| ensures rows[k].code_region != region.code_region {
        var j :| 0 <= j < |store.regions| && RegionYearFacts(store, annee, store.regions[j].id) != [] &&
          rows[k] == RowOf(store.regions[j], fs);
        assert j != i;
      }
    }
  }

  /** Île-de-France with one fact in 2023, Centre-Val de Loire with none. */
  function IdleRegionStore(): (store: Store)
    ensures ValidStore(store)
  {
    var store := Store(
      [Region(1, 11, "Île-de-France"), Region(2, 24, "Centre-Val de Loire")],
      [], [],
      [Consommation(1, Some(1), None, 2023, 10, 500)]);
    assert store.regions[0] in store.regions;
    store
  }

  /** On that store, choosing Centre-Val de Loire crashes the page as
      written and shows the detail without a rank on the corrected page. */
  lemma CrashExample()
    ensures var store := IdleRegionStore();
      RegionViewAsWritten(GetRegionStats(store, 24, 2023), GetRegionsStats(store, 2023)).Crash?
    ensures var store := IdleRegionStore();
      var v := RegionView(GetRegionStats(store, 24, 2023), GetRegionsStats(store, 2023));
      v.Shown? && v.comparison.Some? && v.comparison.value.rank.None?
  {
    var store := IdleRegionStore();
    var fs := YearFacts(store, 2023);
    assert fs == store.consommations;
    assert RegionYearFacts(store, 2023, 1) != [] by {
      assert OfRegion(fs, 1) != [] by { assert fs[0] in OfRegion(fs, 1); }
    }
    assert RegionYearFacts(store, 2023, 2) == [] by {
      assert forall f :: f in fs ==> f.region_id != Some(2);
    }
    RegionsStatsRows(store, 2023);
    assert RowOf(store.regions[0], fs) in GetRegionsStats(store, 2023);
    CrashIffIdleRegion(store, 1, 2023);
  }
}
