/** The `Dice` class of src/dice.py: one `NdM` term, rolled with or without
    critical rerolls, with its face histogram and its per-difficulty success
    ladder. `random.randint` is replaced by an injected sequence of raw draws. */
module Dice {
  import opened Common
  import opened Strings
  import Segments

  // ---------------------------------------------------------------------
  // Parsing the term: `n, m = base.split("d")`, `int(n)`, `int(m)`.

  lemma DigitsAround(t: string, p: nat)
    requires p < |t| && Segments.Span(t, 0, Segments.Digit) == p
    requires Segments.Span(t, p + 1, Segments.Digit) == |t|
    ensures AllDigits(t[..p]) && AllDigits(t[p + 1..])
  {
    var head, tail := t[..p], t[p + 1..];
    assert forall k :: 0 <= k < |head| ==> head[k] == t[k];
    assert forall k :: 0 <= k < |tail| ==> tail[k] == t[p + 1 + k];
  }

  lemma DiceTermParts(t: string)
    requires Segments.IsDiceTerm(t)
    ensures var p := Segments.Span(t, 0, Segments.Digit);
      && 0 < p < |t| - 1 && t[p] == 'd'
      && AllDigits(t[..p]) && AllDigits(t[p + 1..])
      && SplitOn(t, 'd') == [t[..p], t[p + 1..]]
  {
    var p := Segments.Span(t, 0, Segments.Digit);
    DigitsAround(t, p);
    NoLetterD(t[..p]);
    NoLetterD(t[p + 1..]);
    SplitAtD(t, p);
  }

  lemma NoLetterD(x: string)
    requires AllDigits(x)
    ensures 'd' !in x
  {
  }

  lemma SplitAtD(t: string, p: nat)
    requires p < |t| && t[p] == 'd' && 'd' !in t[..p] && 'd' !in t[p + 1..]
    ensures SplitOn(t, 'd') == [t[..p], t[p + 1..]]
  {
    assert t == t[..p] + ['d'] + t[p + 1..];
    SplitOnPrefix(t[..p], t[p + 1..], 'd');
    SplitOnNoSep(t[p + 1..], 'd');
  }

  /** The number of dice and of faces a whole `\d+d\d+` term names. */
  function ParseBase(base: string): (nm: (nat, nat))
    requires Segments.IsDiceTerm(base)
  {
    DiceTermParts(base);
    var parts := SplitOn(base, 'd');
    (DigitsValue(parts[0]), DigitsValue(parts[1]))
  }

  lemma SpanOfDigits(x: string, y: string)
    requires AllDigits(x)
    requires y == [] || !IsDigit(y[0])
    ensures Segments.Span(x + y, 0, Segments.Digit) == |x|
  {
    var s := x + y;
    assert forall k :: 0 <= k < |x| ==> s[k] == x[k];
    assert |x| < |s| ==> s[|x|] == y[0];
  }

  /** Two digit strings around a `d` make a whole dice term, split at the `d`. */
  lemma DigitsMakeTerm(x: string, y: string)
    requires AllDigits(x) && AllDigits(y) && x != [] && y != []
    ensures var t := x + "d" + y;
      && Segments.IsDiceTerm(t)
      && Segments.Span(t, 0, Segments.Digit) == |x|
      && t[..|x|] == x && t[|x| + 1..] == y
  {
    var t := x + "d" + y;
    assert t == x + ("d" + y);
    SpanOfDigits(x, "d" + y);
    assert t[|x| + 1..] == y;
    assert forall k :: |x| + 1 <= k < |t| ==> t[k] == y[k - |x| - 1];
    assert t[..|x|] == x;
  }

  /** Printing a term's base (`"NdM"`) and parsing it again gives back `n`
      and `m`: the base form is a whole dice term. */
  lemma BaseRoundTrip(n: nat, m: nat)
    ensures Segments.IsDiceTerm(Render(n, m, [], true, false))
    ensures ParseBase(Render(n, m, [], true, false)) == (n, m)
  {
    var sn, sm := NatToString(n), NatToString(m);
    DigitsMakeTerm(sn, sm);
    DiceTermParts(sn + "d" + sm);
    NatToStringRoundTrip(n);
    NatToStringRoundTrip(m);
  }

  // ---------------------------------------------------------------------
  // Drawing: the `while i < self.n_dice` loop of `Dice.roll`.

  /** `random.randint(lo, hi)`, driven by one raw draw of the injected source. */
  function RandInt(lo: int, hi: int, raw: nat): (v: int)
    requires lo <= hi
    ensures lo <= v <= hi
  {
    lo + raw % (hi - lo + 1)
  }

  /** The faces the raw draws turn into on an `m`-sided die. */
  function Faces(m: nat, draws: seq<nat>): (vs: seq<int>)
    requires m >= 1
    ensures |vs| == |draws|
    ensures forall j :: 0 <= j < |draws| ==> vs[j] == RandInt(1, m, draws[j])
  {
    seq(|draws|, j requires 0 <= j < |draws| => RandInt(1, m, draws[j]))
  }

  /** Does a die showing `v` count toward the `n` dice? Not when it is a
      critical and criticals are rerolled. */
  predicate Counts(v: int, m: nat, reroll: bool)
  {
    !reroll || v != m
  }

  /** How many of `vs` count toward the `n` dice. */
  function Counted(vs: seq<int>, m: nat, reroll: bool): nat
  {
    if vs == [] then 0 else (if Counts(vs[0], m, reroll) then 1 else 0) + Counted(vs[1..], m, reroll)
  }

  /** The values the loop draws, in order, while `left` dice are still to be
      counted; the loop raises when randint's range is empty (`m == 0`), and
      the model fails when its draws run out. */
  function Drawn(left: nat, m: nat, reroll: bool, draws: seq<nat>): (r: Result<seq<int>, Raised>)
    ensures r.Ok? ==> |r.value| <= |draws| && Counted(r.value, m, reroll) == left
    decreases |draws|
  {
    if left == 0 then Ok([])
    else if m == 0 then Err(ValueError)
    else if draws == [] then Err(OutOfDraws)
    else
      var v := RandInt(1, m, draws[0]);
      var rest := Drawn(if Counts(v, m, reroll) then left - 1 else left, m, reroll, draws[1..]);
      if rest.Err? then rest else Ok([v] + rest.value)
  }

  function Prefixed(pre: seq<int>, r: Result<seq<int>, Raised>): Result<seq<int>, Raised>
  {
    if r.Ok? then Ok(pre + r.value) else r
  }

  lemma PrefixedNothing(r: Result<seq<int>, Raised>)
    ensures Prefixed([], r) == r
  {
    if r.Ok? {
      assert [] + r.value == r.value;
    }
  }

  /** The faces of the draws after the first are the faces after the first. */
  lemma FacesTail(m: nat, draws: seq<nat>)
    requires m >= 1 && draws != []
    ensures Faces(m, draws) == [RandInt(1, m, draws[0])] + Faces(m, draws[1..])
  {
  }

  lemma {:induction false} DrawnSucceeds(n: nat, m: nat, reroll: bool, draws: seq<nat>)
    ensures Drawn(n, m, reroll, draws).Ok? <==> n == 0 || (m >= 1 && Counted(Faces(m, draws), m, reroll) >= n)
    decreases |draws|
  {
    if n == 0 || m == 0 {
    } else if draws == [] {
      assert Faces(m, draws) == [];
    } else {
      var v := RandInt(1, m, draws[0]);
      DrawnSucceeds(if Counts(v, m, reroll) then n - 1 else n, m, reroll, draws[1..]);
      FacesTail(m, draws);
      assert Faces(m, draws)[1..] == Faces(m, draws[1..]);
    }
  }

  lemma {:induction false} DrawnValues(n: nat, m: nat, reroll: bool, draws: seq<nat>)
    requires Drawn(n, m, reroll, draws).Ok?
    ensures var vs := Drawn(n, m, reroll, draws).value;
      && |vs| <= |draws|
      && (m >= 1 ==> vs == Faces(m, draws)[..|vs|])
      && Counted(vs, m, reroll) == n
      && (n > 0 ==> Counts(vs[|vs| - 1], m, reroll))
    decreases |draws|
  {
    if n > 0 {
      var v := RandInt(1, m, draws[0]);
      var left := if Counts(v, m, reroll) then n - 1 else n;
      DrawnValues(left, m, reroll, draws[1..]);
      FacesTail(m, draws);
      var r := Drawn(left, m, reroll, draws[1..]).value;
      var vs := [v] + r;
      assert vs[1..] == r;
      assert vs == Faces(m, draws)[..|vs|];
    }
  }

  lemma {:induction false} DrawnError(n: nat, m: nat, reroll: bool, draws: seq<nat>)
    ensures Drawn(n, m, reroll, draws).Err? ==>
      Drawn(n, m, reroll, draws).error == (if m == 0 then ValueError else OutOfDraws)
    decreases |draws|
  {
    if n > 0 && m > 0 && draws != [] {
      var v := RandInt(1, m, draws[0]);
      DrawnError(if Counts(v, m, reroll) then n - 1 else n, m, reroll, draws[1..]);
    }
  }

  /** The roll succeeds exactly when no dice are asked for, or the die has
      faces and the draws supply `n` counting dice. Then the values drawn are
      the first draws, the last of them counts, and exactly `n` count. */
  lemma DrawnSpec(n: nat, m: nat, reroll: bool, draws: seq<nat>)
    ensures Drawn(n, m, reroll, draws).Ok? <==> n == 0 || (m >= 1 && Counted(Faces(m, draws), m, reroll) >= n)
    ensures Drawn(n, m, reroll, draws).Ok? ==>
      var vs := Drawn(n, m, reroll, draws).value;
      && |vs| <= |draws|
      && (m >= 1 ==> vs == Faces(m, draws)[..|vs|])
      && Counted(vs, m, reroll) == n
      && (n > 0 ==> Counts(vs[|vs| - 1], m, reroll))
    ensures Drawn(n, m, reroll, draws).Err? ==>
      Drawn(n, m, reroll, draws).error == (if m == 0 then ValueError else OutOfDraws)
  {
    DrawnSucceeds(n, m, reroll, draws);
    DrawnError(n, m, reroll, draws);
    if Drawn(n, m, reroll, draws).Ok? {
      DrawnValues(n, m, reroll, draws);
    }
  }

  /** Without critical rerolls a roll draws exactly `n` values, one per raw
      draw, each between 1 and `m`. */
  lemma {:induction false} PlainRoll(n: nat, m: nat, draws: seq<nat>)
    ensures Drawn(n, m, false, draws).Ok? <==> n == 0 || (m >= 1 && |draws| >= n)
    ensures Drawn(n, m, false, draws).Ok? ==>
      var vs := Drawn(n, m, false, draws).value;
      && |vs| == n
      && forall j :: 0 <= j < n ==> 1 <= vs[j] <= m && vs[j] == RandInt(1, m, draws[j])
  {
    DrawnSpec(n, m, false, draws);
    if m >= 1 {
      CountedAll(Faces(m, draws), m);
    }
    if Drawn(n, m, false, draws).Ok? {
      var vs := Drawn(n, m, false, draws).value;
      CountedAll(vs, m);
    }
  }

  lemma {:induction false} CountedAll(vs: seq<int>, m: nat)
    ensures Counted(vs, m, false) == |vs|
  {
    if vs != [] {
      CountedAll(vs[1..], m);
    }
  }

  lemma {:induction false} CountedCriticals(vs: seq<int>, m: nat)
    ensures Counted(vs, m, true) + multiset(vs)[m] == |vs|
  {
    if vs != [] {
      CountedCriticals(vs[1..], m);
      assert vs == [vs[0]] + vs[1..];
    }
  }

  /** With critical rerolls, the values that are not the top face number
      exactly `n`; every extra value drawn is a critical. */
  lemma {:induction false} ExplodingRoll(n: nat, m: nat, draws: seq<nat>)
    ensures Drawn(n, m, true, draws).Ok? ==>
      var vs := Drawn(n, m, true, draws).value;
      && |vs| == n + multiset(vs)[m]
      && |vs| <= |draws|
      && forall j :: 0 <= j < |vs| ==> 1 <= vs[j] <= m && vs[j] == RandInt(1, m, draws[j])
  {
    DrawnSpec(n, m, true, draws);
    if Drawn(n, m, true, draws).Ok? {
      var vs := Drawn(n, m, true, draws).value;
      CountedCriticals(vs, m);
      if n == 0 {
        assert vs == [];
      } else {
        var fs := Faces(m, draws);
        forall j | 0 <= j < |vs|
          ensures 1 <= vs[j] <= m && vs[j] == RandInt(1, m, draws[j])
        {
          assert vs[j] == fs[j];
        }
      }
    }
  }

  /** Whatever the mode, every value drawn is a face of the die. */
  lemma DrawnInRange(n: nat, m: nat, reroll: bool, draws: seq<nat>)
    requires Drawn(n, m, reroll, draws).Ok?
    ensures forall j :: 0 <= j < |Drawn(n, m, reroll, draws).value| ==> 1 <= Drawn(n, m, reroll, draws).value[j] <= m
  {
    DrawnSpec(n, m, reroll, draws);
    var vs := Drawn(n, m, reroll, draws).value;
    if n > 0 {
      var fs := Faces(m, draws);
      forall j | 0 <= j < |vs|
        ensures 1 <= vs[j] <= m
      {
        assert vs[j] == fs[j];
      }
    }
  }

  // ---------------------------------------------------------------------
  // The histogram and the success ladder.

  /** `sum` of a list of integers. */
  function Sum(s: seq<int>): int
  {
    if s == [] then 0 else Sum(s[..|s| - 1]) + s[|s| - 1]
  }

  /** A pool of dice each showing a face in `1..m` sums to between one
      and `m` per die. */
  lemma {:induction false} SumBounds(vs: seq<int>, m: nat)
    requires forall j :: 0 <= j < |vs| ==> 1 <= vs[j] <= m
    ensures |vs| <= Sum(vs) <= |vs| * m
  {
    if vs != [] {
      var init := vs[..|vs| - 1];
      assert forall j :: 0 <= j < |init| ==> init[j] == vs[j];
      SumBounds(init, m);
    }
  }

  /** `self.freq` after the loop and `self.freq.reverse()`: entry `k` counts
      the dice showing `m - k`, so entry 0 counts criticals and the last
      entry counts botches. */
  function Histogram(vs: seq<int>, m: nat): (freq: seq<nat>)
    ensures |freq| == m
  {
    seq(m, k requires 0 <= k < m => multiset(vs)[m - k])
  }

  /** How many of `vs` are at least `t`. */
  function CountAtLeast(vs: seq<int>, t: int): nat
  {
    if vs == [] then 0 else CountAtLeast(vs[..|vs| - 1], t) + (if vs[|vs| - 1] >= t then 1 else 0)
  }

  lemma {:induction false} CountAtLeastStep(vs: seq<int>, t: int)
    ensures CountAtLeast(vs, t) == CountAtLeast(vs, t + 1) + multiset(vs)[t]
  {
    if vs != [] {
      var init := vs[..|vs| - 1];
      CountAtLeastStep(init, t);
      assert vs == init + [vs[|vs| - 1]];
    }
  }

  lemma {:induction false} CountAtLeastAbove(vs: seq<int>, t: int)
    requires forall j :: 0 <= j < |vs| ==> vs[j] < t
    ensures CountAtLeast(vs, t) == 0
  {
    if vs != [] {
      CountAtLeastAbove(vs[..|vs| - 1], t);
    }
  }

  lemma {:induction false} CountAtLeastBelow(vs: seq<int>, t: int)
    requires forall j :: 0 <= j < |vs| ==> vs[j] >= t
    ensures CountAtLeast(vs, t) == |vs|
  {
    if vs != [] {
      CountAtLeastBelow(vs[..|vs| - 1], t);
    }
  }

  /** The running total `itertools.accumulate` gives at level `k` is the
      number of dice showing `m - k` or more. */
  lemma {:induction false} CumulativeCount(vs: seq<int>, m: nat, k: nat)
    requires forall j :: 0 <= j < |vs| ==> vs[j] <= m
    requires k < m
    ensures Sum(Histogram(vs, m)[..k + 1]) == CountAtLeast(vs, m - k)
  {
    var freq := Histogram(vs, m);
    if k == 0 {
      assert freq[..1] == [freq[0]];
      assert Sum(freq[..1]) == Sum([]) + freq[0];
      CountAtLeastStep(vs, m);
      CountAtLeastAbove(vs, m + 1);
    } else {
      CumulativeCount(vs, m, k - 1);
      assert freq[..k + 1][..k] == freq[..k];
      CountAtLeastStep(vs, m - k);
    }
  }

  /** The histogram accounts for every die: its entries add up to the number
      of values drawn. */
  lemma HistogramTotal(vs: seq<int>, m: nat)
    requires forall j :: 0 <= j < |vs| ==> 1 <= vs[j] <= m
    ensures Sum(Histogram(vs, m)) == |vs|
  {
    if m == 0 {
      // No value lies in `1..0`, so there are none.
      CountAtLeastBelow(vs, 1);
      CountAtLeastAbove(vs, 1);
      assert Histogram(vs, m) == [];
    } else {
      CumulativeCount(vs, m, m - 1);
      assert Histogram(vs, m)[..m] == Histogram(vs, m);
      CountAtLeastBelow(vs, 1);
    }
  }

  /** `successes_per_diff_level`: for the level of target face `m - k`, the
      running total of the histogram minus the botches, but never fewer than
      the criticals. */
  function Ladder(freq: seq<nat>): (ladder: seq<nat>)
    ensures |ladder| == |freq|
  {
    seq(|freq|, k requires 0 <= k < |freq| => Max(freq[0], Sum(freq[..k + 1]) - freq[|freq| - 1]) as nat)
  }

  lemma {:induction false} SumPrefixGrows(freq: seq<nat>, k: nat, j: nat)
    requires k <= j <= |freq|
    ensures Sum(freq[..k]) <= Sum(freq[..j])
    decreases j - k
  {
    if k < j {
      SumPrefixGrows(freq, k, j - 1);
      assert freq[..j][..j - 1] == freq[..j - 1];
    }
  }

  /** The ladder has one level per face; criticals are a floor under every
      level; and an easier target (a larger level index, a lower face) never
      gives fewer successes. */
  lemma LadderShape(freq: seq<nat>)
    ensures |Ladder(freq)| == |freq|
    ensures forall k :: 0 <= k < |freq| ==> Ladder(freq)[k] >= freq[0]
    ensures forall k, j :: 0 <= k <= j < |freq| ==> Ladder(freq)[k] <= Ladder(freq)[j]
  {
    forall k, j | 0 <= k <= j < |freq|
      ensures Ladder(freq)[k] <= Ladder(freq)[j]
    {
      SumPrefixGrows(freq, k + 1, j + 1);
    }
  }

  /** Read on a roll: at the level of target face `m - k`, the successes are
      the dice showing `m - k` or more, minus the dice showing 1, but never
      fewer than the dice showing `m`. */
  lemma LadderOfRoll(vs: seq<int>, m: nat, k: nat)
    requires forall j :: 0 <= j < |vs| ==> 1 <= vs[j] <= m
    requires k < m
    ensures Ladder(Histogram(vs, m))[k]
         == Max(multiset(vs)[m], CountAtLeast(vs, m - k) - multiset(vs)[1])
  {
    CumulativeCount(vs, m, k);
  }

  // ---------------------------------------------------------------------
  // `sorted(self.result, reverse=True)`

  predicate SortedDesc(s: seq<int>)
  {
    forall i, j :: 0 <= i < j < |s| ==> s[i] >= s[j]
  }

  /** A head no smaller than every element keeps a sorted tail sorted. */
  lemma ConsSorted(h: int, t: seq<int>)
    requires SortedDesc(t) && forall j :: 0 <= j < |t| ==> h >= t[j]
    ensures SortedDesc([h] + t)
  {
    var r := [h] + t;
    forall i, j | 0 <= i < j < |r|
      ensures r[i] >= r[j]
    {
      assert r[j] == t[j - 1];
      if i > 0 {
        assert r[i] == t[i - 1];
      }
    }
  }

  lemma HeadDominates(s: seq<int>, x: int, rest: seq<int>)
    requires s != [] && SortedDesc(s) && s[0] > x && SortedDesc(rest)
    requires multiset(rest) == multiset(s[1..]) + multiset{x}
    ensures SortedDesc([s[0]] + rest)
    ensures multiset([s[0]] + rest) == multiset(s) + multiset{x}
  {
    forall j | 0 <= j < |rest|
      ensures s[0] >= rest[j]
    {
      assert rest[j] in multiset(rest);
      if rest[j] != x {
        assert rest[j] in multiset(s[1..]);
        var i :| 0 <= i < |s[1..]| && s[1..][i] == rest[j];
        assert s[i + 1] == rest[j];
      }
    }
    ConsSorted(s[0], rest);
    assert s == [s[0]] + s[1..];
  }

  /** `x` placed before the first element smaller than it. */
  function Insert(x: int, s: seq<int>): (r: seq<int>)
    ensures |r| == |s| + 1
  {
    if s == [] || x >= s[0] then [x] + s else [s[0]] + Insert(x, s[1..])
  }

  /** Inserting into a sorted list keeps it sorted and adds exactly `x`. */
  lemma {:induction false} InsertSorted(x: int, s: seq<int>)
    requires SortedDesc(s)
    ensures SortedDesc(Insert(x, s))
    ensures multiset(Insert(x, s)) == multiset(s) + multiset{x}
  {
    if s == [] || x >= s[0] {
      ConsSorted(x, s);
    } else {
      InsertSorted(x, s[1..]);
      HeadDominates(s, x, Insert(x, s[1..]));
    }
  }

  /** `result.sort(reverse=True)`, by insertion. */
  function SortDesc(s: seq<int>): (r: seq<int>)
    ensures |r| == |s|
  {
    if s == [] then [] else Insert(s[0], SortDesc(s[1..]))
  }

  /** The sorted values are in descending order and are a permutation of the drawn ones. */
  lemma {:induction false} SortDescSpec(s: seq<int>)
    ensures SortedDesc(SortDesc(s))
    ensures multiset(SortDesc(s)) == multiset(s)
  {
    if s != [] {
      SortDescSpec(s[1..]);
      InsertSorted(s[0], SortDesc(s[1..]));
      assert s == [s[0]] + s[1..];
    }
  }

  // ---------------------------------------------------------------------
  // Rendering: `_format_die_result` and `__str__`.

  /** `_format_die_result`: a 1 (checked first, so also on a d1) is a botch,
      bold and struck through; the top face is a critical, in bold. */
  function FormatDie(v: int, m: nat): (r: string)
    ensures v == 1 ==> Struck(r)
    ensures v == 1 || v == m ==> Bold(r)
  {
    if v == 1 then "**~~1~~**" else if v == m then "**" + IntToString(v) + "**" else IntToString(v)
  }

  function FormatAll(vs: seq<int>, m: nat): (r: seq<string>)
    ensures |r| == |vs| && forall j :: 0 <= j < |vs| ==> r[j] == FormatDie(vs[j], m)
  {
    seq(|vs|, j requires 0 <= j < |vs| => FormatDie(vs[j], m))
  }

  /** `__str__(base, add_sum)` of a term with `n` dice of `m` faces showing `result`. */
  function Render(n: nat, m: nat, result: seq<int>, base: bool, addSum: bool): (r: string)
    ensures base ==> Segments.IsDiceTerm(r)
    ensures !base ==> |r| > 0 && r[0] == '['
  {
    if base then
      DigitsMakeTerm(NatToString(n), NatToString(m));
      NatToString(n) + "d" + NatToString(m)
    else
      "[" + NatToString(n) + "d" + NatToString(m) + ": " + Join(", ", FormatAll(result, m)) + "]"
      + (if addSum then " " + IntToString(Sum(result)) else "")
  }

  /** The full form opens with `[`, the base form and `: `, and closes
      with `]`; adding the sum only appends a space and the sum. */
  lemma {:induction false} RenderForms(n: nat, m: nat, result: seq<int>)
    ensures var b := Render(n, m, result, true, false);
      var r := Render(n, m, result, false, false);
      && Render(n, m, result, false, true) == r + " " + IntToString(Sum(result))
      && |r| >= |b| + 3 && r[..|b| + 3] == "[" + b + ": " && r[|r| - 1] == ']'
  {
    var b := Render(n, m, result, true, false);
    var head := "[" + b + ": ";
    var body := Join(", ", FormatAll(result, m)) + "]";
    BracketedForm(NatToString(n), NatToString(m), Join(", ", FormatAll(result, m)));
    var r := Render(n, m, result, false, false);
    assert r == head + body;
    assert (head + body)[..|head|] == head;
  }

  lemma BracketedForm(sn: string, sm: string, body: string)
    ensures "[" + sn + "d" + sm + ": " + body + "]" + "" == ("[" + (sn + "d" + sm) + ": ") + (body + "]")
  {
  }

  /** The text with the markdown markers `*` and `~` removed. */
  function Unmarked(s: string): string
  {
    if s == [] then "" else (if s[0] in "*~" then "" else [s[0]]) + Unmarked(s[1..])
  }

  lemma {:induction false} UnmarkedAppend(a: string, b: string)
    ensures Unmarked(a + b) == Unmarked(a) + Unmarked(b)
  {
    if a != [] {
      assert (a + b)[1..] == a[1..] + b;
      UnmarkedAppend(a[1..], b);
    } else {
      assert a + b == b;
    }
  }

  /** Free of markup characters. */
  predicate Plain(s: string)
  {
    forall j :: 0 <= j < |s| ==> s[j] != '*' && s[j] != '~'
  }

  lemma {:induction false} UnmarkedPlain(s: string)
    requires Plain(s)
    ensures Unmarked(s) == s
  {
    if s != [] {
      assert Plain(s[1..]) by {
        assert forall j :: 0 <= j < |s[1..]| ==> s[1..][j] == s[j + 1];
      }
      UnmarkedPlain(s[1..]);
    }
  }

  lemma {:induction false} UnmarkedMarkers(s: string)
    requires forall j :: 0 <= j < |s| ==> s[j] == '*' || s[j] == '~'
    ensures Unmarked(s) == ""
  {
    if s != [] {
      UnmarkedMarkers(s[1..]);
    }
  }

  lemma IntToStringPlain(i: int)
    ensures Plain(IntToString(i))
  {
    var s := IntToString(i);
    if i < 0 {
      assert forall j :: 1 <= j < |s| ==> s[j] == NatToString(-i)[j - 1];
    }
  }

  /** Rendered struck through (a botch). */
  predicate Struck(r: string) { |r| >= 4 && r[..4] == "**~~" }

  /** Rendered in bold (a botch or a critical). */
  predicate Bold(r: string) { |r| >= 2 && r[..2] == "**" }

  lemma FormatBotch(m: nat)
    ensures Unmarked(FormatDie(1, m)) == "1"
    ensures Struck(FormatDie(1, m)) && Bold(FormatDie(1, m))
  {
    var r := FormatDie(1, m);
    assert r == "**~~" + ("1" + "~~**");
    UnmarkedMarkers("**~~");
    UnmarkedAppend("**~~", "1" + "~~**");
    UnmarkedOneThenMarkers();
  }

  lemma UnmarkedOneThenMarkers()
    ensures Unmarked("1" + "~~**") == "1"
  {
    UnmarkedMarkers("~~**");
    UnmarkedAppend("1", "~~**");
    assert Unmarked("1") == "1";
  }

  lemma FormatCritical(v: int)
    requires v != 1 && v >= 0
    ensures Unmarked(FormatDie(v, v)) == IntToString(v)
    ensures !Struck(FormatDie(v, v)) && Bold(FormatDie(v, v))
  {
    var s := IntToString(v);
    var r := FormatDie(v, v);
    IntToStringPlain(v);
    UnmarkedPlain(s);
    assert r == "**" + (s + "**");
    UnmarkedAppend("**", s + "**");
    UnmarkedAppend(s, "**");
    UnmarkedMarkers("**");
    assert r[2] == s[0] && s[0] != '~';
  }

  lemma FormatPlain(v: int, m: nat)
    requires v != 1 && v != m
    ensures Unmarked(FormatDie(v, m)) == IntToString(v)
    ensures !Struck(FormatDie(v, m)) && !Bold(FormatDie(v, m))
  {
    var s := IntToString(v);
    assert FormatDie(v, m) == s;
    IntToStringPlain(v);
    UnmarkedPlain(s);
    assert s[0] != '*';
    assert |s| >= 2 ==> s[..2][0] == s[0];
    assert |s| >= 4 ==> s[..4][0] == s[0];
  }

  /** The markup never changes the number shown: stripped of its markers a
      die reads as its value. It is struck through exactly for a 1, and bold
      exactly for a 1 or the top face. */
  lemma FormatDieMarkup(v: int, m: nat)
    ensures Unmarked(FormatDie(v, m)) == IntToString(v)
    ensures Struck(FormatDie(v, m)) <==> v == 1
    ensures Bold(FormatDie(v, m)) <==> (v == 1 || v == m)
  {
    if v == 1 {
      FormatBotch(m);
    } else if v == m {
      FormatCritical(v);
    } else {
      FormatPlain(v, m);
    }
  }

  // ---------------------------------------------------------------------
  // The object.

  /** `list.reverse()` */
  function Reversed(s: seq<nat>): (r: seq<nat>)
    ensures |r| == |s| && forall j :: 0 <= j < |s| ==> r[j] == s[|s| - 1 - j]
  {
    seq(|s|, j requires 0 <= j < |s| => s[|s| - 1 - j])
  }

  /** One pass of the drawing loop consumes one draw and moves one value
      from the part still to be drawn to the part drawn. */
  lemma DrawStep(left: nat, m: nat, reroll: bool, draws: seq<nat>, k: nat, drawn: seq<int>)
    requires left > 0 && m > 0 && k < |draws|
    ensures var v := RandInt(1, m, draws[k]);
      Prefixed(drawn, Drawn(left, m, reroll, draws[k..]))
      == Prefixed(drawn + [v], Drawn(if Counts(v, m, reroll) then left - 1 else left, m, reroll, draws[k + 1..]))
  {
    assert draws[k..][1..] == draws[k + 1..];
    var v := RandInt(1, m, draws[k]);
    var rest := Drawn(if Counts(v, m, reroll) then left - 1 else left, m, reroll, draws[k + 1..]);
    if rest.Ok? {
      assert drawn + ([v] + rest.value) == drawn + [v] + rest.value;
    }
  }

  /** Bucket `j` of `freq` counts the faces `j + 1` among `drawn`. */
  predicate Buckets(freq: seq<nat>, drawn: seq<int>, m: nat)
  {
    |freq| == m && forall j :: 0 <= j < m ==> freq[j] == multiset(drawn)[j + 1]
  }

  /** Counting one more value bumps exactly its own bucket. */
  lemma BucketStep(freq: seq<nat>, drawn: seq<int>, m: nat, v: int, bumped: seq<nat>)
    requires 1 <= v <= m && Buckets(freq, drawn, m)
    requires bumped == freq[v - 1 := freq[v - 1] + 1]
    ensures Buckets(bumped, drawn + [v], m)
  {
    assert multiset(drawn + [v]) == multiset(drawn) + multiset{v};
  }

  /** Reversing the face counts puts the top face first. */
  lemma ReversedBuckets(freq: seq<nat>, drawn: seq<int>, m: nat)
    requires Buckets(freq, drawn, m)
    ensures Reversed(freq) == Histogram(drawn, m)
  {
  }

  /** What the drawing loop knows after `k` draws, `i` of which counted:
      the values so far are the head of what the whole roll draws, and the
      buckets count them. */
  predicate LoopState(n: nat, m: nat, reroll: bool, draws: seq<nat>, i: nat, k: nat, drawn: seq<int>, counts: seq<nat>)
  {
    && k <= |draws| && |drawn| == k && i <= n
    && Drawn(n, m, reroll, draws) == Prefixed(drawn, Drawn(n - i, m, reroll, draws[k..]))
    && Buckets(counts, drawn, m)
  }

  lemma LoopStart(n: nat, m: nat, reroll: bool, draws: seq<nat>)
    ensures LoopState(n, m, reroll, draws, 0, 0, [], seq(m, _ => 0))
  {
    assert draws[0..] == draws;
    PrefixedNothing(Drawn(n, m, reroll, draws));
  }

  /** With dice still to count, the roll fails when the die has no faces or
      the draws have run out. */
  lemma LoopStuck(n: nat, m: nat, reroll: bool, draws: seq<nat>, i: nat, k: nat, drawn: seq<int>, counts: seq<nat>)
    requires LoopState(n, m, reroll, draws, i, k, drawn, counts)
    requires i < n && (m == 0 || k == |draws|)
    ensures Drawn(n, m, reroll, draws) == Err(if m == 0 then ValueError else OutOfDraws)
  {
    assert k == |draws| ==> draws[k..] == [];
  }

  /** One pass of the loop keeps its state. */
  lemma LoopStep(n: nat, m: nat, reroll: bool, draws: seq<nat>, i: nat, k: nat, drawn: seq<int>, counts: seq<nat>)
    requires LoopState(n, m, reroll, draws, i, k, drawn, counts)
    requires i < n && m > 0 && k < |draws|
    ensures var v := RandInt(1, m, draws[k]);
      LoopState(n, m, reroll, draws, if Counts(v, m, reroll) then i + 1 else i, k + 1,
                drawn + [v], counts[v - 1 := counts[v - 1] + 1])
  {
    var v := RandInt(1, m, draws[k]);
    DrawStep(n - i, m, reroll, draws, k, drawn);
    BucketStep(counts, drawn, m, v, counts[v - 1 := counts[v - 1] + 1]);
  }

  lemma LoopDone(n: nat, m: nat, reroll: bool, draws: seq<nat>, k: nat, drawn: seq<int>, counts: seq<nat>)
    requires LoopState(n, m, reroll, draws, n, k, drawn, counts)
    ensures Drawn(n, m, reroll, draws) == Ok(drawn)
  {
    assert drawn + [] == drawn;
  }

  /** The drawing loop of `Dice.roll`: draw until `n` dice count, counting
      each face in its bucket (bucket `j` holds the face `j + 1`). */
  method DrawLoop(n: nat, m: nat, reroll: bool, draws: seq<nat>)
    returns (r: Result<(seq<int>, seq<nat>), Raised>)
    ensures var d := Drawn(n, m, reroll, draws);
      && (r.Ok? <==> d.Ok?)
      && (d.Err? ==> r == Err(d.error))
      && (d.Ok? ==> r.value.0 == d.value && Buckets(r.value.1, d.value, m))
  {
    var drawn: seq<int> := [];
    var counts: seq<nat> := seq(m, _ => 0);
    var i: nat := 0;
    var k: nat := 0;
    LoopStart(n, m, reroll, draws);
    while i < n
      invariant LoopState(n, m, reroll, draws, i, k, drawn, counts)
      decreases |draws| - k
    {
      if m == 0 || k == |draws| {
        LoopStuck(n, m, reroll, draws, i, k, drawn, counts);
        return Err(if m == 0 then ValueError else OutOfDraws);
      }
      var v := RandInt(1, m, draws[k]);
      LoopStep(n, m, reroll, draws, i, k, drawn, counts);
      drawn := drawn + [v];
      counts := counts[v - 1 := counts[v - 1] + 1];
      k := k + 1;
      if !reroll || v != m {
        i := i + 1;
      }
    }
    LoopDone(n, m, reroll, draws, k, drawn, counts);
    r := Ok((drawn, counts));
  }

  class Dice {
    var rerollCriticals: bool
    const nDice: nat
    const mFaces: nat
    var result: seq<int>
    var successesPerDiffLevel: seq<nat>
    var freq: seq<nat>

    /** `Dice.__init__` up to its last line: read `n` and `m` off the base
        text; the roll itself is `Roll`, which the caller runs next. */
    constructor (base: string, rerollCriticals: bool)
      requires Segments.IsDiceTerm(base)
      ensures (nDice, mFaces) == ParseBase(base)
      ensures this.rerollCriticals == rerollCriticals
      ensures result == [] && successesPerDiffLevel == [] && freq == []
    {
      var nm := ParseBase(base);
      this.rerollCriticals := rerollCriticals;
      nDice := nm.0;
      mFaces := nm.1;
      result := [];
      successesPerDiffLevel := [];
      freq := [];
    }

    /** `Dice.roll`: draw until `nDice` dice count, building the face counts
        as it goes; then reverse the counts so the top face comes first,
        derive the success ladder, and sort the values in descending order. */
    method Roll(rerollCriticals: bool, draws: seq<nat>) returns (err: Option<Raised>)
      modifies this
      ensures this.rerollCriticals == rerollCriticals
      ensures var drawn := Drawn(nDice, mFaces, rerollCriticals, draws);
        && (err.None? <==> drawn.Ok?)
        && (drawn.Err? ==> err == Some(drawn.error))
        && (drawn.Ok? ==>
              && result == SortDesc(drawn.value)
              && freq == Histogram(drawn.value, mFaces)
              && successesPerDiffLevel == Ladder(freq))
    {
      this.rerollCriticals := rerollCriticals;
      result := [];
      freq := seq(mFaces, _ => 0);
      var r := DrawLoop(nDice, mFaces, rerollCriticals, draws);
      if r.Err? {
        return Some(r.error);
      }
      var drawn, counts := r.value.0, r.value.1;
      ReversedBuckets(counts, drawn, mFaces);
      freq := Reversed(counts);
      successesPerDiffLevel := Ladder(freq);
      result := SortDesc(drawn);
      err := None;
    }
  }
}
