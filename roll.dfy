/** The module-level `roll(s, successes)` of src/dice.py: split the command
    into parts, roll every dice term, evaluate the arithmetic (once with the
    sums of the terms, or once per difficulty level with the successes of
    the terms), count the botches, and format the reply. */
module Roller {
  import opened Common
  import opened Strings
  import opened Segments
  import Arith
  import Dice

  /** One entry of the arithmetic list `c`: a glue text, or a rolled term
      (a snapshot of the `Dice` object: it is not changed after its roll). */
  datatype Item =
    | Text(text: string)
    | Rolled(n: nat, m: nat, result: seq<int>, freq: seq<nat>, ladder: seq<nat>)

  /** An entry of the printing list `p`: a part kept as it is, or a rolled
      term, printed by `__str__(base=False, add_sum)`. */
  datatype Entry =
    | Kept(text: string)
    | Rendered(n: nat, m: nat, result: seq<int>, addSum: bool)

  function EntryText(sp: Entry): string
  {
    match sp
    case Kept(t) => t
    case Rendered(n, m, result, addSum) => Dice.Render(n, m, result, false, addSum)
  }

  function EntryTexts(sps: seq<Entry>): (ts: seq<string>)
    ensures |ts| == |sps| && forall k :: 0 <= k < |sps| ==> ts[k] == EntryText(sps[k])
  {
    seq(|sps|, k requires 0 <= k < |sps| => EntryText(sps[k]))
  }

  /** The state of the loop over the parts: the printing list `p` so far,
      the arithmetic list `c`, the largest face count `m_max`, and the draws
      still unused. */
  datatype Scan = Scan(shown: seq<Entry>, items: seq<Item>, mMax: nat, rest: seq<nat>)

  // ---------------------------------------------------------------------
  // The loop over the parts.

  /** A part of the command as the loop tells it apart: a bracketed
      comment, other text, or a dice term with the numbers it names. */
  datatype Part =
    | Comment(text: string)
    | Expr(text: string)
    | DiceTerm(text: string, n: nat, m: nat)

  /** The part a split segment is: its tag, and for a dice term the number
      of dice and of faces `Dice(i)` parses from it. */
  function PartOf(seg: Segment): (pt: Part)
    requires WellFormed(seg)
    ensures pt.text == seg.text
  {
    match seg.kind
    case Literal => Comment(seg.text)
    case Glue => Expr(seg.text)
    case Term =>
      var nm := Dice.ParseBase(seg.text);
      DiceTerm(seg.text, nm.0, nm.1)
  }

  function Parts(segs: seq<Segment>): (ps: seq<Part>)
    requires AllWellFormed(segs)
    ensures |ps| == |segs| && forall k :: 0 <= k < |segs| ==> ps[k] == PartOf(segs[k])
  {
    seq(|segs|, k requires 0 <= k < |segs| => PartOf(segs[k]))
  }

  /** `Dice(i, reroll)` on a term naming `n` dice of `m` faces, rolled on
      the next draws; also the draws left over. */
  function RollTerm(n: nat, m: nat, reroll: bool, draws: seq<nat>): (r: Result<(Item, seq<nat>), Raised>)
    ensures r.Ok? ==> r.value.0.Rolled? && r.value.0.n == n && r.value.0.m == m
  {
    var d := Dice.Drawn(n, m, reroll, draws);
    if d.Err? then Err(d.error)
    else
      var freq := Dice.Histogram(d.value, m);
      Ok((Rolled(n, m, Dice.SortDesc(d.value), freq, Dice.Ladder(freq)), draws[|d.value|..]))
  }

  /** One pass of the loop: a bracketed comment is kept as it is; other
      text is kept and goes to `c`; a dice term is rolled, shown rendered
      (with its sum only in sum mode), and goes to `c`. */
  function Step(st: Scan, part: Part, successes: bool): Result<Scan, Raised>
  {
    match part
    case Comment(t) => Ok(st.(shown := st.shown + [Kept(t)]))
    case Expr(t) => Ok(st.(shown := st.shown + [Kept(t)], items := st.items + [Text(t)]))
    case DiceTerm(_, n, m) =>
      var r := RollTerm(n, m, successes, st.rest);
      if r.Err? then Err(r.error)
      else
        var it := r.value.0;
        Ok(Scan(st.shown + [Rendered(it.n, it.m, it.result, !successes)],
                st.items + [it], if st.mMax >= it.m then st.mMax else it.m, r.value.1))
  }

  /** The loop after its first `k` passes. */
  function ScanUpTo(parts: seq<Part>, k: nat, successes: bool, draws: seq<nat>): Result<Scan, Raised>
    requires k <= |parts|
  {
    if k == 0 then Ok(Scan([], [], 0, draws))
    else
      var prev := ScanUpTo(parts, k - 1, successes, draws);
      if prev.Err? then prev else Step(prev.value, parts[k - 1], successes)
  }

  // ---------------------------------------------------------------------
  // The arithmetic.

  /** A part of the sum-mode expression: glue as it is, a term as the sum of its dice. */
  function SumPiece(it: Item): string
  {
    match it
    case Text(t) => t
    case Rolled(_, _, result, _, _) => IntToString(Dice.Sum(result))
  }

  function SumPieces(items: seq<Item>): (ps: seq<string>)
    ensures |ps| == |items| && forall k :: 0 <= k < |items| ==> ps[k] == SumPiece(items[k])
  {
    seq(|items|, k requires 0 <= k < |items| => SumPiece(items[k]))
  }

  function SumText(items: seq<Item>): string
  {
    Concat(SumPieces(items))
  }

  /** The first `k` parts of the level-`i` expression (the `tbc` copy):
      a term reads its `i`-th ladder entry, and has none past its faces. */
  function LevelPieces(items: seq<Item>, i: nat, k: nat): Result<seq<string>, Raised>
    requires k <= |items|
  {
    if k == 0 then Ok([])
    else
      var prev := LevelPieces(items, i, k - 1);
      if prev.Err? then prev
      else match items[k - 1]
        case Text(t) => Ok(prev.value + [t])
        case Rolled(_, _, _, _, ladder) =>
          if i < |ladder| then Ok(prev.value + [NatToString(ladder[i])]) else Err(IndexError)
  }

  function LevelText(items: seq<Item>, i: nat): Result<string, Raised>
  {
    var pieces := LevelPieces(items, i, |items|);
    if pieces.Err? then Err(pieces.error) else Ok(Concat(pieces.value))
  }

  /** The values of the first `count` levels, evaluated in order. */
  function LevelsUpTo(items: seq<Item>, count: nat): Result<seq<int>, Raised>
  {
    if count == 0 then Ok([])
    else
      var prev := LevelsUpTo(items, count - 1);
      if prev.Err? then prev
      else
        var t := LevelText(items, count - 1);
        if t.Err? then Err(t.error)
        else
          var v := Arith.Eval(t.value);
          if v.Err? then Err(v.error) else Ok(prev.value + [v.value])
  }

  /** How many difficulty levels success mode evaluates: `int((m_max + 1) / 2)`. */
  function LevelCount(mMax: nat): nat
  {
    (mMax + 1) / 2
  }

  /** `res`: one value in sum mode, one per level in success mode. */
  function Results(items: seq<Item>, successes: bool, mMax: nat): (r: Result<seq<int>, Raised>)
    ensures r.Ok? && !successes ==> |r.value| == 1
  {
    if !successes then
      var v := Arith.Eval(SumText(items));
      if v.Err? then Err(v.error) else Ok([v.value])
    else LevelsUpTo(items, LevelCount(mMax))
  }

  /** `sum(i.freq[-1] for the terms)`; a term with no faces has no last bucket. */
  function Botches(items: seq<Item>): (r: Result<nat, Raised>)
    ensures r.Err? ==> r.error == IndexError
  {
    if items == [] then Ok(0)
    else
      var prev := Botches(items[..|items| - 1]);
      var last := items[|items| - 1];
      if prev.Err? || last.Text? then prev
      else if last.freq == [] then Err(IndexError)
      else Ok(prev.value + last.freq[|last.freq| - 1])
  }

  // ---------------------------------------------------------------------
  // The formatting.

  function NonEmpty(parts: seq<string>): (r: seq<string>)
    ensures forall k :: 0 <= k < |r| ==> r[k] != ""
  {
    if parts == [] then []
    else (if parts[0] == "" then [] else [parts[0]]) + NonEmpty(parts[1..])
  }

  /** A part that starts with `[` is kept; any other loses its spaces. */
  function Tidy(t: string): string
  {
    if |t| > 0 && t[0] == '[' then t else RemoveSpaces(t)
  }

  function TidyAll(ts: seq<string>): (r: seq<string>)
    ensures |r| == |ts| && forall k :: 0 <= k < |ts| ==> r[k] == Tidy(ts[k])
  {
    seq(|ts|, k requires 0 <= k < |ts| => Tidy(ts[k]))
  }

  /** `" ".join(...)` of the non-empty parts, each tidied. */
  function Shown(parts: seq<string>): string
  {
    Join(" ", TidyAll(NonEmpty(parts)))
  }

  /** `\w` and `\s`, on ASCII: letters, digits, `_`; tab to carriage return,
      the four separators 0x1c-0x1f, and the space. */
  predicate IsWordOrSpace(c: char)
  {
    || ('a' <= c <= 'z') || ('A' <= c <= 'Z') || IsDigit(c) || c == '_'
    || (9 <= c as int <= 13) || (28 <= c as int <= 32)
  }

  /** Where the run of `[\w\s]` characters starting at `j` stops. */
  function WordSpaceEnd(s: string, j: nat): (e: nat)
    requires j <= |s|
    ensures j <= e <= |s|
    ensures forall k :: j <= k < e ==> IsWordOrSpace(s[k])
    ensures e < |s| ==> !IsWordOrSpace(s[e])
    decreases |s| - j
  {
    if j < |s| && IsWordOrSpace(s[j]) then WordSpaceEnd(s, j + 1) else j
  }

  /** `(?<!\[)[+-](?![\w\s]*[\]])` matches at `j`: a sign not right after
      `[`, and not followed by word and space characters and then `]`. */
  predicate PaddedAt(s: string, j: nat)
    requires j < |s|
  {
    && (s[j] == '+' || s[j] == '-')
    && (j == 0 || s[j - 1] != '[')
    && !(WordSpaceEnd(s, j + 1) < |s| && s[WordSpaceEnd(s, j + 1)] == ']')
  }

  /** The character at `j`, with a space on each side when it is a matched sign. */
  function PadPiece(s: string, j: nat): string
    requires j < |s|
  {
    if PaddedAt(s, j) then [' ', s[j], ' '] else [s[j]]
  }

  function PadFrom(s: string, j: nat): string
    requires j <= |s|
    decreases |s| - j
  {
    if j == |s| then ""
    else PadPiece(s, j) + PadFrom(s, j + 1)
  }

  /** The operator padding: each matched sign becomes ` sign `. */
  function PadOps(s: string): string
  {
    PadFrom(s, 0)
  }

  function DropSpaces(s: string): (r: string)
    ensures |r| <= |s| && (r == [] || r[0] != ' ')
  {
    if s != [] && s[0] == ' ' then DropSpaces(s[1..]) else s
  }

  /** `re.sub(" +", " ", s)` */
  function CollapseSpaces(s: string): string
    decreases |s|
  {
    if s == [] then ""
    else if s[0] == ' ' then " " + CollapseSpaces(DropSpaces(s[1..]))
    else [s[0]] + CollapseSpaces(s[1..])
  }

  function Format(parts: seq<string>): (r: string)
    ensures NoDoubleSpace(r)
  {
    CollapseNoDouble(PadOps(Shown(parts)));
    CollapseSpaces(PadOps(Shown(parts)))
  }

  /** The successes line: level `idx` is labelled `vs m_max - idx`. */
  function SuccessLine(res: seq<int>, mMax: nat): string
  {
    "**Successes:** "
    + Join(", ", seq(|res|, idx requires 0 <= idx < |res| =>
                       "vs " + IntToString(mMax - idx) + ": " + IntToString(res[idx])))
  }

  /** The reply to `roll(s, successes)`, or the exception it raises. */
  function Report(s: string, successes: bool, draws: seq<nat>): (r: Result<string, Raised>)
    ensures r.Ok? ==> |r.value| >= 10 && r.value[..10] == "**Roll:** "
  {
    SplitWellFormed(s);
    var parts := Parts(Split(s));
    var sc := ScanUpTo(parts, |parts|, successes, draws);
    if sc.Err? then Err(sc.error)
    else
      var res := Results(sc.value.items, successes, sc.value.mMax);
      if res.Err? then Err(res.error)
      else
        var b := Botches(sc.value.items);
        if b.Err? then Err(b.error)
        else if res.value == [] then Err(IndexError)
        else
          ReplyHead(Format(EntryTexts(sc.value.shown)), res.value, sc.value.mMax, successes, b.value);
          Ok(Reply(Format(EntryTexts(sc.value.shown)), res.value, sc.value.mMax, successes, b.value))
  }

  lemma ReplyHead(shown: string, res: seq<int>, mMax: nat, successes: bool, botches: nat)
    requires res != []
    ensures var r := Reply(shown, res, mMax, successes, botches);
      |r| >= 10 && r[..10] == "**Roll:** "
  {
    var tail := shown + " **Result:** " + IntToString(res[0]) + "\n"
      + (if successes then SuccessLine(res, mMax) + ("\n**Botches:** " + NatToString(botches)) else "");
    assert Reply(shown, res, mMax, successes, botches) == "**Roll:** " + tail;
  }

  /** The reply text: the roll and the first result; in success mode also
      the line of successes per level and the botches. */
  function Reply(shown: string, res: seq<int>, mMax: nat, successes: bool, botches: nat): string
    requires res != []
  {
    var head := "**Roll:** " + shown + " **Result:** " + IntToString(res[0]) + "\n";
    if successes then head + SuccessLine(res, mMax) + ("\n**Botches:** " + NatToString(botches)) else head
  }

  // ---------------------------------------------------------------------
  // Once an exception is raised, the later steps do not matter.

  lemma {:induction false} ScanStaysFailed(parts: seq<Part>, k: nat, j: nat, successes: bool, draws: seq<nat>)
    requires k <= j <= |parts|
    requires ScanUpTo(parts, k, successes, draws).Err?
    ensures ScanUpTo(parts, j, successes, draws) == ScanUpTo(parts, k, successes, draws)
    decreases j
  {
    if j > k {
      ScanStaysFailed(parts, k, j - 1, successes, draws);
    }
  }

  lemma {:induction false} PiecesStayFailed(items: seq<Item>, i: nat, k: nat, j: nat)
    requires k <= j <= |items|
    requires LevelPieces(items, i, k).Err?
    ensures LevelPieces(items, i, j) == LevelPieces(items, i, k)
    decreases j
  {
    if j > k {
      PiecesStayFailed(items, i, k, j - 1);
    }
  }

  lemma {:induction false} LevelsStayFailed(items: seq<Item>, k: nat, j: nat)
    requires k <= j
    requires LevelsUpTo(items, k).Err?
    ensures LevelsUpTo(items, j) == LevelsUpTo(items, k)
    decreases j
  {
    if j > k {
      LevelsStayFailed(items, k, j - 1);
    }
  }

  // ---------------------------------------------------------------------
  // What the loop over the parts builds.

  /** A rolled term as `Dice.roll` leaves it: values sorted in descending
      order, each a face of the die; the face counts and the ladder derived
      from them. */
  predicate Consistent(it: Item)
  {
    it.Rolled? ==>
      && Dice.SortedDesc(it.result)
      && (forall j :: 0 <= j < |it.result| ==> 1 <= it.result[j] <= it.m)
      && it.freq == Dice.Histogram(it.result, it.m)
      && it.ladder == Dice.Ladder(it.freq)
  }

  lemma RollTermConsistent(n: nat, m: nat, reroll: bool, draws: seq<nat>)
    requires RollTerm(n, m, reroll, draws).Ok?
    ensures Consistent(RollTerm(n, m, reroll, draws).value.0)
  {
    var vs := Dice.Drawn(n, m, reroll, draws).value;
    var sorted := Dice.SortDesc(vs);
    Dice.SortDescSpec(vs);
    Dice.DrawnInRange(n, m, reroll, draws);
    forall j | 0 <= j < |sorted|
      ensures 1 <= sorted[j] <= m
    {
      assert sorted[j] in multiset(vs);
    }
    assert Dice.Histogram(sorted, m) == Dice.Histogram(vs, m);
  }

  /** The parts that are not bracketed comments, in order: those that go to `c`. */
  function NonComment(parts: seq<Part>): seq<Part>
  {
    if parts == [] then []
    else NonComment(parts[..|parts| - 1])
         + (if parts[|parts| - 1].Comment? then [] else [parts[|parts| - 1]])
  }

  /** An entry of `c` stands for a part: other text as itself, a dice term
      as a consistent roll of the number and faces the term names. */
  predicate Stands(it: Item, part: Part)
  {
    match it
    case Text(t) => part == Expr(t)
    case Rolled(n, m, _, _, _) => part.DiceTerm? && part.n == n && part.m == m && Consistent(it)
  }

  /** The largest face count among the rolled terms, or 0. */
  function MaxFaces(items: seq<Item>): nat
  {
    if items == [] then 0
    else
      var prev := MaxFaces(items[..|items| - 1]);
      var last := items[|items| - 1];
      if last.Rolled? && last.m > prev then last.m else prev
  }

  lemma {:induction false} MaxFacesBound(items: seq<Item>)
    ensures forall j :: 0 <= j < |items| && items[j].Rolled? ==> items[j].m <= MaxFaces(items)
    ensures MaxFaces(items) == 0 || exists j :: 0 <= j < |items| && items[j].Rolled? && items[j].m == MaxFaces(items)
  {
    if items != [] {
      var init := items[..|items| - 1];
      MaxFacesBound(init);
      assert forall j :: 0 <= j < |init| ==> items[j] == init[j];
    }
  }

  /** How the loop prints a part: a comment or other text as it is, a dice
      term as its roll, with the sum only in sum mode. */
  predicate Prints(sp: Entry, part: Part, successes: bool)
  {
    match part
    case DiceTerm(_, n, m) => sp.Rendered? && sp.n == n && sp.m == m && sp.addSum == !successes
    case _ => sp == Kept(part.text)
  }

  /** One pass of the loop appends one shown part, and one entry of `c`
      standing for the part unless it is a comment. */
  lemma StepFacts(st: Scan, part: Part, successes: bool)
    requires Step(st, part, successes).Ok?
    ensures var next := Step(st, part, successes).value;
      && |next.shown| == |st.shown| + 1 && next.shown[..|st.shown|] == st.shown
      && Prints(next.shown[|st.shown|], part, successes)
      && (part.Comment? ==> next.items == st.items && next.mMax == st.mMax)
      && (!part.Comment? ==>
            && |next.items| == |st.items| + 1 && next.items[..|st.items|] == st.items
            && Stands(next.items[|st.items|], part)
            && next.mMax == (if next.items[|st.items|].Rolled? && next.items[|st.items|].m > st.mMax
                             then next.items[|st.items|].m else st.mMax))
  {
    var next := Step(st, part, successes).value;
    assert next.shown[..|st.shown|] == st.shown;
    if part.DiceTerm? {
      RollTermConsistent(part.n, part.m, successes, st.rest);
    }
    if !part.Comment? {
      assert next.items[..|st.items|] == st.items;
    }
  }

  lemma NonCommentStep(parts: seq<Part>, k: nat)
    requires 0 < k <= |parts|
    ensures NonComment(parts[..k])
         == NonComment(parts[..k - 1]) + (if parts[k - 1].Comment? then [] else [parts[k - 1]])
  {
    assert parts[..k][..k - 1] == parts[..k - 1];
  }

  /** The loop prints one entry per part, in order: every comment and
      other text as it is, every dice term as its roll. */
  lemma {:induction false} ScanShown(parts: seq<Part>, k: nat, successes: bool, draws: seq<nat>)
    requires k <= |parts| && ScanUpTo(parts, k, successes, draws).Ok?
    ensures var sc := ScanUpTo(parts, k, successes, draws).value;
      && |sc.shown| == k
      && (forall j :: 0 <= j < k ==> Prints(sc.shown[j], parts[j], successes))
  {
    if k > 0 {
      var prev := ScanUpTo(parts, k - 1, successes, draws).value;
      ScanShown(parts, k - 1, successes, draws);
      StepFacts(prev, parts[k - 1], successes);
      var sc := ScanUpTo(parts, k, successes, draws).value;
      assert forall j :: 0 <= j < k - 1 ==> sc.shown[j] == sc.shown[..k - 1][j];
    }
  }

  /** Each entry of `items` stands for the part at the same place. */
  predicate AllStand(items: seq<Item>, parts: seq<Part>)
  {
    |items| == |parts| && forall j :: 0 <= j < |items| ==> Stands(items[j], parts[j])
  }

  lemma AllStandSnoc(items: seq<Item>, parts: seq<Part>, it: Item, part: Part)
    requires AllStand(items, parts) && Stands(it, part)
    ensures AllStand(items + [it], parts + [part])
  {
  }

  /** The loop puts in `c` exactly the parts that are not comments, in
      order: text as itself, dice terms as their rolls; and `m_max` is the
      largest face count rolled. */
  lemma {:induction false} ScanItems(parts: seq<Part>, k: nat, successes: bool, draws: seq<nat>)
    requires k <= |parts| && ScanUpTo(parts, k, successes, draws).Ok?
    ensures var sc := ScanUpTo(parts, k, successes, draws).value;
      && AllStand(sc.items, NonComment(parts[..k]))
      && sc.mMax == MaxFaces(sc.items)
  {
    if k > 0 {
      var prev := ScanUpTo(parts, k - 1, successes, draws).value;
      ScanItems(parts, k - 1, successes, draws);
      StepFacts(prev, parts[k - 1], successes);
      NonCommentStep(parts, k);
      var sc := ScanUpTo(parts, k, successes, draws).value;
      if !parts[k - 1].Comment? {
        var n := |prev.items|;
        assert sc.items == prev.items + [sc.items[n]];
        AllStandSnoc(prev.items, NonComment(parts[..k - 1]), sc.items[n], parts[k - 1]);
        assert sc.items[..n] == prev.items;
      }
    }
  }

  /** Where the entry of `c` for the part at `j` sits: after the entries of
      the parts before it that are not comments. */
  function ItemIndex(parts: seq<Part>, j: nat): nat
    requires j <= |parts|
  {
    |NonComment(parts[..j])|
  }

  /** How a rolled entry of `c` is printed: `dd.__str__(base=False, add_sum=not successes)`. */
  function Shows(it: Item, successes: bool): Entry
    requires it.Rolled?
  {
    Rendered(it.n, it.m, it.result, !successes)
  }

  /** A dice term's pass prints the very roll it appends to `c`. */
  lemma StepRendered(st: Scan, part: Part, successes: bool)
    requires Step(st, part, successes).Ok? && part.DiceTerm?
    ensures var next := Step(st, part, successes).value;
      && |next.shown| == |st.shown| + 1 && |next.items| == |st.items| + 1
      && next.items[|st.items|].Rolled?
      && next.shown[|st.shown|] == Shows(next.items[|st.items|], successes)
  {
  }

  /** Every dice term among `ps` is printed as the rolled entry of `items`
      that stands for it. */
  predicate ShowsRolls(shown: seq<Entry>, items: seq<Item>, ps: seq<Part>, successes: bool)
  {
    && |shown| == |ps|
    && forall j :: 0 <= j < |ps| && ps[j].DiceTerm? ==>
         && ItemIndex(ps, j) < |items| && items[ItemIndex(ps, j)].Rolled?
         && shown[j] == Shows(items[ItemIndex(ps, j)], successes)
  }

  lemma ShowsRollsSnoc(shown: seq<Entry>, items: seq<Item>, ps: seq<Part>, successes: bool,
                       e: Entry, items': seq<Item>, p: Part)
    requires ShowsRolls(shown, items, ps, successes) && |items| == |NonComment(ps)|
    requires |items| <= |items'| && items'[..|items|] == items
    requires p.DiceTerm? ==> |items| < |items'| && items'[|items|].Rolled? && e == Shows(items'[|items|], successes)
    ensures ShowsRolls(shown + [e], items', ps + [p], successes)
  {
    forall j | 0 <= j < |ps| + 1 && (ps + [p])[j].DiceTerm?
      ensures ItemIndex(ps + [p], j) < |items'| && items'[ItemIndex(ps + [p], j)].Rolled?
      ensures (shown + [e])[j] == Shows(items'[ItemIndex(ps + [p], j)], successes)
    {
      assert (ps + [p])[..j] == ps[..j];
      if j < |ps| {
        assert items'[..|items|][ItemIndex(ps, j)] == items'[ItemIndex(ps, j)];
      } else {
        assert ps[..j] == ps;
      }
    }
  }

  /** One pass of the loop keeps every printed term tied to its entry. */
  lemma StepShowsRolls(st: Scan, parts: seq<Part>, k: nat, successes: bool)
    requires 0 < k <= |parts|
    requires ShowsRolls(st.shown, st.items, parts[..k - 1], successes)
    requires |st.items| == |NonComment(parts[..k - 1])|
    requires Step(st, parts[k - 1], successes).Ok?
    ensures var next := Step(st, parts[k - 1], successes).value;
      ShowsRolls(next.shown, next.items, parts[..k], successes)
  {
    var part, ps := parts[k - 1], parts[..k - 1];
    var next := Step(st, part, successes).value;
    assert parts[..k] == ps + [part];
    StepFacts(st, part, successes);
    if part.DiceTerm? {
      StepRendered(st, part, successes);
    }
    assert next.shown == st.shown + [next.shown[|st.shown|]];
    ShowsRollsSnoc(st.shown, st.items, ps, successes, next.shown[|st.shown|], next.items, part);
  }

  /** The dice printed for a term in the `Roll:` text are the values of the
      entry of `c` that stands for it, the one object `dd` of the source:
      what is shown is what is summed or counted. */
  lemma {:induction false} ScanRendered(parts: seq<Part>, k: nat, successes: bool, draws: seq<nat>)
    requires k <= |parts| && ScanUpTo(parts, k, successes, draws).Ok?
    ensures var sc := ScanUpTo(parts, k, successes, draws).value;
      ShowsRolls(sc.shown, sc.items, parts[..k], successes)
  {
    if k > 0 {
      var prev := ScanUpTo(parts, k - 1, successes, draws).value;
      ScanRendered(parts, k - 1, successes, draws);
      ScanItems(parts, k - 1, successes, draws);
      StepShowsRolls(prev, parts, k, successes);
    }
  }

  // ---------------------------------------------------------------------
  // Sum mode.

  /** The sum of the dice of a rolled term. */
  function TermTotal(it: Item): (t: nat)
    requires it.Rolled? && Consistent(it)
    ensures |it.result| <= t <= |it.result| * it.m
  {
    Dice.SumBounds(it.result, it.m);
    Dice.Sum(it.result)
  }

  lemma SumTextAppend(a: seq<Item>, b: seq<Item>)
    ensures SumText(a + b) == SumText(a) + SumText(b)
  {
    assert SumPieces(a + b) == SumPieces(a) + SumPieces(b);
    ConcatAppend(SumPieces(a), SumPieces(b));
  }

  lemma SumTextOne(it: Item)
    ensures SumText([it]) == SumPiece(it)
  {
    var ps := SumPieces([it]);
    assert ps[0] == SumPiece(it);
    assert ps[1..] == [];
    assert Concat(ps[1..]) == "";
    assert Concat(ps) == ps[0] + Concat(ps[1..]);
  }

  /** The number a rolled term stands for in the evaluated text: its total
      in sum mode (`level` is `None`), its successes at level `i` in success
      mode (`level` is `Some(i)`). */
  function TermValue(it: Item, level: Option<nat>): nat
    requires it.Rolled? && Consistent(it)
    requires level.Some? ==> level.value < |it.ladder|
  {
    if level.None? then TermTotal(it) else it.ladder[level.value]
  }

  /** `glue[k]` spells entry `k` of `c` when that entry is text; every rolled
      entry is as `Dice.roll` leaves it. */
  predicate Glued(items: seq<Item>, glue: seq<seq<Arith.Piece>>)
  {
    && |glue| == |items|
    && forall k :: 0 <= k < |items| ==>
         if items[k].Text? then items[k].text == Arith.Spell(glue[k]) else Consistent(items[k])
  }

  /** Every rolled term has an entry at the level. */
  predicate HasLevel(items: seq<Item>, level: Option<nat>)
  {
    level.Some? ==> forall k :: 0 <= k < |items| && items[k].Rolled? ==> level.value < |items[k].ladder|
  }

  /** The pieces of the text evaluated at `level`: the glue as its pieces,
      every term as the number it stands for. */
  function ExprPieces(items: seq<Item>, glue: seq<seq<Arith.Piece>>, level: Option<nat>): seq<Arith.Piece>
    requires Glued(items, glue) && HasLevel(items, level)
    decreases |items|
  {
    if items == [] then []
    else
      var n := |items| - 1;
      assert Glued(items[..n], glue[..n]);
      ExprPieces(items[..n], glue[..n], level)
      + (if items[n].Text? then glue[n] else [Arith.Lit(TermValue(items[n], level))])
  }

  /** A part of the sum-mode text is spelled by its pieces: glue by its
      own, a term by the decimal spelling of its total. */
  lemma SumPieceSpelled(it: Item, g: seq<Arith.Piece>)
    requires if it.Text? then it.text == Arith.Spell(g) else Consistent(it)
    ensures SumPiece(it) == Arith.Spell(if it.Text? then g else [Arith.Lit(TermValue(it, None))])
  {
    if it.Rolled? {
      assert Arith.Spell([Arith.Lit(TermValue(it, None))]) == NatToString(TermTotal(it)) + "";
    }
  }

  lemma SumTextSnoc(items: seq<Item>)
    requires items != []
    ensures SumText(items) == SumText(items[..|items| - 1]) + SumPiece(items[|items| - 1])
  {
    var n := |items| - 1;
    assert items == items[..n] + [items[n]];
    SumTextAppend(items[..n], [items[n]]);
    SumTextOne(items[n]);
  }

  /** The text sum mode evaluates is spelled by the glue's pieces and the
      terms' totals. */
  lemma {:induction false} SumTextPieces(items: seq<Item>, glue: seq<seq<Arith.Piece>>)
    requires Glued(items, glue)
    ensures SumText(items) == Arith.Spell(ExprPieces(items, glue, None))
    decreases |items|
  {
    if items == [] {
      assert SumPieces(items) == [];
    } else {
      var n := |items| - 1;
      GluedPrefix(items, glue, None, n);
      SumTextPieces(items[..n], glue[..n]);
      SumTextSnoc(items);
      var last := if items[n].Text? then glue[n] else [Arith.Lit(TermValue(items[n], None))];
      SumPieceSpelled(items[n], glue[n]);
      Arith.SpellAppend(ExprPieces(items[..n], glue[..n], None), last);
    }
  }

  /** Sum mode, for any glue of blanks, signs and numbers: one result, the
      signed sum of the glue's numbers and the terms' totals, or a syntax
      error when the signs and numbers do not alternate as Python requires. */
  lemma SumModeValue(items: seq<Item>, glue: seq<seq<Arith.Piece>>, mMax: nat)
    requires Glued(items, glue) && Arith.Readable(ExprPieces(items, glue, None))
    ensures var atoms := Arith.AtomsOf(ExprPieces(items, glue, None));
      Results(items, false, mMax) == if Arith.WellShaped(atoms) then Ok([Arith.SignedSum(atoms)]) else Err(SyntaxError)
  {
    SumTextPieces(items, glue);
    Arith.EvalPieces(ExprPieces(items, glue, None));
  }

  /** The pieces of level `i` built by the loop over `tbc` spell the text of
      the glue's pieces and the terms' successes at that level. */
  lemma GluedPrefix(items: seq<Item>, glue: seq<seq<Arith.Piece>>, level: Option<nat>, k: nat)
    requires Glued(items, glue) && HasLevel(items, level) && k <= |items|
    ensures Glued(items[..k], glue[..k]) && HasLevel(items[..k], level)
  {
  }

  /** The pieces of the first `k` entries are those of the first `k - 1`
      followed by the pieces of entry `k - 1`. */
  lemma ExprPiecesLast(items: seq<Item>, glue: seq<seq<Arith.Piece>>, level: Option<nat>, k: nat)
    requires Glued(items, glue) && HasLevel(items, level) && 0 < k <= |items|
    ensures Glued(items[..k], glue[..k]) && HasLevel(items[..k], level)
    ensures Glued(items[..k - 1], glue[..k - 1]) && HasLevel(items[..k - 1], level)
    ensures ExprPieces(items[..k], glue[..k], level)
         == ExprPieces(items[..k - 1], glue[..k - 1], level)
            + (if items[k - 1].Text? then glue[k - 1] else [Arith.Lit(TermValue(items[k - 1], level))])
  {
    GluedPrefix(items, glue, level, k);
    GluedPrefix(items, glue, level, k - 1);
    assert items[..k][..k - 1] == items[..k - 1] && glue[..k][..k - 1] == glue[..k - 1];
  }

  lemma {:induction false} LevelPiecesSpell(items: seq<Item>, glue: seq<seq<Arith.Piece>>, i: nat, k: nat)
    requires Glued(items, glue) && HasLevel(items, Some(i)) && k <= |items|
    ensures Glued(items[..k], glue[..k]) && HasLevel(items[..k], Some(i))
    ensures LevelPieces(items, i, k).Ok?
    ensures Concat(LevelPieces(items, i, k).value) == Arith.Spell(ExprPieces(items[..k], glue[..k], Some(i)))
  {
    GluedPrefix(items, glue, Some(i), k);
    if k > 0 {
      LevelPiecesSpell(items, glue, i, k - 1);
      var prev := LevelPieces(items, i, k - 1).value;
      var it := items[k - 1];
      var piece := if it.Text? then it.text else NatToString(it.ladder[i]);
      assert LevelPieces(items, i, k).value == prev + [piece];
      ConcatAppend(prev, [piece]);
      assert Concat([piece]) == piece + "";
      var last := if it.Text? then glue[k - 1] else [Arith.Lit(TermValue(it, Some(i)))];
      ExprPiecesLast(items, glue, Some(i), k);
      if it.Rolled? {
        assert Arith.Spell(last) == NatToString(it.ladder[i]) + "";
      }
      Arith.SpellAppend(ExprPieces(items[..k - 1], glue[..k - 1], Some(i)), last);
    }
  }

  /** Success mode at level `i`, for any glue of blanks, signs and numbers:
      the text of the level evaluates to the signed sum of the glue's numbers
      and the terms' successes at that level, or to a syntax error. */
  lemma LevelValue(items: seq<Item>, glue: seq<seq<Arith.Piece>>, i: nat)
    requires Glued(items, glue) && HasLevel(items, Some(i))
    requires Arith.Readable(ExprPieces(items, glue, Some(i)))
    ensures LevelText(items, i).Ok?
    ensures var atoms := Arith.AtomsOf(ExprPieces(items, glue, Some(i)));
      Arith.Eval(LevelText(items, i).value)
      == if Arith.WellShaped(atoms) then Ok(Arith.SignedSum(atoms)) else Err(SyntaxError)
  {
    LevelPiecesSpell(items, glue, i, |items|);
    assert items[..|items|] == items && glue[..|glue|] == glue;
    Arith.EvalPieces(ExprPieces(items, glue, Some(i)));
  }

  /** The levels evaluated so far are the values of the level texts. */
  lemma {:induction false} LevelsAt(items: seq<Item>, count: nat)
    requires LevelsUpTo(items, count).Ok?
    ensures |LevelsUpTo(items, count).value| == count
    ensures forall i :: 0 <= i < count ==>
      LevelText(items, i).Ok? && Arith.Eval(LevelText(items, i).value) == Ok(LevelsUpTo(items, count).value[i])
  {
    if count > 0 {
      LevelsAt(items, count - 1);
    }
  }

  /** Success mode, for any glue of blanks, signs and numbers: result `i` is
      the signed sum of the glue's numbers and the terms' successes at level
      `i`, and every term has an entry at every level evaluated. */
  lemma SuccessModeValues(items: seq<Item>, glue: seq<seq<Arith.Piece>>, mMax: nat)
    requires Glued(items, glue) && Results(items, true, mMax).Ok?
    ensures forall i :: 0 <= i < |Results(items, true, mMax).value| ==> HasLevel(items, Some(i))
    ensures forall i :: 0 <= i < |Results(items, true, mMax).value| && HasLevel(items, Some(i))
                        && Arith.Readable(ExprPieces(items, glue, Some(i))) ==>
      var atoms := Arith.AtomsOf(ExprPieces(items, glue, Some(i)));
      Arith.WellShaped(atoms) && Results(items, true, mMax).value[i] == Arith.SignedSum(atoms)
  {
    var res := Results(items, true, mMax).value;
    LevelsAt(items, LevelCount(mMax));
    LevelsShape(items, LevelCount(mMax));
    forall i | 0 <= i < |res| && HasLevel(items, Some(i)) && Arith.Readable(ExprPieces(items, glue, Some(i)))
      ensures Arith.WellShaped(Arith.AtomsOf(ExprPieces(items, glue, Some(i))))
      ensures res[i] == Arith.SignedSum(Arith.AtomsOf(ExprPieces(items, glue, Some(i))))
    {
      LevelValue(items, glue, i);
    }
  }

  // ---------------------------------------------------------------------
  // The formatting only moves spaces.

  predicate NoDoubleSpace(s: string)
  {
    forall k :: 0 <= k < |s| - 1 ==> !(s[k] == ' ' && s[k + 1] == ' ')
  }

  lemma {:induction false} DropSpacesKeeps(s: string)
    ensures RemoveSpaces(DropSpaces(s)) == RemoveSpaces(s)
  {
    if s != [] && s[0] == ' ' {
      DropSpacesKeeps(s[1..]);
    }
  }

  /** Collapsing runs of spaces loses no other character. */
  lemma {:induction false} CollapseKeeps(s: string)
    ensures RemoveSpaces(CollapseSpaces(s)) == RemoveSpaces(s)
    decreases |s|
  {
    if s != [] {
      if s[0] == ' ' {
        var d := DropSpaces(s[1..]);
        CollapseKeeps(d);
        DropSpacesKeeps(s[1..]);
        RemoveSpacesAppend(" ", CollapseSpaces(d));
      } else {
        CollapseKeeps(s[1..]);
        RemoveSpacesAppend([s[0]], CollapseSpaces(s[1..]));
      }
    }
  }

  /** Collapsing keeps the first character. */
  lemma CollapseHead(s: string)
    ensures CollapseSpaces(s) == [] <==> s == []
    ensures s != [] ==> CollapseSpaces(s)[0] == s[0]
  {
  }

  /** After collapsing, no two spaces are adjacent. */
  lemma {:induction false} CollapseNoDouble(s: string)
    ensures NoDoubleSpace(CollapseSpaces(s))
    decreases |s|
  {
    if s != [] {
      var rest := if s[0] == ' ' then DropSpaces(s[1..]) else s[1..];
      CollapseNoDouble(rest);
      CollapseHead(rest);
      var tail := CollapseSpaces(rest);
      NoDoubleCons(s[0], tail);
    }
  }

  lemma NoDoubleCons(c: char, t: string)
    requires NoDoubleSpace(t)
    requires c == ' ' ==> t == [] || t[0] != ' '
    ensures NoDoubleSpace([c] + t)
  {
    var u := [c] + t;
    assert forall k :: 1 <= k < |u| ==> u[k] == t[k - 1];
  }

  /** A text without two adjacent spaces is left as it is, so collapsing
      twice is collapsing once. */
  lemma {:induction false} CollapseFixed(s: string)
    requires NoDoubleSpace(s)
    ensures CollapseSpaces(s) == s
    decreases |s|
  {
    if s != [] {
      var t := s[1..];
      assert NoDoubleSpace(t) by {
        assert forall k :: 0 <= k < |t| ==> t[k] == s[k + 1];
      }
      CollapseFixed(t);
      if s[0] == ' ' {
        assert t == [] || t[0] != ' ';
        assert DropSpaces(t) == t;
      }
    }
  }

  lemma CollapseTwice(s: string)
    ensures CollapseSpaces(CollapseSpaces(s)) == CollapseSpaces(s)
  {
    CollapseNoDouble(s);
    CollapseFixed(CollapseSpaces(s));
  }

  lemma PadPieceKeeps(s: string, j: nat)
    requires j < |s|
    ensures RemoveSpaces(PadPiece(s, j)) == RemoveSpaces([s[j]])
  {
    if PaddedAt(s, j) {
      var c := s[j];
      assert c != ' ';
      assert [' ', c, ' '][1..] == [c, ' '];
      assert [c, ' '][1..] == [' '];
      assert [' '][1..] == [] && [c][1..] == [];
      assert RemoveSpaces([' ']) == "";
      assert RemoveSpaces([c]) == [c];
      assert RemoveSpaces([c, ' ']) == [c] + RemoveSpaces([' ']);
      assert RemoveSpaces([' ', c, ' ']) == RemoveSpaces([c, ' ']);
    }
  }

  lemma SuffixCons(s: string, j: nat)
    requires j < |s|
    ensures RemoveSpaces(s[j..]) == RemoveSpaces([s[j]]) + RemoveSpaces(s[j + 1..])
  {
    assert s[j..] == [s[j]] + s[j + 1..];
    RemoveSpacesAppend([s[j]], s[j + 1..]);
  }

  /** Padding the signs adds spaces and nothing else. */
  lemma {:induction false} PadKeeps(s: string, j: nat)
    requires j <= |s|
    ensures RemoveSpaces(PadFrom(s, j)) == RemoveSpaces(s[j..])
    decreases |s| - j
  {
    if j < |s| {
      PadKeeps(s, j + 1);
      RemoveSpacesAppend(PadPiece(s, j), PadFrom(s, j + 1));
      PadPieceKeeps(s, j);
      SuffixCons(s, j);
    } else {
      assert s[j..] == [];
    }
  }

  lemma {:induction false} JoinKeeps(ts: seq<string>)
    ensures RemoveSpaces(Join(" ", ts)) == RemoveSpaces(Concat(ts))
  {
    if |ts| == 1 {
      assert Concat(ts) == ts[0] + Concat([]);
      assert ts[0] + "" == ts[0];
    } else if |ts| > 1 {
      JoinKeeps(ts[1..]);
      RemoveSpacesAppend(ts[0] + " ", Join(" ", ts[1..]));
      RemoveSpacesAppend(ts[0], " ");
      RemoveSpacesAppend(ts[0], Concat(ts[1..]));
    }
  }

  lemma {:induction false} TidyKeeps(ts: seq<string>)
    ensures RemoveSpaces(Concat(TidyAll(ts))) == RemoveSpaces(Concat(ts))
  {
    if ts != [] {
      TidyKeeps(ts[1..]);
      assert TidyAll(ts)[1..] == TidyAll(ts[1..]);
      RemoveSpacesAppend(Tidy(ts[0]), Concat(TidyAll(ts[1..])));
      RemoveSpacesAppend(ts[0], Concat(ts[1..]));
      RemoveSpacesTwice(ts[0]);
    }
  }

  lemma {:induction false} NonEmptyKeeps(ts: seq<string>)
    ensures Concat(NonEmpty(ts)) == Concat(ts)
  {
    if ts != [] {
      NonEmptyKeeps(ts[1..]);
      var head := if ts[0] == "" then [] else [ts[0]];
      ConcatAppend(head, NonEmpty(ts[1..]));
      assert head != [] ==> Concat(head) == ts[0] + Concat([]);
    }
  }

  /** The `Roll:` text holds the characters of the shown parts, in order,
      with only the spaces changed, and never two spaces in a row. */
  lemma FormatKeeps(parts: seq<string>)
    ensures RemoveSpaces(Format(parts)) == RemoveSpaces(Concat(parts))
    ensures NoDoubleSpace(Format(parts))
  {
    var ne := NonEmpty(parts);
    var shown := Shown(parts);
    CollapseKeeps(PadOps(shown));
    CollapseNoDouble(PadOps(shown));
    PadKeeps(shown, 0);
    assert shown[0..] == shown;
    JoinKeeps(TidyAll(ne));
    TidyKeeps(ne);
    NonEmptyKeeps(parts);
  }

  // ---------------------------------------------------------------------
  // Botches.

  /** How many dice show a 1, over all rolled terms. */
  function Ones(items: seq<Item>): nat
  {
    if items == [] then 0
    else Ones(items[..|items| - 1]) + (if items[|items| - 1].Rolled? then multiset(items[|items| - 1].result)[1] else 0)
  }

  /** The botch count is the number of 1s over all terms; it fails only
      when a term has no faces (its bucket list is empty). */
  lemma {:induction false} BotchesCount(items: seq<Item>)
    requires forall j :: 0 <= j < |items| ==> Consistent(items[j])
    ensures Botches(items).Ok? <==> forall j :: 0 <= j < |items| && items[j].Rolled? ==> items[j].m >= 1
    ensures Botches(items).Ok? ==> Botches(items).value == Ones(items)
    ensures Botches(items).Err? ==> Botches(items).error == IndexError
  {
    if items != [] {
      var init := items[..|items| - 1];
      assert forall j :: 0 <= j < |init| ==> items[j] == init[j];
      BotchesCount(init);
    }
  }

  // ---------------------------------------------------------------------
  // Success mode.

  lemma {:induction false} PiecesOk(items: seq<Item>, i: nat, k: nat)
    requires k <= |items|
    ensures LevelPieces(items, i, k).Ok? <==> forall j :: 0 <= j < k && items[j].Rolled? ==> i < |items[j].ladder|
    ensures LevelPieces(items, i, k).Err? ==> LevelPieces(items, i, k).error == IndexError
  {
    if k > 0 {
      PiecesOk(items, i, k - 1);
    }
  }

  /** Evaluated levels: one value per level, and only when every term has a
      ladder entry for every level. */
  lemma {:induction false} LevelsShape(items: seq<Item>, count: nat)
    requires LevelsUpTo(items, count).Ok?
    ensures |LevelsUpTo(items, count).value| == count
    ensures forall j :: 0 <= j < |items| && items[j].Rolled? ==> count <= |items[j].ladder|
  {
    if count > 0 {
      LevelsShape(items, count - 1);
      PiecesOk(items, count - 1, |items|);
    }
  }

  /** Success mode gives one result per level, `int((m_max + 1) / 2)` of
      them; it succeeds only if every term has at least that many faces, so
      a pool mixing a large die with one of fewer faces fails. */
  lemma SuccessLevels(items: seq<Item>, mMax: nat)
    requires forall j :: 0 <= j < |items| ==> Consistent(items[j])
    requires Results(items, true, mMax).Ok?
    ensures |Results(items, true, mMax).value| == LevelCount(mMax)
    ensures forall j :: 0 <= j < |items| && items[j].Rolled? ==> items[j].m >= LevelCount(mMax)
  {
    LevelsShape(items, LevelCount(mMax));
    forall j | 0 <= j < |items| && items[j].Rolled?
      ensures |items[j].ladder| == items[j].m
    {
      assert Consistent(items[j]);
    }
  }

  /** Success mode on a command with no dice term fails on `res[0]`. */
  lemma NoDiceNoSuccesses(s: string, draws: seq<nat>)
    requires forall j :: 0 <= j < |Split(s)| ==> Split(s)[j].kind != Term
    ensures Report(s, true, draws) == Err(IndexError)
  {
    SplitWellFormed(s);
    var parts := Parts(Split(s));
    NoTermScan(parts, |parts|, draws);
    var sc := ScanUpTo(parts, |parts|, true, draws).value;
    BotchesCount(sc.items);
  }

  /** Without dice terms the loop only collects text, and `m_max` stays 0. */
  lemma {:induction false} NoTermScan(parts: seq<Part>, k: nat, draws: seq<nat>)
    requires k <= |parts|
    requires forall j :: 0 <= j < |parts| ==> !parts[j].DiceTerm?
    ensures ScanUpTo(parts, k, true, draws).Ok?
    ensures var sc := ScanUpTo(parts, k, true, draws).value;
      sc.mMax == 0 && forall j :: 0 <= j < |sc.items| ==> sc.items[j].Text?
  {
    if k > 0 {
      NoTermScan(parts, k - 1, draws);
    }
  }

  // ---------------------------------------------------------------------
  // The procedure itself.

  /** What the loop's two `re.match` tests tell of the text `t` of a part. */
  predicate Tagged(t: string, part: Part)
  {
    && part.text == t
    && Classify(t) == (match part case Comment(_) => Literal case Expr(_) => Glue case DiceTerm(_, _, _) => Term)
    && (part.DiceTerm? ==> IsDiceTerm(t) && (part.n, part.m) == Dice.ParseBase(t))
  }

  predicate AllTagged(texts: seq<string>, parts: seq<Part>)
  {
    |texts| == |parts| && forall k :: 0 <= k < |parts| ==> Tagged(texts[k], parts[k])
  }

  lemma {:induction false} PartsTagged(segs: seq<Segment>)
    requires AllWellFormed(segs)
    ensures forall k :: 0 <= k < |segs| ==> Tagged(segs[k].text, Parts(segs)[k])
  {
    forall k | 0 <= k < |segs|
      ensures Tagged(segs[k].text, Parts(segs)[k])
    {
      assert WellFormed(segs[k]);
    }
  }

  /** The loop `for idx, i in enumerate(p)` of `roll`: rolls every dice
      term, overwriting its part with the rendered roll. */
  method ScanParts(texts: seq<string>, ghost parts: seq<Part>, successes: bool, draws: seq<nat>)
    returns (r: Result<(seq<string>, seq<Item>, nat), Raised>)
    requires AllTagged(texts, parts)
    ensures var spec := ScanUpTo(parts, |parts|, successes, draws);
      && (r.Ok? <==> spec.Ok?)
      && (spec.Err? ==> r.error == spec.error)
      && (spec.Ok? ==> r.value == (EntryTexts(spec.value.shown), spec.value.items, spec.value.mMax))
  {
    ghost var es: seq<Entry> := [];
    var p := texts;
    var c: seq<Item> := [];
    var mMax: nat := 0;
    var rest := draws;
    for idx := 0 to |p|
      invariant |p| == |texts| && p[idx..] == texts[idx..]
      invariant p[..idx] == EntryTexts(es)
      invariant ScanUpTo(parts, idx, successes, draws) == Ok(Scan(es, c, mMax, rest))
    {
      var next;
      next, es := Advance(texts, parts, idx, successes, draws, p, c, mMax, rest, es);
      if next.Err? {
        return Err(next.error);
      }
      p, c, mMax, rest := next.value.0, next.value.1, next.value.2, next.value.3;
    }
    assert p[..|p|] == p;
    r := Ok((p, c, mMax));
  }

  /** The body of that loop at index `idx`. */
  method Advance(texts: seq<string>, ghost parts: seq<Part>, idx: nat, successes: bool, ghost draws: seq<nat>,
                 p: seq<string>, c: seq<Item>, mMax: nat, rest: seq<nat>, ghost es: seq<Entry>)
    returns (r: Result<(seq<string>, seq<Item>, nat, seq<nat>), Raised>, ghost es': seq<Entry>)
    requires AllTagged(texts, parts) && idx < |texts|
    requires |p| == |texts| && p[idx..] == texts[idx..] && p[..idx] == EntryTexts(es)
    requires ScanUpTo(parts, idx, successes, draws) == Ok(Scan(es, c, mMax, rest))
    ensures r.Err? ==> ScanUpTo(parts, |parts|, successes, draws) == Err(r.error)
    ensures r.Ok? ==> && |r.value.0| == |texts|
                      && r.value.0[idx + 1..] == texts[idx + 1..]
                      && r.value.0[..idx + 1] == EntryTexts(es')
                      && ScanUpTo(parts, idx + 1, successes, draws) == Ok(Scan(es', r.value.1, r.value.2, r.value.3))
  {
    var t := p[idx];
    assert t == texts[idx];
    assert Tagged(t, parts[idx]);
    ScanNext(parts, idx, successes, draws);
    var pass, e := Pass(t, parts[idx], successes, c, mMax, rest, es);
    es' := es + [e];
    if pass.Err? {
      ScanStaysFailed(parts, idx + 1, |parts|, successes, draws);
      return Err(pass.error), es';
    }
    var p' := p[idx := pass.value.0];
    EntryTextsAppend(es, e);
    PrintedSoFar(p, p', idx, EntryTexts(es'));
    r := Ok((p', pass.value.1, pass.value.2, pass.value.3));
  }

  lemma PrintedSoFar(before: seq<string>, after: seq<string>, idx: nat, shown: seq<string>)
    requires idx < |before| == |after| && after == before[idx := after[idx]]
    requires shown == before[..idx] + [after[idx]]
    ensures after[..idx + 1] == shown
    ensures after[idx + 1..] == before[idx + 1..]
  {
  }

  /** One pass of the loop on the part `t`: its printed text, and the new
      `c`, `m_max` and draws left. */
  method Pass(t: string, ghost part: Part, successes: bool, c: seq<Item>, mMax: nat, rest: seq<nat>, ghost es: seq<Entry>)
    returns (r: Result<(string, seq<Item>, nat, seq<nat>), Raised>, ghost e: Entry)
    requires Tagged(t, part)
    ensures var next := Step(Scan(es, c, mMax, rest), part, successes);
      && (r.Ok? <==> next.Ok?)
      && (next.Err? ==> r.error == next.error)
      && (next.Ok? ==> next.value == Scan(es + [e], r.value.1, r.value.2, r.value.3) && r.value.0 == EntryText(e))
  {
    if Classify(t) == Literal {
      e := Kept(t);
      r := Ok((t, c, mMax, rest));
    } else if Classify(t) == Glue {
      e := Kept(t);
      r := Ok((t, c + [Text(t)], mMax, rest));
    } else {
      var rolled := RollPart(t, successes, rest);
      e := Kept(t);
      if rolled.Err? {
        return Err(rolled.error), e;
      }
      var it := rolled.value.0;
      e := Rendered(it.n, it.m, it.result, !successes);
      r := Ok((Dice.Render(it.n, it.m, it.result, false, !successes), c + [it],
               if mMax >= it.m then mMax else it.m, rolled.value.1));
    }
  }

  /** `dd = Dice(i, successes)` with its roll: the entry it adds to `c`,
      and the draws left. */
  method RollPart(t: string, successes: bool, draws: seq<nat>) returns (r: Result<(Item, seq<nat>), Raised>)
    requires IsDiceTerm(t)
    ensures var nm := Dice.ParseBase(t); r == RollTerm(nm.0, nm.1, successes, draws)
  {
    var dd := new Dice.Dice(t, successes);
    var err := dd.Roll(successes, draws);
    if err.Some? {
      return Err(err.value);
    }
    r := Ok((Rolled(dd.nDice, dd.mFaces, dd.result, dd.freq, dd.successesPerDiffLevel), draws[|dd.result|..]));
  }

  lemma ScanNext(parts: seq<Part>, k: nat, successes: bool, draws: seq<nat>)
    requires k < |parts| && ScanUpTo(parts, k, successes, draws).Ok?
    ensures ScanUpTo(parts, k + 1, successes, draws) == Step(ScanUpTo(parts, k, successes, draws).value, parts[k], successes)
  {
  }

  lemma EntryTextsAppend(es: seq<Entry>, e: Entry)
    ensures EntryTexts(es + [e]) == EntryTexts(es) + [EntryText(e)]
  {
  }

  /** The inner loop over the copy `tbc` for level `i`. */
  method LevelPiecesOf(c: seq<Item>, i: nat) returns (r: Result<seq<string>, Raised>)
    ensures r == LevelPieces(c, i, |c|)
  {
    var tbc: seq<string> := [];
    for idx := 0 to |c|
      invariant LevelPieces(c, i, idx) == Ok(tbc)
    {
      match c[idx]
      case Text(t) =>
        tbc := tbc + [t];
      case Rolled(_, _, _, _, ladder) =>
        if i >= |ladder| {
          PiecesStayFailed(c, i, idx + 1, |c|);
          return Err(IndexError);
        }
        tbc := tbc + [NatToString(ladder[i])];
    }
    r := Ok(tbc);
  }

  /** The loop `for i in range(0, int((m_max + 1) / 2))` of success mode. */
  method Levels(c: seq<Item>, count: nat) returns (r: Result<seq<int>, Raised>)
    ensures r == LevelsUpTo(c, count)
  {
    var res: seq<int> := [];
    for i := 0 to count
      invariant LevelsUpTo(c, i) == Ok(res)
    {
      var tbc := LevelPiecesOf(c, i);
      if tbc.Err? {
        LevelsStayFailed(c, i + 1, count);
        return Err(tbc.error);
      }
      var v := Arith.Eval(Concat(tbc.value));
      if v.Err? {
        LevelsStayFailed(c, i + 1, count);
        return Err(v.error);
      }
      res := res + [v.value];
    }
    r := Ok(res);
  }

  /** `roll(s, successes)`, drawing from `draws`. Its specification is
      `Report`, the function the lemmas of this module are about: the
      loop's printed parts and `c` (`ScanShown`, `ScanItems`,
      `ScanRendered`), the value of the sum (`SumModeValue`) and of every
      success level (`SuccessModeValues`), and the botch count
      (`BotchesCount`). */
  method Roll(s: string, successes: bool, draws: seq<nat>) returns (r: Result<string, Raised>)
    ensures r == Report(s, successes, draws)
  {
    var segs := Split(s);
    SplitWellFormed(s);
    PartsTagged(segs);
    var sc := ScanParts(Texts(segs), Parts(segs), successes, draws);
    if sc.Err? {
      return Err(sc.error);
    }
    var p, c, mMax := sc.value.0, sc.value.1, sc.value.2;
    var res: seq<int>;
    if !successes {
      var v := Arith.Eval(SumText(c));
      if v.Err? {
        return Err(v.error);
      }
      res := [v.value];
    } else {
      var levels := Levels(c, LevelCount(mMax));
      if levels.Err? {
        return Err(levels.error);
      }
      res := levels.value;
    }
    var botches := Botches(c);
    if botches.Err? {
      return Err(botches.error);
    }
    var shown := Format(p);
    if |res| == 0 {
      return Err(IndexError);
    }
    var out := "**Roll:** " + shown + " **Result:** " + IntToString(res[0]) + "\n";
    if successes {
      out := out + SuccessLine(res, mMax);
      out := out + ("\n**Botches:** " + NatToString(botches.value));
    }
    r := Ok(out);
  }
}
