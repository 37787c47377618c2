/** The tokenizer of `roll` (src/dice.py): `re.split` with the pattern
    `(\[*[^\[\]]*\]|\d+d\d+)`, followed by the filter that drops empty
    strings. Python's regex engine tries the match at each position from left
    to right, and at one position the first alternative (a bracketed comment)
    before the second (a dice term `NdM`). Because the whole pattern is one
    capturing group, the matched text itself is kept in the result, between
    the unmatched stretches ("glue"). `\d` is read as the ASCII digits. */
module Segments {
  import opened Common
  import opened Strings

  datatype Kind = Literal | Term | Glue
  datatype Segment = Segment(kind: Kind, text: string)

  /** The character classes the pattern repeats: `\[`, `[^\[\]]` and `\d`. */
  datatype CharClass = OpenBracket | NonBracket | Digit

  predicate InClass(c: char, cls: CharClass)
  {
    match cls
    case OpenBracket => c == '['
    case NonBracket => c != '[' && c != ']'
    case Digit => IsDigit(c)
  }

  /** Where a greedy run of `cls` characters starting at `i` stops. */
  function Span(s: string, i: nat, cls: CharClass): (j: nat)
    requires i <= |s|
    ensures i <= j <= |s|
    ensures forall k :: i <= k < j ==> InClass(s[k], cls)
    ensures j < |s| ==> !InClass(s[j], cls)
    decreases |s| - i
  {
    if i < |s| && InClass(s[i], cls) then Span(s, i + 1, cls) else i
  }

  /** End of the match of `\[*[^\[\]]*\]` at `i`, if there is one. */
  function LiteralEnd(s: string, i: nat): (r: Option<nat>)
    requires i <= |s|
    ensures r.Some? ==> i < r.value <= |s| && s[r.value - 1] == ']'
  {
    var e := Span(s, Span(s, i, OpenBracket), NonBracket);
    if e < |s| && s[e] == ']' then Some(e + 1) else None
  }

  /** End of the match of `\d+d\d+` at `i`, if there is one. */
  function TermEnd(s: string, i: nat): (r: Option<nat>)
    requires i <= |s|
    ensures r.Some? ==> i + 3 <= r.value <= |s|
  {
    var p := Span(s, i, Digit);
    if i < p && p + 1 < |s| && s[p] == 'd' && IsDigit(s[p + 1]) then Some(Span(s, p + 1, Digit)) else None
  }

  /** The match of the whole pattern at `i`: the first alternative wins. */
  function MatchAt(s: string, i: nat): (r: Option<(Kind, nat)>)
    requires i <= |s|
    ensures r.Some? ==> r.value.0 != Glue && i < r.value.1 <= |s|
  {
    match LiteralEnd(s, i)
    case Some(e) => Some((Literal, e))
    case None =>
      match TermEnd(s, i)
      case Some(e) => Some((Term, e))
      case None => None
  }

  function GlueOf(t: string): seq<Segment>
  {
    if t == [] then [] else [Segment(Glue, t)]
  }

  /** Splitting `s[start..]` where no match starts in `s[start..i]`. */
  function SplitFrom(s: string, start: nat, i: nat): seq<Segment>
    requires start <= i <= |s|
    decreases |s| - i
  {
    if i == |s| then GlueOf(s[start..])
    else
      match MatchAt(s, i)
      case None => SplitFrom(s, start, i + 1)
      case Some((kind, e)) => GlueOf(s[start..i]) + [Segment(kind, s[i..e])] + SplitFrom(s, e, e)
  }

  /** `[i for i in re.split(pattern, s) if i != ""]`, each part tagged with what it is. */
  function Split(s: string): (r: seq<Segment>)
    ensures forall k :: 0 <= k < |r| ==> r[k].text != ""
  {
    SplitFromWellFormed(s, 0, 0);
    SplitFrom(s, 0, 0)
  }

  function Texts(segs: seq<Segment>): (ts: seq<string>)
    ensures |ts| == |segs| && forall k :: 0 <= k < |segs| ==> ts[k] == segs[k].text
  {
    seq(|segs|, k requires 0 <= k < |segs| => segs[k].text)
  }

  /** The test the loop of `roll` applies to each part: first
      `re.match` of the bracket pattern, then of the dice pattern. */
  function Classify(t: string): Kind
  {
    if LiteralEnd(t, 0).Some? then Literal else if TermEnd(t, 0).Some? then Term else Glue
  }

  /** The whole of `t` is `\d+d\d+`. */
  predicate IsDiceTerm(t: string)
  {
    TermEnd(t, 0) == Some(|t|)
  }

  /** What the split promises about one part. */
  predicate WellFormed(seg: Segment)
  {
    && seg.text != ""
    && Classify(seg.text) == seg.kind
    && (seg.kind == Term ==> IsDiceTerm(seg.text))
  }

  // ---------------------------------------------------------------------
  // The split loses and adds nothing.

  lemma TextsAppend(a: seq<Segment>, b: seq<Segment>)
    ensures Concat(Texts(a + b)) == Concat(Texts(a)) + Concat(Texts(b))
  {
    assert Texts(a + b) == Texts(a) + Texts(b);
    ConcatAppend(Texts(a), Texts(b));
  }

  lemma ThreeParts(s: string, start: nat, i: nat, e: nat, x: seq<Segment>, y: seq<Segment>, z: seq<Segment>)
    requires start <= i <= e <= |s|
    requires Concat(Texts(x)) == s[start..i]
    requires Concat(Texts(y)) == s[i..e]
    requires Concat(Texts(z)) == s[e..]
    ensures Concat(Texts(x + y + z)) == s[start..]
  {
    TextsAppend(x + y, z);
    TextsAppend(x, y);
    SliceThree(s, start, i, e);
  }

  lemma SliceThree(s: string, start: nat, i: nat, e: nat)
    requires start <= i <= e <= |s|
    ensures s[start..] == s[start..i] + s[i..e] + s[e..]
  {
    assert s[start..e] == s[start..i] + s[i..e];
    assert s[start..] == s[start..e] + s[e..];
  }

  lemma GlueText(t: string)
    ensures Concat(Texts(GlueOf(t))) == t
  {
    if t != [] {
      assert Texts(GlueOf(t)) == [t];
    }
  }

  lemma {:induction false} SplitFromConcat(s: string, start: nat, i: nat)
    requires start <= i <= |s|
    ensures Concat(Texts(SplitFrom(s, start, i))) == s[start..]
    decreases |s| - i
  {
    if i == |s| {
      GlueText(s[start..]);
    } else if MatchAt(s, i).None? {
      SplitFromConcat(s, start, i + 1);
    } else {
      var kind, e := MatchAt(s, i).value.0, MatchAt(s, i).value.1;
      var mid := [Segment(kind, s[i..e])];
      assert SplitFrom(s, start, i) == GlueOf(s[start..i]) + mid + SplitFrom(s, e, e);
      SplitFromConcat(s, e, e);
      GlueText(s[start..i]);
      assert Texts(mid) == [s[i..e]];
      ThreeParts(s, start, i, e, GlueOf(s[start..i]), mid, SplitFrom(s, e, e));
    }
  }

  /** Concatenating the parts gives back the command: no character is lost. */
  lemma SplitRoundTrip(s: string)
    ensures Concat(Texts(Split(s))) == s
  {
    SplitFromConcat(s, 0, 0);
  }

  // ---------------------------------------------------------------------
  // Matching inside a part behaves as matching inside the whole command.

  lemma {:induction false} SpanLocal(s: string, a: nat, b: nat, i: nat, cls: CharClass)
    requires a <= i <= b <= |s|
    ensures Span(s[a..b], i - a, cls) + a == Min(Span(s, i, cls), b)
    decreases b - i
  {
    if i < b && InClass(s[i], cls) {
      SpanLocal(s, a, b, i + 1, cls);
    }
  }

  lemma LiteralEndLocal(s: string, a: nat, b: nat, i: nat)
    requires a <= i <= b <= |s|
    ensures LiteralEnd(s[a..b], i - a).Some? ==> LiteralEnd(s, i) == Some(LiteralEnd(s[a..b], i - a).value + a)
    ensures LiteralEnd(s, i).Some? && LiteralEnd(s, i).value <= b ==>
              LiteralEnd(s[a..b], i - a) == Some(LiteralEnd(s, i).value - a)
  {
    var t := s[a..b];
    var js := Span(s, i, OpenBracket);
    SpanLocal(s, a, b, i, OpenBracket);
    var jt := Span(t, i - a, OpenBracket);
    if js <= b {
      SpanLocal(s, a, b, js, NonBracket);
    } else {
      assert jt == |t|;
    }
  }

  lemma TermEndLocal(s: string, a: nat, b: nat, i: nat)
    requires a <= i <= b <= |s|
    ensures TermEnd(s[a..b], i - a).Some? ==> TermEnd(s, i).Some?
    ensures TermEnd(s, i).Some? && TermEnd(s, i).value <= b ==>
              TermEnd(s[a..b], i - a) == Some(TermEnd(s, i).value - a)
  {
    var t := s[a..b];
    SpanLocal(s, a, b, i, Digit);
    var ps := Span(s, i, Digit);
    if ps + 1 <= b {
      SpanLocal(s, a, b, ps + 1, Digit);
    }
  }

  lemma GlueWellFormed(s: string, start: nat, i: nat)
    requires start < i <= |s|
    requires MatchAt(s, start).None?
    ensures WellFormed(Segment(Glue, s[start..i]))
  {
    LiteralEndLocal(s, start, i, start);
    TermEndLocal(s, start, i, start);
  }

  lemma MatchWellFormed(s: string, i: nat)
    requires i < |s| && MatchAt(s, i).Some?
    ensures WellFormed(Segment(MatchAt(s, i).value.0, s[i..MatchAt(s, i).value.1]))
  {
    var e := MatchAt(s, i).value.1;
    LiteralEndLocal(s, i, e, i);
    TermEndLocal(s, i, e, i);
  }

  predicate AllWellFormed(segs: seq<Segment>)
  {
    forall k :: 0 <= k < |segs| ==> WellFormed(segs[k])
  }

  lemma AllWellFormedAppend(x: seq<Segment>, y: seq<Segment>, z: seq<Segment>)
    requires AllWellFormed(x) && AllWellFormed(y) && AllWellFormed(z)
    ensures AllWellFormed(x + y + z)
  {
    var xyz := x + y + z;
    forall k | 0 <= k < |xyz|
      ensures WellFormed(xyz[k])
    {
      if k < |x| {
        assert xyz[k] == x[k];
      } else if k < |x| + |y| {
        assert xyz[k] == y[k - |x|];
      } else {
        assert xyz[k] == z[k - |x| - |y|];
      }
    }
  }

  lemma GlueOfWellFormed(s: string, start: nat, i: nat)
    requires start <= i <= |s|
    requires start < i ==> MatchAt(s, start).None?
    ensures AllWellFormed(GlueOf(s[start..i]))
  {
    if start < i {
      GlueWellFormed(s, start, i);
    }
  }

  lemma {:induction false} SplitFromWellFormed(s: string, start: nat, i: nat)
    requires start <= i <= |s|
    requires start < i ==> MatchAt(s, start).None?
    ensures AllWellFormed(SplitFrom(s, start, i))
    decreases |s| - i
  {
    if i == |s| {
      EndWellFormed(s, start);
    } else if MatchAt(s, i).None? {
      SplitFromWellFormed(s, start, i + 1);
      SplitFromSkip(s, start, i);
    } else {
      var e := MatchAt(s, i).value.1;
      GlueOfWellFormed(s, start, i);
      SplitFromWellFormed(s, e, e);
      MatchStepWellFormed(s, start, i);
    }
  }

  lemma EndWellFormed(s: string, start: nat)
    requires start <= |s|
    requires start < |s| ==> MatchAt(s, start).None?
    ensures AllWellFormed(SplitFrom(s, start, |s|))
  {
    GlueOfWellFormed(s, start, |s|);
    assert s[start..|s|] == s[start..];
  }

  lemma SplitFromSkip(s: string, start: nat, i: nat)
    requires start <= i < |s| && MatchAt(s, i).None?
    ensures SplitFrom(s, start, i) == SplitFrom(s, start, i + 1)
  {
  }

  lemma MatchStepWellFormed(s: string, start: nat, i: nat)
    requires start <= i < |s| && MatchAt(s, i).Some?
    requires AllWellFormed(GlueOf(s[start..i]))
    requires AllWellFormed(SplitFrom(s, MatchAt(s, i).value.1, MatchAt(s, i).value.1))
    ensures AllWellFormed(SplitFrom(s, start, i))
  {
    var kind, e := MatchAt(s, i).value.0, MatchAt(s, i).value.1;
    var mid := [Segment(kind, s[i..e])];
    assert SplitFrom(s, start, i) == GlueOf(s[start..i]) + mid + SplitFrom(s, e, e);
    MatchWellFormed(s, i);
    AllWellFormedAppend(GlueOf(s[start..i]), mid, SplitFrom(s, e, e));
  }

  /** Every part is non-empty, and the regex tests the loop of `roll` applies
      to a part recognise exactly what the split matched: comments as
      comments, whole dice terms as dice terms, and glue as neither. */
  lemma SplitWellFormed(s: string)
    ensures AllWellFormed(Split(s))
  {
    SplitFromWellFormed(s, 0, 0);
  }
}
