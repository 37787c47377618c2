/** The two pure rules of kattoBot.py: `KattoBot.get_user`, which resolves
    a name to one of the bot's users, and the argument check of the `!rs`
    command, which accepts a whole `NdM` term and reads `n` and `m`. */
module KattoBot {
  import opened Common
  import opened Strings
  import Segments
  import Dice

  /** The text of a `KattoBotException`. */
  function Exception(msg: string): string
  {
    "**KattoBotException:** " + msg
  }

  // ---------------------------------------------------------------------
  // `get_user`

  /** A chat user; two users may share a name. */
  datatype User = User(id: nat, name: string)

  /** Python's `needle in hay` on strings. */
  predicate Contains(hay: string, needle: string)
  {
    || (|needle| <= |hay| && hay[..|needle|] == needle)
    || (hay != [] && Contains(hay[1..], needle))
  }

  /** The test of each stage: `name == i.name`, then `name in i.name`. */
  predicate Matches(userName: string, name: string, exact: bool)
  {
    if exact then userName == name else Contains(userName, name)
  }

  /** `[i for i in self.users if <test>]` */
  function Matching(users: seq<User>, name: string, exact: bool): (r: seq<User>)
    ensures |r| <= |users|
    ensures forall u :: u in r ==> u in users && Matches(u.name, name, exact)
  {
    if users == [] then []
    else
      var last := users[|users| - 1];
      Matching(users[..|users| - 1], name, exact) + (if Matches(last.name, name, exact) then [last] else [])
  }

  function Names(users: seq<User>): (ns: seq<string>)
    ensures |ns| == |users| && forall i :: 0 <= i < |users| ==> ns[i] == users[i].name
  {
    seq(|users|, i requires 0 <= i < |users| => users[i].name)
  }

  function NoMatch(name: string): string
  {
    Exception("No matches for user: `" + name + "`")
  }

  function TooMany(name: string, candidates: seq<User>): string
  {
    Exception("User name: `" + name + "` matches too many users: `" + Join(", ", Names(candidates)) + "`")
  }

  /** `get_user(name)`: the exact matches if there are any, else the users
      whose name contains `name`; one candidate is the answer, none or more
      than one is an error. */
  function GetUser(users: seq<User>, name: string): (r: Result<User, string>)
    ensures r.Ok? ==> r.value in users
  {
    var exact := Matching(users, name, true);
    var candidates := if exact == [] then Matching(users, name, false) else exact;
    if |candidates| == 0 then Err(NoMatch(name))
    else if |candidates| == 1 then Ok(candidates[0])
    else Err(TooMany(name, candidates))
  }

  /** The positions of the users a stage accepts. */
  ghost function MatchIndices(users: seq<User>, name: string, exact: bool): set<nat>
  {
    set i: nat | i < |users| && Matches(users[i].name, name, exact)
  }

  /** The filter keeps one user per accepted position. */
  lemma {:induction false} MatchingCount(users: seq<User>, name: string, exact: bool)
    ensures |Matching(users, name, exact)| == |MatchIndices(users, name, exact)|
  {
    if users != [] {
      var n := |users| - 1;
      MatchingCount(users[..n], name, exact);
      IndicesSnoc(users, name, exact);
    }
  }

  /** The positions accepted in a list are those of its front, and possibly the last one. */
  lemma IndicesSnoc(users: seq<User>, name: string, exact: bool)
    requires users != []
    ensures var n := |users| - 1;
      var before := MatchIndices(users[..n], name, exact);
      && n !in before
      && MatchIndices(users, name, exact)
         == before + (if Matches(users[n].name, name, exact) then {n} else {})
  {
    var n := |users| - 1;
    var front := users[..n];
    assert forall i :: 0 <= i < n ==> users[i] == front[i];
  }

  /** A name equal to `name` contains it. */
  lemma ExactContains(userName: string, name: string)
    requires Matches(userName, name, true)
    ensures Matches(userName, name, false)
  {
    assert userName[..|name|] == name;
  }

  /** What `get_user` promises: the stage is the exact one whenever some user
      has exactly the name; the answer is the one user that stage accepts, a
      "No matches" error when no user's name even contains `name`, and a
      "too many" error listing every candidate when the stage accepts several. */
  lemma GetUserSpec(users: seq<User>, name: string)
    ensures var stage := MatchIndices(users, name, true) != {};
      var ix := MatchIndices(users, name, stage);
      var r := GetUser(users, name);
      && (r.Ok? <==> |ix| == 1)
      && (r.Ok? ==> r.value in users && Matches(r.value.name, name, stage))
      && (r.Ok? ==> forall i :: i in ix ==> users[i] == r.value)
      && (ix == {} <==> r == Err(NoMatch(name)))
      && (ix == {} ==> forall i :: 0 <= i < |users| ==> !Contains(users[i].name, name))
      && (|ix| > 1 ==> r == Err(TooMany(name, Matching(users, name, stage))))
  {
    var stage := MatchIndices(users, name, true) != {};
    MatchingCount(users, name, true);
    MatchingCount(users, name, false);
    var cands := Matching(users, name, stage);
    if |cands| == 1 {
      SingleCandidate(users, name, stage);
    }
    NoneContains(users, name);
    MessagesDiffer(name, cands);
  }

  /** One accepted position: the filter's one user is the user there. */
  lemma SingleCandidate(users: seq<User>, name: string, exact: bool)
    requires |Matching(users, name, exact)| == 1
    ensures forall i :: i in MatchIndices(users, name, exact) ==> users[i] == Matching(users, name, exact)[0]
  {
    var ix := MatchIndices(users, name, exact);
    var u := Matching(users, name, exact)[0];
    MatchingCount(users, name, exact);
    assert u in Matching(users, name, exact);
    var j :| 0 <= j < |users| && users[j] == u;
    assert j in ix;
    forall x | x in ix
      ensures x == j
    {
      OnlyMember(ix, j, x);
    }
  }

  lemma OnlyMember(ix: set<nat>, j: nat, x: nat)
    requires |ix| == 1 && j in ix && x in ix
    ensures x == j
  {
    var rest := ix - {j};
    assert |rest| == 0;
    assert x !in rest;
  }

  lemma NoneContains(users: seq<User>, name: string)
    ensures MatchIndices(users, name, false) == {} ==>
      forall i :: 0 <= i < |users| ==> !Contains(users[i].name, name)
  {
    if MatchIndices(users, name, false) == {} {
      forall i | 0 <= i < |users|
        ensures !Contains(users[i].name, name)
      {
        assert i !in MatchIndices(users, name, false);
      }
    }
  }

  lemma MessagesDiffer(name: string, cands: seq<User>)
    ensures NoMatch(name) != TooMany(name, cands)
  {
    assert NoMatch(name)[23] == 'N' && TooMany(name, cands)[23] == 'U';
  }

  // ---------------------------------------------------------------------
  // The argument check of `!rs`

  /** `str.isspace()` for one character. */
  predicate IsSpace(c: char)
  {
    var x := c as int;
    || 9 <= x <= 13 || 28 <= x <= 32 || x == 0x85 || x == 0xA0 || x == 0x1680
    || 0x2000 <= x <= 0x200A || x == 0x2028 || x == 0x2029 || x == 0x202F
    || x == 0x205F || x == 0x3000
  }

  predicate AllSpace(s: string)
  {
    forall k :: 0 <= k < |s| ==> IsSpace(s[k])
  }

  function LeadingSpaces(s: string): (n: nat)
    ensures n <= |s| && AllSpace(s[..n])
    ensures n < |s| ==> !IsSpace(s[n])
  {
    if s != [] && IsSpace(s[0]) then
      var n := 1 + LeadingSpaces(s[1..]);
      assert forall k :: 1 <= k < n ==> s[k] == s[1..][k - 1];
      n
    else 0
  }

  function TrailingSpaces(s: string): (n: nat)
    ensures n <= |s| && AllSpace(s[|s| - n..])
    ensures n < |s| ==> !IsSpace(s[|s| - 1 - n])
  {
    if s != [] && IsSpace(s[|s| - 1]) then
      var n := 1 + TrailingSpaces(s[..|s| - 1]);
      assert forall k :: |s| - n <= k < |s| - 1 ==> s[k] == s[..|s| - 1][k];
      n
    else 0
  }

  /** `str.strip()`: the text without its leading and trailing white space. */
  function Strip(s: string): (r: string)
    ensures r == [] || (!IsSpace(r[0]) && !IsSpace(r[|r| - 1]))
  {
    var i := LeadingSpaces(s);
    var t := s[i..];
    t[..|t| - TrailingSpaces(t)]
  }

  lemma {:induction false} LeadingOf(s: string, p: nat)
    requires p < |s| && AllSpace(s[..p]) && !IsSpace(s[p])
    ensures LeadingSpaces(s) == p
  {
    if p > 0 {
      assert s[..p][0] == s[0];
      assert s[1..][..p - 1] == s[1..p];
      LeadingOf(s[1..], p - 1);
    }
  }

  lemma {:induction false} TrailingOf(s: string, p: nat)
    requires p < |s| && AllSpace(s[|s| - p..]) && !IsSpace(s[|s| - 1 - p])
    ensures TrailingSpaces(s) == p
  {
    if p > 0 {
      var s' := s[..|s| - 1];
      assert s[|s| - p..][p - 1] == s[|s| - 1];
      assert s'[|s'| - (p - 1)..] == s[|s| - p..|s| - 1];
      TrailingOf(s', p - 1);
    }
  }

  /** Stripping removes exactly the white space around a text that neither
      starts nor ends with white space. */
  lemma StripPadded(a: string, t: string, b: string)
    requires AllSpace(a) && AllSpace(b)
    requires t != [] && !IsSpace(t[0]) && !IsSpace(t[|t| - 1])
    ensures Strip(a + t + b) == t
  {
    var s := a + t + b;
    assert s[..|a|] == a && s[|a|] == t[0];
    LeadingOf(s, |a|);
    var u := s[|a|..];
    assert u == t + b;
    assert u[|u| - |b|..] == b && u[|u| - 1 - |b|] == t[|t| - 1];
    TrailingOf(u, |b|);
    assert u[..|u| - |b|] == t;
  }

  function NotATerm(cmd: string): string
  {
    Exception("command " + cmd + " is not in the form: `int`d`int`")
  }

  /** `!rs`'s check: strip the command, require `re.match("\d+d\d+")` to
      match all of it, and read `n` and `m` from `cmd.split("d")`. */
  function ParseRollCommand(cmd: string): (r: Result<(nat, nat), string>)
    ensures r.Err? <==> !Segments.IsDiceTerm(Strip(cmd))
    ensures r.Err? ==> r.error == NotATerm(Strip(cmd))
    ensures r.Ok? ==>
      var c := Strip(cmd);
      var p := Segments.Span(c, 0, Segments.Digit);
      && 0 < p < |c| - 1 && c[p] == 'd' && AllDigits(c[..p]) && AllDigits(c[p + 1..])
      && r.value == (DigitsValue(c[..p]), DigitsValue(c[p + 1..]))
  {
    var c := Strip(cmd);
    var ms := Segments.TermEnd(c, 0);
    if ms.None? || ms.value != |c| then Err(NotATerm(c))
    else
      Dice.DiceTermParts(c);
      Ok(Dice.ParseBase(c))
  }

  /** Any two runs of digits around a `d`, padded with white space, are
      accepted and read as their decimal values. */
  lemma CommandAccepted(a: string, x: string, y: string, b: string)
    requires AllSpace(a) && AllSpace(b)
    requires AllDigits(x) && AllDigits(y) && x != [] && y != []
    ensures ParseRollCommand(a + x + "d" + y + b) == Ok((DigitsValue(x), DigitsValue(y)))
  {
    var t := x + "d" + y;
    Dice.DigitsMakeTerm(x, y);
    assert a + x + "d" + y + b == a + t + b;
    assert t[0] == x[0] && t[|t| - 1] == y[|y| - 1];
    StripPadded(a, t, b);
  }

  /** The command printed from two numbers reads back as those numbers. */
  lemma CommandRoundTrip(n: nat, m: nat)
    ensures ParseRollCommand(NatToString(n) + "d" + NatToString(m)) == Ok((n, m))
  {
    var x, y := NatToString(n), NatToString(m);
    CommandAccepted("", x, y, "");
    assert "" + x == x;
    assert x + "d" + y + "" == x + "d" + y;
    NatToStringRoundTrip(n);
    NatToStringRoundTrip(m);
  }
}
