/** The part of Python's `eval` that `roll` relies on: the text it evaluates
    is the glue between dice terms with each term replaced by a decimal
    number, so this model reads decimal integer literals, binary and unary
    `+` and `-`, and blanks. Anything else is reported as a syntax error. */
module Arith {
  import opened Common
  import opened Strings

  datatype Atom = Num(n: nat) | Plus | Minus

  predicate IsBlank(c: char) { c == ' ' || c == '\t' }

  /** Length of the run of digits at the start of `s`. */
  function DigitRun(s: string): (p: nat)
    ensures p <= |s|
    ensures forall k :: 0 <= k < p ==> IsDigit(s[k])
    ensures p < |s| ==> !IsDigit(s[p])
  {
    if s != [] && IsDigit(s[0]) then 1 + DigitRun(s[1..]) else 0
  }

  /** Python's decimal literal rule: no leading zero unless every digit is a zero. */
  predicate LiteralOk(d: string)
  {
    d != [] && (d[0] == '0' ==> forall k :: 0 <= k < |d| ==> d[k] == '0')
  }

  function Cons(a: Atom, r: Result<seq<Atom>, Raised>): Result<seq<Atom>, Raised>
  {
    if r.Ok? then Ok([a] + r.value) else r
  }

  /** The tokens of `s`, or a syntax error at the first character the model does not read. */
  function Lex(s: string): (r: Result<seq<Atom>, Raised>)
    ensures r.Err? ==> r.error == SyntaxError
    decreases |s|
  {
    if s == [] then Ok([])
    else if IsBlank(s[0]) then Lex(s[1..])
    else if s[0] == '+' then Cons(Plus, Lex(s[1..]))
    else if s[0] == '-' then Cons(Minus, Lex(s[1..]))
    else if IsDigit(s[0]) then
      var p := DigitRun(s);
      if LiteralOk(s[..p]) then Cons(Num(DigitsValue(s[..p])), Lex(s[p..])) else Err(SyntaxError)
    else Err(SyntaxError)
  }

  /** Evaluates the tokens left to right; `sign` is the sign the unary
      operators read so far give the next number, `afterNum` whether the last
      token was a number (so that an operator is binary). */
  function Fold(atoms: seq<Atom>, acc: int, sign: int, afterNum: bool): (r: Result<int, Raised>)
    ensures r.Err? ==> r.error == SyntaxError
  {
    if atoms == [] then (if afterNum then Ok(acc) else Err(SyntaxError))
    else match atoms[0]
      case Num(n) => if afterNum then Err(SyntaxError) else Fold(atoms[1..], acc + sign * n, 1, true)
      case Plus => Fold(atoms[1..], acc, if afterNum then 1 else sign, false)
      case Minus => Fold(atoms[1..], acc, if afterNum then -1 else -sign, false)
  }

  /** `eval(s)` for the sums and differences `roll` builds. */
  function Eval(s: string): (r: Result<int, Raised>)
    ensures r.Err? ==> r.error == SyntaxError
  {
    var atoms := Lex(s);
    if atoms.Err? then Err(atoms.error) else Fold(atoms.value, 0, 1, false)
  }

  // ---------------------------------------------------------------------
  // A reference: numbers joined by binary operators.

  /** `first op1 n1 op2 n2 ...`, each operator spelled ` + ` or ` - `
      (`true` for a minus). */
  function Spelled(first: nat, rest: seq<(bool, nat)>): string
  {
    NatToString(first) + SpelledTail(rest)
  }

  function SpelledTail(rest: seq<(bool, nat)>): string
  {
    if rest == [] then ""
    else (if rest[0].0 then " - " else " + ") + NatToString(rest[0].1) + SpelledTail(rest[1..])
  }

  /** The arithmetic value of such an expression. */
  function Value(first: nat, rest: seq<(bool, nat)>): int
  {
    first + TailValue(rest)
  }

  function TailValue(rest: seq<(bool, nat)>): int
  {
    if rest == [] then 0 else (if rest[0].0 then -rest[0].1 else rest[0].1) + TailValue(rest[1..])
  }

  function TailAtoms(rest: seq<(bool, nat)>): seq<Atom>
  {
    if rest == [] then [] else [if rest[0].0 then Minus else Plus, Num(rest[0].1)] + TailAtoms(rest[1..])
  }

  lemma {:induction false} SpelledTailAppend(a: seq<(bool, nat)>, b: seq<(bool, nat)>)
    ensures SpelledTail(a + b) == SpelledTail(a) + SpelledTail(b)
  {
    if a != [] {
      assert (a + b)[1..] == a[1..] + b;
      SpelledTailAppend(a[1..], b);
    } else {
      assert a + b == b;
    }
  }

  /** One more operator and number at the end of the text. */
  lemma SpelledSnoc(first: nat, rest: seq<(bool, nat)>, minus: bool, n: nat)
    ensures Spelled(first, rest + [(minus, n)])
         == Spelled(first, rest) + ((if minus then " - " else " + ") + NatToString(n))
  {
    SpelledTailAppend(rest, [(minus, n)]);
    assert [(minus, n)][1..] == [];
    assert SpelledTail([(minus, n)]) == (if minus then " - " else " + ") + NatToString(n) + "";
  }

  lemma {:induction false} TailValueAppend(a: seq<(bool, nat)>, b: seq<(bool, nat)>)
    ensures TailValue(a + b) == TailValue(a) + TailValue(b)
  {
    if a != [] {
      assert (a + b)[1..] == a[1..] + b;
      TailValueAppend(a[1..], b);
    } else {
      assert a + b == b;
    }
  }

  lemma DigitRunOf(d: string, rest: string)
    requires AllDigits(d)
    requires rest == [] || !IsDigit(rest[0])
    ensures DigitRun(d + rest) == |d|
  {
    var s := d + rest;
    var p := DigitRun(s);
    assert forall k :: 0 <= k < |d| ==> s[k] == d[k];
    assert |d| < |s| ==> s[|d|] == rest[0];
  }

  /** A printed number, followed by anything but a digit, lexes as itself. */
  lemma LexNumber(n: nat, rest: string)
    requires rest == [] || !IsDigit(rest[0])
    ensures Lex(NatToString(n) + rest) == Cons(Num(n), Lex(rest))
  {
    var d := NatToString(n);
    var s := d + rest;
    DigitRunOf(d, rest);
    assert s[..|d|] == d && s[|d|..] == rest;
    NatToStringRoundTrip(n);
  }

  lemma LexOperator(op: char, rest: string)
    requires op == '+' || op == '-'
    ensures Lex([' ', op, ' '] + rest) == Cons(if op == '-' then Minus else Plus, Lex(rest))
  {
    var s := [' ', op, ' '] + rest;
    var s1 := [op, ' '] + rest;
    var s2 := [' '] + rest;
    assert s[0] == ' ' && s[1..] == s1;
    assert s1[0] == op && s1[1..] == s2;
    assert s2[0] == ' ' && s2[1..] == rest;
    assert Lex(s2) == Lex(rest);
    assert Lex(s1) == Cons(if op == '-' then Minus else Plus, Lex(rest));
  }

  lemma SpelledTailCons(rest: seq<(bool, nat)>, c: char)
    requires rest != [] && c == (if rest[0].0 then '-' else '+')
    ensures SpelledTail(rest) == [' ', c, ' '] + (NatToString(rest[0].1) + SpelledTail(rest[1..]))
  {
    assert (if rest[0].0 then " - " else " + ") == [' ', c, ' '];
  }

  lemma SpelledTailStart(rest: seq<(bool, nat)>)
    ensures SpelledTail(rest) == [] || SpelledTail(rest)[0] == ' '
  {
  }

  lemma {:induction false} LexTail(rest: seq<(bool, nat)>)
    ensures Lex(SpelledTail(rest)) == Ok(TailAtoms(rest))
  {
    if rest != [] {
      var c := if rest[0].0 then '-' else '+';
      var num := NatToString(rest[0].1);
      var tail := SpelledTail(rest[1..]);
      LexTail(rest[1..]);
      LexNumberTail(rest);
      SpelledTailCons(rest, c);
      LexOperator(c, num + tail);
      TailAtomsCons(rest);
    }
  }

  lemma TailAtomsCons(rest: seq<(bool, nat)>)
    requires rest != []
    ensures TailAtoms(rest) == [if rest[0].0 then Minus else Plus] + ([Num(rest[0].1)] + TailAtoms(rest[1..]))
  {
  }

  lemma LexNumberTail(rest: seq<(bool, nat)>)
    requires rest != [] && Lex(SpelledTail(rest[1..])) == Ok(TailAtoms(rest[1..]))
    ensures Lex(NatToString(rest[0].1) + SpelledTail(rest[1..])) == Ok([Num(rest[0].1)] + TailAtoms(rest[1..]))
  {
    SpelledTailStart(rest[1..]);
    LexNumber(rest[0].1, SpelledTail(rest[1..]));
  }

  lemma {:induction false} FoldTail(rest: seq<(bool, nat)>, acc: int)
    ensures Fold(TailAtoms(rest), acc, 1, true) == Ok(acc + TailValue(rest))
  {
    if rest != [] {
      var atoms := TailAtoms(rest);
      var v: int := if rest[0].0 then -(rest[0].1 as int) else rest[0].1;
      assert atoms[1..][1..] == TailAtoms(rest[1..]);
      FoldTail(rest[1..], acc + v);
    }
  }

  /** Evaluating the text of a sum or difference of numbers gives its value. */
  lemma EvalSpelled(first: nat, rest: seq<(bool, nat)>)
    ensures Eval(Spelled(first, rest)) == Ok(Value(first, rest))
  {
    var tail := SpelledTail(rest);
    LexTail(rest);
    assert tail == [] || tail[0] == ' ';
    LexNumber(first, tail);
    var atoms := [Num(first)] + TailAtoms(rest);
    assert atoms[1..] == TailAtoms(rest);
    FoldTail(rest, first);
  }

  /** Printing a number and evaluating the text gives the number back. */
  lemma EvalNumber(n: nat)
    ensures Eval(NatToString(n)) == Ok(n)
  {
    EvalSpelled(n, []);
    assert Spelled(n, []) == NatToString(n);
  }

  /** An empty or blank text, or one that ends in an operator, is a syntax error. */
  lemma {:induction false} DanglingIsError(s: string)
    requires Lex(s).Ok?
    requires Lex(s).value == [] || !Lex(s).value[|Lex(s).value| - 1].Num?
    ensures Eval(s) == Err(SyntaxError)
  {
    FoldDangling(Lex(s).value, 0, 1, false);
  }

  lemma {:induction false} FoldDangling(atoms: seq<Atom>, acc: int, sign: int, afterNum: bool)
    requires atoms == [] ==> !afterNum
    requires atoms != [] ==> !atoms[|atoms| - 1].Num?
    ensures Fold(atoms, acc, sign, afterNum).Err?
  {
    if atoms != [] {
      var rest := atoms[1..];
      assert rest != [] ==> rest[|rest| - 1] == atoms[|atoms| - 1];
      match atoms[0]
      case Num(n) =>
        if !afterNum {
          FoldDangling(rest, acc + sign * n, 1, true);
        }
      case Plus => FoldDangling(rest, acc, if afterNum then 1 else sign, false);
      case Minus => FoldDangling(rest, acc, if afterNum then -1 else -sign, false);
    }
  }

  // ---------------------------------------------------------------------
  // A reference for every text: the signed sum of its numbers.

  function OpSign(a: Atom): int
  {
    if a == Minus then -1 else 1
  }

  /** The sign the run of operators just before position `j` gives the
      number there: the product of their signs. */
  function RunSign(atoms: seq<Atom>, j: nat): int
    requires j <= |atoms|
  {
    if j == 0 || atoms[j - 1].Num? then 1 else OpSign(atoms[j - 1]) * RunSign(atoms, j - 1)
  }

  /** The numbers among the first `k` tokens, each with the sign of the run
      of operators before it, added up. */
  function SignedSumUpTo(atoms: seq<Atom>, k: nat): int
    requires k <= |atoms|
  {
    if k == 0 then 0
    else SignedSumUpTo(atoms, k - 1) + (if atoms[k - 1].Num? then RunSign(atoms, k - 1) * atoms[k - 1].n else 0)
  }

  function SignedSum(atoms: seq<Atom>): int
  {
    SignedSumUpTo(atoms, |atoms|)
  }

  /** No number among the first `k` tokens directly follows another. */
  predicate NoAdjacentNums(atoms: seq<Atom>, k: nat)
    requires k <= |atoms|
  {
    forall j :: 0 < j < k && atoms[j].Num? ==> !atoms[j - 1].Num?
  }

  /** What Python's grammar accepts of these tokens: at least one number,
      a number last, and an operator between any two numbers. */
  predicate WellShaped(atoms: seq<Atom>)
  {
    && atoms != [] && atoms[|atoms| - 1].Num?
    && NoAdjacentNums(atoms, |atoms|)
  }

  /** The fold from position `k` on, started in the state the first `k`
      tokens leave, ends in the reference outcome. */
  lemma {:induction false} FoldFrom(atoms: seq<Atom>, k: nat)
    requires k <= |atoms| && NoAdjacentNums(atoms, k)
    ensures Fold(atoms[k..], SignedSumUpTo(atoms, k), RunSign(atoms, k), k > 0 && atoms[k - 1].Num?)
         == if WellShaped(atoms) then Ok(SignedSum(atoms)) else Err(SyntaxError)
    decreases |atoms| - k
  {
    if k < |atoms| {
      var afterNum := k > 0 && atoms[k - 1].Num?;
      assert atoms[k..][0] == atoms[k] && atoms[k..][1..] == atoms[k + 1..];
      if atoms[k].Num? && afterNum {
        assert !NoAdjacentNums(atoms, |atoms|);
      } else {
        FoldFrom(atoms, k + 1);
      }
    }
  }

  /** `eval` of the tokens: the signed sum of the numbers when the tokens
      are well shaped, a syntax error otherwise. */
  lemma FoldSpec(atoms: seq<Atom>)
    ensures Fold(atoms, 0, 1, false) == if WellShaped(atoms) then Ok(SignedSum(atoms)) else Err(SyntaxError)
  {
    FoldFrom(atoms, 0);
    assert atoms[0..] == atoms;
  }

  /** `eval(s)` for every text: a syntax error where the lexer stops or the
      tokens are not well shaped, and otherwise the signed sum of the numbers. */
  lemma EvalSpec(s: string)
    ensures Eval(s) == if Lex(s).Err? || !WellShaped(Lex(s).value) then Err(SyntaxError) else Ok(SignedSum(Lex(s).value))
  {
    if Lex(s).Ok? {
      FoldSpec(Lex(s).value);
    }
  }

  // ---------------------------------------------------------------------
  // Texts built of blanks, signs and literals.

  /** A piece of an arithmetic text: one blank, one sign, or a number
      written in decimal. */
  datatype Piece = Blank(c: char) | Op(minus: bool) | Lit(n: nat)

  function PieceText(p: Piece): string
  {
    match p
    case Blank(c) => [c]
    case Op(minus) => if minus then "-" else "+"
    case Lit(n) => NatToString(n)
  }

  function Spell(ps: seq<Piece>): string
  {
    if ps == [] then "" else PieceText(ps[0]) + Spell(ps[1..])
  }

  function PieceAtoms(p: Piece): seq<Atom>
  {
    match p
    case Blank(_) => []
    case Op(minus) => [if minus then Minus else Plus]
    case Lit(n) => [Num(n)]
  }

  function AtomsOf(ps: seq<Piece>): seq<Atom>
  {
    if ps == [] then [] else PieceAtoms(ps[0]) + AtomsOf(ps[1..])
  }

  predicate PieceOk(p: Piece)
  {
    match p
    case Blank(c) => IsBlank(c)
    case Op(_) => true
    case Lit(_) => true
  }

  /** The pieces read back as themselves: blanks are blanks, and no literal
      directly follows another (the two would run together into one). */
  predicate Readable(ps: seq<Piece>)
  {
    && (forall k :: 0 <= k < |ps| ==> PieceOk(ps[k]))
    && (forall k :: 0 < k < |ps| && ps[k].Lit? ==> !ps[k - 1].Lit?)
  }

  lemma {:induction false} SpellAppend(a: seq<Piece>, b: seq<Piece>)
    ensures Spell(a + b) == Spell(a) + Spell(b)
  {
    if a != [] {
      assert (a + b)[1..] == a[1..] + b;
      SpellAppend(a[1..], b);
    } else {
      assert a + b == b;
    }
  }

  lemma {:induction false} AtomsOfAppend(a: seq<Piece>, b: seq<Piece>)
    ensures AtomsOf(a + b) == AtomsOf(a) + AtomsOf(b)
  {
    if a != [] {
      assert (a + b)[1..] == a[1..] + b;
      AtomsOfAppend(a[1..], b);
    } else {
      assert a + b == b;
    }
  }

  lemma LexSign(minus: bool, rest: string)
    ensures Lex(PieceText(Op(minus)) + rest) == Cons(if minus then Minus else Plus, Lex(rest))
  {
    var s := PieceText(Op(minus)) + rest;
    assert s[1..] == rest;
  }

  lemma LexBlank(c: char, rest: string)
    requires IsBlank(c)
    ensures Lex([c] + rest) == Lex(rest)
  {
    assert ([c] + rest)[1..] == rest;
  }

  lemma ReadableTail(ps: seq<Piece>)
    requires ps != [] && Readable(ps)
    ensures Readable(ps[1..])
  {
    forall k | 0 < k < |ps[1..]| && ps[1..][k].Lit?
      ensures !ps[1..][k - 1].Lit?
    {
      assert ps[1..][k] == ps[k + 1] && ps[1..][k - 1] == ps[k];
    }
  }

  /** A text that follows a literal starts with a blank or a sign, or is empty. */
  lemma AfterLiteral(ps: seq<Piece>)
    requires ps != [] && Readable(ps) && ps[0].Lit?
    ensures var rest := Spell(ps[1..]); rest == [] || !IsDigit(rest[0])
  {
    if |ps| > 1 {
      assert !ps[1].Lit?;
      assert ps[1..][0] == ps[1];
    }
  }

  /** The lexer reads back the tokens of the pieces. */
  lemma {:induction false} LexPieces(ps: seq<Piece>)
    requires Readable(ps)
    ensures Lex(Spell(ps)) == Ok(AtomsOf(ps))
  {
    if ps != [] {
      var rest := Spell(ps[1..]);
      ReadableTail(ps);
      LexPieces(ps[1..]);
      assert PieceOk(ps[0]);
      match ps[0]
      case Blank(c) =>
        LexBlank(c, rest);
        assert AtomsOf(ps) == AtomsOf(ps[1..]);
      case Op(minus) => LexSign(minus, rest);
      case Lit(n) =>
        AfterLiteral(ps);
        LexNumber(n, rest);
    }
  }

  /** `eval` of a text of blanks, signs and literals is the signed sum of its
      literals when the signs and literals alternate as Python requires, and
      a syntax error otherwise. */
  lemma EvalPieces(ps: seq<Piece>)
    requires Readable(ps)
    ensures Eval(Spell(ps)) == if WellShaped(AtomsOf(ps)) then Ok(SignedSum(AtomsOf(ps))) else Err(SyntaxError)
  {
    LexPieces(ps);
    FoldSpec(AtomsOf(ps));
  }
}
