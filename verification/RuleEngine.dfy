/**
 Rule expressions without parentheses: hexadecimal criterion ids joined by '+' (and) and '|' (or),
 taken from left to right. Whether a criterion holds of the event is a parameter.
 */
module RuleEngine {
  import opened Text
  import opened Decimal

  const AND := '+'
  const OR := '|'
  const ULONG_MAX: nat := 0xFFFF_FFFF_FFFF_FFFF

  predicate IsHex(c: char) {
    '0' <= c <= '9' || 'a' <= c <= 'f' || 'A' <= c <= 'F'
  }

  function HexDigit(c: char): (n: nat)
    requires IsHex(c)
    ensures n < 16
  {
    if c <= '9' then c as int - '0' as int
    else if c <= 'F' then c as int - 'A' as int + 10
    else c as int - 'a' as int + 10
  }

  function HexValue(s: string): (n: nat)
    requires forall c :: c in s ==> IsHex(c)
  {
    if s == [] then 0 else 16 * HexValue(s[..|s| - 1]) + HexDigit(s[|s| - 1])
  }

  /** strtoul saturates; the id is an unsigned int. */
  function CriteriaId(s: string): (id: nat)
    requires forall c :: c in s ==> IsHex(c)
    ensures id < U32
  {
    (if HexValue(s) <= ULONG_MAX then HexValue(s) else ULONG_MAX) % U32
  }

  const HEX_DIGITS := "0123456789abcdef"

  /** A number printed in base 16. */
  function Hex(n: nat): (s: string)
    ensures 1 <= |s| && forall c :: c in s ==> IsHex(c)
  {
    if n < 16 then [HEX_DIGITS[n]] else Hex(n / 16) + [HEX_DIGITS[n % 16]]
  }

  const LOWER := "abcdef"
  const UPPER := "ABCDEF"

  /** Upper case letters, digits as they are. */
  function UpperDigit(c: char): (u: char)
    requires IsHex(c)
    ensures IsHex(u)
  {
    if 'a' <= c then UPPER[c as int - 'a' as int] else c
  }

  function Upper(s: string): (u: string)
    requires forall c :: c in s ==> IsHex(c)
    ensures |u| == |s| && forall i :: 0 <= i < |s| ==> IsHex(u[i])
  {
    if s == [] then [] else Upper(s[..|s| - 1]) + [UpperDigit(s[|s| - 1])]
  }

  lemma CasesAgree(i: nat)
    requires i < 6
    ensures UpperDigit(LOWER[i]) == UPPER[i] && HexDigit(UPPER[i]) == HexDigit(LOWER[i]) == 10 + i
  {
  }

  lemma DigitOfPrinted(d: nat)
    requires d < 16
    ensures IsHex(HEX_DIGITS[d]) && HexDigit(HEX_DIGITS[d]) == d
  {
  }

  lemma {:induction false} HexValueOfHex(n: nat)
    ensures HexValue(Hex(n)) == n
  {
    DigitOfPrinted(n % 16);
    if n < 16 {
      assert Hex(n)[..0] == [];
    } else {
      HexValueOfHex(n / 16);
      hide HexDigit;
      assert Hex(n)[..|Hex(n)| - 1] == Hex(n / 16);
    }
  }

  lemma {:induction false} HexValueOfUpper(s: string)
    requires forall c :: c in s ==> IsHex(c)
    ensures HexValue(Upper(s)) == HexValue(s)
  {
    if s != [] {
      HexValueOfUpper(s[..|s| - 1]);
      assert Upper(s)[..|s| - 1] == Upper(s[..|s| - 1]);
    }
  }

  lemma {:induction false} HexValueZeros(s: string)
    requires forall c :: c in s ==> IsHex(c)
    ensures HexValue(['0'] + s) == HexValue(s)
  {
    if s == [] {
      assert ['0'] + s == ['0'] && ['0'][..0] == [];
    } else {
      HexValueZeros(s[..|s| - 1]);
      assert (['0'] + s)[..|s|] == ['0'] + s[..|s| - 1];
    }
  }

  /**
   Which criterion an id names: the number it is in base 16, in either case and with any leading zero;
   larger numbers lose all but 32 bits, and from 2^64 on they are all the largest id.
   */
  lemma IdOfPrinted(n: nat)
    ensures CriteriaId(Hex(n)) == if n <= ULONG_MAX then n % U32 else U32 - 1
    ensures CriteriaId(Upper(Hex(n))) == CriteriaId(Hex(n)) == CriteriaId(['0'] + Hex(n))
    ensures n < U32 ==> CriteriaId(Hex(n)) == n
  {
    hide HexValue, Hex, Upper;
    HexValueOfHex(n);
    HexValueOfUpper(Hex(n));
    HexValueZeros(Hex(n));
  }

  /** End of the hexadecimal digits from position i on. */
  function HexEnd(s: string, i: nat): (e: nat)
    requires i <= |s|
    ensures i <= e <= |s| && (e < |s| ==> !IsHex(s[e]))
    ensures forall c :: c in s[i..e] ==> IsHex(c)
    decreases |s| - i
  {
    if i == |s| || !IsHex(s[i]) then i
    else
      var e := HexEnd(s, i + 1);
      assert s[i..e] == [s[i]] + s[i + 1..e];
      e
  }

  predicate ParenFree(s: string) {
    forall i :: 0 <= i < |s| ==> IsHex(s[i]) || s[i] == AND || s[i] == OR
  }

  /** Empty, or ids with one operator between each two. */
  predicate WellFormed(s: string) {
    && ParenFree(s)
    && (s != [] ==> IsHex(s[0]))
    && forall i :: 0 <= i < |s| && !IsHex(s[i]) ==> i + 1 < |s| && IsHex(s[i + 1])
  }

  // ---------------------------------------------------------------- the plain evaluation

  /** From the operator at p on, with value r so far: every criterion is evaluated. */
  function Fold(holds: nat -> bool, s: string, p: nat, r: bool): (v: bool)
    requires WellFormed(s) && p <= |s| && (p < |s| ==> !IsHex(s[p]))
    decreases |s| - p
  {
    if p == |s| then r
    else
      var e := HexEnd(s, p + 1);
      var c := holds(CriteriaId(s[p + 1..e]));
      Fold(holds, s, e, if s[p] == AND then r && c else r || c)
  }

  function Plain(holds: nat -> bool, s: string): (v: bool)
    requires WellFormed(s)
  {
    if s == [] then false else Fold(holds, s, HexEnd(s, 0), holds(CriteriaId(s[..HexEnd(s, 0)])))
  }

  /** Expressions as trees, and what they mean. */
  datatype Expr = Criterion(id: string) | And(left: Expr, id: string) | Or(left: Expr, id: string)

  predicate ValidExpr(e: Expr) {
    && e.id != [] && (forall c :: c in e.id ==> IsHex(c))
    && (!e.Criterion? ==> ValidExpr(e.left))
  }

  function Show(e: Expr): (s: string) {
    match e
    case Criterion(id) => id
    case And(left, id) => Show(left) + [AND] + id
    case Or(left, id) => Show(left) + [OR] + id
  }

  predicate Meaning(holds: nat -> bool, e: Expr)
    requires ValidExpr(e)
  {
    match e
    case Criterion(id) => holds(CriteriaId(id))
    case And(left, id) => Meaning(holds, left) && holds(CriteriaId(id))
    case Or(left, id) => Meaning(holds, left) || holds(CriteriaId(id))
  }

  lemma {:induction false} HexEndIs(s: string, i: nat, e: nat)
    requires i <= e <= |s| && (forall k :: i <= k < e ==> IsHex(s[k])) && (e < |s| ==> !IsHex(s[e]))
    ensures HexEnd(s, i) == e
    decreases e - i
  {
    if i < e {
      HexEndIs(s, i + 1, e);
    }
  }

  lemma {:induction false} ShowIsWellFormed(e: Expr)
    requires ValidExpr(e)
    ensures WellFormed(Show(e)) && Show(e) != [] && IsHex(Show(e)[|Show(e)| - 1])
  {
    if !e.Criterion? {
      ShowIsWellFormed(e.left);
      Appended(Show(e.left), if e.And? then AND else OR, e.id);
    }
  }

  lemma Appended(s: string, op: char, id: string)
    requires WellFormed(s) && s != [] && IsHex(s[|s| - 1]) && (op == AND || op == OR)
    requires id != [] && forall c :: c in id ==> IsHex(c)
    ensures var t := s + [op] + id;
            WellFormed(t) && IsHex(t[|t| - 1]) && t[..|s|] == s && t[|s|] == op && t[|s| + 1..] == id
  {
    var t := s + [op] + id;
    forall i | 0 <= i < |t| && !IsHex(t[i])
      ensures i + 1 < |t| && IsHex(t[i + 1])
    {
      if i < |s| - 1 {
        assert IsHex(s[i + 1]);
      }
    }
  }

  /** t is s with one more term at the end: that term is applied last. */
  lemma {:induction false} FoldAppend(holds: nat -> bool, s: string, p: nat, r: bool, t: string)
    requires WellFormed(s) && WellFormed(t) && |s| < |t| && t[..|s|] == s && !IsHex(t[|s|])
    requires forall c :: c in t[|s| + 1..] ==> IsHex(c)
    requires p <= |s| && (p < |s| ==> !IsHex(s[p])) && (p < |t| ==> !IsHex(t[p]))
    ensures var (v, c) := (Fold(holds, s, p, r), holds(CriteriaId(t[|s| + 1..])));
            Fold(holds, t, p, r) == if t[|s|] == AND then v && c else v || c
    decreases |s| - p
  {
    hide CriteriaId, HexEnd;
    if p == |s| {
      HexEndIs(t, p + 1, |t|);
      assert t[p + 1..|t|] == t[|s| + 1..];
    } else {
      var e := HexEnd(s, p + 1);
      HexRun(s, p + 1, t);
      assert t[p] == t[..|s|][p];
      var c := holds(CriteriaId(s[p + 1..e]));
      FoldAppend(holds, s, e, if s[p] == AND then r && c else r || c, t);
    }
  }

  /** Behind the end of s comes an operator, so the digits end where they did. */
  lemma HexRun(s: string, i: nat, t: string)
    requires i <= |s| < |t| && t[..|s|] == s && !IsHex(t[|s|])
    ensures HexEnd(t, i) == HexEnd(s, i) && t[i..HexEnd(t, i)] == s[i..HexEnd(s, i)]
  {
    var e := HexEnd(s, i);
    forall k | i <= k < e
      ensures IsHex(t[k])
    {
      assert t[k] == t[..|s|][k] == s[k] && s[i..e][k - i] == s[k];
    }
    if e < |s| {
      assert t[e] == t[..|s|][e] == s[e];
    }
    HexEndIs(t, i, e);
    assert t[i..e] == t[..|s|][i..e];
  }

  /** The plain evaluation of a printed expression is what the expression means. */
  lemma {:induction false} PlainIsMeaning(holds: nat -> bool, e: Expr)
    requires ValidExpr(e)
    ensures WellFormed(Show(e))
    ensures Plain(holds, Show(e)) == Meaning(holds, e)
  {
    ShowIsWellFormed(e);
    if e.Criterion? {
      HexEndIs(e.id, 0, |e.id|);
      assert e.id[..|e.id|] == e.id;
    } else {
      var s, op := Show(e.left), if e.And? then AND else OR;
      ShowIsWellFormed(e.left);
      PlainIsMeaning(holds, e.left);
      Appended(s, op, e.id);
      HexRun(s, 0, Show(e));
      var first := HexEnd(s, 0);
      assert s[0..first] == s[..first] && Show(e)[0..first] == Show(e)[..first];
      FoldAppend(holds, s, first, holds(CriteriaId(s[..first])), Show(e));
    }
  }

  // ---------------------------------------------------------------- the evaluation with skips

  /**
   evaluate_criteria at `from`: the criterion's value and the position behind its id. strtoul takes a
   sign, and if there is no number it reads 0 and stays where it is.
   */
  function CriterionAt(holds: nat -> bool, s: string, from: nat): (r: (bool, nat))
    requires from <= |s|
    ensures from <= r.1 <= |s|
    ensures from < |s| && IsHex(s[from]) ==> from < r.1 == HexEnd(s, from) && r.0 == holds(CriteriaId(s[from..r.1]))
  {
    var start := if from < |s| && s[from] == '+' then from + 1 else from;
    var end := HexEnd(s, start);
    (holds(CriteriaId(s[start..end])), if end == start then from else end)
  }

  /** evaluate_expression from position pos on, with value retv so far. */
  function Evaluate(holds: nat -> bool, s: string, pos: nat, retv: bool): (v: bool)
    requires ParenFree(s) && pos <= |s|
    decreases |s| - pos
  {
    if pos == |s| then retv
    else if s[pos] == AND && !retv then Evaluate(holds, s, IndexFrom(OR, s, pos + 1), retv)
    else if s[pos] == OR && retv then Evaluate(holds, s, IndexFrom(AND, s, pos + 1), retv)
    else
      var (c, end) := CriterionAt(holds, s, if IsHex(s[pos]) then pos else pos + 1);
      Evaluate(holds, s, end, c)
  }

  method SkipForwardTo(s: string, from: nat, op: char) returns (pos: nat)
    requires from <= |s|
    ensures pos == IndexFrom(op, s, from)
  {
    pos := from;
    while pos < |s| && s[pos] != op
      invariant from <= pos <= |s|
      invariant forall i :: from <= i < pos ==> s[i] != op
    {
      pos := pos + 1;
    }
    IndexFromIs(op, s, from, pos);
  }

  method EvaluateCriteria(holds: nat -> bool, s: string, from: nat) returns (r: bool, pos: nat)
    requires from <= |s|
    ensures (r, pos) == CriterionAt(holds, s, from)
  {
    var start := from;
    if from < |s| && s[from] == '+' {
      start := from + 1;
    }
    pos := HexEnd(s, start);
    r := holds(CriteriaId(s[start..pos]));
    if pos == start {
      pos := from;
    }
  }

  /** The loop of evaluate_expression; it ends on every expression without parentheses. */
  method EvaluateExpression(holds: nat -> bool, s: string) returns (retv: bool, pos: nat)
    requires ParenFree(s)
    ensures pos == |s|
    ensures retv == Evaluate(holds, s, 0, false)
    ensures WellFormed(s) ==> retv == Plain(holds, s)
  {
    hide CriterionAt;
    retv, pos := false, 0;
    while pos < |s|
      invariant pos <= |s| && Evaluate(holds, s, pos, retv) == Evaluate(holds, s, 0, false)
      decreases |s| - pos
    {
      if s[pos] == AND {
        pos := pos + 1;
        if !retv {
          pos := SkipForwardTo(s, pos, OR);
        } else {
          retv, pos := EvaluateCriteria(holds, s, pos);
        }
      } else if s[pos] == OR {
        pos := pos + 1;
        if retv {
          pos := SkipForwardTo(s, pos, AND);
        } else {
          retv, pos := EvaluateCriteria(holds, s, pos);
        }
      } else {
        retv, pos := EvaluateCriteria(holds, s, pos);
      }
    }
    if WellFormed(s) {
      SkippingIsPlain(holds, s);
    }
  }

  lemma {:induction false} DigitsEndBefore(s: string, i: nat, q: nat)
    requires i <= q <= |s| && (q < |s| ==> !IsHex(s[q]))
    ensures HexEnd(s, i) <= q
    decreases q - i
  {
    if i < q {
      DigitsEndBefore(s, i + 1, q);
    }
  }

  /** With value `stable` so far, skipping the operators that cannot change it changes nothing. */
  lemma {:induction false} SkippingIsSound(holds: nat -> bool, s: string, p: nat, q: nat, stable: bool)
    requires WellFormed(s) && p <= q <= |s| && (p < |s| ==> !IsHex(s[p]))
    requires q < |s| ==> s[q] == if stable then AND else OR
    requires forall i :: p <= i < q ==> s[i] != if stable then AND else OR
    ensures Fold(holds, s, p, stable) == Fold(holds, s, q, stable)
    decreases q - p
  {
    if p < q {
      var e := HexEnd(s, p + 1);
      DigitsEndBefore(s, p + 1, q);
      SkippingIsSound(holds, s, e, q, stable);
    }
  }

  /** From an operator on, skipping ahead and evaluating everything come to the same. */
  lemma {:induction false} EvaluateIsFold(holds: nat -> bool, s: string, p: nat, r: bool)
    requires WellFormed(s) && p <= |s| && (p < |s| ==> !IsHex(s[p]))
    ensures Evaluate(holds, s, p, r) == Fold(holds, s, p, r)
    decreases |s| - p
  {
    hide CriteriaId, HexEnd;
    if p < |s| {
      if r == (s[p] == OR) {
        var q := IndexFrom(if r then AND else OR, s, p + 1);
        SkippingIsSound(holds, s, p, q, r);
        EvaluateIsFold(holds, s, q, r);
      } else {
        var (c, end) := CriterionAt(holds, s, p + 1);
        EvaluateIsFold(holds, s, end, c);
      }
    }
  }

  /** So the skips make no difference to a well formed expression. */
  lemma SkippingIsPlain(holds: nat -> bool, s: string)
    requires WellFormed(s)
    ensures Evaluate(holds, s, 0, false) == Plain(holds, s)
  {
    hide CriteriaId;
    if s != [] {
      var (c, end) := CriterionAt(holds, s, 0);
      assert s[0..end] == s[..end];
      EvaluateIsFold(holds, s, end, c);
    }
  }

  // ---------------------------------------------------------------- an operator too many

  /** Two ids with two operators between them. */
  ghost predicate Doubled(s: string, x: string, op: char, op': char, y: string) {
    && x != [] && y != [] && (forall c :: c in x + y ==> IsHex(c))
    && (op == AND || op == OR) && (op' == AND || op' == OR)
    && s == x + [op, op'] + y
  }

  /** What is read where an id stands, with or without a plus in front of it, and where none does. */
  lemma IdIsRead(holds: nat -> bool, s: string, from: nat, id: string)
    requires id != [] && (forall c :: c in id ==> IsHex(c)) && from + |id| <= |s| && s[from..from + |id|] == id
    requires from + |id| < |s| ==> !IsHex(s[from + |id|])
    ensures CriterionAt(holds, s, from) == (holds(CriteriaId(id)), from + |id|)
    ensures 1 <= from && s[from - 1] == AND ==> CriterionAt(holds, s, from - 1) == (holds(CriteriaId(id)), from + |id|)
    ensures 1 <= from && s[from - 1] == OR ==> CriterionAt(holds, s, from - 1) == (holds(0), from - 1)
  {
    assert forall k :: 0 <= k < |id| ==> s[from + k] == id[k] && id[k] in id;
    assert forall k :: from <= k < from + |id| ==> s[k] == id[k - from];
    HexEndIs(s, from, from + |id|);
    assert HexValue([]) == 0;
    hide HexValue;
  }

  /** What stands where in it. */
  lemma DoubledParts(s: string, x: string, op: char, op': char, y: string)
    requires Doubled(s, x, op, op', y)
    ensures ParenFree(s) && |s| == |x| + 2 + |y| && s[|x|] == op && s[|x| + 1] == op' && IsHex(s[0])
    ensures (forall c :: c in x ==> IsHex(c)) && (forall c :: c in y ==> IsHex(c))
    ensures s[0..|x|] == x && s[|x| + 2..|s|] == y
    ensures forall k :: |x| + 2 <= k < |s| ==> s[k] != AND && s[k] != OR
  {
    var n := |x|;
    assert forall c :: c in x ==> c in x + y;
    assert forall c :: c in y ==> c in x + y;
    assert forall k :: 0 <= k < n ==> s[k] == x[k] && x[k] in x;
    assert forall k :: n + 2 <= k < |s| ==> s[k] == y[k - n - 2] && y[k - n - 2] in y;
  }

  lemma SecondOperator(holds: nat -> bool, s: string, x: string, op: char, op': char, y: string, r: bool)
    requires Doubled(s, x, op, op', y) && ParenFree(s) && |x| + 1 <= |s| && forall c :: c in y ==> IsHex(c)
    ensures Evaluate(holds, s, |s|, r) == r
    ensures Evaluate(holds, s, |x| + 1, r)
            == if op' == AND then r && holds(CriteriaId(y)) else r || holds(CriteriaId(y))
  {
    DoubledParts(s, x, op, op', y);
    hide CriterionAt, CriteriaId, Doubled;
    IdIsRead(holds, s, |x| + 2, y);
    IndexFromIs(if op' == AND then OR else AND, s, |x| + 2, |s|);
  }

  /**
   An id is missing: a criterion 0 stands in for it where the evaluation comes by, a plus is then taken
   for a sign, and after an "or" it makes the first id not matter at all.
   */
  lemma DoubledOperators(holds: nat -> bool, s: string, x: string, op: char, op': char, y: string)
    requires Doubled(s, x, op, op', y)
    ensures ParenFree(s) && (forall c :: c in x ==> IsHex(c)) && (forall c :: c in y ==> IsHex(c))
    ensures var (a, b) := (holds(CriteriaId(x)), holds(CriteriaId(y)));
            Evaluate(holds, s, 0, false)
            == if op == AND && op' == AND then a && b
               else if op == AND then (a && holds(0)) || b
               else if op' == AND then b
               else a || holds(0) || b
  {
    DoubledParts(s, x, op, op', y);
    hide CriterionAt, CriteriaId, Doubled;
    var n := |x|;
    IdIsRead(holds, s, 0, x);
    IdIsRead(holds, s, n + 2, y);
    forall r: bool ensures Evaluate(holds, s, |s|, r) == r {
      SecondOperator(holds, s, x, op, op', y, r);
    }
    SecondOperator(holds, s, x, op, op', y, false);
    SecondOperator(holds, s, x, op, op', y, true);
    IndexFromIs(op', s, n + 1, n + 1);
    IndexFromIs(if op' == AND then OR else AND, s, n + 1, |s|);
  }

  // ---------------------------------------------------------------- rule sets

  datatype Rule = Rule(id: string, expression: string, negate: bool)

  datatype Match = NoMatch | Matched(id: string)

  /** A rule holds of the event, after negation. */
  predicate Holds(holds: nat -> bool, rule: Rule)
    requires ParenFree(rule.expression)
  {
    Evaluate(holds, rule.expression, 0, false) != rule.negate
  }

  /** evaluate_incident_with_rules: the first rule that holds. */
  method EvaluateIncident(holds: nat -> bool, rules: seq<Rule>) returns (m: Match)
    requires forall r :: r in rules ==> ParenFree(r.expression)
    ensures m == NoMatch <==> forall r :: r in rules ==> !Holds(holds, r)
    ensures m.Matched? ==>
              exists n: nat ::
                && n < |rules| && m == Matched(rules[n].id) && Holds(holds, rules[n])
                && forall k :: 0 <= k < n ==> !Holds(holds, rules[k])
  {
    hide Evaluate;
    for n := 0 to |rules|
      invariant forall k :: 0 <= k < n ==> !Holds(holds, rules[k])
    {
      assert rules[n] in rules;
      var retv, _ := EvaluateExpression(holds, rules[n].expression);
      retv := if rules[n].negate then !retv else retv;
      if retv {
        return Matched(rules[n].id);
      }
    }
    return NoMatch;
  }

  /** On a rule whose expression is a printed tree, Holds is what the tree means. */
  lemma HoldsIsMeaning(holds: nat -> bool, rule: Rule, e: Expr)
    requires ValidExpr(e) && rule.expression == Show(e)
    ensures ParenFree(rule.expression)
    ensures Holds(holds, rule) <==> Meaning(holds, e) != rule.negate
  {
    hide Evaluate, Plain, Meaning;
    PlainIsMeaning(holds, e);
    SkippingIsPlain(holds, rule.expression);
  }

  /** A rule that is one id holds exactly if the criterion of that number does. */
  lemma OneCriterion(holds: nat -> bool, rule: Rule, n: nat)
    requires rule.expression == Hex(n) && n < U32
    ensures ParenFree(rule.expression)
    ensures Holds(holds, rule) <==> holds(n) != rule.negate
  {
    hide Evaluate;
    IdOfPrinted(n);
    HoldsIsMeaning(holds, rule, Criterion(Hex(n)));
  }
}
