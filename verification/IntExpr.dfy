/** The integer expression evaluator of edje_cc_parse.c: recursive descent over a character buffer.
    Positions are offsets into the buffer, and reading at its length reads the closing NUL. */
module IntExpr {
  import opened Basics

  /** Where a rule stopped and what it computed.  A rule gives None where the source leaves a C int undefined:
      a value that was never written, a result out of range, or a step past the closing NUL. */
  datatype Parsed = Parsed(pos: nat, val: int)

  const INT_MIN := -0x8000_0000
  const INT_MAX := 0x7fff_ffff
  const BUFFER_SIZE := 4096

  predicate IsInt(v: int) { INT_MIN <= v <= INT_MAX }

  function Checked(v: int): Option<int> {
    if IsInt(v) then Some(v) else None
  }

  predicate IsDigit(c: char) { '0' <= c <= '9' }

  /** _is_numi, which also takes a plus sign that no number starts with. */
  predicate IsNum(c: char) { IsDigit(c) || c == '-' || c == '+' }

  predicate IsOp1(c: char) { c == '*' || c == '%' || c == '/' }

  predicate IsOp2(c: char) { c == '+' || c == '-' }

  predicate IsBlank(c: char) { c == ' ' || c == '\t' }

  // ---------- C arithmetic ----------

  function Abs(a: int): nat { if a < 0 then -a else a }

  /** C division truncates towards zero. */
  function TruncDiv(a: int, b: int): int
    requires b != 0
  {
    var q := Abs(a) / Abs(b);
    if (a < 0) == (b < 0) then q else -q
  }

  function TruncMod(a: int, b: int): int
    requires b != 0
  {
    a - b * TruncDiv(a, b)
  }

  /** What C promises of / and %: they undo each other, and the remainder is short and has the sign of a. */
  lemma TruncatingDivision(a: int, b: int)
    requires b != 0
    ensures a == b * TruncDiv(a, b) + TruncMod(a, b)
    ensures Abs(TruncMod(a, b)) < Abs(b)
    ensures TruncMod(a, b) == 0 || (TruncMod(a, b) < 0 <==> a < 0)
  {
    var n: int, d: int := Abs(a), Abs(b);
    assert n == d * (n / d) + n % d;
    assert a == (if a < 0 then -n else n) && b == (if b < 0 then -d else d);
    var q: int := n / d;
    if b < 0 {
      assert (-d) * q == -(d * q) && (-d) * (-q) == d * q;
    } else {
      assert d * (-q) == -(d * q);
    }
  }

  /** _calci: dividing by zero leaves the left operand, as an unknown operator does. */
  function Calc(op: char, a: int, b: int): Option<int> {
    match op
    case '+' => Checked(a + b)
    case '-' => Checked(a - b)
    case '/' => if b != 0 then Checked(TruncDiv(a, b)) else Some(a)
    case '*' => Checked(a * b)
    case '%' =>
      if b == 0 then Some(a)
      else if IsInt(TruncDiv(a, b)) then Some(TruncMod(a, b)) else None
    case _ => Some(a)
  }

  // ---------- the rules ----------

  /** How far the number at i reaches: digits, and a minus sign in first place. */
  function NumEnd(s: string, i: nat, pos: nat): (e: nat)
    requires i + pos <= |s|
    ensures i + pos <= e <= |s|
    decreases |s| - i - pos
  {
    if i + pos < |s| && (IsDigit(s[i + pos]) || (pos == 0 && s[i + pos] == '-')) then NumEnd(s, i, pos + 1)
    else i + pos
  }

  function DigitsValue(ds: string): int {
    if ds == [] then 0 else 10 * DigitsValue(ds[..|ds| - 1]) + (ds[|ds| - 1] as int - '0' as int)
  }

  /** atoi on the texts that reach it: digits with at most a minus sign in front. */
  function Atoi(t: string): int {
    if t != [] && t[0] == '-' then -DigitsValue(t[1..]) else DigitsValue(t)
  }

  function GetNum(s: string, i: nat): (r: Option<Parsed>)
    requires i <= |s|
    ensures r.Some? ==> i <= r.value.pos <= |s|
  {
    var e := NumEnd(s, i, 0);
    if IsInt(Atoi(s[i..e])) then Some(Parsed(e, Atoi(s[i..e]))) else None
  }

  predicate StartsAt(s: string, i: nat, t: string) {
    i + |t| <= |s| && s[i..i + |t|] == t
  }

  function Delta(s: string, i: nat): (r: Option<Parsed>)
    requires i <= |s|
    ensures r.Some? ==> i < r.value.pos <= |s|
    decreases |s| - i, 0
  {
    if i == |s| || s[i] != '(' then None
    else
      match Alpha(s, i + 1)
      case None => None
      case Some(p) => if p.pos < |s| then Some(Parsed(p.pos + 1, p.val)) else None
  }

  function Func(s: string, i: nat): (r: Option<Parsed>)
    requires i <= |s|
    ensures r.Some? ==> i <= r.value.pos <= |s|
    decreases |s| - i, 1
  {
    if StartsAt(s, i, "floor(") then Delta(s, i + 5)
    else if StartsAt(s, i, "ceil(") then Delta(s, i + 4)
    else None
  }

  function Gamma(s: string, i: nat): (r: Option<Parsed>)
    requires i <= |s|
    ensures r.Some? ==> i <= r.value.pos <= |s|
    decreases |s| - i, 2
  {
    if i < |s| && IsNum(s[i]) then GetNum(s, i)
    else if i < |s| && s[i] == '(' then Delta(s, i)
    else Func(s, i)
  }

  function Beta(s: string, i: nat): (r: Option<Parsed>)
    requires i <= |s|
    ensures r.Some? ==> i <= r.value.pos <= |s|
    decreases |s| - i, 3
  {
    match Gamma(s, i)
    case None => None
    case Some(p) => BetaRest(s, p.pos, p.val)
  }

  /** The loop of _betai from position i on, with a1 computed so far. */
  function BetaRest(s: string, i: nat, a1: int): (r: Option<Parsed>)
    requires i <= |s|
    ensures r.Some? ==> i <= r.value.pos <= |s|
    decreases |s| - i, 2
  {
    if i < |s| && IsOp1(s[i]) then
      match Gamma(s, i + 1)
      case None => None
      case Some(p) =>
        match Calc(s[i], a1, p.val)
        case None => None
        case Some(v) => BetaRest(s, p.pos, v)
    else Some(Parsed(i, a1))
  }

  function Alpha(s: string, i: nat): (r: Option<Parsed>)
    requires i <= |s|
    ensures r.Some? ==> i <= r.value.pos <= |s|
    decreases |s| - i, 4
  {
    match Beta(s, i)
    case None => None
    case Some(p) => AlphaRest(s, p.pos, p.val)
  }

  /** The loop of _alphai from position i on. */
  function AlphaRest(s: string, i: nat, a1: int): (r: Option<Parsed>)
    requires i <= |s|
    ensures r.Some? ==> i <= r.value.pos <= |s|
    decreases |s| - i, 3
  {
    if i < |s| && IsOp2(s[i]) then
      match Beta(s, i + 1)
      case None => None
      case Some(p) =>
        match Calc(s[i], a1, p.val)
        case None => None
        case Some(v) => AlphaRest(s, p.pos, v)
    else Some(Parsed(i, a1))
  }

  function Stripped(s: string): (t: string)
    ensures |t| <= |s|
  {
    if s == [] then []
    else Stripped(s[..|s| - 1]) + if IsBlank(s[|s| - 1]) then [] else [s[|s| - 1]]
  }

  /** my_atoi: a text too long for its buffer counts as 0. */
  function MyAtoi(s: string): Option<int> {
    if |s| > BUFFER_SIZE - 1 then Some(0)
    else
      match Alpha(Stripped(s), 0)
      case None => None
      case Some(p) => Some(p.val)
  }

  // ---------- the loops of the source ----------

  /** _get_numi. */
  method GetNumI(s: string, i: nat) returns (r: Option<Parsed>)
    requires i <= |s|
    ensures r == GetNum(s, i)
  {
    var buf := "";
    var pos := 0;
    while i + pos < |s| && (IsDigit(s[i + pos]) || (pos == 0 && s[i + pos] == '-'))
      invariant i + pos <= |s| && buf == s[i..i + pos]
      invariant NumEnd(s, i, pos) == NumEnd(s, i, 0)
    {
      buf := buf + [s[i + pos]];
      pos := pos + 1;
    }
    r := if IsInt(Atoi(buf)) then Some(Parsed(i + pos, Atoi(buf))) else None;
  }

  /** _deltai. */
  method DeltaI(s: string, i: nat) returns (r: Option<Parsed>)
    requires i <= |s|
    ensures r == Delta(s, i)
    decreases |s| - i, 0
  {
    if i == |s| || s[i] != '(' { return None; }
    r := AlphaI(s, i + 1);
    if r.Some? {
      r := if r.value.pos < |s| then Some(Parsed(r.value.pos + 1, r.value.val)) else None;
    }
  }

  /** _funci. */
  method FuncI(s: string, i: nat) returns (r: Option<Parsed>)
    requires i <= |s|
    ensures r == Func(s, i)
    decreases |s| - i, 1
  {
    if StartsAt(s, i, "floor(") {
      r := DeltaI(s, i + 5);
    } else if StartsAt(s, i, "ceil(") {
      r := DeltaI(s, i + 4);
    } else {
      r := None;
    }
  }

  /** _gammai. */
  method GammaI(s: string, i: nat) returns (r: Option<Parsed>)
    requires i <= |s|
    ensures r == Gamma(s, i)
    decreases |s| - i, 2
  {
    if i < |s| && IsNum(s[i]) {
      r := GetNumI(s, i);
    } else if i < |s| && s[i] == '(' {
      r := DeltaI(s, i);
    } else {
      r := FuncI(s, i);
    }
  }

  /** _betai. */
  method BetaI(s: string, i: nat) returns (r: Option<Parsed>)
    requires i <= |s|
    ensures r == Beta(s, i)
    decreases |s| - i, 3
  {
    r := GammaI(s, i);
    if r.None? { return; }
    var pos, a1 := r.value.pos, r.value.val;
    while pos < |s| && IsOp1(s[pos])
      invariant i <= pos <= |s| && BetaRest(s, pos, a1) == Beta(s, i)
    {
      var op := s[pos];
      var p := GammaI(s, pos + 1);
      if p.None? { return None; }
      var v := Calc(op, a1, p.value.val);
      if v.None? { return None; }
      pos, a1 := p.value.pos, v.value;
    }
    r := Some(Parsed(pos, a1));
  }

  /** _alphai. */
  method AlphaI(s: string, i: nat) returns (r: Option<Parsed>)
    requires i <= |s|
    ensures r == Alpha(s, i)
    decreases |s| - i, 4
  {
    r := BetaI(s, i);
    if r.None? { return; }
    var pos, a1 := r.value.pos, r.value.val;
    while pos < |s| && IsOp2(s[pos])
      invariant i <= pos <= |s| && AlphaRest(s, pos, a1) == Alpha(s, i)
    {
      var op := s[pos];
      var p := BetaI(s, pos + 1);
      if p.None? { return None; }
      var v := Calc(op, a1, p.value.val);
      if v.None? { return None; }
      pos, a1 := p.value.pos, v.value;
    }
    r := Some(Parsed(pos, a1));
  }

  /** strstrip; None when the text does not fit. */
  method StrStrip(s: string, size: nat) returns (out: Option<string>)
    requires size > 0
    ensures out == if |s| <= size - 1 then Some(Stripped(s)) else None
  {
    if size - 1 < |s| { return None; }
    var t := "";
    var i := 0;
    while i < |s|
      invariant i <= |s| && t == Stripped(s[..i])
    {
      assert s[..i + 1][..i] == s[..i];
      if !IsBlank(s[i]) {
        t := t + [s[i]];
      }
      i := i + 1;
    }
    assert s[..i] == s;
    out := Some(t);
  }

  /** my_atoi. */
  method MyAtoiI(s: string) returns (r: Option<int>)
    ensures r == MyAtoi(s)
  {
    var buf := StrStrip(s, BUFFER_SIZE);
    if buf.None? { return Some(0); }
    var p := AlphaI(buf.value, 0);
    r := if p.Some? then Some(p.value.val) else None;
  }

  // ---------- expressions and their texts ----------

  datatype Fun = Floor | Ceil

  datatype Expr =
    | Num(negative: bool, digits: string)
    | Bin(op: char, left: Expr, right: Expr)
    | Group(inner: Expr)
    | Call(fun: Fun, arg: Expr)

  ghost predicate WellFormed(e: Expr) {
    match e
    case Num(_, digits) => digits != [] && forall i | 0 <= i < |digits| :: IsDigit(digits[i])
    case Bin(op, l, r) => (IsOp1(op) || IsOp2(op)) && WellFormed(l) && WellFormed(r)
    case Group(x) => WellFormed(x)
    case Call(_, x) => WellFormed(x)
  }

  /** The value of a tree in C ints; floor and ceil of an integer change nothing. */
  ghost function Eval(e: Expr): Option<int> {
    match e
    case Num(negative, digits) => Checked(if negative then -DigitsValue(digits) else DigitsValue(digits))
    case Bin(op, l, r) =>
      if Eval(l).Some? && Eval(r).Some? then Calc(op, Eval(l).value, Eval(r).value) else None
    case Group(x) => Eval(x)
    case Call(_, x) => Eval(x)
  }

  /** Binding strength: sums 0, products 1, all else 2. */
  ghost function Strength(e: Expr): nat {
    match e
    case Bin(op, _, _) => if IsOp2(op) then 0 else 1
    case _ => 2
  }

  ghost function FunName(f: Fun): string {
    match f
    case Floor => "floor"
    case Ceil => "ceil"
  }

  /** The text of a tree where at least the given strength is needed: operators group to the left, and a
      weaker operand gets parentheses. */
  ghost function Print(e: Expr, strength: nat): string
    decreases e, 1
  {
    if Strength(e) < strength then "(" + Bare(e) + ")" else Bare(e)
  }

  ghost function Bare(e: Expr): string
    decreases e, 0
  {
    match e
    case Num(negative, digits) => (if negative then "-" else "") + digits
    case Bin(op, l, r) => Print(l, Strength(e)) + [op] + Print(r, Strength(e) + 1)
    case Group(x) => "(" + Print(x, 0) + ")"
    case Call(f, x) => FunName(f) + "(" + Print(x, 0) + ")"
  }

  /** The character at i, a NUL at the end. */
  ghost function At(s: string, i: nat): char {
    if i < |s| then s[i] else '\0'
  }

  /** The outcome of reading a tree's text that ends at j. */
  ghost function Read(e: Expr, j: nat): Option<Parsed> {
    if Eval(e).Some? then Some(Parsed(j, Eval(e).value)) else None
  }

  lemma SplitAt(s: string, i: nat, a: string, b: string)
    requires StartsAt(s, i, a + b)
    ensures StartsAt(s, i, a) && StartsAt(s, i + |a|, b) && i + |a| <= |s|
  {
    var t := s[i..i + |a + b|];
    assert t[..|a|] == a && t[|a|..] == b;
    assert s[i..i + |a|] == t[..|a|] && s[i + |a|..i + |a| + |b|] == t[|a|..];
  }

  lemma InText(s: string, i: nat, t: string)
    requires StartsAt(s, i, t)
    ensures i + |t| <= |s|
  {
  }

  lemma CharAt(s: string, i: nat, t: string, k: nat)
    requires StartsAt(s, i, t) && k < |t|
    ensures i + |t| <= |s| && s[i + k] == t[k]
  {
    assert s[i..i + |t|][k] == s[i + k];
  }

  /** A closing parenthesis, an operator of the other rule or the end of the text does not continue a term. */
  ghost predicate EndsNumber(s: string, j: nat) { !IsDigit(At(s, j)) }

  ghost predicate EndsProduct(s: string, j: nat) { EndsNumber(s, j) && !IsOp1(At(s, j)) }

  ghost predicate EndsSum(s: string, j: nat) { EndsProduct(s, j) && !IsOp2(At(s, j)) }

  // ---------- reading back a text ----------

  lemma {:induction false} NumEndsThere(s: string, i: nat, pos: nat, t: string)
    requires StartsAt(s, i, t) && pos <= |t| && t != [] && EndsNumber(s, i + |t|)
    requires t[0] == '-' || IsDigit(t[0])
    requires forall k | 1 <= k < |t| :: IsDigit(t[k])
    ensures NumEnd(s, i, pos) == i + |t|
    decreases |t| - pos
  {
    if pos < |t| {
      CharAt(s, i, t, pos);
      NumEndsThere(s, i, pos + 1, t);
    }
  }

  lemma ReadNum(s: string, i: nat, e: Expr)
    requires e.Num? && WellFormed(e) && StartsAt(s, i, Bare(e)) && EndsNumber(s, i + |Bare(e)|)
    ensures Gamma(s, i) == Read(e, i + |Bare(e)|)
  {
    var t := Bare(e);
    CharAt(s, i, t, 0);
    forall k | 1 <= k < |t| ensures IsDigit(t[k]) {
      if e.negative { assert t[k] == e.digits[k - 1]; }
    }
    NumEndsThere(s, i, 0, t);
    if e.negative { assert t[1..] == e.digits; } else { assert t == e.digits; }
  }

  /** Reading a text in parentheses, from the text inside. */
  lemma {:induction false} ReadParens(s: string, i: nat, e: Expr)
    requires WellFormed(e) && StartsAt(s, i, "(" + Print(e, 0) + ")")
    ensures Delta(s, i) == Read(e, i + |Print(e, 0)| + 2)
    decreases e, 7
  {
    var t := Print(e, 0);
    SplitAt(s, i, "(" + t, ")");
    SplitAt(s, i, "(", t);
    CharAt(s, i, "(", 0);
    CharAt(s, i + 1 + |t|, ")", 0);
    ReadSum(s, i + 1, e);
  }

  /** A whole text that is followed by something that ends a sum. */
  lemma {:induction false} ReadSum(s: string, i: nat, e: Expr)
    requires WellFormed(e) && StartsAt(s, i, Print(e, 0)) && EndsSum(s, i + |Print(e, 0)|)
    ensures Alpha(s, i) == Read(e, i + |Print(e, 0)|)
    decreases e, 6
  {
    SumPrefix(s, i, e);
  }

  lemma SumStep(s: string, j: nat, a: int)
    requires j < |s| && IsOp2(s[j])
    ensures var r := Beta(s, j + 1);
      AlphaRest(s, j, a)
        == if r.Some? && Calc(s[j], a, r.value.val).Some?
           then AlphaRest(s, r.value.pos, Calc(s[j], a, r.value.val).value)
           else None
  {
  }

  lemma ProductStep(s: string, j: nat, a: int)
    requires j < |s| && IsOp1(s[j])
    ensures var r := Gamma(s, j + 1);
      BetaRest(s, j, a)
        == if r.Some? && Calc(s[j], a, r.value.val).Some?
           then BetaRest(s, r.value.pos, Calc(s[j], a, r.value.val).value)
           else None
  {
  }

  lemma RulesStart(s: string, i: nat)
    requires i <= |s|
    ensures Alpha(s, i) == if Beta(s, i).Some? then AlphaRest(s, Beta(s, i).value.pos, Beta(s, i).value.val) else None
    ensures Beta(s, i) == if Gamma(s, i).Some? then BetaRest(s, Gamma(s, i).value.pos, Gamma(s, i).value.val) else None
  {
  }

  /** The text of a sum or a product is that of its operands and its operator. */
  lemma PrintParts(e: Expr)
    ensures Strength(e) < 2 ==>
              Print(e, Strength(e)) == Print(e.left, Strength(e)) + [e.op] + Print(e.right, Strength(e) + 1)
    ensures Strength(e) > 0 ==> Print(e, 0) == Print(e, 1)
    ensures Strength(e) != 1 ==> Print(e, 1) == Print(e, 2)
  {
  }

  /** _alphai reads a sum operand by operand, and is then where it would be with the value of the whole. */
  lemma {:induction false} SumPrefix(s: string, i: nat, e: Expr)
    requires WellFormed(e) && StartsAt(s, i, Print(e, 0)) && EndsProduct(s, i + |Print(e, 0)|)
    ensures var j := i + |Print(e, 0)|;
      Alpha(s, i) == if Eval(e).Some? then AlphaRest(s, j, Eval(e).value) else None
    decreases e, 5
  {
    hide Alpha, AlphaRest, Beta, BetaRest, Gamma, Calc, DigitsValue, Print, StartsAt;
    PrintParts(e);
    if Strength(e) == 0 {
      var a, b := Print(e.left, 0), Print(e.right, 1);
      SplitAt(s, i, a + [e.op], b);
      SplitAt(s, i, a, [e.op]);
      CharAt(s, i + |a|, [e.op], 0);
      SumPrefix(s, i, e.left);
      ReadProduct(s, i + |a| + 1, e.right);
      if Eval(e.left).Some? { SumStep(s, i + |a|, Eval(e.left).value); }
    } else {
      InText(s, i, Print(e, 0));
      RulesStart(s, i);
      ReadProduct(s, i, e);
    }
  }

  lemma {:induction false} ReadProduct(s: string, i: nat, e: Expr)
    requires WellFormed(e) && StartsAt(s, i, Print(e, 1)) && EndsProduct(s, i + |Print(e, 1)|)
    ensures Beta(s, i) == Read(e, i + |Print(e, 1)|)
    decreases e, if Strength(e) == 0 then 10 else 4
  {
    ProductPrefix(s, i, e);
  }

  lemma {:induction false} ProductPrefix(s: string, i: nat, e: Expr)
    requires WellFormed(e) && StartsAt(s, i, Print(e, 1)) && EndsNumber(s, i + |Print(e, 1)|)
    ensures var j := i + |Print(e, 1)|;
      Beta(s, i) == if Eval(e).Some? then BetaRest(s, j, Eval(e).value) else None
    decreases e, if Strength(e) == 0 then 9 else 3
  {
    hide Alpha, AlphaRest, Beta, BetaRest, Gamma, Calc, DigitsValue, Print, StartsAt;
    PrintParts(e);
    if Strength(e) == 1 {
      var a, b := Print(e.left, 1), Print(e.right, 2);
      SplitAt(s, i, a + [e.op], b);
      SplitAt(s, i, a, [e.op]);
      CharAt(s, i + |a|, [e.op], 0);
      ProductPrefix(s, i, e.left);
      ReadOperand(s, i + |a| + 1, e.right);
      if Eval(e.left).Some? { ProductStep(s, i + |a|, Eval(e.left).value); }
    } else {
      InText(s, i, Print(e, 1));
      RulesStart(s, i);
      ReadOperand(s, i, e);
    }
  }

  /** A number, a call or a text in parentheses. */
  lemma {:induction false} ReadOperand(s: string, i: nat, e: Expr)
    requires WellFormed(e) && StartsAt(s, i, Print(e, 2)) && EndsNumber(s, i + |Print(e, 2)|)
    ensures Gamma(s, i) == Read(e, i + |Print(e, 2)|)
    decreases e, if Strength(e) < 2 then 8 else 2
  {
    hide Alpha, Beta, Gamma, Delta, Calc, DigitsValue, StartsAt, Print, Bare;
    OperandParts(e);
    match e
    case Num(_, _) => ReadNum(s, i, e);
    case Bin(_, _, _) =>
      GammaParens(s, i, Print(e, 2));
      ReadParens(s, i, e);
    case Group(x) =>
      GammaParens(s, i, Print(e, 2));
      ReadParens(s, i, x);
    case Call(f, x) =>
      var t := "(" + Print(x, 0) + ")";
      SplitAt(s, i, FunName(f), t);
      GammaCalls(s, i, f, t);
      ReadParens(s, i + |FunName(f)|, x);
  }

  lemma OperandParts(e: Expr)
    ensures Print(e, 2) == match e
      case Num(_, _) => Bare(e)
      case Bin(_, _, _) => "(" + Print(e, 0) + ")"
      case Group(x) => "(" + Print(x, 0) + ")"
      case Call(f, x) => FunName(f) + ("(" + Print(x, 0) + ")")
  {
  }

  lemma GammaParens(s: string, i: nat, t: string)
    requires StartsAt(s, i, t) && t != [] && t[0] == '('
    ensures i < |s| && Gamma(s, i) == Delta(s, i)
  {
    CharAt(s, i, t, 0);
  }

  /** A function name goes to its argument. */
  lemma GammaCalls(s: string, i: nat, f: Fun, t: string)
    requires StartsAt(s, i, FunName(f) + t) && t != [] && t[0] == '('
    ensures i + |FunName(f)| <= |s| && Gamma(s, i) == Delta(s, i + |FunName(f)|)
  {
    hide Alpha, Beta, Delta;
    var name := FunName(f) + t;
    CharAt(s, i, name, 0);
    assert name == FunName(f) + "(" + t[1..];
    SplitAt(s, i, FunName(f) + "(", t[1..]);
    if f == Ceil && StartsAt(s, i, "floor(") {
      CharAt(s, i, "floor(", 0);
    }
  }

  // ---------- whole expressions ----------

  /** Every tree's text, with blanks strewn in anywhere, evaluates to the tree's value if the buffer holds it. */
  lemma Evaluates(s: string, e: Expr)
    requires WellFormed(e) && Stripped(s) == Print(e, 0)
    ensures MyAtoi(s) == if |s| < BUFFER_SIZE then Eval(e) else Some(0)
  {
    hide Alpha, Print, Eval;
    ReadAll(Stripped(s), e);
  }

  lemma ReadAll(t: string, e: Expr)
    requires WellFormed(e) && t == Print(e, 0)
    ensures Alpha(t, 0) == Read(e, |t|)
  {
    hide Alpha, Print, Eval;
    var i := 0;
    assert t[i..i + |t|] == t;
    ReadSum(t, i, e);
  }

  lemma {:induction false} StrippedConcat(a: string, b: string)
    ensures Stripped(a + b) == Stripped(a) + Stripped(b)
    decreases |b|
  {
    if b == [] {
      assert a + b == a;
    } else {
      var n := |b| - 1;
      assert (a + b)[..|a + b| - 1] == a + b[..n];
      StrippedConcat(a, b[..n]);
    }
  }

  lemma {:induction false} OnlyBlanks(w: string)
    requires forall k | 0 <= k < |w| :: IsBlank(w[k])
    ensures Stripped(w) == []
    decreases |w|
  {
    if w != [] { OnlyBlanks(w[..|w| - 1]); }
  }

  lemma {:induction false} NoBlanks(w: string)
    requires forall k | 0 <= k < |w| :: !IsBlank(w[k])
    ensures Stripped(w) == w
    decreases |w|
  {
    if w != [] { NoBlanks(w[..|w| - 1]); }
  }

  /** Spaces and tabs put in anywhere change nothing, exactly as long as the text still fits the buffer or
      was 0 before. */
  lemma BlanksIgnored(a: string, w: string, b: string)
    requires forall k | 0 <= k < |w| :: IsBlank(w[k])
    ensures MyAtoi(a + w + b) == MyAtoi(a + b) <==> |a + w + b| < BUFFER_SIZE || MyAtoi(a + b) == Some(0)
  {
    StrippedConcat(a + w, b);
    StrippedConcat(a, w);
    StrippedConcat(a, b);
    OnlyBlanks(w);
    assert Stripped(a) + [] == Stripped(a);
  }

  ghost predicate Blankless(t: string) {
    forall k | 0 <= k < |t| :: !IsBlank(t[k])
  }

  lemma BlanklessParens(a: string, t: string, b: string)
    requires Blankless(a) && Blankless(t) && Blankless(b)
    ensures Blankless(a + t + b)
  {
  }

  /** A printed tree has no blanks of its own. */
  lemma {:induction false} PrintIsBlankless(e: Expr, strength: nat)
    requires WellFormed(e)
    ensures Blankless(Print(e, strength))
    decreases e, 1
  {
    BareIsBlankless(e);
    hide Blankless, Bare;
    assert Blankless("(") && Blankless(")") by { BlanklessMarks(); }
    BlanklessParens("(", Bare(e), ")");
  }

  lemma BlanklessMarks()
    ensures Blankless("(") && Blankless(")") && Blankless("floor(") && Blankless("ceil(")
    ensures Blankless("-") && Blankless("")
  {
  }

  lemma {:induction false} BareIsBlankless(e: Expr)
    requires WellFormed(e)
    ensures Blankless(Bare(e))
    decreases e, 0
  {
    hide Print;
    BlanklessMarks();
    match e
    case Num(_, _) =>
    case Bin(op, l, r) =>
      PrintIsBlankless(l, Strength(e));
      PrintIsBlankless(r, Strength(e) + 1);
      BlanklessParens(Print(l, Strength(e)), [op], Print(r, Strength(e) + 1));
    case Group(x) =>
      PrintIsBlankless(x, 0);
      BlanklessParens("(", Print(x, 0), ")");
    case Call(f, x) =>
      PrintIsBlankless(x, 0);
      BlanklessParens(FunName(f) + "(", Print(x, 0), ")");
  }

  lemma EvaluatesPrinted(e: Expr)
    requires WellFormed(e) && |Print(e, 0)| < BUFFER_SIZE
    ensures MyAtoi(Print(e, 0)) == Eval(e)
  {
    PrintIsBlankless(e, 0);
    NoBlanks(Print(e, 0));
    Evaluates(Print(e, 0), e);
  }

  // ---------- what the value of a text is ----------

  ghost function Pow10(k: nat): nat { if k == 0 then 1 else 10 * Pow10(k - 1) }

  /** Each digit counts as many powers of ten as there are digits behind it. */
  ghost function Positional(ds: string): int {
    if ds == [] then 0 else (ds[0] as int - '0' as int) * Pow10(|ds| - 1) + Positional(ds[1..])
  }

  lemma {:induction false} PositionalSnoc(ds: string, c: char)
    ensures Positional(ds + [c]) == 10 * Positional(ds) + (c as int - '0' as int)
    decreases |ds|
  {
    if ds == [] {
      assert (ds + [c])[1..] == [];
    } else {
      assert (ds + [c])[1..] == ds[1..] + [c];
      PositionalSnoc(ds[1..], c);
    }
  }

  lemma {:induction false} DigitsPositional(ds: string)
    ensures DigitsValue(ds) == Positional(ds)
    decreases |ds|
  {
    if ds != [] {
      var n := |ds| - 1;
      DigitsPositional(ds[..n]);
      assert ds == ds[..n] + [ds[n]];
      PositionalSnoc(ds[..n], ds[n]);
    }
  }

  /** The text of a number evaluates to its digits' positional sum, if that is a C int. */
  lemma NumberText(negative: bool, ds: string)
    requires ds != [] && (forall i | 0 <= i < |ds| :: IsDigit(ds[i])) && |ds| + 1 < BUFFER_SIZE
    ensures var v := if negative then -Positional(ds) else Positional(ds);
      MyAtoi((if negative then "-" else "") + ds) == if IsInt(v) then Some(v) else None
  {
    hide MyAtoi, DigitsValue;
    var e := Num(negative, ds);
    DigitsPositional(ds);
    EvaluatesPrinted(e);
  }

  /** Parentheses, floor and ceil change nothing. */
  lemma GroupText(a: Expr, t: string)
    requires WellFormed(a) && t in {"", "floor", "ceil"} && |t + ("(" + Print(a, 0) + ")")| < BUFFER_SIZE
    ensures MyAtoi(t + ("(" + Print(a, 0) + ")")) == MyAtoi(Print(a, 0))
  {
    hide MyAtoi, Print;
    EvaluatesPrinted(a);
    var e := if t == "" then Group(a) else Call(if t == "floor" then Floor else Ceil, a);
    assert Print(e, 0) == t + ("(" + Print(a, 0) + ")") by { OuterText(e, a, t); }
    EvaluatesPrinted(e);
  }

  lemma OuterText(e: Expr, a: Expr, t: string)
    requires (e == Group(a) && t == "") || (e == Call(Floor, a) && t == "floor") || (e == Call(Ceil, a) && t == "ceil")
    ensures Print(e, 0) == t + ("(" + Print(a, 0) + ")")
  {
    hide Print, Bare;
    PrintParts(e);
    OperandParts(e);
    assert "" + ("(" + Print(a, 0) + ")") == "(" + Print(a, 0) + ")";
  }

  /** An operation whose operands may have no value. */
  ghost function Both(op: char, a: Option<int>, b: Option<int>): Option<int> {
    if a.Some? && b.Some? then Calc(op, a.value, b.value) else None
  }

  /** The text of an operation: an operand is put in parentheses if it binds too weakly. */
  ghost function OpText(a: Expr, op: char, b: Expr): string { Print(Bin(op, a, b), 0) }

  lemma OpTextParts(a: Expr, op: char, b: Expr)
    requires IsOp1(op) || IsOp2(op)
    ensures var k := if IsOp2(op) then 0 else 1;
      OpText(a, op, b) == Print(a, k) + [op] + Print(b, k + 1)
    ensures |Print(a, 0)| < |OpText(a, op, b)| && |Print(b, 0)| < |OpText(a, op, b)|
  {
    var e := Bin(op, a, b);
    var k := Strength(e);
    PlainIsShorter(a, k);
    PlainIsShorter(b, k + 1);
    PlainIsShorter(e, k);
    hide Print;
    PrintParts(e);
  }

  lemma PlainIsShorter(e: Expr, k: nat)
    ensures |Print(e, 0)| <= |Print(e, k)| && (k <= Strength(e) ==> Print(e, 0) == Print(e, k))
  {
  }

  lemma OpTextValue(a: Expr, op: char, b: Expr)
    requires WellFormed(a) && WellFormed(b) && (IsOp1(op) || IsOp2(op)) && |OpText(a, op, b)| < BUFFER_SIZE
    ensures MyAtoi(OpText(a, op, b)) == Both(op, MyAtoi(Print(a, 0)), MyAtoi(Print(b, 0)))
    ensures MyAtoi(Print(a, 0)).Some? ==> IsInt(MyAtoi(Print(a, 0)).value)
  {
    hide MyAtoi, Print;
    OpTextParts(a, op, b);
    EvaluatesPrinted(a);
    EvaluatesPrinted(b);
    EvaluatesPrinted(Bin(op, a, b));
    EvalIsInt(a);
  }

  /** Sums, differences and products of the operands' values, if they are C ints. */
  lemma RingText(a: Expr, op: char, b: Expr, x: int, y: int)
    requires WellFormed(a) && WellFormed(b) && op in {'+', '-', '*'} && |OpText(a, op, b)| < BUFFER_SIZE
    requires MyAtoi(Print(a, 0)) == Some(x) && MyAtoi(Print(b, 0)) == Some(y)
    ensures var v := if op == '+' then x + y else if op == '-' then x - y else x * y;
      MyAtoi(OpText(a, op, b)) == if IsInt(v) then Some(v) else None
  {
    hide MyAtoi, OpText;
    OpTextValue(a, op, b);
  }

  /** Only the smallest int divided by -1 is too large for an int. */
  lemma QuotientIsInt(a: int, b: int)
    requires IsInt(a) && b != 0
    ensures IsInt(TruncDiv(a, b)) <==> !(a == INT_MIN && b == -1)
  {
    var n: int, d: int := Abs(a), Abs(b);
    if d == 1 {
      assert n / d == n;
    } else {
      HalfAtMost(n, d);
    }
  }

  lemma HalfAtMost(n: nat, d: int)
    requires d >= 2
    ensures 0 <= 2 * (n / d) <= n
  {
    var q := n / d;
    assert n == d * q + n % d && q >= 0;
    assert (d - 2) * q >= 0;
  }

  /** Quotients and remainders as C has them: together they give the dividend back, and the remainder is shorter
      than the divisor and has the dividend's sign.  Nothing is divided by 0: the dividend is left.  The one
      quotient that is no int leaves both without a value. */
  lemma DivisionText(a: Expr, b: Expr, x: int, y: int)
    requires WellFormed(a) && WellFormed(b) && |OpText(a, '/', b)| < BUFFER_SIZE && |OpText(a, '%', b)| < BUFFER_SIZE
    requires MyAtoi(Print(a, 0)) == Some(x) && MyAtoi(Print(b, 0)) == Some(y)
    ensures var q, r := MyAtoi(OpText(a, '/', b)), MyAtoi(OpText(a, '%', b));
      if y == 0 then q == Some(x) && r == Some(x)
      else if x == INT_MIN && y == -1 then q == None && r == None
      else
        && q.Some? && r.Some? && x == q.value * y + r.value
        && Abs(r.value) < Abs(y) && (r.value == 0 || (r.value < 0 <==> x < 0))
  {
    hide MyAtoi, OpText, TruncDiv, TruncMod;
    OpTextValue(a, '/', b);
    OpTextValue(a, '%', b);
    if y != 0 {
      TruncatingDivision(x, y);
      QuotientIsInt(x, y);
    }
  }

  /** A plus sign counts as the start of a number but is not read as one: it stands for 0, unread. */
  lemma UnaryPlusIsZero(s: string, i: nat)
    requires i < |s| && s[i] == '+'
    ensures Gamma(s, i) == Some(Parsed(i, 0))
  {
    assert s[i..i] == [];
  }

  /** A minus sign with no digit behind it is a number of its own, and its value is 0. */
  lemma MinusAloneIsZero(s: string, i: nat)
    requires i < |s| && s[i] == '-' && !IsDigit(At(s, i + 1))
    ensures Gamma(s, i) == Some(Parsed(i + 1, 0))
  {
    assert NumEnd(s, i, 1) == i + 1;
    assert s[i..i + 1] == "-";
  }

  /** What is left of the left operand when the right one is read as 0. */
  ghost function OnZero(op: char, a: int): int {
    if op == '*' then 0 else a
  }

  ghost function OperandGone(op: char, a: Option<int>): Option<int> {
    if a.Some? then Some(OnZero(op, a.value)) else None
  }

  ghost function Done(j: nat, v: Option<int>): Option<Parsed> {
    if v.Some? then Some(Parsed(j, v.value)) else None
  }

  /** The rule for sums at j, with what it has read so far. */
  ghost function GoOn(s: string, j: nat, v: Option<int>): Option<Parsed>
    requires j <= |s|
  {
    if v.Some? then AlphaRest(s, j, v.value) else None
  }

  /** One more turn of the rule for sums. */
  lemma OneTurn(s: string, m: nat, v: Option<int>, j: nat, y: Option<int>)
    requires m < |s| && IsOp2(s[m]) && j <= |s| && Beta(s, m + 1) == Done(j, y)
    ensures GoOn(s, m, v) == GoOn(s, j, Both(s[m], v, y))
  {
    hide Beta, Calc, AlphaRest;
    if v.Some? { SumStep(s, m, v.value); }
  }

  /** The text q at i is a sign that no number follows: a plus sign, which is left unread, or a minus sign. */
  ghost predicate LoneSign(s: string, i: nat, q: string) {
    || (q == "" && At(s, i) == '+')
    || (q == "-" && At(s, i) == '-' && EndsProduct(s, i + 1))
  }

  lemma LoneSignIsZero(s: string, i: nat, q: string)
    requires LoneSign(s, i, q)
    ensures i + |q| <= |s| && Gamma(s, i) == Some(Parsed(i + |q|, 0)) && !IsOp1(At(s, i + |q|))
  {
    if q == "" { UnaryPlusIsZero(s, i); } else { MinusAloneIsZero(s, i); }
  }

  lemma CalcOnZero(op: char, a: int)
    requires (IsOp1(op) || IsOp2(op)) && IsInt(a)
    ensures Calc(op, a, 0) == Some(OnZero(op, a))
  {
  }

  lemma BetaEnds(s: string, j: nat, v: int)
    requires j <= |s| && !IsOp1(At(s, j))
    ensures BetaRest(s, j, v) == Some(Parsed(j, v))
  {
  }

  lemma AlphaEnds(s: string, j: nat, v: int)
    requires j <= |s| && !IsOp2(At(s, j))
    ensures AlphaRest(s, j, v) == Some(Parsed(j, v))
  {
  }

  ghost function LeftText(a: Expr, op: char): string {
    Print(a, if IsOp2(op) then 0 else 1) + [op]
  }

  /** Behind any operator, wherever it stands, the operator takes a lone sign for 0, and the rule for sums goes
      on behind that sign; a product ends there. */
  lemma SignBehind(s: string, i: nat, a: Expr, op: char, q: string)
    requires WellFormed(a) && (IsOp1(op) || IsOp2(op)) && StartsAt(s, i, LeftText(a, op))
    requires LoneSign(s, i + |LeftText(a, op)|, q)
    ensures var m := i + |LeftText(a, op)| + |q|;
      && m <= |s| && Alpha(s, i) == GoOn(s, m, OperandGone(op, Eval(a)))
      && (IsOp1(op) ==> Beta(s, i) == Done(m, OperandGone(op, Eval(a))))
  {
    hide Print, Eval, Beta, BetaRest, Alpha, AlphaRest, Gamma, Calc, OnZero, LoneSign, StartsAt;
    var x := Print(a, if IsOp2(op) then 0 else 1);
    SplitAt(s, i, x, [op]);
    CharAt(s, i + |x|, [op], 0);
    var n := i + |x|;
    LoneSignIsZero(s, n + 1, q);
    RulesStart(s, i);
    RulesStart(s, n + 1);
    EvalIsInt(a);
    if Eval(a).Some? {
      CalcOnZero(op, Eval(a).value);
      BetaEnds(s, n + 1 + |q|, OnZero(op, Eval(a).value));
    }
    BetaEnds(s, n + 1 + |q|, 0);
    if IsOp2(op) {
      SumPrefix(s, i, a);
      if Eval(a).Some? { SumStep(s, n, Eval(a).value); }
    } else {
      ProductPrefix(s, i, a);
      if Eval(a).Some? { ProductStep(s, n, Eval(a).value); }
    }
  }

  /** A sum or product whose right operand has signs in front: q and then p. */
  ghost function SignText(a: Expr, op: char, q: string, p: char, b: Expr): string {
    LeftText(a, op) + (q + ([p] + Print(b, 1)))
  }

  /** One plus sign, or a minus sign and another sign. */
  ghost predicate Signs(q: string, p: char) { (q == "" && p == '+') || (q == "-" && IsOp2(p)) }

  lemma SignsAreLone(s: string, n: nat, q: string, p: char)
    requires Signs(q, p) && n + |q| < |s| && s[n + |q|] == p && (q == "-" ==> s[n] == '-')
    ensures LoneSign(s, n, q) && IsOp2(p)
  {
  }

  lemma SignParts(s: string, i: nat, a: Expr, op: char, q: string, p: char, b: Expr)
    requires Signs(q, p) && StartsAt(s, i, SignText(a, op, q, p, b))
    ensures var n := i + |LeftText(a, op)|;
      var m := n + |q|;
      && StartsAt(s, i, LeftText(a, op)) && LoneSign(s, n, q)
      && m < |s| && s[m] == p && IsOp2(p) && StartsAt(s, m + 1, Print(b, 1)) && m + 1 + |Print(b, 1)| <= |s|
      && m + 1 + |Print(b, 1)| == i + |SignText(a, op, q, p, b)|
  {
    hide Print, LeftText, StartsAt, Signs, LoneSign;
    var n := i + |LeftText(a, op)|;
    SplitAt(s, i, LeftText(a, op), q + ([p] + Print(b, 1)));
    SplitAt(s, n, q, [p] + Print(b, 1));
    SplitAt(s, n + |q|, [p], Print(b, 1));
    CharAt(s, n + |q|, [p], 0);
    if q == "-" { CharAt(s, n, q, 0); }
    InText(s, n + |q| + 1, Print(b, 1));
    SignsAreLone(s, n, q, p);
  }

  /** The operator takes the 0 in front of the last sign, and that sign then adds or subtracts: for every
      operator, wherever it stands, a op +b is read as (a op 0) + b, and what follows is read behind it. */
  lemma SignMisread(s: string, i: nat, a: Expr, op: char, q: string, p: char, b: Expr)
    requires WellFormed(a) && WellFormed(b) && (IsOp1(op) || IsOp2(op)) && Signs(q, p)
    requires StartsAt(s, i, SignText(a, op, q, p, b)) && EndsProduct(s, i + |SignText(a, op, q, p, b)|)
    ensures var j := i + |SignText(a, op, q, p, b)|;
      j <= |s| && Alpha(s, i) == GoOn(s, j, Both(p, OperandGone(op, Eval(a)), Eval(b)))
  {
    hide Print, Eval, Beta, Alpha, LoneSign, StartsAt, LeftText, SignText, Signs;
    hide OperandGone, Both, GoOn, IsOp1, IsOp2, EndsProduct, WellFormed;
    SignParts(s, i, a, op, q, p, b);
    var m := i + |LeftText(a, op)| + |q|;
    SignBehind(s, i, a, op, q);
    ReadProduct(s, m + 1, b);
    OneTurn(s, m, OperandGone(op, Eval(a)), m + 1 + |Print(b, 1)|, Eval(b));
  }

  /** The same when the operator is that of a product inside a sum, of which v has been read. */
  lemma SignInSum(s: string, i: nat, v: int, a: Expr, op: char, q: string, p: char, b: Expr)
    requires WellFormed(a) && WellFormed(b) && IsOp1(op) && Signs(q, p) && i < |s| && IsOp2(s[i])
    requires StartsAt(s, i + 1, SignText(a, op, q, p, b)) && EndsProduct(s, i + 1 + |SignText(a, op, q, p, b)|)
    ensures var j := i + 1 + |SignText(a, op, q, p, b)|;
      && j <= |s|
      && AlphaRest(s, i, v) == GoOn(s, j, Both(p, Both(s[i], Some(v), OperandGone(op, Eval(a))), Eval(b)))
  {
    hide Print, Eval, Beta, Alpha, AlphaRest, LoneSign, StartsAt, LeftText, SignText, Signs;
    hide OperandGone, Both, IsOp1, IsOp2, EndsProduct, WellFormed;
    SignParts(s, i + 1, a, op, q, p, b);
    var m := i + 1 + |LeftText(a, op)| + |q|;
    SignBehind(s, i + 1, a, op, q);
    ReadProduct(s, m + 1, b);
    OneTurn(s, i, Some(v), m, OperandGone(op, Eval(a)));
    OneTurn(s, m, Both(s[i], Some(v), OperandGone(op, Eval(a))), m + 1 + |Print(b, 1)|, Eval(b));
  }

  /** The text with one plus sign. */
  ghost function PlusText(a: Expr, op: char, b: Expr): string { SignText(a, op, "", '+', b) }

  /** Reading the operation at i, up to something that ends a sum, gives its value. */
  ghost predicate PlusHarmless(s: string, i: nat, a: Expr, op: char, b: Expr)
    requires i <= |s|
  {
    Alpha(s, i) == Read(Bin(op, a, b), i + |PlusText(a, op, b)|)
  }

  /** With a plus sign in front of its right operand, an operation is evaluated as without it, wherever it
      stands, exactly if it is an addition. */
  lemma UnaryPlusExactly(op: char)
    requires IsOp1(op) || IsOp2(op)
    ensures (forall s, i: nat, a, b |
               && WellFormed(a) && WellFormed(b) && Eval(Bin(op, a, b)).Some?
               && i <= |s| && StartsAt(s, i, PlusText(a, op, b)) && EndsSum(s, i + |PlusText(a, op, b)|)
               && Alpha(s, i).Some? :: PlusHarmless(s, i, a, op, b))
        <==> op == '+'
  {
    hide Print, Alpha, AlphaRest, WellFormed, LeftText, StartsAt, SignText;
    if op == '+' {
      forall s, i: nat, a, b | WellFormed(a) && WellFormed(b) && i <= |s| && StartsAt(s, i, PlusText(a, op, b))
                          && EndsSum(s, i + |PlusText(a, op, b)|)
        ensures PlusHarmless(s, i, a, op, b)
      {
        SignMisread(s, i, a, op, "", '+', b);
        var v := Both('+', Eval(a), Eval(b));
        if v.Some? { AlphaEnds(s, i + |PlusText(a, op, b)|, v.value); }
      }
    } else {
      var two, one, i := Num(false, "2"), Num(false, "1"), 0;
      var s := PlusText(two, op, one);
      SmallNumbers();
      WholeText(s);
      SignMisread(s, i, two, op, "", '+', one);
      AlphaEnds(s, |s|, OnZero(op, 2) + 1);
      assert Calc(op, 2, 1).Some? && Calc(op, 2, 1).value != OnZero(op, 2) + 1;
      assert Eval(Bin(op, two, one)) == Calc(op, 2, 1);
      assert !PlusHarmless(s, i, two, op, one);
    }
  }

  lemma WholeText(s: string)
    ensures StartsAt(s, 0, s) && EndsSum(s, 0 + |s|)
  {
  }

  lemma SmallNumbers()
    ensures var two, one := Num(false, "2"), Num(false, "1");
      WellFormed(two) && WellFormed(one) && Eval(two) == Some(2) && Eval(one) == Some(1)
  {
    assert DigitsValue("2") == 2 && DigitsValue("1") == 1;
  }

  /** A plus sign in front of a whole expression, at the start of a text or behind a parenthesis, changes
      nothing. */
  lemma LeadingPlus(s: string, i: nat, e: Expr)
    requires WellFormed(e) && i < |s| && s[i] == '+' && StartsAt(s, i + 1, Print(e, 0))
    requires EndsSum(s, i + 1 + |Print(e, 0)|)
    ensures Alpha(s, i) == Read(e, i + 1 + |Print(e, 0)|)
  {
    hide Print, Eval, Beta, BetaRest, Gamma, Alpha;
    UnaryPlusIsZero(s, i);
    BetaEnds(s, i, 0);
    RulesStart(s, i);
    PlusPrefix(s, i, e);
  }

  /** Adding a sum to 0, operand by operand. */
  lemma {:induction false} PlusPrefix(s: string, i: nat, e: Expr)
    requires WellFormed(e) && i < |s| && s[i] == '+' && StartsAt(s, i + 1, Print(e, 0))
    requires EndsProduct(s, i + 1 + |Print(e, 0)|)
    ensures var j := i + 1 + |Print(e, 0)|;
      AlphaRest(s, i, 0) == if Eval(e).Some? then AlphaRest(s, j, Eval(e).value) else None
    decreases e
  {
    hide Alpha, AlphaRest, Beta, BetaRest, Gamma, Calc, DigitsValue, Print, StartsAt;
    PrintParts(e);
    if Strength(e) == 0 {
      var a, b := Print(e.left, 0), Print(e.right, 1);
      SplitAt(s, i + 1, a + [e.op], b);
      SplitAt(s, i + 1, a, [e.op]);
      CharAt(s, i + 1 + |a|, [e.op], 0);
      PlusPrefix(s, i, e.left);
      ReadProduct(s, i + 1 + |a| + 1, e.right);
      if Eval(e.left).Some? { SumStep(s, i + 1 + |a|, Eval(e.left).value); }
    } else {
      ReadProduct(s, i + 1, e);
      SumStep(s, i, 0);
      EvalIsInt(e);
      if Eval(e).Some? { ZeroPlus(Eval(e).value); }
    }
  }

  lemma ZeroPlus(v: int)
    requires IsInt(v)
    ensures Calc('+', 0, v) == Some(v)
  {
  }

  lemma OperandText(e: Expr)
    requires WellFormed(e)
    ensures var t := Print(e, 2);
      t != [] && if e.Num? then t == (if e.negative then "-" else "") + e.digits else t[0] in {'(', 'f', 'c'}
  {
  }

  /** A parenthesis or a call behind a minus sign: neither a digit nor an operator. */
  lemma LoneMinus(s: string, i: nat, e: Expr)
    requires WellFormed(e) && !e.Num? && StartsAt(s, i, "-" + Print(e, 2))
    ensures LoneSign(s, i, "-") && i + 1 < |s| && EndsSum(s, i + 1)
  {
    hide Print;
    OperandText(e);
    CharAt(s, i, "-" + Print(e, 2), 0);
    CharAt(s, i, "-" + Print(e, 2), 1);
  }

  /** So a minus sign in front of a parenthesis or a call ends the reading there: at the start, with 0. */
  lemma MinusStops(s: string, i: nat, e: Expr)
    requires WellFormed(e) && !e.Num? && StartsAt(s, i, "-" + Print(e, 2))
    ensures Alpha(s, i) == Some(Parsed(i + 1, 0)) && i + 1 < |s|
  {
    hide Print, Alpha, Beta, Gamma, AlphaRest, BetaRest, LoneSign;
    LoneMinus(s, i, e);
    LoneSignIsZero(s, i, "-");
    RulesStart(s, i);
    BetaEnds(s, i + 1, 0);
    AlphaEnds(s, i + 1, 0);
  }

  /** Behind an operator it ends the reading there too, wherever that stands, with what the operator makes of
      0. */
  lemma MinusStopsBehind(s: string, i: nat, a: Expr, op: char, e: Expr)
    requires WellFormed(a) && (IsOp1(op) || IsOp2(op)) && WellFormed(e) && !e.Num?
    requires StartsAt(s, i, LeftText(a, op) + ("-" + Print(e, 2)))
    ensures var m := i + |LeftText(a, op)| + 1;
      m < |s| && Alpha(s, i) == Done(m, OperandGone(op, Eval(a)))
  {
    hide Print, Eval, Alpha, Beta, AlphaRest, BetaRest, OnZero, LoneSign, StartsAt, LeftText;
    SplitAt(s, i, LeftText(a, op), "-" + Print(e, 2));
    LoneMinus(s, i + |LeftText(a, op)|, e);
    SignBehind(s, i, a, op, "-");
    var v := OperandGone(op, Eval(a));
    if v.Some? { AlphaEnds(s, i + |LeftText(a, op)| + 1, v.value); }
  }

  /** And so it does in a product inside a sum, of which v has been read. */
  lemma MinusStopsInSum(s: string, i: nat, v: int, a: Expr, op: char, e: Expr)
    requires WellFormed(a) && IsOp1(op) && WellFormed(e) && !e.Num? && i < |s| && IsOp2(s[i])
    requires StartsAt(s, i + 1, LeftText(a, op) + ("-" + Print(e, 2)))
    ensures var m := i + 1 + |LeftText(a, op)| + 1;
      m < |s| && AlphaRest(s, i, v) == Done(m, Both(s[i], Some(v), OperandGone(op, Eval(a))))
  {
    hide Print, Eval, Alpha, Beta, AlphaRest, BetaRest, OnZero, LoneSign, StartsAt, LeftText, Calc;
    var n := i + 1 + |LeftText(a, op)|;
    SplitAt(s, i + 1, LeftText(a, op), "-" + Print(e, 2));
    LoneMinus(s, n, e);
    SignBehind(s, i + 1, a, op, "-");
    OneTurn(s, i, Some(v), n + 1, OperandGone(op, Eval(a)));
    var w := Both(s[i], Some(v), OperandGone(op, Eval(a)));
    if w.Some? { AlphaEnds(s, n + 1, w.value); }
  }

  /** A minus sign in front of an operand gives its negation, read to the end, exactly if the operand is a
      number without a sign of its own, or a number that is 0. */
  lemma UnaryMinusExactly(s: string, i: nat, e: Expr)
    requires WellFormed(e) && Eval(e).Some? && IsInt(-Eval(e).value)
    requires StartsAt(s, i, "-" + Print(e, 2)) && EndsSum(s, i + 1 + |Print(e, 2)|)
    ensures Alpha(s, i) == Some(Parsed(i + 1 + |Print(e, 2)|, -Eval(e).value))
       <==> e.Num? && (!e.negative || Eval(e).value == 0)
  {
    hide Alpha, Eval, StartsAt;
    if !e.Num? {
      MinusStops(s, i, e);
      OperandText(e);
    } else {
      MinusNumber(s, i, e);
    }
  }

  /** The digits behind one or two minus signs are read negated: the second sign, when there are two, subtracts
      them from the 0 that the first one stands for. */
  lemma MinusNumber(s: string, i: nat, e: Expr)
    requires e.Num? && WellFormed(e) && Eval(e).Some? && IsInt(-Eval(e).value)
    requires StartsAt(s, i, "-" + Print(e, 2)) && EndsSum(s, i + 1 + |Print(e, 2)|)
    ensures Alpha(s, i)
         == Some(Parsed(i + 1 + |Print(e, 2)|, if e.negative then Eval(e).value else -Eval(e).value))
  {
    hide Alpha, Beta, Gamma, AlphaRest, BetaRest, DigitsValue, Print, StartsAt;
    OperandText(e);
    var n := Num(!e.negative, e.digits);
    OperandText(n);
    SameText(n);
    assert Eval(n) == Some(-Eval(e).value);
    var j := i + 1 + |Print(e, 2)|;
    if e.negative {
      assert "-" + Print(e, 2) == "-" + ("-" + e.digits);
      SplitAt(s, i, "-", "-" + e.digits);
      SplitAt(s, i + 1, "-", e.digits);
      CharAt(s, i, "-", 0);
      CharAt(s, i + 1, "-", 0);
      MinusAloneIsZero(s, i);
      RulesStart(s, i);
      BetaEnds(s, i + 1, 0);
      ReadProduct(s, i + 2, n);
      SumStep(s, i + 1, 0);
      AlphaEnds(s, j, Eval(e).value);
    } else {
      assert "-" + ("" + e.digits) == "-" + e.digits;
      ReadSum(s, i, n);
    }
  }

  lemma SameText(e: Expr)
    requires e.Num?
    ensures Print(e, 0) == Print(e, 2) && Print(e, 1) == Print(e, 2)
  {
  }

  /** Values of trees are C ints. */
  lemma {:induction false} EvalIsInt(e: Expr)
    ensures Eval(e).Some? ==> IsInt(Eval(e).value)
    decreases e
  {
    match e
    case Num(_, _) =>
    case Bin(op, l, r) =>
      EvalIsInt(l);
      EvalIsInt(r);
      if Eval(e).Some? && op == '%' && Eval(r).value != 0 {
        TruncatingDivision(Eval(l).value, Eval(r).value);
      }
    case Group(x) => EvalIsInt(x);
    case Call(_, x) => EvalIsInt(x);
  }
}
