/** Parsing the printed script gives back what was printed. */
module ScriptRoundTrip {
  import opened Basics
  import opened Script

  // ---------- what can be printed and read back ----------

  /** A run of characters that the tokenizer keeps together. */
  ghost predicate Plain(w: string) {
    forall i | 0 <= i < |w| :: !IsBlank(w[i]) && !IsMark(w[i])
  }

  ghost predicate IsName(w: string) {
    w != [] && Plain(w) && w != "public"
  }

  /** A name, and perhaps a tag, that the tokenizer gives back whole. */
  ghost predicate Declares(sym: Symbol) {
    sym.name.Some? && IsName(sym.name.value) && (sym.tag.Some? ==> IsName(sym.tag.value))
  }

  /** How far the braces of b open more often than they close. */
  ghost function Nesting(b: string): int {
    if b == [] then 0 else Nesting(b[1..]) + if b[0] == '{' then 1 else if b[0] == '}' then -1 else 0
  }

  /** No brace closes before it is opened, and all are closed in the end. */
  ghost predicate Balanced(b: string) {
    Nesting(b) == 0 && forall k | 0 <= k <= |b| :: Nesting(b[..k]) >= 0
  }

  ghost predicate Printable(f: Symbol) {
    Declares(f) && (forall a | a in f.args :: Declares(a)) && Balanced(Text(f.body))
  }

  // ---------- what is read back ----------

  /** A public variable. */
  ghost function ReadVar(v: Symbol): Symbol { Symbol(v.name, v.tag, [], None, true) }

  ghost function ReadVars(vars: seq<Symbol>): seq<Symbol> {
    if vars == [] then [] else (if vars[0].isPublic then [ReadVar(vars[0])] else []) + ReadVars(vars[1..])
  }

  ghost function ReadArg(a: Symbol): Symbol { Symbol(a.name, a.tag, [], None, false) }

  ghost function ReadArgs(args: seq<Symbol>): seq<Symbol> {
    if args == [] then [] else [ReadArg(args[0])] + ReadArgs(args[1..])
  }

  /** The same visibility, tag, name and tagged arguments, and the body without white space at its end. */
  ghost function ReadFunc(f: Symbol): Symbol {
    Symbol(f.name, f.tag, ReadArgs(f.args), Some(RTrim(Text(f.body))), f.isPublic)
  }

  ghost function ReadFuncs(funcs: seq<Symbol>): seq<Symbol> {
    if funcs == [] then [] else [ReadFunc(funcs[0])] + ReadFuncs(funcs[1..])
  }

  // ---------- single tokens ----------

  lemma {:induction false} TakePlain(w: string, more: string)
    requires Plain(w) && (more != [] ==> IsBlank(more[0]) || IsMark(more[0]))
    ensures TakeWord(w + more) == w
    decreases |w|
  {
    if w == [] {
      assert w + more == more;
    } else {
      assert (w + more)[1..] == w[1..] + more;
      TakePlain(w[1..], more);
      assert [w[0]] + w[1..] == w;
    }
  }

  lemma WordIsToken(w: string, more: string)
    requires Plain(w) && w != [] && (more != [] ==> IsBlank(more[0]) || IsMark(more[0]))
    ensures NextToken(w + more) == Some((WordToken(w), SkipBlanks(more)))
  {
    TakePlain(w, more);
    assert !IsBlank(w[0]) && !IsMark(w[0]);
    assert SkipBlanks(w + more) == w + more;
    assert (w + more)[|w|..] == more;
  }

  /** Blanks in front do not matter to the parser. */
  lemma ParseSkips(r: string, st: State)
    ensures Parse(SkipBlanks(r), st) == Parse(r, st)
  {
    var s := SkipBlanks(r);
    assert SkipBlanks(s) == s;
    if r == [] {
    } else if s == [] {
      ParseStep(r, st);
      ParseEnd(st);
    } else {
      assert NextToken(s) == NextToken(r);
    }
  }

  lemma ParseBlank(c: char, more: string, st: State)
    requires IsBlank(c)
    ensures Parse([c] + more, st) == Parse(more, st)
  {
    hide Parse;
    assert ([c] + more)[1..] == more;
    assert SkipBlanks([c] + more) == SkipBlanks(more);
    ParseSkips([c] + more, st);
    ParseSkips(more, st);
  }

  lemma ParseMark(c: char, more: string, st: State)
    requires c in {':', ';', ',', '(', ')'}
    ensures Parse([c] + more, st) == Parse(more, OnToken(st, Mark(c)))
  {
    hide Parse, OnToken;
    assert ([c] + more)[1..] == more;
    ParseStep([c] + more, st);
  }

  /** What may stand behind a word. */
  ghost predicate EndsWord(rest: string) { rest != [] && (IsBlank(rest[0]) || IsMark(rest[0])) }

  lemma ParseName(w: string, rest: string, st: State)
    requires IsName(w) && EndsWord(rest)
    ensures Parse(w + rest, st) == Parse(rest, st.(nameStack := st.nameStack + [w]))
  {
    hide Parse;
    WordIsToken(w, rest);
    ParseStep(w + rest, st);
    ParseSkips(rest, st.(nameStack := st.nameStack + [w]));
  }

  lemma ParsePublic(more: string, st: State)
    ensures Parse("public " + more, st) == Parse(more, st.(isPublic := true))
  {
    hide Parse;
    var w := "public";
    WordIsToken(w, " " + more);
    assert "public " + more == w + (" " + more);
    ParseStep(w + (" " + more), st);
    assert (" " + more)[1..] == more;
    ParseSkips(more, st.(isPublic := true));
  }

  // ---------- declarations ----------

  /** The parser between a declaration and the mark behind it. */
  ghost function Pending(st: State, sym: Symbol): State
    requires sym.name.Some?
  {
    st.(nameStack := st.nameStack + [sym.name.value],
        sym := if sym.tag.Some? then Some(NEW_SYMBOL.(tag := sym.tag)) else None)
  }

  lemma ParseDecl(sym: Symbol, rest: string, st: State)
    requires Declares(sym) && EndsWord(rest) && st.sym.None?
    ensures Parse(Decl(sym) + rest, st) == Parse(rest, Pending(st, sym))
  {
    hide Parse;
    var name := sym.name.value;
    if sym.tag.Some? {
      var tag := sym.tag.value;
      assert Decl(sym) + rest == tag + ([':'] + (name + rest));
      ParseName(tag, [':'] + (name + rest), st);
      var st1 := st.(nameStack := st.nameStack + [tag]);
      ParseMark(':', name + rest, st1);
      var st2 := OnToken(st1, Mark(':'));
      assert st2 == st.(sym := Some(NEW_SYMBOL.(tag := sym.tag)));
      ParseName(name, rest, st2);
    } else {
      assert Decl(sym) + rest == name + rest;
      ParseName(name, rest, st);
    }
  }

  /** Between statements: nothing on the stack, no symbol begun. */
  ghost predicate Clean(st: State) {
    st.nameStack == [] && st.sym.None?
  }

  lemma {:induction false} ParseVarsTail(vars: seq<Symbol>, v: Symbol, more: string, st: State)
    requires Clean(st) && !st.isArgs && st.isPublic && Declares(v) && forall x | x in vars :: x.isPublic ==> Declares(x)
    ensures Parse(VarsFrom(vars, true) + more, Pending(st, v))
         == Parse(more, st.(vars := st.vars + [ReadVar(v)] + ReadVars(vars), isPublic := false))
    decreases |vars|
  {
    hide Parse, Decl, IsName;
    if vars == [] {
      assert VarsFrom(vars, true) + more == [';'] + (['\n'] + more);
      ParseMark(';', ['\n'] + more, Pending(st, v));
      var done := st.(vars := st.vars + [ReadVar(v)], isPublic := false);
      assert OnToken(Pending(st, v), Mark(';')) == done;
      ParseBlank('\n', more, done);
      assert st.vars + [ReadVar(v)] + ReadVars(vars) == done.vars;
    } else if vars[0].isPublic {
      VarsTailStep(vars, v, more, st);
      var st' := st.(vars := st.vars + [ReadVar(v)]);
      ParseVarsTail(vars[1..], vars[0], more, st');
      assert st'.vars + [ReadVar(vars[0])] + ReadVars(vars[1..]) == st.vars + [ReadVar(v)] + ReadVars(vars);
    } else {
      ParseVarsTail(vars[1..], v, more, st);
      assert ReadVars(vars) == ReadVars(vars[1..]);
    }
  }

  /** The comma, and the declaration behind it. */
  lemma VarsTailStep(vars: seq<Symbol>, v: Symbol, more: string, st: State)
    requires Clean(st) && !st.isArgs && st.isPublic && Declares(v) && vars != [] && vars[0].isPublic
             && Declares(vars[0])
    ensures Parse(VarsFrom(vars, true) + more, Pending(st, v))
         == Parse(VarsFrom(vars[1..], true) + more, Pending(st.(vars := st.vars + [ReadVar(v)]), vars[0]))
  {
    hide Parse, Decl, IsName;
    var x, tail := vars[0], VarsFrom(vars[1..], true);
    assert VarsFrom(vars, true) + more == [','] + ([' '] + (Decl(x) + (tail + more)));
    ParseMark(',', [' '] + (Decl(x) + (tail + more)), Pending(st, v));
    var st' := st.(vars := st.vars + [ReadVar(v)]);
    assert OnToken(Pending(st, v), Mark(',')) == st';
    ParseBlank(' ', Decl(x) + (tail + more), st');
    VarsTailMark(vars[1..]);
    ParseDecl(x, tail + more, st');
  }

  lemma {:induction false} VarsTailMark(vars: seq<Symbol>)
    ensures var t := VarsFrom(vars, true); t != [] && IsMark(t[0])
    decreases |vars|
  {
    if vars != [] && !vars[0].isPublic { VarsTailMark(vars[1..]); }
  }

  /** The printed variables are read back in order. */
  lemma {:induction false} ParseVars(vars: seq<Symbol>, more: string, st: State)
    requires Clean(st) && !st.isArgs && !st.isPublic && forall x | x in vars :: x.isPublic ==> Declares(x)
    ensures Parse(VarsFrom(vars, false) + more, st) == Parse(more, st.(vars := st.vars + ReadVars(vars)))
    decreases |vars|
  {
    hide Parse, Decl, IsName;
    if vars == [] {
      assert VarsFrom(vars, false) + more == more && st.vars + [] == st.vars;
    } else if vars[0].isPublic {
      var x, tail := vars[0], VarsFrom(vars[1..], true);
      assert VarsFrom(vars, false) + more == "public " + (Decl(x) + (tail + more));
      ParsePublic(Decl(x) + (tail + more), st);
      var st' := st.(isPublic := true);
      VarsTailMark(vars[1..]);
        ParseDecl(x, tail + more, st');
      ParseVarsTail(vars[1..], x, more, st');
      assert st.vars + [ReadVar(x)] + ReadVars(vars[1..]) == st.vars + ReadVars(vars);
    } else {
      ParseVars(vars[1..], more, st);
      assert ReadVars(vars) == ReadVars(vars[1..]);
    }
  }

  // ---------- initializers ----------

  ghost predicate Blank(w: string) { forall i | 0 <= i < |w| :: IsBlank(w[i]) }

  /** An initializer's text, of whatever else it consists. */
  ghost predicate NoEnd(w: string) { ',' !in w && ';' !in w }

  lemma {:induction false} SkipBlanksIn(w: string, rest: string)
    requires rest != [] && !IsBlank(rest[0])
    ensures SkipBlanks(w + rest) == SkipBlanks(w) + rest
    decreases |w|
  {
    if w == [] {
      assert w + rest == rest;
    } else {
      assert (w + rest)[1..] == w[1..] + rest;
      SkipBlanksIn(w[1..], rest);
    }
  }

  lemma {:induction false} TakeWordIn(w: string, rest: string)
    requires rest != [] && IsMark(rest[0])
    ensures TakeWord(w + rest) == TakeWord(w)
    decreases |w|
  {
    if w == [] {
      assert w + rest == rest;
    } else {
      assert (w + rest)[1..] == w[1..] + rest;
      TakeWordIn(w[1..], rest);
    }
  }

  lemma {:induction false} SkipBlanksParts(w: string)
    ensures forall c :: c in SkipBlanks(w) ==> c in w
    decreases |w|
  {
    if w != [] { SkipBlanksParts(w[1..]); }
  }

  lemma TailParts(w: string, k: nat)
    requires k <= |w|
    ensures NoEnd(w) ==> NoEnd(w[k..])
  {
  }

  /** One token of an initializer: what is left is shorter and holds no comma and no semicolon either. */
  lemma InitializerToken(w: string, rest: string) returns (v: string)
    requires NoEnd(w) && SkipBlanks(w) != [] && rest != [] && IsMark(rest[0]) && !IsBlank(rest[0])
    ensures |v| < |w| && NoEnd(v)
    ensures var t := NextToken(w + rest);
      t.Some? && t.value.0 != Mark(',') && t.value.0 != Mark(';') && t.value.1 == v + rest
  {
    var s := SkipBlanks(w);
    SkipBlanksIn(w, rest);
    SkipBlanksParts(w);
    assert s[0] in w && NoEnd(s) && (s + rest)[0] == s[0];
    if IsMark(s[0]) {
      v := s[1..];
      assert (s + rest)[1..] == v + rest;
      TailParts(s, 1);
    } else {
      TakeWordIn(s, rest);
      var k := |TakeWord(s)|;
      assert k > 0 && (s + rest)[k..] == s[k..] + rest;
      v := SkipBlanks(s[k..]);
      TailParts(s, k);
      SkipBlanksParts(s[k..]);
      SkipBlanksIn(s[k..], rest);
    }
  }

  /** The tokens of an initializer are skipped up to its comma or semicolon. */
  lemma {:induction false} InitializerEnds(w: string, c: char, more: string)
    requires NoEnd(w) && c in {',', ';'}
    ensures SkipValue(w + ([c] + more)) == (Some(Mark(c)), more)
    decreases |w|
  {
    hide NextToken, NoEnd;
    var rest := [c] + more;
    if SkipBlanks(w) == [] {
      SkipBlanksIn(w, rest);
      assert NextToken(w + rest) == Some((Mark(c), more)) by { MarkNext(w + rest, c, more); }
    } else {
      var v := InitializerToken(w, rest);
      InitializerEnds(v, c, more);
    }
  }

  lemma MarkNext(r: string, c: char, more: string)
    requires IsMark(c) && SkipBlanks(r) == [] + ([c] + more)
    ensures NextToken(r) == Some((Mark(c), more))
  {
    assert SkipBlanks(r) == [c] + more && ([c] + more)[1..] == more;
  }

  /** An equal mark and a value, whatever stands in it, are as if they were not there. */
  lemma ParseInitializer(w: string, c: char, more: string, st: State)
    requires NoEnd(w) && c in {',', ';'}
    ensures Parse(['='] + (w + ([c] + more)), st) == Parse([c] + more, st)
  {
    hide Parse, OnToken, SkipValue;
    var r := w + ([c] + more);
    MarkNext(['='] + r, '=', r);
    ParseStep(['='] + r, st);
    InitializerEnds(w, c, more);
    ParseMark(c, more, st);
  }

  lemma {:induction false} ParseGap(w: string, more: string, st: State)
    requires Blank(w)
    ensures Parse(w + more, st) == Parse(more, st)
    decreases |w|
  {
    hide Parse;
    if w == [] {
      assert w + more == more;
    } else {
      assert w + more == [w[0]] + (w[1..] + more);
      ParseBlank(w[0], w[1..] + more, st);
      ParseGap(w[1..], more, st);
    }
  }

  /** A declaration and perhaps an initializer, with blanks in front of the equal mark or the mark at the end,
      and behind that mark. */
  datatype Declarator = Declarator(sym: Symbol, gap: string, value: Option<string>, space: string)

  ghost predicate Proper(d: Declarator) {
    Declares(d.sym) && Blank(d.gap) && Blank(d.space) && (d.value.Some? ==> NoEnd(d.value.value))
  }

  ghost function InitText(d: Declarator): string {
    if d.value.Some? then ['='] + d.value.value else []
  }

  /** The variable that a declaration introduces. */
  ghost function Variable(sym: Symbol, isPublic: bool): Symbol { Symbol(sym.name, sym.tag, [], None, isPublic) }

  /** With an initializer or without, the declaration is read the same. */
  lemma InitializerSkipped(d: Declarator, c: char, more: string, st: State)
    requires Proper(d) && c in {',', ';'} && st.sym.None?
    ensures Parse(Decl(d.sym) + (d.gap + (InitText(d) + ([c] + more))), st) == Parse(Decl(d.sym) + ([c] + more), st)
  {
    hide Parse, Decl, Declares, NoEnd, Blank;
    var rest := InitText(d) + ([c] + more);
    assert EndsWord(d.gap + rest) by { GapEndsWord(d.gap, rest); }
    ParseDecl(d.sym, d.gap + rest, st);
    ParseDecl(d.sym, [c] + more, st);
    ParseGap(d.gap, rest, NamedThen(d.sym, st));
    if d.value.Some? {
      assert rest == ['='] + (d.value.value + ([c] + more));
      ParseInitializer(d.value.value, c, more, NamedThen(d.sym, st));
    } else {
      assert rest == [c] + more;
    }
  }

  ghost function NamedThen(sym: Symbol, st: State): State
    requires Declares(sym)
  {
    Pending(st, sym)
  }

  lemma GapEndsWord(gap: string, rest: string)
    requires Blank(gap) && rest != [] && IsMark(rest[0])
    ensures EndsWord(gap + rest)
  {
    if gap == [] { assert gap + rest == rest; }
  }

  /** The declarations of one statement: commas between them, a semicolon behind the last. */
  ghost function DeclaratorsText(ds: seq<Declarator>): string {
    if ds == [] then []
    else
      var d := ds[0];
      Decl(d.sym) + (d.gap + (InitText(d) + ([if |ds| == 1 then ';' else ','] + (d.space + DeclaratorsText(ds[1..])))))
  }

  ghost function Variables(ds: seq<Declarator>, isPublic: bool): seq<Symbol> {
    if ds == [] then [] else [Variable(ds[0].sym, isPublic)] + Variables(ds[1..], isPublic)
  }

  lemma ParseDeclarator(d: Declarator, c: char, more: string, st: State)
    requires Proper(d) && c in {',', ';'} && Clean(st) && !st.isArgs
    ensures Parse(Decl(d.sym) + (d.gap + (InitText(d) + ([c] + (d.space + more)))), st)
         == Parse(more, st.(vars := st.vars + [Variable(d.sym, st.isPublic)],
                            isPublic := if c == ';' then false else st.isPublic))
  {
    hide Parse, Decl, IsName, Blank, NoEnd;
    InitializerSkipped(d, c, d.space + more, st);
    ParseDecl(d.sym, [c] + (d.space + more), st);
    ParseMark(c, d.space + more, Pending(st, d.sym));
    ParseGap(d.space, more, OnToken(Pending(st, d.sym), Mark(c)));
  }

  lemma {:induction false} ParseDeclarators(ds: seq<Declarator>, more: string, st: State)
    requires ds != [] && (forall d | d in ds :: Proper(d)) && Clean(st) && !st.isArgs
    ensures Parse(DeclaratorsText(ds) + more, st)
         == Parse(more, st.(vars := st.vars + Variables(ds, st.isPublic), isPublic := false))
    decreases |ds|
  {
    hide Parse, Decl, Proper, InitText;
    var d, c, rest := ds[0], if |ds| == 1 then ';' else ',', DeclaratorsText(ds[1..]);
    assert DeclaratorsText(ds) + more
        == Decl(d.sym) + (d.gap + (InitText(d) + ([c] + (d.space + (rest + more)))));
    ParseDeclarator(d, c, rest + more, st);
    if |ds| == 1 {
      assert ds[1..] == [] && rest + more == more;
      assert Variables(ds, st.isPublic) == [Variable(d.sym, st.isPublic)];
    } else {
      var st' := st.(vars := st.vars + [Variable(d.sym, st.isPublic)]);
      ParseDeclarators(ds[1..], more, st');
      Assoc(st.vars, [Variable(d.sym, st.isPublic)], Variables(ds[1..], st.isPublic));
    }
  }

  datatype Statement = Statement(isPublic: bool, ds: seq<Declarator>)

  ghost function StatementsText(ss: seq<Statement>): string {
    if ss == [] then []
    else (if ss[0].isPublic then "public " else "") + (DeclaratorsText(ss[0].ds) + StatementsText(ss[1..]))
  }

  ghost function AllVariables(ss: seq<Statement>): seq<Symbol> {
    if ss == [] then [] else Variables(ss[0].ds, ss[0].isPublic) + AllVariables(ss[1..])
  }

  lemma ParseVisibility(isPublic: bool, more: string, st: State)
    requires !st.isPublic
    ensures Parse((if isPublic then "public " else "") + more, st) == Parse(more, st.(isPublic := isPublic))
  {
    hide Parse;
    if isPublic { ParsePublic(more, st); } else { assert "" + more == more; }
  }

  /** A list of statements, public and private, with declarations that are initialized or not, declares just
      these variables, in order and with their statement's visibility. */
  lemma {:induction false} ParseStatements(ss: seq<Statement>, more: string, st: State)
    requires (forall s | s in ss :: s.ds != [] && forall d | d in s.ds :: Proper(d))
    requires Clean(st) && !st.isArgs && !st.isPublic
    ensures Parse(StatementsText(ss) + more, st) == Parse(more, st.(vars := st.vars + AllVariables(ss)))
    decreases |ss|
  {
    hide Parse, Proper, DeclaratorsText, Variables;
    if ss == [] {
      assert StatementsText(ss) + more == more && st.vars + [] == st.vars;
    } else {
      var s, rest := ss[0], StatementsText(ss[1..]);
      var text := DeclaratorsText(s.ds) + (rest + more);
      assert StatementsText(ss) + more == (if s.isPublic then "public " else "") + text;
      ParseVisibility(s.isPublic, text, st);
      ParseDeclarators(s.ds, rest + more, st.(isPublic := s.isPublic));
      ParseStatements(ss[1..], more, st.(vars := st.vars + Variables(s.ds, s.isPublic)));
      Assoc(st.vars, Variables(s.ds, s.isPublic), AllVariables(ss[1..]));
    }
  }

  lemma StatementsRead(ss: seq<Statement>)
    requires forall s | s in ss :: s.ds != [] && forall d | d in s.ds :: Proper(d)
    ensures var r := Parse(StatementsText(ss), START);
      r.Some? && r.value.vars == AllVariables(ss) && r.value.funcs == []
  {
    hide Parse, Proper, StatementsText, AllVariables;
    ParseStatements(ss, [], START);
    assert StatementsText(ss) + [] == StatementsText(ss) && START.vars + AllVariables(ss) == AllVariables(ss);
    ParseEnd(START.(vars := AllVariables(ss)));
  }

  // ---------- arguments ----------

  /** The parser behind the closing parenthesis of a function with these arguments. */
  ghost function Closed(st: State, args: seq<Symbol>): State {
    var f := st.func.(args := st.func.args + args);
    st.(isArgs := false, func := f, sym := Some(f))
  }

  lemma {:induction false} ParseArgsTail(args: seq<Symbol>, a: Symbol, more: string, st: State)
    requires Clean(st) && st.isArgs && Declares(a) && forall x | x in args :: Declares(x)
    ensures Parse(Decls(args, true) + ([')'] + more), Pending(st, a))
         == Parse(more, Closed(st, [ReadArg(a)] + ReadArgs(args)))
    decreases |args|
  {
    hide Parse, Decl, IsName;
    if args == [] {
      assert Decls(args, true) + ([')'] + more) == [')'] + more;
      ParseMark(')', more, Pending(st, a));
      assert [ReadArg(a)] + ReadArgs(args) == [ReadArg(a)];
    } else {
      ArgsTailStep(args, a, more, st);
      var st' := st.(func := st.func.(args := st.func.args + [ReadArg(a)]));
      ParseArgsTail(args[1..], args[0], more, st');
      assert st'.func.args + ([ReadArg(args[0])] + ReadArgs(args[1..]))
          == st.func.args + ([ReadArg(a)] + ReadArgs(args));
    }
  }

  lemma ArgsTailStep(args: seq<Symbol>, a: Symbol, more: string, st: State)
    requires Clean(st) && st.isArgs && Declares(a) && args != [] && Declares(args[0])
    ensures Parse(Decls(args, true) + ([')'] + more), Pending(st, a))
         == Parse(Decls(args[1..], true) + ([')'] + more),
                  Pending(st.(func := st.func.(args := st.func.args + [ReadArg(a)])), args[0]))
  {
    hide Parse, Decl, IsName;
    var x, tail := args[0], Decls(args[1..], true) + ([')'] + more);
    assert Decls(args, true) + ([')'] + more) == [','] + ([' '] + (Decl(x) + tail));
    ParseMark(',', [' '] + (Decl(x) + tail), Pending(st, a));
    var st' := st.(func := st.func.(args := st.func.args + [ReadArg(a)]));
    assert OnToken(Pending(st, a), Mark(',')) == st';
    ParseBlank(' ', Decl(x) + tail, st');
    ArgsTailMark(args[1..], more);
    ParseDecl(x, tail, st');
  }

  lemma ArgsTailMark(args: seq<Symbol>, more: string)
    ensures var t := Decls(args, true) + ([')'] + more); t != [] && IsMark(t[0])
  {
  }

  lemma ParseArgs(args: seq<Symbol>, more: string, st: State)
    requires Clean(st) && st.isArgs && forall x | x in args :: Declares(x)
    ensures Parse(Decls(args, false) + ([')'] + more), st) == Parse(more, Closed(st, ReadArgs(args)))
  {
    hide Parse, Decl, IsName;
    if args == [] {
      assert Decls(args, false) + ([')'] + more) == [')'] + more;
      ParseMark(')', more, st);
      assert st.func.args + [] == st.func.args;
    } else {
      var x, tail := args[0], Decls(args[1..], true) + ([')'] + more);
      assert Decls(args, false) + ([')'] + more) == Decl(x) + tail;
      ArgsTailMark(args[1..], more);
        ParseDecl(x, tail, st);
      ParseArgsTail(args[1..], x, more, st);
    }
  }

  // ---------- forward declarations ----------

  /** A function's header that a semicolon ends instead of a body leaves its symbol begun. */
  lemma ForwardDeclaration(f: Symbol, more: string, st: State)
    requires Clean(st) && !st.isArgs && !st.isPublic && Declares(f) && forall a | a in f.args :: Declares(a)
    ensures var g := Symbol(f.name, f.tag, ReadArgs(f.args), None, false);
      Parse(Header(f) + (Decls(f.args, false) + ([')'] + ([';'] + more))), st)
        == Parse(more, st.(func := g, sym := Some(g)))
  {
    hide Parse, Declares, Header, Decls;
    var tail := Decls(f.args, false) + ([')'] + ([';'] + more));
    ParseHeader(f, tail, st);
    var st1 := st.(isArgs := true, isPublic := f.isPublic, func := Symbol(f.name, f.tag, [], None, false));
    ParseArgs(f.args, [';'] + more, st1);
    assert [] + ReadArgs(f.args) == ReadArgs(f.args);
    ParseMark(';', more, Closed(st1, ReadArgs(f.args)));
  }

  /** So the variable declared next takes over that symbol: it gets the function's tag and arguments. */
  lemma ForwardDeclarationSticks(f: Symbol, v: string, st: State)
    requires Clean(st) && !st.isArgs && !st.isPublic && Declares(f) && (forall a | a in f.args :: Declares(a))
    requires IsName(v)
    ensures var r := Parse(Header(f) + (Decls(f.args, false) + ([')'] + ([';'] + (v + ";")))), st);
      r.Some? && r.value.vars == st.vars + [Symbol(Some(v), f.tag, ReadArgs(f.args), None, false)]
  {
    hide Parse, Declares, Header, Decls, IsName;
    ForwardDeclaration(f, v + ";", st);
    var g := Symbol(f.name, f.tag, ReadArgs(f.args), None, false);
    var st1 := st.(func := g, sym := Some(g));
    ParseName(v, ";", st1);
    assert ";" == [';'] + "";
    ParseMark(';', "", st1.(nameStack := st1.nameStack + [v]));
    ParseEnd(OnToken(st1.(nameStack := st1.nameStack + [v]), Mark(';')));
  }

  // ---------- bodies ----------

  /** Skipping a body character by character. */
  ghost function SkipChars(r: string, depth: int): (t: string)
    ensures |t| <= |r|
  {
    if r == [] then r
    else
      var d := if r[0] == '{' then depth + 1 else if r[0] == '}' then depth - 1 else depth;
      if d == 0 && depth != 0 then r[1..] else SkipChars(r[1..], d)
  }

  ghost predicate NoBraces(w: string) {
    forall i | 0 <= i < |w| :: w[i] != '{' && w[i] != '}'
  }

  lemma {:induction false} SkipCharsOver(w: string, more: string, depth: int)
    requires NoBraces(w) && depth != 0
    ensures SkipChars(w + more, depth) == SkipChars(more, depth)
    decreases |w|
  {
    if w == [] {
      assert w + more == more;
    } else {
      assert (w + more)[1..] == w[1..] + more && (w + more)[0] == w[0];
      SkipCharsOver(w[1..], more, depth);
    }
  }

  lemma {:induction false} BlanksAhead(r: string) returns (w: string)
    ensures r == w + SkipBlanks(r) && NoBraces(w)
    decreases |r|
  {
    w := [];
    if r != [] && IsBlank(r[0]) {
      var v := BlanksAhead(r[1..]);
      var s := SkipBlanks(r[1..]);
      w := [r[0]] + v;
      assert r == [r[0]] + (v + s);
      Assoc([r[0]], v, s);
      BlankBefore(r[0], v);
    }
  }

  lemma BlankBefore(c: char, v: string)
    requires IsBlank(c) && NoBraces(v)
    ensures NoBraces([c] + v)
  {
  }

  lemma {:induction false} WordHasNoBraces(r: string)
    ensures NoBraces(TakeWord(r))
    decreases |r|
  {
    if r != [] && !IsBlank(r[0]) && !IsMark(r[0]) { WordHasNoBraces(r[1..]); }
  }

  /** The tokens of a body skip the same text as its characters. */
  lemma {:induction false} SkipBodyIsSkipChars(r: string, depth: int)
    requires depth != 0
    ensures SkipBody(r, depth) == SkipChars(r, depth)
    decreases |r|
  {
    if r != [] {
      var w := BlanksAhead(r);
      var s := SkipBlanks(r);
      SkipCharsOver(w, s, depth);
      var (t, rest) := NextToken(r).value;
      if s == [] {
      } else if IsMark(s[0]) {
        var d := if t == Mark('{') then depth + 1 else if t == Mark('}') then depth - 1 else depth;
        if d != 0 { SkipBodyIsSkipChars(rest, d); }
      } else {
        SkipBodyWord(s, depth);
        SkipBodyIsSkipChars(rest, depth);
      }
    }
  }

  lemma SkipBodyWord(s: string, depth: int)
    requires depth != 0
    ensures SkipChars(s, depth) == SkipChars(SkipBlanks(s[|TakeWord(s)|..]), depth)
  {
    var w := TakeWord(s);
    var more := s[|w|..];
    WordHasNoBraces(s);
    assert s == w + more;
    SkipCharsOver(w, more, depth);
    var v := BlanksAhead(more);
    SkipCharsOver(v, SkipBlanks(more), depth);
  }

  lemma {:induction false} NestingConcat(a: string, b: string)
    ensures Nesting(a + b) == Nesting(a) + Nesting(b)
    decreases |a|
  {
    if a == [] {
      assert a + b == b;
    } else {
      assert (a + b)[1..] == a[1..] + b;
      NestingConcat(a[1..], b);
    }
  }

  lemma {:induction false} SkipCharsNested(b: string, more: string, depth: int)
    requires forall k | 0 <= k <= |b| :: depth + Nesting(b[..k]) >= 1
    ensures SkipChars(b + more, depth) == SkipChars(more, depth + Nesting(b))
    decreases |b|
  {
    if b == [] {
      assert b + more == more;
    } else {
      var d := depth + Nesting(b[..1]);
      assert b[..1][1..] == [];
      assert (b + more)[1..] == b[1..] + more;
      forall k | 0 <= k <= |b| - 1 ensures d + Nesting(b[1..][..k]) >= 1 {
        assert b[..k + 1] == b[..1] + b[1..][..k];
        NestingConcat(b[..1], b[1..][..k]);
      }
      assert depth + Nesting(b[..0]) >= 1;
      SkipCharsNested(b[1..], more, d);
      assert b[..1] + b[1..] == b;
      NestingConcat(b[..1], b[1..]);
    }
  }

  /** A balanced body ends at the brace behind it. */
  lemma SkipBalanced(b: string, more: string)
    requires Balanced(b)
    ensures SkipBody(b + ("}" + more), 1) == more
  {
    SkipBodyIsSkipChars(b + ("}" + more), 1);
    SkipCharsNested(b, "}" + more, 1);
    assert ("}" + more)[1..] == more;
  }

  lemma {:induction false} TrimKeepsBalance(b: string)
    requires Balanced(b)
    ensures Balanced(RTrim(b))
    decreases |b|
  {
    if b != [] && IsSpace(b[|b| - 1]) {
      var n := |b| - 1;
      assert b == b[..n] + [b[n]];
      NestingConcat(b[..n], [b[n]]);
      forall k | 0 <= k <= n ensures Nesting(b[..n][..k]) >= 0 {
        assert b[..n][..k] == b[..k];
      }
      TrimKeepsBalance(b[..n]);
    }
  }

  /** What is stored of the body b between its braces: it loses its last character. */
  ghost function StoredBody(b: string): Option<string> {
    if b == [] then None else Some(b[..|b| - 1])
  }

  /** The parser behind the closing brace. */
  ghost function AfterBody(st: State, b: string): State
    requires st.sym.Some?
  {
    st.(funcs := st.funcs + [st.sym.value.(body := StoredBody(b), isPublic := st.isPublic)], sym := None,
        isPublic := false)
  }

  /** A function's opening brace, its body and its closing brace: the body loses its last character. */
  lemma ParseBody(b: string, more: string, st: State)
    requires Balanced(b) && st.sym.Some? && st.sym.value.body.None?
    ensures Parse("{" + (b + ("}" + more)), st) == Parse(more, AfterBody(st, b))
  {
    hide Parse, SkipBody, Balanced;
    var r := b + ("}" + more);
    assert ("{" + r)[1..] == r;
    ParseStep("{" + r, st);
    SkipBalanced(b, more);
    if b != [] { assert r[..|b| - 1] == b[..|b| - 1]; }
  }

  // ---------- functions ----------

  /** The parser behind a function. */
  ghost function AfterFunc(st: State, f: Symbol): State {
    st.(funcs := st.funcs + [ReadFunc(f)], func := Symbol(f.name, f.tag, ReadArgs(f.args), None, false),
        isPublic := false)
  }

  lemma ParseHeader(f: Symbol, more: string, st: State)
    requires Clean(st) && !st.isArgs && !st.isPublic && Declares(f)
    ensures Parse(Header(f) + more, st)
         == Parse(more, st.(isArgs := true, isPublic := f.isPublic, func := Symbol(f.name, f.tag, [], None, false)))
  {
    hide Parse, Decl, IsName;
    var rest := Decl(f) + (['('] + more);
    var st' := st.(isPublic := f.isPublic);
    if f.isPublic {
      assert Header(f) + more == ['\n'] + ("public " + rest);
      ParseBlank('\n', "public " + rest, st);
      ParsePublic(rest, st);
    } else {
      assert Header(f) + more == ['\n'] + rest;
      ParseBlank('\n', rest, st);
    }
    ParseDecl(f, ['('] + more, st');
    ParseMark('(', more, Pending(st', f));
  }

  lemma ParseFunc(f: Symbol, more: string, st: State)
    requires Clean(st) && !st.isArgs && !st.isPublic && Printable(f)
    ensures Parse(PrintFunc(f) + more, st) == Parse(more, AfterFunc(st, f))
  {
    hide Parse, Declares, Balanced, Header, RTrim, Decls;
    var b := RTrim(Text(f.body));
    var block := "{" + ((b + "\n") + ("}" + (['\n'] + more)));
    assert PrintFunc(f) + more == Header(f) + (Decls(f.args, false) + ([')'] + ([' '] + block)));
    ParseHeader(f, Decls(f.args, false) + ([')'] + ([' '] + block)), st);
    var st1 := st.(isArgs := true, isPublic := f.isPublic, func := Symbol(f.name, f.tag, [], None, false));
    ParseArgs(f.args, [' '] + block, st1);
    var st2 := Closed(st1, ReadArgs(f.args));
    assert [] + ReadArgs(f.args) == ReadArgs(f.args);
    ParseBlank(' ', block, st2);
    TrimmedBlock(Text(f.body));
    ParseBody(b + "\n", ['\n'] + more, st2);
    assert (b + "\n")[..|b + "\n"| - 1] == b;
    ParseBlank('\n', more, AfterFunc(st, f));
  }

  lemma TrimmedBlock(b: string)
    requires Balanced(b)
    ensures Balanced(RTrim(b) + "\n")
  {
    TrimKeepsBalance(b);
    var t := RTrim(b);
    NestingConcat(t, "\n");
    forall k | 0 <= k <= |t| + 1 ensures Nesting((t + "\n")[..k]) >= 0 {
      if k <= |t| { assert (t + "\n")[..k] == t[..k]; } else { assert (t + "\n")[..k] == t + "\n"; }
    }
  }

  lemma {:induction false} ParseFuncs(funcs: seq<Symbol>, st: State)
    requires Clean(st) && !st.isArgs && !st.isPublic && forall f | f in funcs :: Printable(f)
    ensures var r := Parse(PrintFuncs(funcs), st);
      r.Some? && r.value.vars == st.vars && r.value.funcs == st.funcs + ReadFuncs(funcs) && Clean(r.value)
    decreases |funcs|
  {
    hide Parse, Printable, PrintFunc, ReadFunc;
    if funcs == [] {
      ParseEnd(st);
    } else {
      var f, st' := funcs[0], AfterFunc(st, funcs[0]);
      ParseFunc(f, PrintFuncs(funcs[1..]), st);
      ParseFuncs(funcs[1..], st');
      Assoc(st.funcs, [ReadFunc(f)], ReadFuncs(funcs[1..]));
    }
  }

  /** Parsing the printed script gives back the public variables and all functions, in order, with the same
      visibility, tags, names and arguments, and with the bodies trimmed on the right. */
  lemma RoundTrip(vars: seq<Symbol>, funcs: seq<Symbol>)
    requires (forall v | v in vars :: v.isPublic ==> Declares(v)) && forall f | f in funcs :: Printable(f)
    ensures var r := Parse(Print(vars, funcs), START);
      r.Some? && r.value.vars == ReadVars(vars) && r.value.funcs == ReadFuncs(funcs)
  {
    hide Parse, Declares, Printable;
    ParseVars(vars, PrintFuncs(funcs), START);
    assert START.vars + ReadVars(vars) == ReadVars(vars);
    ParseFuncs(funcs, START.(vars := ReadVars(vars)));
    assert START.funcs + ReadFuncs(funcs) == ReadFuncs(funcs);
  }

  // ---------- printing again ----------

  /** Printing what was read back gives the same text. */
  lemma PrintAgain(vars: seq<Symbol>, funcs: seq<Symbol>)
    ensures Print(ReadVars(vars), ReadFuncs(funcs)) == Print(vars, funcs)
  {
    VarsAgain(vars, false);
    FuncsAgain(funcs);
  }

  lemma {:induction false} VarsAgain(vars: seq<Symbol>, started: bool)
    ensures VarsFrom(ReadVars(vars), started) == VarsFrom(vars, started)
    decreases |vars|
  {
    if vars != [] {
      if vars[0].isPublic {
        assert ReadVars(vars)[1..] == ReadVars(vars[1..]);
        VarsAgain(vars[1..], true);
      } else {
        assert ReadVars(vars) == ReadVars(vars[1..]);
        VarsAgain(vars[1..], started);
      }
    }
  }

  lemma {:induction false} ArgsAgain(args: seq<Symbol>, more: bool)
    ensures Decls(ReadArgs(args), more) == Decls(args, more)
    decreases |args|
  {
    if args != [] {
      assert ReadArgs(args)[1..] == ReadArgs(args[1..]);
      ArgsAgain(args[1..], true);
    }
  }

  lemma {:induction false} FuncsAgain(funcs: seq<Symbol>)
    ensures PrintFuncs(ReadFuncs(funcs)) == PrintFuncs(funcs)
    decreases |funcs|
  {
    if funcs != [] {
      var f := funcs[0];
      assert ReadFuncs(funcs)[1..] == ReadFuncs(funcs[1..]);
      ArgsAgain(f.args, false);
      FuncsAgain(funcs[1..]);
      assert PrintFunc(ReadFunc(f)) == PrintFunc(f);
    }
  }

  /** A function's body, as the parser stores it, is the written one up to white space at its end, exactly if
      nothing or white space stands in front of the closing brace. */
  lemma BodyKeptIffSpaced(b: string, more: string, st: State)
    requires Balanced(b) && st.sym.Some? && st.sym.value.body.None?
    ensures var u := AfterBody(st, b);
      && Parse("{" + (b + ("}" + more)), st) == Parse(more, u) && |u.funcs| == |st.funcs| + 1
      && (RTrim(Text(u.funcs[|st.funcs|].body)) == RTrim(b) <==> b == [] || IsSpace(b[|b| - 1]))
  {
    hide Parse, Balanced;
    ParseBody(b, more, st);
    if b != [] && !IsSpace(b[|b| - 1]) { assert RTrim(b) == b; }
  }

  // ---------- merging ----------

  ghost predicate NamesDiffer(list: seq<Symbol>) {
    forall i, j | 0 <= i < j < |list| :: list[i].name != list[j].name
  }

  /** The symbol of that name in a list without repeated names. */
  ghost function WithName(list: seq<Symbol>, name: Option<string>): Option<Symbol> {
    var i := FirstNamed(list, name);
    if i < |list| then Some(list[i]) else None
  }

  ghost function LastNamed(syms: seq<Symbol>, name: Option<string>): Option<Symbol> {
    if syms == [] then None
    else if LastNamed(syms[1..], name).Some? then LastNamed(syms[1..], name)
    else if syms[0].name == name then Some(syms[0]) else None
  }

  lemma WithNameAt(list: seq<Symbol>, i: nat)
    requires NamesDiffer(list) && i < |list|
    ensures WithName(list, list[i].name) == Some(list[i])
  {
  }

  lemma ReplaceParts(list: seq<Symbol>, sym: Symbol)
    ensures var r, i := Replace(list, sym), FirstNamed(list, sym.name);
      && |r| == (if i < |list| then |list| else |list| + 1) && r[|r| - 1] == sym
      && forall j | 0 <= j < |r| - 1 :: r[j] == list[if j < i then j else j + 1]
  {
  }

  lemma ReplaceNames(list: seq<Symbol>, sym: Symbol)
    requires NamesDiffer(list)
    ensures NamesDiffer(Replace(list, sym))
  {
    ReplaceParts(list, sym);
  }

  lemma ReplaceShadows(list: seq<Symbol>, sym: Symbol, name: Option<string>)
    requires NamesDiffer(list)
    ensures var r := Replace(list, sym);
      NamesDiffer(r) && WithName(r, name) == if name == sym.name then Some(sym) else WithName(list, name)
  {
    hide Replace, NamesDiffer, FirstNamed;
    ReplaceNames(list, sym);
    ReplaceParts(list, sym);
    var r, i, k := Replace(list, sym), FirstNamed(list, sym.name), FirstNamed(list, name);
    if name == sym.name {
      WithNameAt(r, |r| - 1);
    } else if k < |list| {
      var at := if k > i then k - 1 else k;
      assert r[at] == list[k];
      WithNameAt(r, at);
    } else {
      forall j | 0 <= j < |r| ensures r[j].name != name {
        if j < |r| - 1 { assert list[if j < i then j else j + 1].name != name; }
      }
    }
  }

  /** Merging scripts leaves one symbol a name, and it is the one defined last. */
  lemma {:induction false} LastDefinitionWins(list: seq<Symbol>, syms: seq<Symbol>, name: Option<string>)
    requires NamesDiffer(list)
    ensures var r := PushAll(list, syms);
      r.Some? ==>
        && NamesDiffer(r.value)
        && WithName(r.value, name)
           == if LastNamed(syms, name).Some? then LastNamed(syms, name) else WithName(list, name)
    decreases |syms|
  {
    hide NamesDiffer, Comparable;
    if syms != [] && PushSymbol(list, syms[0]).Some? {
      ReplaceShadows(list, syms[0], name);
      LastDefinitionWins(Replace(list, syms[0]), syms[1..], name);
    }
  }

  // ---------- the order of merged symbols ----------

  ghost predicate HasName(syms: seq<Symbol>, name: Option<string>) { exists s | s in syms :: s.name == name }

  /** The last definition of each name, in the order of those. */
  ghost function LastOnes(syms: seq<Symbol>): seq<Symbol> {
    if syms == [] then []
    else (if HasName(syms[1..], syms[0].name) then [] else [syms[0]]) + LastOnes(syms[1..])
  }

  /** What is left of a list when others define names again. */
  ghost function Without(list: seq<Symbol>, syms: seq<Symbol>): seq<Symbol> {
    if list == [] then []
    else (if HasName(syms, list[0].name) then [] else [list[0]]) + Without(list[1..], syms)
  }

  lemma HasNameCons(s: Symbol, rest: seq<Symbol>, name: Option<string>)
    ensures HasName([s] + rest, name) <==> s.name == name || HasName(rest, name)
  {
    if HasName(rest, name) {
      var x :| x in rest && x.name == name;
      assert x in [s] + rest;
    }
    assert s in [s] + rest;
  }

  lemma {:induction false} WithoutNone(list: seq<Symbol>, s: Symbol, rest: seq<Symbol>)
    requires forall x | x in list :: x.name != s.name
    ensures Without(list, [s] + rest) == Without(list, rest)
    decreases |list|
  {
    hide HasName;
    if list != [] {
      assert list[0] in list;
      HasNameCons(s, rest, list[0].name);
      WithoutNone(list[1..], s, rest);
    }
  }

  lemma {:induction false} WithoutSnoc(list: seq<Symbol>, s: Symbol, rest: seq<Symbol>)
    ensures Without(list + [s], rest) == Without(list, rest) + if HasName(rest, s.name) then [] else [s]
    decreases |list|
  {
    hide HasName;
    if list == [] {
      assert list + [s] == [s] && [s][1..] == [];
    } else {
      assert (list + [s])[0] == list[0] && (list + [s])[1..] == list[1..] + [s];
      WithoutSnoc(list[1..], s, rest);
      Assoc(if HasName(rest, list[0].name) then [] else [list[0]], Without(list[1..], rest),
            if HasName(rest, s.name) then [] else [s]);
    }
  }

  /** The list without the first symbol of that name. */
  ghost function Rest(list: seq<Symbol>, name: Option<string>): seq<Symbol> {
    if list == [] then [] else if list[0].name == name then list[1..] else [list[0]] + Rest(list[1..], name)
  }

  lemma {:induction false} RestParts(list: seq<Symbol>, name: Option<string>)
    ensures var i := FirstNamed(list, name);
      Rest(list, name) == if i < |list| then list[..i] + list[i + 1..] else list
    decreases |list|
  {
    if list != [] && list[0].name != name {
      var x, tail := list[0], list[1..];
      RestParts(tail, name);
      var i := FirstNamed(tail, name);
      assert FirstNamed(list, name) == i + 1;
      assert list == [x] + tail && list[..i + 1] == [x] + tail[..i];
      if i < |tail| {
        assert list[i + 2..] == tail[i + 1..];
        Assoc([x], tail[..i], tail[i + 1..]);
      }
    }
  }

  lemma ReplaceIsRest(list: seq<Symbol>, s: Symbol)
    ensures Replace(list, s) == Rest(list, s.name) + [s]
  {
    RestParts(list, s.name);
  }

  lemma {:induction false} WithoutRest(list: seq<Symbol>, s: Symbol, rest: seq<Symbol>)
    requires NamesDiffer(list)
    ensures Without(Rest(list, s.name), rest) == Without(list, [s] + rest)
    decreases |list|
  {
    hide HasName;
    if list != [] {
      var x, tail := list[0], list[1..];
      HasNameCons(s, rest, x.name);
      if x.name == s.name {
        WithoutNone(tail, s, rest);
      } else {
        WithoutRest(tail, s, rest);
        var r := Rest(tail, s.name);
        assert ([x] + r)[1..] == r;
      }
    }
  }

  lemma {:induction false} PushOrder(list: seq<Symbol>, syms: seq<Symbol>)
    requires NamesDiffer(list) && PushAll(list, syms).Some?
    ensures PushAll(list, syms).value == Without(list, syms) + LastOnes(syms)
    decreases |syms|
  {
    hide HasName, NamesDiffer, Replace, Comparable;
    if syms == [] {
      WithoutNothing(list);
    } else {
      var s, rest := syms[0], syms[1..];
      assert syms == [s] + rest;
      ReplaceNames(list, s);
      ReplaceIsRest(list, s);
      WithoutRest(list, s, rest);
      WithoutSnoc(Rest(list, s.name), s, rest);
      PushOrder(Replace(list, s), rest);
      Assoc(Without(list, syms), if HasName(rest, s.name) then [] else [s], LastOnes(rest));
    }
  }

  lemma {:induction false} WithoutNothing(list: seq<Symbol>)
    ensures Without(list, []) == list
    decreases |list|
  {
    if list != [] { WithoutNothing(list[1..]); }
  }

  // ---------- when rewriting is defined ----------

  lemma {:induction false} PushAllFrom(list: seq<Symbol>, syms: seq<Symbol>)
    ensures var r := PushAll(list, syms); r.Some? ==> forall f | f in r.value :: f in list || f in syms
    decreases |syms|
  {
    if syms != [] {
      ReplaceFrom(list, syms[0]);
      if PushSymbol(list, syms[0]).Some? { PushAllFrom(Replace(list, syms[0]), syms[1..]); }
    }
  }

  lemma ReplaceFrom(list: seq<Symbol>, sym: Symbol)
    ensures forall f | f in Replace(list, sym) :: f in list || f == sym
  {
  }

  /** A name may be missing only when there is nothing to compare it with. */
  lemma {:induction false} PushAllDefined(list: seq<Symbol>, syms: seq<Symbol>)
    requires AllNamed(list)
    ensures PushAll(list, syms).Some? <==> AllNamed(syms) || (list == [] && |syms| == 1)
    decreases |syms|
  {
    hide Replace;
    if syms != [] {
      var sym, rest := syms[0], syms[1..];
      assert syms == [sym] + rest;
      ReplaceFrom(list, sym);
      if sym.name.Some? {
        assert Comparable(list, sym);
        PushAllDefined(Replace(list, sym), rest);
        assert Replace(list, sym) != [] by { NotEmpty(list, sym); }
      } else if list != [] {
        assert list[0].name.Some? && !Comparable(list, sym);
      } else if rest != [] {
        OnlyOne(sym);
        assert [sym][0].name.None? && !Comparable([sym], rest[0]);
      }
    }
  }

  lemma NotEmpty(list: seq<Symbol>, sym: Symbol)
    ensures Replace(list, sym) != []
  {
  }

  lemma OnlyOne(sym: Symbol)
    ensures Replace([], sym) == [sym] && PushAll([sym], []) == Some([sym])
  {
  }

  lemma {:induction false} PushAllConcat(list: seq<Symbol>, a: seq<Symbol>, b: seq<Symbol>)
    ensures var r := PushAll(list, a);
      PushAll(list, a + b) == if r.None? then None else PushAll(r.value, b)
    decreases |a|
  {
    hide PushSymbol;
    if a == [] {
      assert a + b == b;
    } else {
      assert (a + b)[0] == a[0] && (a + b)[1..] == a[1..] + b;
      if PushSymbol(list, a[0]).Some? { PushAllConcat(PushSymbol(list, a[0]).value, a[1..], b); }
    }
  }

  lemma SortCons(f: Symbol, fs: seq<Symbol>)
    ensures Others([f] + fs) == (if IsMessage(f) then [] else [f]) + Others(fs)
    ensures Messages([f] + fs) == (if IsMessage(f) then [f] else []) + Messages(fs)
  {
    assert ([f] + fs)[1..] == fs;
  }

  lemma {:induction false} SortConcat(a: seq<Symbol>, b: seq<Symbol>)
    ensures Others(a + b) == Others(a) + Others(b) && Messages(a + b) == Messages(a) + Messages(b)
    decreases |a|
  {
    if a == [] {
      assert a + b == b;
    } else {
      hide Others, Messages;
      var f, fs := a[0], a[1..];
      assert a == [f] + fs && a + b == [f] + (fs + b);
      SortCons(f, fs);
      SortCons(f, fs + b);
      SortConcat(fs, b);
      Assoc(if IsMessage(f) then [] else [f], Others(fs), Others(b));
      Assoc(if IsMessage(f) then [f] else [], Messages(fs), Messages(b));
    }
  }

  lemma {:induction false} Sorts(funcs: seq<Symbol>)
    ensures forall f :: f in Others(funcs) <==> f in funcs && !IsMessage(f)
    ensures forall f :: f in Messages(funcs) <==> f in funcs && IsMessage(f)
    decreases |funcs|
  {
    if funcs != [] { Sorts(funcs[1..]); }
  }

  /** All variables of the base groups and the group itself, in order. */
  ghost function AllVars(bases: seq<State>, code: State): seq<Symbol> {
    if bases == [] then code.vars else bases[0].vars + AllVars(bases[1..], code)
  }

  ghost function AllFuncs(bases: seq<State>, code: State): seq<Symbol> {
    if bases == [] then code.funcs else bases[0].funcs + AllFuncs(bases[1..], code)
  }

  /** What the symbols vs and fs add to the lists. */
  ghost function Pushed(m: Merged, vs: seq<Symbol>, fs: seq<Symbol>): Option<Merged> {
    var v, f := PushAll(m.vars, vs), PushAll(m.funcs, Others(fs));
    if v.Some? && f.Some? && AllNamed(fs) then Some(Merged(v.value, f.value, m.messages + Messages(fs))) else None
  }

  lemma PushedConcat(m: Merged, vs: seq<Symbol>, fs: seq<Symbol>, ws: seq<Symbol>, gs: seq<Symbol>)
    ensures var n := Pushed(m, vs, fs);
      Pushed(m, vs + ws, fs + gs) == if n.None? then None else Pushed(n.value, ws, gs)
  {
    hide PushAll, Others, Messages;
    PushAllConcat(m.vars, vs, ws);
    PushAllConcat(m.funcs, Others(fs), Others(gs));
    SortConcat(fs, gs);
    Assoc(m.messages, Messages(fs), Messages(gs));
    assert AllNamed(fs + gs) <==> AllNamed(fs) && AllNamed(gs) by { NamedConcat(fs, gs); }
  }

  lemma NamedConcat(a: seq<Symbol>, b: seq<Symbol>)
    ensures AllNamed(a + b) <==> AllNamed(a) && AllNamed(b)
  {
    if AllNamed(a + b) {
      assert forall s | s in a || s in b :: s in a + b;
    }
  }

  /** Script by script or all symbols at once: the same lists. */
  lemma {:induction false} GatheredIsPushed(m: Merged, bases: seq<State>, code: State)
    ensures Gathered(m, bases, code) == Pushed(m, AllVars(bases, code), AllFuncs(bases, code))
    decreases |bases|
  {
    hide Pushed;
    assert forall n: Merged, c: State :: n.Push(c) == Pushed(n, c.vars, c.funcs) by { PushIsPushed(); }
    if bases != [] {
      var n := m.Push(bases[0]);
      PushedConcat(m, bases[0].vars, bases[0].funcs, AllVars(bases[1..], code), AllFuncs(bases[1..], code));
      if n.Some? { GatheredIsPushed(n.value, bases[1..], code); }
    }
  }

  lemma PushIsPushed()
    ensures forall m: Merged, c: State :: m.Push(c) == Pushed(m, c.vars, c.funcs)
  {
  }

  /** Nothing that is followed is missing: the names of all variables, unless there is only one and that is
      private; the names of all functions; the bodies of all message handlers; and the arguments' names of every
      other function that no later one replaces. */
  ghost predicate NothingMissing(vs: seq<Symbol>, fs: seq<Symbol>) {
    && (AllNamed(vs) || (|vs| == 1 && !vs[0].isPublic))
    && AllNamed(fs)
    && (forall f | f in fs && IsMessage(f) :: f.body.Some?)
    && (forall f | f in fs && !IsMessage(f) && LastNamed(fs, f.name) == Some(f) :: AllNamed(f.args))
  }

  /** Rewriting follows a NULL pointer exactly if something it needs is missing from the scripts. */
  lemma RewriteExactly(bases: seq<State>, code: State)
    ensures Rewrite(bases, code).Some? <==> NothingMissing(AllVars(bases, code), AllFuncs(bases, code))
  {
    hide Gathered, PushAll, Others, Messages, JoinBodies, WritableVars, AllNamed, WritableFuncs, LastNamed;
    var vs, fs := AllVars(bases, code), AllFuncs(bases, code);
    GatheredIsPushed(NOTHING, bases, code);
    VarsDefined(vs);
    assert AllNamed([]) by { NoneNamed(); }
    FuncsDefined(fs);
    assert [] + Messages(fs) == Messages(fs);
    Sorts(fs);
    JoinDefined("", Messages(fs));
  }

  /** What is gathered: the last definition of each name, variables and functions in the order in which those
      stand in the base groups and the group itself, and all message handlers. */
  lemma GatheredExactly(bases: seq<State>, code: State)
    ensures var m := Gathered(NOTHING, bases, code);
      m.Some? ==>
        && m.value.vars == LastOnes(AllVars(bases, code))
        && m.value.funcs == LastOnes(Others(AllFuncs(bases, code)))
        && m.value.messages == Messages(AllFuncs(bases, code))
  {
    hide Gathered, PushAll, Others, Messages, LastOnes, AllNamed;
    GatheredIsPushed(NOTHING, bases, code);
    var vs, fs := AllVars(bases, code), AllFuncs(bases, code);
    if PushAll([], vs).Some? { PushOrder([], vs); }
    if PushAll([], Others(fs)).Some? { PushOrder([], Others(fs)); }
    assert [] + LastOnes(vs) == LastOnes(vs) && [] + LastOnes(Others(fs)) == LastOnes(Others(fs));
    assert [] + Messages(fs) == Messages(fs);
  }

  lemma NoneNamed()
    ensures AllNamed([])
  {
  }

  lemma VarsDefined(vs: seq<Symbol>)
    ensures var r := PushAll([], vs);
      r.Some? && WritableVars(r.value) <==> AllNamed(vs) || (|vs| == 1 && !vs[0].isPublic)
  {
    PushAllDefined([], vs);
    PushAllFrom([], vs);
    hide PushAll, Replace, Comparable;
    if |vs| == 1 {
      OneVariable(vs[0]);
      assert vs == [vs[0]];
    }
  }

  lemma OneVariable(v: Symbol)
    ensures PushAll([], [v]) == Some([v])
  {
    OnlyOne(v);
    assert [v][1..] == [];
  }

  lemma FuncsDefined(fs: seq<Symbol>)
    ensures var r := PushAll([], Others(fs));
      AllNamed(fs) ==>
        r.Some? && (WritableFuncs(r.value) <==>
                    forall f | f in fs && !IsMessage(f) && LastNamed(fs, f.name) == Some(f) :: AllNamed(f.args))
  {
    hide PushAll, Others, LastNamed;
    if AllNamed(fs) {
      Sorts(fs);
      PushAllDefined([], Others(fs));
      var r := PushAll([], Others(fs)).value;
      forall f ensures f in r <==> f in fs && !IsMessage(f) && LastNamed(fs, f.name) == Some(f) {
        LastIsLeft(fs, f);
      }
    }
  }

  /** The functions left are the last of their names. */
  lemma LastIsLeft(fs: seq<Symbol>, f: Symbol)
    requires PushAll([], Others(fs)).Some?
    ensures f in PushAll([], Others(fs)).value <==> f in fs && !IsMessage(f) && LastNamed(fs, f.name) == Some(f)
  {
    hide PushAll, Others, LastNamed;
    var r := PushAll([], Others(fs)).value;
    LastDefinitionWins([], Others(fs), f.name);
    assert WithName([], f.name) == None;
    PushAllFrom([], Others(fs));
    Sorts(fs);
    if !IsMessage(f) { LastOfOthers(fs, f.name); }
    if f in r {
      var i :| 0 <= i < |r| && r[i] == f;
      WithNameAt(r, i);
    }
  }

  lemma {:induction false} LastOfOthers(fs: seq<Symbol>, name: Option<string>)
    requires name != Some("message")
    ensures LastNamed(Others(fs), name) == LastNamed(fs, name)
    decreases |fs|
  {
    if fs != [] {
      LastOfOthers(fs[1..], name);
      assert fs == [fs[0]] + fs[1..];
      SortCons(fs[0], fs[1..]);
      if IsMessage(fs[0]) {
        assert Others(fs) == Others(fs[1..]);
      } else {
        assert Others(fs)[0] == fs[0] && Others(fs)[1..] == Others(fs[1..]);
      }
    }
  }

  // ---------- the rewritten script ----------

  /** A script all of whose functions and public variables can be printed and read back. */
  ghost predicate Sane(code: State) {
    (forall v | v in code.vars :: v.isPublic ==> Declares(v)) && forall f | f in code.funcs :: Printable(f)
  }

  ghost predicate SaneLists(m: Merged) {
    && (forall v | v in m.vars :: v.isPublic ==> Declares(v)) && (forall f | f in m.funcs :: Printable(f))
    && forall f | f in m.messages :: Balanced(Text(f.body))
  }

  ghost predicate Distinct(m: Merged) {
    NamesDiffer(m.vars) && NamesDiffer(m.funcs) && forall f | f in m.funcs :: !IsMessage(f)
  }

  lemma PushKeeps(m: Merged, code: State)
    requires m.Push(code).Some?
    ensures SaneLists(m) && Sane(code) ==> SaneLists(m.Push(code).value)
    ensures Distinct(m) ==> Distinct(m.Push(code).value)
  {
    hide Declares, Printable, Balanced, NamesDiffer, PushAll, Others, Messages, AllNamed;
    Sorts(code.funcs);
    PushAllFrom(m.vars, code.vars);
    PushAllFrom(m.funcs, Others(code.funcs));
    if SaneLists(m) && Sane(code) {
      forall f | f in code.funcs ensures Balanced(Text(f.body)) { PrintableBody(f); }
    }
    if Distinct(m) {
      LastDefinitionWins(m.vars, code.vars, None);
      LastDefinitionWins(m.funcs, Others(code.funcs), None);
    }
  }

  lemma PrintableBody(f: Symbol)
    ensures Printable(f) ==> Balanced(Text(f.body))
  {
  }

  lemma {:induction false} GatheredKeeps(m: Merged, bases: seq<State>, code: State)
    requires Gathered(m, bases, code).Some?
    ensures var g := Gathered(m, bases, code).value;
      && (SaneLists(m) && Sane(code) && (forall b | b in bases :: Sane(b)) ==> SaneLists(g))
      && (Distinct(m) ==> Distinct(g))
    decreases |bases|
  {
    hide Sane, SaneLists, Distinct;
    if bases == [] {
      PushKeeps(m, code);
    } else {
      PushKeeps(m, bases[0]);
      GatheredKeeps(m.Push(bases[0]).value, bases[1..], code);
    }
  }

  lemma BalancedConcat(a: string, b: string)
    requires Balanced(a) && Balanced(b)
    ensures Balanced(a + b)
  {
    NestingConcat(a, b);
    forall k | 0 <= k <= |a + b| ensures Nesting((a + b)[..k]) >= 0 {
      if k <= |a| {
        assert (a + b)[..k] == a[..k];
      } else {
        assert (a + b)[..k] == a + b[..k - |a|];
        NestingConcat(a, b[..k - |a|]);
      }
    }
  }

  lemma {:induction false} JoinBalanced(b: string, ms: seq<Symbol>)
    requires Balanced(b) && forall f | f in ms :: Balanced(Text(f.body))
    ensures var r := JoinBodies(b, ms); r.Some? ==> Balanced(r.value)
    decreases |ms|
  {
    hide Balanced, RTrim;
    if ms != [] && ms[0].body.Some? {
      BalancedConcat(b, Text(ms[0].body));
      TrimmedBlock(b + Text(ms[0].body));
      JoinBalanced(RTrim(b + ms[0].body.value) + "\n", ms[1..]);
    }
  }

  lemma MessagePrintable(ms: seq<Symbol>)
    requires forall f | f in ms :: Balanced(Text(f.body))
    ensures Printable(MessageFunc(ms))
  {
    assert Balanced("") by { assert ""[..0] == ""; }
    JoinBalanced("", ms);
    hide Balanced, JoinBodies, IsName;
    MessageNames();
  }

  lemma MessageNames()
    ensures IsName("message") && IsName("type") && IsName("Msg_Type") && IsName("id") && IsName("...")
  {
  }

  /** What script_rewrite writes is one declaration a name, and reads back as the gathered lists, the message
      handlers as one function behind the others; it writes something exactly if nothing is missing. */
  lemma RewriteRoundTrip(bases: seq<State>, code: State)
    requires Sane(code) && forall b | b in bases :: Sane(b)
    ensures var text, m := Rewrite(bases, code), Gathered(NOTHING, bases, code);
      && (text.Some? <==> NothingMissing(AllVars(bases, code), AllFuncs(bases, code)))
      && (text.Some? ==>
            var r := Parse(text.value, START);
            && m.Some? && NamesDiffer(m.value.vars) && NamesDiffer(m.value.Functions())
            && r.Some? && r.value.vars == ReadVars(m.value.vars) && r.value.funcs == ReadFuncs(m.value.Functions()))
  {
    hide Parse, Declares, Printable, Gathered, Balanced, MessageFunc, NothingMissing;
    RewriteExactly(bases, code);
    if Rewrite(bases, code).Some? {
      GatheredKeeps(NOTHING, bases, code);
      var m := Gathered(NOTHING, bases, code).value;
      MessagePrintable(m.messages);
      OneMoreName(m);
      RoundTrip(m.vars, m.Functions());
    }
  }

  lemma OneMoreName(m: Merged)
    requires Distinct(m)
    ensures NamesDiffer(m.Functions())
  {
    hide JoinBodies, MESSAGE_ARGS;
    forall i | 0 <= i < |m.funcs| ensures m.funcs[i].name != Some("message") {
      assert !IsMessage(m.funcs[i]);
    }
  }

  // ---------- what is missing from scripts that parse ----------

  /** The handler's text with the body b, as it is written and read. */
  lemma HandlerRead(b: string)
    requires Balanced(b)
    ensures var f := MessageFunc([]).(args := ReadArgs(MESSAGE_ARGS), body := StoredBody(b));
      var r := Parse(MESSAGE_HEAD + (b + "}"), START);
      r.Some? && r.value.funcs == [f] && r.value.vars == []
  {
    hide Parse, Balanced, IsName, Header, Decls, StoredBody;
    var f := MessageFunc([]);
    assert Declares(f) && forall a | a in MESSAGE_ARGS :: Declares(a) by { MessageNames(); }
    hide MESSAGE_HEAD, MessageFunc, MESSAGE_ARGS;
    MessageHead([]);
    MessageParts();
    var block := "{" + (b + ("}" + ""));
    var text := MESSAGE_HEAD + (b + "}");
    assert text == Header(f) + (Decls(f.args, false) + ([')'] + ([' '] + block)));
    ParseHeader(f, Decls(f.args, false) + ([')'] + ([' '] + block)), START);
    var st1 := START.(isArgs := true, isPublic := true, func := Symbol(f.name, f.tag, [], None, false));
    ParseArgs(f.args, [' '] + block, st1);
    var st2 := Closed(st1, ReadArgs(f.args));
    assert [] + ReadArgs(f.args) == ReadArgs(f.args);
    ParseBlank(' ', block, st2);
    ParseBody(b, "", st2);
    ParseEnd(AfterBody(st2, b));
  }

  lemma MessageParts()
    ensures var f := MessageFunc([]);
      f.args == MESSAGE_ARGS && f.isPublic && f.tag.None? && IsMessage(f)
  {
  }

  /** A script that is one message handler with a balanced body can be rewritten exactly if the body has at least
      one character: nothing between the braces leaves no body, and its length is measured all the same. */
  lemma HandlerExactly(b: string)
    requires Balanced(b)
    ensures var r := Parse(MESSAGE_HEAD + (b + "}"), START);
      r.Some? && (Rewrite([], r.value).Some? <==> b != [])
  {
    hide Parse, Rewrite, MessageFunc, MESSAGE_HEAD, MESSAGE_ARGS, Balanced;
    HandlerRead(b);
    MessageParts();
    var code := Parse(MESSAGE_HEAD + (b + "}"), START).value;
    RewriteExactly([], code);
    assert code.funcs[0] in code.funcs;
  }

  /** With empty braces it cannot be rewritten whatever the base groups hold. */
  lemma EmptyHandler(bases: seq<State>)
    ensures var r := Parse(MESSAGE_HEAD + "}", START);
      r.Some? && Rewrite(bases, r.value) == None
  {
    hide Parse, Rewrite, MessageFunc, MESSAGE_HEAD, MESSAGE_ARGS, LastNamed, AllNamed;
    assert Balanced("") by { assert ""[..0] == ""; }
    assert "" + "}" == "}";
    HandlerRead("");
    MessageParts();
    var code := Parse(MESSAGE_HEAD + "}", START).value;
    RewriteExactly(bases, code);
    LastGroupsFuncs(bases, code, code.funcs[0]);
  }

  lemma {:induction false} LastGroupsFuncs(bases: seq<State>, code: State, f: Symbol)
    requires f in code.funcs
    ensures f in AllFuncs(bases, code)
    decreases |bases|
  {
    if bases != [] { LastGroupsFuncs(bases[1..], code, f); }
  }

  /** The text a;, declares a variable and then one without a name, which is private and never printed; but the
      two names are compared. */
  lemma NamelessVariable()
    ensures var r := Parse("a;,", START);
      && r.Some? && |r.value.vars| == 2 && r.value.vars[1].name.None? && !r.value.vars[1].isPublic
      && Rewrite([], r.value) == None
  {
    hide Rewrite, Parse, NextToken, AllNamed;
    var st := START.(nameStack := ["a"]);
    assert "a;," == "a" + (";" + ",") && "," + "" == ",";
    assert IsName("a") && START.nameStack + ["a"] == ["a"];
    ParseName("a", ";" + ",", START);
    assert [';'] + "," == ";" + ",";
    ParseMark(';', ",", st);
    var v := NEW_SYMBOL.(name := Some("a"));
    var one := START.(vars := [v]);
    assert OnToken(st, Mark(';')) == one;
    ParseMark(',', "", one);
    ParseEnd(OnToken(one, Mark(',')));
    var code := Parse("a;,", START).value;
    assert code.vars == [v, NEW_SYMBOL];
    RewriteExactly([], code);
    assert !AllNamed(code.vars) by { Unnamed(code.vars, 1); }
  }

  lemma Unnamed(syms: seq<Symbol>, i: nat)
    requires i < |syms| && syms[i].name.None?
    ensures !AllNamed(syms)
  {
  }

  // ---------- what becomes of the handlers' bodies ----------

  /** One line after another. */
  ghost function Lines(ms: seq<Symbol>): string {
    if ms == [] then "" else RTrim(Text(ms[0].body)) + "\n" + Lines(ms[1..])
  }

  ghost predicate NoneBlank(ms: seq<Symbol>) {
    forall f | f in ms :: RTrim(Text(f.body)) != ""
  }

  lemma {:induction false} TrimShortens(a: string, b: string)
    requires a != [] && IsSpace(a[|a| - 1])
    ensures if RTrim(b) == "" then |RTrim(a + b)| < |a| else RTrim(a + b) == a + RTrim(b)
    decreases |b|
  {
    if b == [] {
      assert a + b == a;
    } else {
      assert (a + b)[..|a + b| - 1] == a + b[..|b| - 1];
      if IsSpace(b[|b| - 1]) { TrimShortens(a, b[..|b| - 1]); }
    }
  }

  lemma {:induction false} JoinIsLines(b: string, ms: seq<Symbol>)
    requires b != [] && b[|b| - 1] == '\n'
    ensures var r := JoinBodies(b, ms);
      r.Some? ==> if NoneBlank(ms) then r.value == b + Lines(ms) else |r.value| < |b| + |Lines(ms)|
    decreases |ms|
  {
    if ms == [] {
      assert b + "" == b;
    } else if ms[0].body.Some? {
      hide RTrim, JoinBodies, Lines, NoneBlank;
      var t, rest := ms[0].body.value, ms[1..];
      assert IsSpace(b[|b| - 1]);
      TrimShortens(b, t);
      LinesStep(b, ms);
      var u, v := RTrim(b + t), RTrim(t);
      assert (u + "\n")[|u + "\n"| - 1] == '\n';
      JoinIsLines(u + "\n", rest);
      if v != "" { LineAdded(b, v, Lines(rest)); }
    }
  }

  lemma LineAdded(b: string, t: string, l: string)
    ensures b + t + "\n" + l == b + (t + "\n" + l)
  {
  }

  lemma LinesStep(b: string, ms: seq<Symbol>)
    requires ms != [] && ms[0].body.Some?
    ensures JoinBodies(b, ms) == JoinBodies(RTrim(b + ms[0].body.value) + "\n", ms[1..])
    ensures Lines(ms) == RTrim(ms[0].body.value) + "\n" + Lines(ms[1..])
    ensures NoneBlank(ms) <==> RTrim(ms[0].body.value) != "" && NoneBlank(ms[1..])
  {
    hide RTrim;
    assert ms == [ms[0]] + ms[1..];
  }

  /** The merged handler holds the trimmed bodies one below the other exactly if all are there and none but the
      first is blank: behind a blank one the line break in front of it is lost. */
  lemma MessageBodiesExactly(ms: seq<Symbol>)
    requires ms != []
    ensures JoinBodies("", ms) == Some(Lines(ms)) <==> (forall f | f in ms :: f.body.Some?) && NoneBlank(ms[1..])
  {
    hide RTrim, NoneBlank;
    JoinDefined("", ms);
    if ms[0].body.Some? {
      var t := ms[0].body.value;
      assert "" + t == t;
      JoinIsLines(RTrim(t) + "\n", ms[1..]);
      assert Lines(ms) == RTrim(t) + "\n" + Lines(ms[1..]);
    }
  }
}
