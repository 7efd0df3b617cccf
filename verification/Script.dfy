/** The script parser and printer of edje_cc_script.c.  A pointer into the script is the text from there on. */
module Script {
  import opened Basics

  // ---------- tokens ----------

  datatype Token = Eof | Mark(mark: char) | Public | Identifier(str: string)

  predicate IsBlank(c: char) { c == ' ' || c == '\t' || c == '\n' }

  predicate IsMark(c: char) { c in {':', ';', ',', '(', ')', '{', '}', '='} }

  function SkipBlanks(r: string): (s: string)
    ensures |s| <= |r| && (s != [] ==> !IsBlank(s[0]))
  {
    if r == [] || !IsBlank(r[0]) then r else SkipBlanks(r[1..])
  }

  /** The longest start of r without blanks and marks. */
  function TakeWord(r: string): (w: string)
    ensures w <= r
  {
    if r == [] || IsBlank(r[0]) || IsMark(r[0]) then [] else [r[0]] + TakeWord(r[1..])
  }

  function WordToken(w: string): Token {
    if w == "public" then Public else Identifier(w)
  }

  /** next_token: the token and the text behind it; blanks after a word are skipped with it. */
  function NextToken(r: string): (t: Option<(Token, string)>)
    ensures t.None? <==> r == []
    ensures t.Some? ==> |t.value.1| < |r|
  {
    if r == [] then None
    else
      var s := SkipBlanks(r);
      if s == [] then Some((Eof, []))
      else if IsMark(s[0]) then Some((Mark(s[0]), s[1..]))
      else
        var w := TakeWord(s);
        Some((WordToken(w), SkipBlanks(s[|w|..])))
  }

  /** Where the character loop of next_token stands: it began at r and has q still to read. */
  ghost predicate Reading(r: string, q: string, buf: string, parsed: bool) {
    var s := SkipBlanks(r);
    if buf == [] then !parsed && SkipBlanks(q) == s
    else
      && s != [] && !IsMark(s[0]) && TakeWord(s) != []
      && (if parsed then TakeWord(s) == buf && SkipBlanks(s[|buf|..]) == SkipBlanks(q)
          else s == buf + q && TakeWord(s) == buf + TakeWord(q))
  }

  lemma ReadBlank(r: string, q: string, buf: string, parsed: bool)
    requires Reading(r, q, buf, parsed) && q != [] && IsBlank(q[0])
    ensures Reading(r, q[1..], buf, parsed || buf != [])
  {
    if buf != [] && !parsed { assert (buf + q)[|buf|..] == q; }
  }

  lemma ReadCharacter(r: string, q: string, buf: string)
    requires Reading(r, q, buf, false) && q != [] && !IsBlank(q[0]) && !IsMark(q[0])
    ensures Reading(r, q[1..], buf + [q[0]], false)
  {
    var c, t := q[0], q[1..];
    assert q == [c] + t && TakeWord(q) == [c] + TakeWord(t);
    if buf == [] {
      assert SkipBlanks(q) == q && [] + [c] == [c];
    } else {
      hide TakeWord, SkipBlanks;
      Assoc(buf, [c], t);
      Assoc(buf, [c], TakeWord(t));
    }
  }

  lemma ReadNothing(r: string, q: string)
    requires Reading(r, q, [], false) && r != [] && (q == [] || IsMark(q[0]))
    ensures NextToken(r) == Some(if q == [] then (Eof, []) else (Mark(q[0]), q[1..]))
  {
  }

  lemma ReadWord(r: string, q: string, buf: string, parsed: bool)
    requires Reading(r, q, buf, parsed) && r != [] && buf != []
    requires q == [] || IsMark(q[0]) || (parsed && !IsBlank(q[0]))
    ensures NextToken(r) == Some((WordToken(buf), q))
  {
    assert SkipBlanks(q) == q;
    if !parsed {
      assert buf + [] == buf;
      assert (buf + q)[|buf|..] == q;
    }
  }

  /** The character loop of next_token. */
  method NextTokenLoop(text: string, begin: nat) returns (token: Token, src: nat)
    requires begin < |text|
    ensures src <= |text| && NextToken(text[begin..]) == Some((token, text[src..]))
  {
    hide NextToken, Reading, SkipBlanks, TakeWord;
    var buf := "";
    var parsed := false;
    src := begin;
    ghost var r := text[begin..];
    ReadStart(r);
    while src < |text|
      invariant begin <= src <= |text| && (buf == [] ==> !parsed)
      invariant Reading(r, text[src..], buf, parsed)
    {
      var ch := text[src];
      assert text[src..][0] == ch && text[src..][1..] == text[src + 1..];
      if IsBlank(ch) {
        ReadBlank(r, text[src..], buf, parsed);
        if buf != [] {
          parsed := true;
        }
      } else if IsMark(ch) {
        if buf == [] {
          ReadNothing(r, text[src..]);
          token, src := Mark(ch), src + 1;
          return;
        }
        break;
      } else {
        if parsed { break; }
        ReadCharacter(r, text[src..], buf);
        buf := buf + [ch];
      }
      src := src + 1;
    }
    if buf == [] {
      assert text[src..] == [];
      ReadNothing(r, text[src..]);
      token := Eof;
    } else {
      ReadWord(r, text[src..], buf, parsed);
      token := WordToken(buf);
    }
  }

  lemma ReadStart(r: string)
    ensures Reading(r, r, [], false)
  {
  }

  // ---------- parsing ----------

  datatype Symbol = Symbol(name: Option<string>, tag: Option<string>, args: seq<Symbol>, body: Option<string>,
                           isPublic: bool)

  /** A symbol just allocated. */
  const NEW_SYMBOL := Symbol(None, None, [], None, false)

  /** The locals of code_parse_internal and the two lists it fills. */
  datatype State = State(nameStack: seq<string>, sym: Option<Symbol>, func: Symbol, isArgs: bool, isPublic: bool,
                         vars: seq<Symbol>, funcs: seq<Symbol>)

  const START := State([], None, NEW_SYMBOL, false, false, [], [])

  /** Popping an empty name stack gives NULL. */
  function Top(stack: seq<string>): Option<string> {
    if stack == [] then None else Some(stack[|stack| - 1])
  }

  function SymOrNew(st: State): Symbol {
    if st.sym.Some? then st.sym.value else NEW_SYMBOL
  }

  /** The symbol with the name on top of the stack. */
  function Named(st: State): Symbol {
    SymOrNew(st).(name := Top(st.nameStack))
  }

  /** One turn of the token loop, for all tokens but braces and equal marks. */
  function OnToken(st: State, token: Token): State {
    if token == Mark(':') then
      st.(sym := Some(SymOrNew(st).(tag := Top(st.nameStack))), nameStack := Popped(st.nameStack))
    else if token == Mark(';') then
      if st.nameStack != [] then
        st.(vars := st.vars + [Named(st).(isPublic := st.isPublic)], nameStack := Popped(st.nameStack), sym := None,
          isPublic := false)
      else st.(isPublic := false)
    else if token == Mark(',') then
      if st.isArgs then
        st.(func := st.func.(args := st.func.args + [Named(st)]), nameStack := Popped(st.nameStack), sym := None)
      else
        st.(vars := st.vars + [Named(st).(isPublic := st.isPublic)], nameStack := Popped(st.nameStack), sym := None)
    else if token == Mark('(') || token == Mark(')') then
      if !st.isArgs then st.(isArgs := true, func := Named(st), sym := None, nameStack := Popped(st.nameStack))
      else
        var f := if st.nameStack != [] then st.func.(args := st.func.args + [Named(st)]) else st.func;
        st.(isArgs := false, nameStack := Popped(st.nameStack), func := f, sym := Some(f))
    else if token == Public then st.(isPublic := true)
    else if token.Identifier? then st.(nameStack := st.nameStack + [token.str])
    else st
  }

  /** Skips tokens to the next comma or semicolon, which takes the place of the equal mark. */
  function SkipValue(r: string): (t: (Option<Token>, string))
    ensures |t.1| <= |r|
    decreases |r|
  {
    match NextToken(r)
    case None => (None, r)
    case Some(t) => if t.0 == Mark(',') || t.0 == Mark(';') then (Some(t.0), t.1) else SkipValue(t.1)
  }

  function AfterValue(st: State, token: Option<Token>): State {
    if token.Some? then OnToken(st, token.value) else st
  }

  /** The text behind the brace that closes the given depth. */
  function SkipBody(r: string, depth: int): (t: string)
    ensures |t| <= |r|
    decreases |r|
  {
    match NextToken(r)
    case None => r
    case Some(t) =>
      var d := if t.0 == Mark('{') then depth + 1 else if t.0 == Mark('}') then depth - 1 else depth;
      if d == 0 then t.1 else SkipBody(t.1, d)
  }

  /** What is copied as the body when it starts at r and the text behind its closing brace is t. */
  function BodyOf(r: string, t: string): Option<string>
    requires |t| <= |r|
  {
    if |r| - |t| > 1 then Some(r[..|r| - |t| - 2]) else None
  }

  /** The end of a function; the source follows a NULL pointer when there is no symbol. */
  function OnBody(st: State, r: string, t: string): Option<State>
    requires |t| <= |r|
  {
    if st.sym.None? then None
    else
      var body := BodyOf(r, t);
      var f := st.sym.value.(isPublic := st.isPublic, body := if body.Some? then body else st.sym.value.body);
      Some(st.(funcs := st.funcs + [f], sym := None, isPublic := false))
  }

  /** The token loop of code_parse_internal; None where it would follow a NULL pointer. */
  function Parse(r: string, st: State): Option<State>
    decreases |r|
  {
    match NextToken(r)
    case None => Some(st)
    case Some(t) =>
      if t.0 == Eof then Some(st)
      else if t.0 == Mark('=') then
        var v := SkipValue(t.1);
        Parse(v.1, AfterValue(st, v.0))
      else if t.0 == Mark('{') || t.0 == Mark('}') then
        var rest := SkipBody(t.1, 1);
        match OnBody(st, t.1, rest) {
          case None => None
          case Some(u) => Parse(rest, u)
        }
      else Parse(t.1, OnToken(st, t.0))
  }

  /** The loop after an equal mark. */
  method SkipValueLoop(text: string, start: nat) returns (tmp: Option<Token>, begin: nat)
    requires start <= |text|
    ensures start <= begin <= |text| && (tmp, text[begin..]) == SkipValue(text[start..])
  {
    tmp, begin := None, start;
    while begin < |text|
      invariant start <= begin <= |text| && SkipValue(text[begin..]) == SkipValue(text[start..])
    {
      var t;
      t, begin := NextTokenLoop(text, begin);
      if t == Mark(',') || t == Mark(';') { return Some(t), begin; }
    }
  }

  function Deeper(t: Token, depth: int): int {
    if t == Mark('{') then depth + 1 else if t == Mark('}') then depth - 1 else depth
  }

  lemma SkipBodyStep(r: string, depth: int)
    requires r != []
    ensures var (t, rest) := NextToken(r).value;
      SkipBody(r, depth) == if Deeper(t, depth) == 0 then rest else SkipBody(rest, Deeper(t, depth))
  {
  }

  /** The loop after an opening brace. */
  method SkipBodyLoop(text: string, body: nat) returns (begin: nat)
    requires body <= |text|
    ensures body <= begin <= |text| && text[begin..] == SkipBody(text[body..], 1)
  {
    hide SkipBody, NextToken;
    var depth := 1;
    begin := body;
    while begin < |text|
      invariant body <= begin <= |text| && depth != 0
      invariant SkipBody(text[begin..], depth) == SkipBody(text[body..], 1)
    {
      SkipBodyStep(text[begin..], depth);
      ghost var was := begin;
      var tmp;
      tmp, begin := NextTokenLoop(text, begin);
      TokenShorter(text[was..]);
      if tmp == Mark('{') {
        depth := depth + 1;
      } else if tmp == Mark('}') {
        depth := depth - 1;
      }
      if depth == 0 { return; }
    }
    SkipBodyEnd(text[begin..], depth);
  }

  lemma TokenShorter(r: string)
    requires r != []
    ensures |NextToken(r).value.1| < |r|
  {
  }

  lemma SkipBodyEnd(r: string, depth: int)
    requires r == []
    ensures SkipBody(r, depth) == r
  {
  }

  lemma SameBody(text: string, body: nat, begin: nat)
    requires body <= begin <= |text|
    ensures BodyOf(text[body..], text[begin..]) == if begin - 1 > body then Some(text[body..begin - 2]) else None
  {
    if begin - 1 > body {
      assert text[body..][..begin - body - 2] == text[body..begin - 2];
    }
  }

  lemma ParseStep(r: string, st: State)
    requires r != []
    ensures var (t, rest) := NextToken(r).value;
      && (t == Eof ==> Parse(r, st) == Some(st))
      && (t == Mark('=') ==> Parse(r, st) == Parse(SkipValue(rest).1, AfterValue(st, SkipValue(rest).0)))
      && (t == Mark('{') || t == Mark('}') ==>
            var u := OnBody(st, rest, SkipBody(rest, 1));
            Parse(r, st) == if u.None? then None else Parse(SkipBody(rest, 1), u.value))
      && (t !in {Eof, Mark('='), Mark('{'), Mark('}')} ==> Parse(r, st) == Parse(rest, OnToken(st, t)))
  {
  }

  /** code_parse_internal. */
  method CodeParse(text: string) returns (code: Option<State>)
    ensures code == Parse(text, START)
  {
    hide Parse, OnToken, NextToken, SkipBody, SkipValue, BodyOf;
    var begin := 0;
    var st := START;
    assert text[0..] == text;
    while begin < |text|
      invariant begin <= |text| && Parse(text[begin..], st) == Parse(text, START)
    {
      ParseStep(text[begin..], st);
      var token;
      token, begin := NextTokenLoop(text, begin);
      if token == Eof { return Some(st); }
      if token == Mark('=') {
        var tmp;
        tmp, begin := SkipValueLoop(text, begin);
        st := AfterValue(st, tmp);
      } else if token == Mark('{') || token == Mark('}') {
        var body := begin;
        begin := SkipBodyLoop(text, body);
        if st.sym.None? { return None; }
        var sym := st.sym.value;
        SameBody(text, body, begin);
        if begin - 1 > body {
          sym := sym.(body := Some(text[body..begin - 2]));
        }
        sym := sym.(isPublic := st.isPublic);
        st := st.(funcs := st.funcs + [sym], sym := None, isPublic := false);
      } else {
        st := OnToken(st, token);
      }
    }
    assert text[begin..] == [];
    ParseEnd(st);
    code := Some(st);
  }

  lemma ParseEnd(st: State)
    ensures Parse([], st) == Some(st)
  {
  }

  // ---------- merging and printing ----------

  /** A symbol goes to the end, and the first one with its name goes out. */
  function Replace(list: seq<Symbol>, sym: Symbol): seq<Symbol> {
    var i := FirstNamed(list, sym.name);
    (if i < |list| then list[..i] + list[i + 1..] else list) + [sym]
  }

  /** The names that _push_symbol compares, up to the first match, are there. */
  predicate Comparable(list: seq<Symbol>, sym: Symbol) {
    forall j | 0 <= j < |list| && j <= FirstNamed(list, sym.name) :: list[j].name.Some? && sym.name.Some?
  }

  /** _push_symbol; None where it would compare a NULL pointer. */
  function PushSymbol(list: seq<Symbol>, sym: Symbol): Option<seq<Symbol>> {
    if Comparable(list, sym) then Some(Replace(list, sym)) else None
  }

  function FirstNamed(list: seq<Symbol>, name: Option<string>): (i: nat)
    ensures i <= |list| && (i < |list| ==> list[i].name == name)
    ensures forall j | 0 <= j < i :: list[j].name != name
  {
    if list == [] || list[0].name == name then 0
    else
      var i := FirstNamed(list[1..], name);
      assert forall j | 1 <= j < i + 1 :: list[j] == list[1..][j - 1];
      i + 1
  }

  function PushAll(list: seq<Symbol>, syms: seq<Symbol>): Option<seq<Symbol>>
    decreases |syms|
  {
    if syms == [] then Some(list)
    else
      var r := PushSymbol(list, syms[0]);
      if r.None? then None else PushAll(r.value, syms[1..])
  }

  predicate AllNamed(syms: seq<Symbol>) { forall s | s in syms :: s.name.Some? }

  /** The white space of isspace in the C locale. */
  predicate IsSpace(c: char) { IsBlank(c) || c == '\r' || c == '\U{000b}' || c == '\U{000c}' }

  /** eina_strbuf_rtrim. */
  function RTrim(b: string): (t: string)
    ensures t <= b && (t != [] ==> !IsSpace(t[|t| - 1])) && forall i | |t| <= i < |b| :: IsSpace(b[i])
  {
    if b != [] && IsSpace(b[|b| - 1]) then RTrim(b[..|b| - 1]) else b
  }

  function Text(o: Option<string>): string {
    if o.Some? then o.value else ""
  }

  /** A tag and a name, which must not be NULL: see WritableVars and WritableFuncs. */
  function Decl(sym: Symbol): string {
    (if sym.tag.Some? then sym.tag.value + ":" else "") + Text(sym.name)
  }

  /** Declarations with commas between them; more says that others stand in front. */
  function Decls(syms: seq<Symbol>, more: bool): string {
    if syms == [] then "" else (if more then ", " else "") + Decl(syms[0]) + Decls(syms[1..], true)
  }

  /** The public variables among the rest of the list; started says that one has been printed before. */
  function VarsFrom(vars: seq<Symbol>, started: bool): string {
    if vars == [] then (if started then ";\n" else "")
    else if !vars[0].isPublic then VarsFrom(vars[1..], started)
    else (if started then ", " else "public ") + Decl(vars[0]) + VarsFrom(vars[1..], true)
  }

  /** What a function's text starts with, up to its arguments. */
  function Header(f: Symbol): string {
    "\n" + (if f.isPublic then "public " else "") + Decl(f) + "("
  }

  function PrintFunc(f: Symbol): string {
    Header(f) + Decls(f.args, false) + ") {" + RTrim(Text(f.body)) + "\n}\n"
  }

  function PrintFuncs(funcs: seq<Symbol>): string {
    if funcs == [] then "" else PrintFunc(funcs[0]) + PrintFuncs(funcs[1..])
  }

  /** No NULL name is printed. */
  predicate WritableVars(vars: seq<Symbol>) { forall v | v in vars && v.isPublic :: v.name.Some? }

  predicate WritableFuncs(funcs: seq<Symbol>) { forall f | f in funcs :: f.name.Some? && AllNamed(f.args) }

  /** The text script_rewrite builds from the merged lists. */
  function Print(vars: seq<Symbol>, funcs: seq<Symbol>): string {
    VarsFrom(vars, false) + PrintFuncs(funcs)
  }

  // ---------- the merged message handler ----------

  predicate IsMessage(f: Symbol) { f.name == Some("message") }

  function Messages(funcs: seq<Symbol>): seq<Symbol> {
    if funcs == [] then [] else (if IsMessage(funcs[0]) then [funcs[0]] else []) + Messages(funcs[1..])
  }

  function Others(funcs: seq<Symbol>): seq<Symbol> {
    if funcs == [] then [] else (if IsMessage(funcs[0]) then [] else [funcs[0]]) + Others(funcs[1..])
  }

  /** The bodies behind the text b, each trimmed together with all that stands in front of it.  The source
      does not test them for NULL before it measures their length. */
  function JoinBodies(b: string, ms: seq<Symbol>): Option<string>
    decreases |ms|
  {
    if ms == [] then Some(b)
    else if ms[0].body.None? then None
    else JoinBodies(RTrim(b + ms[0].body.value) + "\n", ms[1..])
  }

  lemma {:induction false} JoinDefined(b: string, ms: seq<Symbol>)
    ensures JoinBodies(b, ms).Some? <==> forall f | f in ms :: f.body.Some?
    decreases |ms|
  {
    if ms != [] && ms[0].body.Some? {
      JoinDefined(RTrim(b + ms[0].body.value) + "\n", ms[1..]);
      assert ms == [ms[0]] + ms[1..];
    }
  }

  /** Msg_Type:type, id, ... */
  const MESSAGE_ARGS := [Symbol(Some("type"), Some("Msg_Type"), [], None, false),
                         Symbol(Some("id"), None, [], None, false),
                         Symbol(Some("..."), None, [], None, false)]

  /** One public function for all message handlers. */
  function MessageFunc(ms: seq<Symbol>): Symbol {
    Symbol(Some("message"), None, MESSAGE_ARGS, JoinBodies("", ms), true)
  }

  const MESSAGE_HEAD := "\npublic message(Msg_Type:type, id, ...) {"

  lemma DeclsStep(sym: Symbol, rest: seq<Symbol>, more: bool)
    ensures Decls([sym] + rest, more) == (if more then ", " else "") + Decl(sym) + Decls(rest, true)
  {
    assert ([sym] + rest)[1..] == rest;
  }

  lemma MessageArgs()
    ensures Decls(MESSAGE_ARGS, false) == "Msg_Type:type, id, ..."
  {
    var a, b, c := MESSAGE_ARGS[0], MESSAGE_ARGS[1], MESSAGE_ARGS[2];
    assert Decls([], true) == "";
    hide Decls;
    assert MESSAGE_ARGS == [a] + ([b] + ([c] + []));
    DeclsStep(c, [], true);
    DeclsStep(b, [c] + [], true);
    DeclsStep(a, [b] + ([c] + []), false);
    assert Decl(a) == "Msg_Type:type";
  }

  lemma MessageHeader(ms: seq<Symbol>)
    ensures Header(MessageFunc(ms)) == "\npublic message("
  {
    var f := MessageFunc(ms);
    assert f.isPublic && Decl(f) == "message";
    hide Decl, MessageFunc;
  }

  lemma HeadParts()
    ensures "\npublic message(" + "Msg_Type:type, id, ..." + ") {" == MESSAGE_HEAD
  {
  }

  lemma MessageHead(ms: seq<Symbol>)
    ensures Header(MessageFunc(ms)) + Decls(MESSAGE_ARGS, false) + ") {" == MESSAGE_HEAD
  {
    hide Header, MessageFunc, Decls, MESSAGE_ARGS, MESSAGE_HEAD;
    MessageHeader(ms);
    MessageArgs();
    HeadParts();
  }

  lemma HeadEndsInBrace(buf: string)
    ensures MESSAGE_HEAD != [] && !IsSpace((buf + MESSAGE_HEAD)[|buf + MESSAGE_HEAD| - 1])
  {
    assert MESSAGE_HEAD[|MESSAGE_HEAD| - 1] == '{';
    BraceIsNoSpace(buf + MESSAGE_HEAD);
  }

  /** Joined bodies end in their last newline, and nothing in front of it is white space. */
  lemma {:induction false} JoinEnds(b: string, ms: seq<Symbol>)
    requires ms != [] && JoinBodies(b, ms).Some?
    ensures JoinBodies(b, ms).value == RTrim(JoinBodies(b, ms).value) + "\n"
    decreases |ms|
  {
    var t := RTrim(b + ms[0].body.value);
    if |ms| == 1 {
      assert (t + "\n")[..|t|] == t;
    } else {
      JoinEnds(t + "\n", ms[1..]);
    }
  }

  /** eina_strbuf_rtrim on a buffer that ends in something other than white space before the body. */
  lemma {:induction false} TrimBuffer(a: string, b: string)
    requires a != [] && !IsSpace(a[|a| - 1])
    ensures RTrim(a + b) == a + RTrim(b)
    decreases |b|
  {
    if b == [] {
      assert a + b == a;
    } else {
      assert (a + b)[..|a + b| - 1] == a + b[..|b| - 1];
      if IsSpace(b[|b| - 1]) { TrimBuffer(a, b[..|b| - 1]); }
    }
  }

  /** The loop over the public variables. */
  method AppendVars(vars: seq<Symbol>, buf0: string) returns (r: Option<string>)
    ensures r == if WritableVars(vars) then Some(buf0 + VarsFrom(vars, false)) else None
  {
    hide Decl;
    var buf := buf0;
    var count := 0;
    assert vars[0..] == vars;
    for i := 0 to |vars|
      invariant forall j | 0 <= j < i && vars[j].isPublic :: vars[j].name.Some?
      invariant count >= 0 && buf + VarsFrom(vars[i..], count > 0) == buf0 + VarsFrom(vars, false)
    {
      ghost var rest := vars[i..];
      assert rest[0] == vars[i] && rest[1..] == vars[i + 1..];
      if vars[i].isPublic {
        ghost var b, comma := buf, if count > 0 then ", " else "public ";
        if count > 0 {
          buf := buf + ", ";
        } else {
          buf := buf + "public ";
        }
        count := count + 1;
        if vars[i].name.None? { return None; }
        buf := buf + Decl(vars[i]);
        Assoc(b, comma, Decl(vars[i]));
        Assoc(b, comma + Decl(vars[i]), VarsFrom(vars[i + 1..], true));
      }
    }
    assert vars[|vars|..] == [];
    if count > 0 {
      buf := buf + ";\n";
    } else {
      assert buf + "" == buf;
    }
    r := Some(buf);
  }

  /** The loop over the arguments of a function. */
  method AppendArgs(args: seq<Symbol>, buf0: string) returns (r: Option<string>)
    ensures r == if AllNamed(args) then Some(buf0 + Decls(args, false)) else None
  {
    hide Decl;
    var buf := buf0;
    var count := 0;
    assert args[0..] == args;
    for i := 0 to |args|
      invariant forall j | 0 <= j < i :: args[j].name.Some?
      invariant count == i && buf + Decls(args[i..], i > 0) == buf0 + Decls(args, false)
    {
      assert args[i..][0] == args[i] && args[i..][1..] == args[i + 1..];
      ghost var b := buf;
      if count > 0 {
        buf := buf + ", ";
      }
      count := count + 1;
      if args[i].name.None? { return None; }
      buf := buf + Decl(args[i]);
      assert b + Decls(args[i..], i > 0) == buf + Decls(args[i + 1..], true);
    }
    assert args[|args|..] == [];
    assert buf == buf + "";
    r := Some(buf);
  }

  /** One function. */
  method AppendFunc(f: Symbol, buf0: string) returns (r: Option<string>)
    ensures r == if f.name.Some? && AllNamed(f.args) then Some(buf0 + PrintFunc(f)) else None
  {
    hide RTrim, IsSpace, Decl, Decls, AllNamed;
    var buf := buf0 + "\n";
    if f.isPublic {
      buf := buf + "public ";
    }
    if f.name.None? { return None; }
    buf := buf + Decl(f) + "(";
    assert buf == buf0 + Header(f);
    buf :- AppendArgs(f.args, buf);
    buf := buf + ") {";
    BraceIsNoSpace(buf);
    TrimBuffer(buf, Text(f.body));
    if f.body.Some? {
      buf := RTrim(buf + f.body.value);
    } else {
      NothingToTrim();
    }
    buf := buf + "\n}\n";
    assert buf == buf0 + PrintFunc(f);
    r := Some(buf);
  }

  lemma BraceIsNoSpace(buf: string)
    requires buf != [] && buf[|buf| - 1] == '{'
    ensures !IsSpace(buf[|buf| - 1])
  {
  }

  lemma NothingToTrim()
    ensures RTrim("") == ""
  {
  }

  /** The loop over the functions. */
  method AppendFuncs(funcs: seq<Symbol>, buf0: string) returns (r: Option<string>)
    ensures r == if WritableFuncs(funcs) then Some(buf0 + PrintFuncs(funcs)) else None
  {
    hide PrintFunc, AllNamed;
    var buf := buf0;
    assert funcs[0..] == funcs;
    for i := 0 to |funcs|
      invariant forall j | 0 <= j < i :: funcs[j].name.Some? && AllNamed(funcs[j].args)
      invariant buf + PrintFuncs(funcs[i..]) == buf0 + PrintFuncs(funcs)
    {
      ghost var rest := funcs[i..];
      assert rest[0] == funcs[i] && rest[1..] == funcs[i + 1..];
      Assoc(buf, PrintFunc(funcs[i]), PrintFuncs(funcs[i + 1..]));
      buf :- AppendFunc(funcs[i], buf);
    }
    assert funcs[|funcs|..] == [];
    assert buf + "" == buf;
    r := Some(buf);
  }

  /** The loop over the message handlers: together they are printed as one function. */
  method AppendMessage(ms: seq<Symbol>, buf0: string) returns (r: Option<string>)
    ensures r == if JoinBodies("", ms).None? then None
                 else Some(buf0 + if ms == [] then "" else PrintFunc(MessageFunc(ms)))
  {
    hide RTrim, IsSpace, PrintFunc, MessageFunc, MESSAGE_HEAD;
    var buf := buf0;
    if ms != [] {
      HeadEndsInBrace(buf);
      buf := buf + MESSAGE_HEAD;
      ghost var head, b := buf, "";
      assert ms[0..] == ms && buf == head + b;
      for i := 0 to |ms|
        invariant buf == head + b && JoinBodies(b, ms[i..]) == JoinBodies("", ms)
      {
        assert ms[i..][0] == ms[i] && ms[i..][1..] == ms[i + 1..];
        if ms[i].body.None? { return None; }
        ghost var t := ms[i].body.value;
        buf := buf + ms[i].body.value;
        TrimBuffer(head, b + t);
        Assoc(head, b, t);
        b := RTrim(b + t) + "\n";
        buf := RTrim(buf);
        buf := buf + "\n";
      }
      assert ms[|ms|..] == [];
      buf := buf + "}\n";
      MessageText(ms);
      assert buf == buf0 + PrintFunc(MessageFunc(ms));
    } else {
      assert buf + "" == buf;
    }
    r := Some(buf);
  }

  lemma MessageText(ms: seq<Symbol>)
    requires ms != [] && JoinBodies("", ms).Some?
    ensures PrintFunc(MessageFunc(ms)) == MESSAGE_HEAD + JoinBodies("", ms).value + "}\n"
  {
    hide RTrim, Header, Decls, JoinBodies;
    MessageHead(ms);
    JoinEnds("", ms);
    var t := RTrim(JoinBodies("", ms).value);
    assert MESSAGE_HEAD + t + "\n}\n" == MESSAGE_HEAD + (t + "\n") + "}\n";
  }

  /** The loop of _push_symbol. */
  method Push(list: seq<Symbol>, sym: Symbol) returns (r: Option<seq<Symbol>>)
    ensures r == PushSymbol(list, sym)
  {
    for i := 0 to |list|
      invariant i <= FirstNamed(list, sym.name)
      invariant forall j | 0 <= j < i :: list[j].name.Some? && sym.name.Some?
    {
      if list[i].name.None? || sym.name.None? {
        assert !Comparable(list, sym);
        return None;
      }
      if list[i].name == sym.name {
        assert FirstNamed(list, sym.name) == i && Comparable(list, sym);
        return Some(list[..i] + list[i + 1..] + [sym]);
      }
    }
    assert FirstNamed(list, sym.name) == |list| && Comparable(list, sym);
    r := Some(list + [sym]);
  }

  /** The loop over one script's variables. */
  method PushVars(vars0: seq<Symbol>, syms: seq<Symbol>) returns (r: Option<seq<Symbol>>)
    ensures r == PushAll(vars0, syms)
  {
    hide PushSymbol;
    var vars := vars0;
    assert syms[0..] == syms;
    for i := 0 to |syms|
      invariant PushAll(vars, syms[i..]) == PushAll(vars0, syms)
    {
      assert syms[i..][0] == syms[i] && syms[i..][1..] == syms[i + 1..];
      vars :- Push(vars, syms[i]);
    }
    assert syms[|syms|..] == [];
    r := Some(vars);
  }

  /** The loop over one script's functions: message handlers are set aside. */
  method PushFuncs(func0: seq<Symbol>, message0: seq<Symbol>, syms: seq<Symbol>)
      returns (r: Option<(seq<Symbol>, seq<Symbol>)>)
    ensures var f := PushAll(func0, Others(syms));
      r == if f.Some? && AllNamed(syms) then Some((f.value, message0 + Messages(syms))) else None
  {
    hide PushSymbol, PushAll, Others, Messages;
    var func, message := func0, message0;
    assert syms[0..] == syms;
    for i := 0 to |syms|
      invariant forall j | 0 <= j < i :: syms[j].name.Some?
      invariant PushAll(func, Others(syms[i..])) == PushAll(func0, Others(syms))
      invariant message + Messages(syms[i..]) == message0 + Messages(syms)
    {
      if syms[i].name.None? { return None; }
      SortStep(func, syms, i);
      if !IsMessage(syms[i]) {
        func :- Push(func, syms[i]);
      } else {
        Assoc(message, [syms[i]], Messages(syms[i + 1..]));
        message := message + [syms[i]];
      }
    }
    SortEnd(func, syms[|syms|..]);
    assert message + [] == message;
    r := Some((func, message));
  }

  lemma SortStep(func: seq<Symbol>, syms: seq<Symbol>, i: nat)
    requires i < |syms|
    ensures IsMessage(syms[i]) ==>
              Others(syms[i..]) == Others(syms[i + 1..]) && Messages(syms[i..]) == [syms[i]] + Messages(syms[i + 1..])
    ensures !IsMessage(syms[i]) ==> Messages(syms[i..]) == Messages(syms[i + 1..])
    ensures !IsMessage(syms[i]) ==>
              var r := PushSymbol(func, syms[i]);
              PushAll(func, Others(syms[i..])) == if r.None? then None else PushAll(r.value, Others(syms[i + 1..]))
  {
    hide PushSymbol;
    var rest := syms[i..];
    assert rest[0] == syms[i] && rest[1..] == syms[i + 1..];
    if !IsMessage(syms[i]) { assert Others(rest)[1..] == Others(syms[i + 1..]); }
  }

  lemma SortEnd(func: seq<Symbol>, syms: seq<Symbol>)
    requires syms == []
    ensures PushAll(func, Others(syms)) == Some(func) && Messages(syms) == []
  {
  }

  /** Variables, functions, and message handlers. */
  datatype Merged = Merged(vars: seq<Symbol>, funcs: seq<Symbol>, messages: seq<Symbol>) {
    /** The names of all functions are compared with message. */
    function Push(code: State): Option<Merged> {
      var v, f := PushAll(vars, code.vars), PushAll(funcs, Others(code.funcs));
      if v.Some? && f.Some? && AllNamed(code.funcs)
      then Some(Merged(v.value, f.value, messages + Messages(code.funcs)))
      else None
    }

    /** The functions that are printed: the handlers come last, as one function. */
    function Functions(): seq<Symbol> {
      funcs + if messages == [] then [] else [MessageFunc(messages)]
    }

    predicate Writable() {
      WritableVars(vars) && WritableFuncs(funcs) && JoinBodies("", messages).Some?
    }
  }

  const NOTHING := Merged([], [], [])

  /** The lists script_rewrite gathers, starting from those given. */
  function Gathered(m: Merged, bases: seq<State>, code: State): Option<Merged>
    decreases |bases|
  {
    if bases == [] then m.Push(code)
    else
      var n := m.Push(bases[0]);
      if n.None? then None else Gathered(n.value, bases[1..], code)
  }

  /** The text of script_rewrite: the symbols of the base groups, then those of the group itself.  None where
      it would follow a NULL pointer. */
  function Rewrite(bases: seq<State>, code: State): Option<string> {
    var m := Gathered(NOTHING, bases, code);
    if m.Some? && m.value.Writable() then Some(Print(m.value.vars, m.value.Functions())) else None
  }

  /** script_rewrite, after parsing. */
  method ScriptRewrite(bases: seq<State>, code: State) returns (r: Option<string>)
    ensures r == Rewrite(bases, code)
  {
    hide VarsFrom, PrintFuncs, PrintFunc, MessageFunc, PushAll, Others, Messages, AllNamed, JoinBodies;
    hide WritableVars, WritableFuncs;
    var vars, funcs, message := [], [], [];
    assert bases[0..] == bases;
    for i := 0 to |bases|
      invariant Gathered(Merged(vars, funcs, message), bases[i..], code) == Gathered(NOTHING, bases, code)
    {
      assert bases[i..][0] == bases[i] && bases[i..][1..] == bases[i + 1..];
      vars :- PushVars(vars, bases[i].vars);
      var both :- PushFuncs(funcs, message, bases[i].funcs);
      funcs, message := both.0, both.1;
    }
    vars :- PushVars(vars, code.vars);
    var both :- PushFuncs(funcs, message, code.funcs);
    funcs, message := both.0, both.1;
    var buf :- AppendVars(vars, "");
    buf :- AppendFuncs(funcs, buf);
    buf :- AppendMessage(message, buf);
    var m := Merged(vars, funcs, message);
    assert bases[|bases|..] == [] && Gathered(NOTHING, bases, code) == Some(m);
    FunctionsPrinted(m);
    assert "" + VarsFrom(vars, false) == VarsFrom(vars, false);
    Assoc(VarsFrom(vars, false), PrintFuncs(funcs), if message == [] then "" else PrintFunc(MessageFunc(message)));
    r := Some(buf);
  }

  lemma FunctionsPrinted(m: Merged)
    ensures PrintFuncs(m.Functions())
         == PrintFuncs(m.funcs) + if m.messages == [] then "" else PrintFunc(MessageFunc(m.messages))
  {
    hide PrintFunc, MessageFunc;
    if m.messages == [] {
      assert m.Functions() == m.funcs;
    } else {
      PrintOneMore(m.funcs, MessageFunc(m.messages));
    }
  }

  lemma {:induction false} PrintOneMore(funcs: seq<Symbol>, f: Symbol)
    ensures PrintFuncs(funcs + [f]) == PrintFuncs(funcs) + PrintFunc(f)
    decreases |funcs|
  {
    hide PrintFunc;
    if funcs == [] {
      assert funcs + [f] == [f] && [f][1..] == [];
    } else {
      assert (funcs + [f])[0] == funcs[0] && (funcs + [f])[1..] == funcs[1..] + [f];
      PrintOneMore(funcs[1..], f);
      Assoc(PrintFunc(funcs[0]), PrintFuncs(funcs[1..]), PrintFunc(f));
    }
  }
}
