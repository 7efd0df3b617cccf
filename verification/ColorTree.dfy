/** The color tree of edje_cc_out.c: reading nested blocks of quoted color classes. */
module ColorTree {
  import opened Basics

  // ---------- tokens ----------

  predicate IsMark(c: char) { c == '{' || c == '}' || c == ';' }

  /** The loop of color_tree_token_next: begin says that a quote is open, dst is the token so far. */
  function TokenFrom(src: string, begin: bool, dst: string): (t: (string, string))
    ensures |t.1| <= |src| && (src != [] ==> |t.1| < |src|)
  {
    if src == [] then (dst, [])
    else if src[0] == '"' then (if begin then (dst, src[1..]) else TokenFrom(src[1..], true, dst))
    else if !begin && IsMark(src[0]) then (dst + [src[0]], src[1..])
    else TokenFrom(src[1..], begin, if begin then dst + [src[0]] else dst)
  }

  /** The tokens process_color_tree goes through; it reads one even from an empty text. */
  function Tokens(src: string): (r: seq<string>)
    ensures r != []
    decreases |src|
  {
    var (token, rest) := TokenFrom(src, false, "");
    [token] + if rest == [] then [] else Tokens(rest)
  }

  /** color_tree_token_next. */
  method TokenNext(text: string, start: nat) returns (token: string, src: nat)
    requires start <= |text|
    ensures start <= src <= |text| && (token, text[src..]) == TokenFrom(text[start..], false, "")
  {
    var dst := "";
    var begin, next := false, false;
    src := start;
    while !next
      invariant start <= src <= |text|
      invariant !next ==> TokenFrom(text[src..], begin, dst) == TokenFrom(text[start..], false, "")
      invariant next ==> (dst, text[src..]) == TokenFrom(text[start..], false, "")
      invariant !begin && !next ==> dst == ""
      decreases |text| - src, !next
    {
      if src == |text| { break; }
      var c := text[src];
      assert text[src..][0] == c && text[src..][1..] == text[src + 1..];
      if c == '"' {
        if !begin { begin := true; } else { next := true; }
      } else if !begin && IsMark(c) {
        dst := dst + [c];
        next := true;
      } else if begin {
        dst := dst + [c];
      }
      src := src + 1;
    }
    token := dst;
  }

  // ---------- the tree ----------

  /** Edje_Color_Tree_Node. */
  datatype TreeNode = TreeNode(name: string, classes: seq<string>)

  /** edje_file->color_tree, the root classes, and the open nodes as positions in the tree. */
  datatype Tree = Tree(nodes: seq<TreeNode>, roots: seq<string>, open: seq<nat>)

  /** color_tree_parent_node_get: the first node that lists the class, the number of nodes if there is none. */
  function ParentNode(nodes: seq<TreeNode>, c: string): (i: nat)
    ensures i <= |nodes| && (i < |nodes| ==> c in nodes[i].classes)
    ensures forall j | 0 <= j < i :: c !in nodes[j].classes
  {
    if nodes == [] || c in nodes[0].classes then 0
    else
      var i := ParentNode(nodes[1..], c);
      assert forall j | 1 <= j < i + 1 :: nodes[j] == nodes[1..][j - 1];
      1 + i
  }

  /** Adds a class to the innermost open node. */
  function WithClass(t: Tree, c: string): Tree {
    if t.open != [] && t.open[|t.open| - 1] < |t.nodes| then
      var i := t.open[|t.open| - 1];
      t.(nodes := t.nodes[i := t.nodes[i].(classes := t.nodes[i].classes + [c])])
    else t
  }

  predicate IsMarkToken(token: string) { token == "{" || token == "}" || token == ";" }

  /** One turn of the loop: other is the other token buffer, last says that the text is used up.
      None is error_and_abort. */
  function Step(t: Tree, token: string, other: string, last: bool): Option<Tree> {
    if token == "{" then
      if other == "" then None
      else Some(t.(nodes := t.nodes + [TreeNode(other, [])], open := t.open + [|t.nodes|]))
    else if token == "}" then Some(t.(open := Popped(t.open)))
    else if token == ";" then Some(t)
    else if last then Some(t)
    else if t.open != [] then
      if token in t.roots || ParentNode(t.nodes, token) < |t.nodes| then None else Some(WithClass(t, token))
    else if ParentNode(t.nodes, token) < |t.nodes| then None
    else Some(t.(roots := t.roots + [token]))
  }

  /** What a token leaves in its buffer. */
  function Left(token: string): string {
    if IsMarkToken(token) then "" else token
  }

  function Run(t: Tree, tokens: seq<string>, other: string): Option<Tree>
    decreases |tokens|
  {
    if tokens == [] then Some(t)
    else
      match Step(t, tokens[0], other, |tokens| == 1)
      case None => None
      case Some(u) => Run(u, tokens[1..], Left(tokens[0]))
  }

  /** process_color_tree on a text that is not NULL.  The buffers are not initialized, so the second one holds
      whatever was on the stack: stale. */
  function Process(nodes: seq<TreeNode>, roots: seq<string>, text: string, stale: string): Option<Tree> {
    match Run(Tree(nodes, roots, []), Tokens(text), stale)
    case None => None
    case Some(t) => if t.open == [] then Some(t) else None
  }

  /** The part of edje_file that the color tree is kept in. */
  class EdjeFile {
    var nodes: seq<TreeNode>
    var roots: seq<string>

    constructor ()
      ensures nodes == [] && roots == []
    {
      nodes, roots := [], [];
    }

    /** color_tree_parent_node_get. */
    method ParentNodeGet(c: string) returns (i: nat)
      ensures i == ParentNode(nodes, c)
    {
      i := 0;
      while i < |nodes| && c !in nodes[i].classes
        invariant i <= |nodes| && forall j | 0 <= j < i :: c !in nodes[j].classes
      {
        i := i + 1;
      }
    }

    /** One turn of the token loop; ok is false where the source aborts. */
    method OnToken(token: string, other: string, last: bool, open0: seq<nat>) returns (ok: bool, open: seq<nat>)
      requires forall i | 0 <= i < |open0| :: open0[i] < |nodes|
      modifies this
      ensures var r := Step(Tree(old(nodes), old(roots), open0), token, other, last);
        ok == r.Some? && (ok ==> r.value == Tree(nodes, roots, open))
      ensures ok ==> forall i | 0 <= i < |open| :: open[i] < |nodes|
    {
      open := open0;
      ok := true;
      if token == "{" {
        if other == "" { return false, open; }
        open := open + [|nodes|];
        nodes := nodes + [TreeNode(other, [])];
      } else if token == "}" {
        open := Popped(open);
      } else if token == ";" {
      } else if !last {
        if open != [] {
          if token in roots { return false, open; }
          var p := ParentNodeGet(token);
          if p < |nodes| { return false, open; }
          var i := open[|open| - 1];
          nodes := nodes[i := nodes[i].(classes := nodes[i].classes + [token])];
        } else {
          var p := ParentNodeGet(token);
          if p < |nodes| { return false, open; }
          roots := roots + [token];
        }
      }
    }

    /** process_color_tree: two token buffers take turns. */
    method ProcessColorTree(text: string, stale: string) returns (ok: bool)
      modifies this
      ensures var r := Process(old(nodes), old(roots), text, stale);
        ok == r.Some? && (ok ==> nodes == r.value.nodes && roots == r.value.roots)
    {
      hide Step, TokenFrom;
      var open: seq<nat> := [];
      ghost var t0 := Tree(nodes, roots, []);
      var token := ("", stale);
      var id := false;
      var s := 0;
      var more := true;
      assert text[0..] == text;
      ghost var tokens := Tokens(text);
      while more
        invariant s <= |text| && (more ==> tokens == Tokens(text[s..])) && (!more ==> tokens == [])
        invariant Run(Tree(nodes, roots, open), tokens, if id then token.0 else token.1) == Run(t0, Tokens(text), stale)
        invariant forall i | 0 <= i < |open| :: open[i] < |nodes|
        decreases more, |text| - s
      {
        TokensStep(text[s..]);
        var tok;
        var was := s;
        tok, s := TokenNext(text, s);
        var other := if id then token.0 else token.1;
        ok, open := OnToken(tok, other, s == |text|, open);
        if !ok { return false; }
        token := if id then (token.0, Left(tok)) else (Left(tok), token.1);
        id := !id;
        more := s < |text|;
        tokens := tokens[1..];
      }
      ok := open == [];
    }
  }

  lemma TokensStep(src: string)
    ensures var (token, rest) := TokenFrom(src, false, "");
      && Tokens(src) != [] && Tokens(src)[0] == token
      && Tokens(src)[1..] == (if rest == [] then [] else Tokens(rest))
      && (|Tokens(src)| == 1 <==> rest == [])
  {
  }

  lemma MarkToken(c: char, rest: string)
    requires IsMark(c)
    ensures TokenFrom([c] + rest, false, "") == ([c], rest)
  {
    assert ([c] + rest)[1..] == rest && "" + [c] == [c];
  }

  lemma ClassToken(w: string, rest: string)
    requires forall i | 0 <= i < |w| :: w[i] != '"'
    ensures TokenFrom("\"" + (w + ("\"" + rest)), false, "") == (w, rest)
  {
    QuotedToken(w, rest, "");
    assert "" + w == w;
    assert ("\"" + (w + ("\"" + rest)))[1..] == w + ("\"" + rest);
  }

  lemma TokensFrom(src: string, token: string, rest: string)
    requires TokenFrom(src, false, "") == (token, rest)
    ensures Tokens(src) == [token] + (if rest == [] then [] else Tokens(rest))
  {
  }

  /** A quoted text is one token, whatever is in it: a quoted brace reads like a brace. */
  lemma {:induction false} QuotedToken(w: string, rest: string, dst: string)
    requires forall i | 0 <= i < |w| :: w[i] != '"'
    ensures TokenFrom(w + ("\"" + rest), true, dst) == (dst + w, rest)
    decreases |w|
  {
    var src := w + ("\"" + rest);
    if w == [] {
      assert src == "\"" + rest && src[1..] == rest && dst + w == dst;
    } else {
      assert src[0] == w[0] && src[1..] == w[1..] + ("\"" + rest);
      QuotedToken(w[1..], rest, dst + [w[0]]);
      assert dst + [w[0]] + w[1..] == dst + w;
    }
  }

  /** Text between tokens: the tokenizer passes over everything but quotes and marks. */
  ghost predicate Gap(g: string) { forall i | 0 <= i < |g| :: g[i] != '"' && !IsMark(g[i]) }

  lemma {:induction false} GapSkipped(g: string, rest: string, dst: string)
    requires Gap(g)
    ensures TokenFrom(g + rest, false, dst) == TokenFrom(rest, false, dst)
    decreases |g|
  {
    if g == [] {
      assert g + rest == rest;
    } else {
      assert (g + rest)[0] == g[0] && (g + rest)[1..] == g[1..] + rest;
      GapSkipped(g[1..], rest, dst);
    }
  }

  /** A mark as it is, a class in quotes. */
  ghost function WrittenToken(w: string): string { if IsMarkToken(w) then w else "\"" + (w + ("\"" + [])) }

  /** Tokens as text, each with a gap in front. */
  ghost function Written(ts: seq<string>, gaps: seq<string>): string
    requires |gaps| == |ts|
  {
    if ts == [] then [] else gaps[0] + (WrittenToken(ts[0]) + Written(ts[1..], gaps[1..]))
  }

  lemma WrittenTokenRead(w: string, rest: string)
    requires '"' !in w
    ensures TokenFrom(WrittenToken(w) + rest, false, "") == (w, rest)
  {
    if IsMarkToken(w) {
      MarkToken(w[0], rest);
      assert w == [w[0]];
    } else {
      ClassToken(w, rest);
      assert "\"" + (w + ("\"" + [])) + rest == "\"" + (w + ("\"" + rest));
    }
  }

  /** Written tokens are read back, whatever stands between them; text behind the last one is one more token, an
      empty one. */
  lemma {:induction false} TokensRead(ts: seq<string>, gaps: seq<string>, last: string)
    requires |gaps| == |ts| && ts != [] && (forall w | w in ts :: '"' !in w)
    requires (forall g | g in gaps :: Gap(g)) && Gap(last)
    ensures Tokens(Written(ts, gaps) + last) == ts + if last == "" then [] else [""]
    decreases |ts|
  {
    hide TokenFrom, Tokens, WrittenToken, Gap;
    var w, g, rest := ts[0], gaps[0], Written(ts[1..], gaps[1..]) + last;
    assert w in ts && g in gaps;
    assert Written(ts, gaps) + last == g + (WrittenToken(w) + rest);
    GapSkipped(g, WrittenToken(w) + rest, "");
    WrittenTokenRead(w, rest);
    TokensFrom(Written(ts, gaps) + last, w, rest);
    if |ts| > 1 {
      TokensRead(ts[1..], gaps[1..], last);
      assert rest != [] by { NothingFromNothing(ts[1..], gaps[1..], last); }
    } else {
      assert rest == last;
      if last != "" { LastGap(last); }
    }
  }

  lemma NothingFromNothing(ts: seq<string>, gaps: seq<string>, last: string)
    requires |gaps| == |ts| && ts != []
    ensures Written(ts, gaps) + last != []
  {
  }

  lemma LastGap(last: string)
    requires Gap(last) && last != ""
    ensures Tokens(last) == [""]
  {
    GapSkipped(last, "", "");
    assert last + "" == last;
    TokensFrom(last, "", "");
  }

  // ---------- the forest ----------

  ghost predicate InNode(nodes: seq<TreeNode>, c: string) {
    exists i | 0 <= i < |nodes| :: c in nodes[i].classes
  }

  /** Each class is listed once in all, so it has at most one parent. */
  ghost predicate ListedOnce(nodes: seq<TreeNode>) {
    forall i, a, j, b |
      0 <= i < |nodes| && 0 <= a < |nodes[i].classes| && 0 <= j < |nodes| && 0 <= b < |nodes[j].classes| ::
      nodes[i].classes[a] == nodes[j].classes[b] ==> i == j && a == b
  }

  /** The class has been introduced: at the root or, as order lists them, in a node. */
  ghost predicate Known(roots: seq<string>, order: seq<string>, c: string) {
    c in roots || c in order
  }

  /** c came into a node after the class n had been introduced. */
  ghost predicate BornAfter(roots: seq<string>, order: seq<string>, n: string, c: string) {
    exists k | 0 <= k < |order| :: order[k] == c && Known(roots, order[..k], n)
  }

  /** The tree is a forest; order lists the classes of the nodes as they were introduced. */
  ghost predicate Forest(nodes: seq<TreeNode>, roots: seq<string>, order: seq<string>) {
    && ListedOnce(nodes)
    && (forall r | r in roots :: !InNode(nodes, r))
    && NoDup(order) && (forall c | c in order :: InNode(nodes, c))
    && (forall i | 0 <= i < |nodes| :: Known(roots, order, nodes[i].name))
    && (forall i, c | 0 <= i < |nodes| && c in nodes[i].classes :: BornAfter(roots, order, nodes[i].name, c))
  }

  ghost predicate OpenOk(t: Tree) {
    forall i | 0 <= i < |t.open| :: t.open[i] < |t.nodes|
  }

  lemma ParentNodeFinds(nodes: seq<TreeNode>, c: string)
    ensures ParentNode(nodes, c) < |nodes| <==> InNode(nodes, c)
  {
  }

  lemma KnownMore(roots: seq<string>, order: seq<string>, x: seq<string>, y: seq<string>, n: string)
    ensures Known(roots, order, n) ==> Known(roots + x, order + y, n)
  {
  }

  lemma BornStill(roots: seq<string>, order: seq<string>, x: seq<string>, y: seq<string>, n: string, c: string)
    requires BornAfter(roots, order, n, c)
    ensures BornAfter(roots + x, order + y, n, c)
  {
    var k :| 0 <= k < |order| && order[k] == c && Known(roots, order[..k], n);
    assert (order + y)[..k] == order[..k] && (order + y)[k] == c;
    KnownMore(roots, order[..k], x, [], n);
    assert order[..k] + [] == order[..k];
  }

  /** Opening a node named by a known class. */
  lemma OpenKeeps(nodes: seq<TreeNode>, roots: seq<string>, order: seq<string>, n: string)
    requires Forest(nodes, roots, order) && Known(roots, order, n)
    ensures Forest(nodes + [TreeNode(n, [])], roots, order)
  {
    var more := nodes + [TreeNode(n, [])];
    forall c ensures InNode(more, c) <==> InNode(nodes, c) {
      if InNode(nodes, c) {
        var i :| 0 <= i < |nodes| && c in nodes[i].classes;
        assert c in more[i].classes;
      }
    }
  }

  /** A new root class. */
  lemma RootKeeps(nodes: seq<TreeNode>, roots: seq<string>, order: seq<string>, c: string)
    requires Forest(nodes, roots, order) && !InNode(nodes, c)
    ensures Forest(nodes, roots + [c], order)
  {
    assert order + [] == order;
    forall i | 0 <= i < |nodes| ensures Known(roots + [c], order, nodes[i].name) {
      KnownMore(roots, order, [c], [], nodes[i].name);
    }
    forall i, x | 0 <= i < |nodes| && x in nodes[i].classes ensures BornAfter(roots + [c], order, nodes[i].name, x) {
      BornStill(roots, order, [c], [], nodes[i].name, x);
    }
  }

  ghost function Extended(nodes: seq<TreeNode>, i: nat, c: string): seq<TreeNode>
    requires i < |nodes|
  {
    nodes[i := nodes[i].(classes := nodes[i].classes + [c])]
  }

  lemma ExtendedClasses(nodes: seq<TreeNode>, i: nat, c: string)
    requires i < |nodes| && !InNode(nodes, c) && ListedOnce(nodes)
    ensures ListedOnce(Extended(nodes, i, c))
    ensures forall x :: InNode(Extended(nodes, i, c), x) <==> InNode(nodes, x) || x == c
  {
    var more := Extended(nodes, i, c);
    assert c in more[i].classes by { assert more[i].classes[|nodes[i].classes|] == c; }
    forall x ensures InNode(more, x) <==> InNode(nodes, x) || x == c {
      if InNode(nodes, x) {
        var j :| 0 <= j < |nodes| && x in nodes[j].classes;
        assert x in more[j].classes;
      }
      if InNode(more, x) && x != c {
        var j :| 0 <= j < |more| && x in more[j].classes;
        assert x in nodes[j].classes;
      }
    }
    forall j, a | 0 <= j < |nodes| && 0 <= a < |nodes[j].classes| ensures nodes[j].classes[a] != c {
      assert nodes[j].classes[a] in nodes[j].classes;
    }
  }

  /** A new class in an open node. */
  lemma ClassKeeps(nodes: seq<TreeNode>, roots: seq<string>, order: seq<string>, i: nat, c: string)
    requires Forest(nodes, roots, order) && !InNode(nodes, c) && c !in roots && i < |nodes|
    ensures Forest(Extended(nodes, i, c), roots, order + [c])
  {
    var more, later := Extended(nodes, i, c), order + [c];
    assert roots + [] == roots;
    hide InNode, ListedOnce;
    ExtendedClasses(nodes, i, c);
    forall j | 0 <= j < |more| ensures Known(roots, later, more[j].name) {
      KnownMore(roots, order, [], [c], nodes[j].name);
    }
    forall j, x | 0 <= j < |more| && x in more[j].classes ensures BornAfter(roots, later, more[j].name, x) {
      if x in nodes[j].classes {
        BornStill(roots, order, [], [c], nodes[j].name, x);
      } else {
        assert later[|order|] == c && later[..|order|] == order;
      }
    }
  }

  /** One turn of the loop keeps the forest, and a name left in the buffer has been introduced. */
  lemma StepKeepsForest(t: Tree, token: string, other: string, last: bool, order: seq<string>)
    returns (order': seq<string>)
    requires Forest(t.nodes, t.roots, order) && OpenOk(t) && Step(t, token, other, last).Some?
    requires token == "{" && other != "" ==> Known(t.roots, order, other)
    ensures var u := Step(t, token, other, last).value;
      Forest(u.nodes, u.roots, order') && OpenOk(u) && (!last && Left(token) != "" ==> Known(u.roots, order', token))
  {
    hide Forest;
    order' := order;
    ParentNodeFinds(t.nodes, token);
    if token == "{" {
      OpenKeeps(t.nodes, t.roots, order, other);
    } else if IsMarkToken(token) || last {
    } else if t.open != [] {
      ClassKeeps(t.nodes, t.roots, order, t.open[|t.open| - 1], token);
      order' := order + [token];
    } else {
      RootKeeps(t.nodes, t.roots, order, token);
    }
  }

  lemma {:induction false} RunKeepsForest(t: Tree, tokens: seq<string>, other: string, order: seq<string>)
      returns (order': seq<string>)
    requires Forest(t.nodes, t.roots, order) && OpenOk(t) && Run(t, tokens, other).Some?
    requires tokens != [] && tokens[0] == "{" && other != "" ==> Known(t.roots, order, other)
    ensures var u := Run(t, tokens, other).value; Forest(u.nodes, u.roots, order')
    decreases |tokens|
  {
    hide Forest, OpenOk, Known, Step;
    order' := order;
    if tokens != [] {
      order' := StepKeepsForest(t, tokens[0], other, |tokens| == 1, order);
      order' := RunKeepsForest(Step(t, tokens[0], other, |tokens| == 1).value, tokens[1..], Left(tokens[0]), order');
    }
  }

  /** Every accepted text turns a forest into a forest, unless it starts with a brace and names the first node by
      what happens to be in the buffer. */
  lemma AcceptedIsForest(nodes: seq<TreeNode>, roots: seq<string>, order: seq<string>, text: string, stale: string)
      returns (order': seq<string>)
    requires Forest(nodes, roots, order) && Process(nodes, roots, text, stale).Some?
    requires Tokens(text)[0] == "{" && stale != "" ==> Known(roots, order, stale)
    ensures var t := Process(nodes, roots, text, stale).value; Forest(t.nodes, t.roots, order')
  {
    hide Forest, Run, Tokens;
    order' := RunKeepsForest(Tree(nodes, roots, []), Tokens(text), stale, order);
  }

  lemma EmptyIsForest()
    ensures Forest([], [], [])
  {
  }

  /** The first block of a file. */
  lemma FirstBlockIsForest(text: string, stale: string) returns (order: seq<string>)
    requires Process([], [], text, stale).Some? && Tokens(text)[0] != "{"
    ensures var t := Process([], [], text, stale).value; Forest(t.nodes, t.roots, order)
  {
    EmptyIsForest();
    order := AcceptedIsForest([], [], [], text, stale);
  }

  // ---------- what a forest is ----------

  /** c is a child of n. */
  ghost predicate Child(nodes: seq<TreeNode>, n: string, c: string) {
    exists i | 0 <= i < |nodes| :: nodes[i].name == n && c in nodes[i].classes
  }

  ghost predicate Descent(nodes: seq<TreeNode>, path: seq<string>) {
    forall k | 0 < k < |path| :: Child(nodes, path[k - 1], path[k])
  }

  /** When a class was introduced; the classes at the root come first. */
  ghost function Rank(order: seq<string>, c: string): nat {
    if order == [] then 0 else if order[|order| - 1] == c then |order| else Rank(order[..|order| - 1], c)
  }

  lemma {:induction false} RankAt(order: seq<string>, k: nat)
    requires NoDup(order) && k < |order|
    ensures Rank(order, order[k]) == k + 1
    decreases |order|
  {
    if k < |order| - 1 { RankAt(order[..|order| - 1], k); }
  }

  lemma {:induction false} RankOutside(order: seq<string>, c: string)
    requires c !in order
    ensures Rank(order, c) == 0
    decreases |order|
  {
    if order != [] {
      assert order[|order| - 1] in order;
      assert forall x | x in order[..|order| - 1] :: x in order;
      RankOutside(order[..|order| - 1], c);
    }
  }

  lemma ChildRanksHigher(nodes: seq<TreeNode>, roots: seq<string>, order: seq<string>, n: string, c: string)
    requires Forest(nodes, roots, order) && Child(nodes, n, c)
    ensures Rank(order, n) < Rank(order, c)
  {
    assert BornAfter(roots, order, n, c);
    var k :| 0 <= k < |order| && order[k] == c && Known(roots, order[..k], n);
    RankAt(order, k);
    if n in roots {
      RankOutside(order, n);
    } else {
      var m :| 0 <= m < k && order[..k][m] == n;
      RankAt(order, m);
    }
  }

  lemma {:induction false} DescentRanks(nodes: seq<TreeNode>, roots: seq<string>, order: seq<string>, path: seq<string>)
    requires Forest(nodes, roots, order) && |path| > 1 && Descent(nodes, path)
    ensures Rank(order, path[0]) < Rank(order, path[|path| - 1])
    decreases |path|
  {
    var n := |path| - 1;
    ChildRanksHigher(nodes, roots, order, path[n - 1], path[n]);
    if n > 1 {
      assert Descent(nodes, path[..n]);
      DescentRanks(nodes, roots, order, path[..n]);
    }
  }

  /** In a forest no class descends from itself, a class has at most one parent, and a root class has none. */
  lemma ForestFacts(nodes: seq<TreeNode>, roots: seq<string>, order: seq<string>)
    requires Forest(nodes, roots, order)
    ensures forall path | |path| > 1 && Descent(nodes, path) :: path[0] != path[|path| - 1]
    ensures forall i, j, c | 0 <= i < |nodes| && 0 <= j < |nodes| && c in nodes[i].classes && c in nodes[j].classes ::
              i == j
    ensures forall r, n | r in roots :: !Child(nodes, n, r)
  {
    forall path | |path| > 1 && Descent(nodes, path) ensures path[0] != path[|path| - 1] {
      DescentRanks(nodes, roots, order, path);
    }
    forall i, j, c | 0 <= i < |nodes| && 0 <= j < |nodes| && c in nodes[i].classes && c in nodes[j].classes
      ensures i == j
    {
      var a :| 0 <= a < |nodes[i].classes| && nodes[i].classes[a] == c;
      var b :| 0 <= b < |nodes[j].classes| && nodes[j].classes[b] == c;
    }
  }

  // ---------- the names of nodes ----------

  ghost function Names(nodes: seq<TreeNode>): seq<string> {
    if nodes == [] then [] else Names(nodes[..|nodes| - 1]) + [nodes[|nodes| - 1].name]
  }

  /** The tokens in front of opening braces. */
  ghost function Openers(tokens: seq<string>, other: string): seq<string> {
    if tokens == [] then [] else (if tokens[0] == "{" then [other] else []) + Openers(tokens[1..], Left(tokens[0]))
  }

  /** Every opening brace stands behind a class just introduced. */
  ghost predicate NamedByPrevious(tokens: seq<string>) {
    forall k | 0 <= k < |tokens| && tokens[k] == "{" :: k > 0 && !IsMarkToken(tokens[k - 1]) && tokens[k - 1] != ""
  }

  lemma {:induction false} NamesUpdate(nodes: seq<TreeNode>, i: nat, x: TreeNode)
    requires i < |nodes| && x.name == nodes[i].name
    ensures Names(nodes[i := x]) == Names(nodes)
    decreases |nodes|
  {
    var n := |nodes| - 1;
    if i < n {
      assert nodes[i := x][..n] == nodes[..n][i := x];
      NamesUpdate(nodes[..n], i, x);
    } else {
      assert nodes[i := x][..n] == nodes[..n];
    }
  }

  lemma StepNames(t: Tree, token: string, other: string, last: bool)
    requires Step(t, token, other, last).Some?
    ensures Names(Step(t, token, other, last).value.nodes) == Names(t.nodes) + (if token == "{" then [other] else [])
    ensures token == "{" ==> other != ""
  {
    var u := Step(t, token, other, last).value;
    if token == "{" {
      assert u.nodes[..|t.nodes|] == t.nodes;
    } else if u.nodes != t.nodes {
      var i := t.open[|t.open| - 1];
      NamesUpdate(t.nodes, i, u.nodes[i]);
    }
  }

  /** The nodes opened by an accepted run are named by the tokens in front of the braces. */
  lemma {:induction false} RunNames(t: Tree, tokens: seq<string>, other: string)
    requires Run(t, tokens, other).Some?
    ensures Names(Run(t, tokens, other).value.nodes) == Names(t.nodes) + Openers(tokens, other)
    ensures forall k | 0 < k < |tokens| && tokens[k] == "{" :: !IsMarkToken(tokens[k - 1]) && tokens[k - 1] != ""
    ensures tokens != [] && tokens[0] == "{" ==> other != ""
    decreases |tokens|
  {
    hide Step;
    if tokens != [] {
      var u := Step(t, tokens[0], other, |tokens| == 1).value;
      StepNames(t, tokens[0], other, |tokens| == 1);
      RunNames(u, tokens[1..], Left(tokens[0]));
      forall k | 0 < k < |tokens| && tokens[k] == "{" ensures !IsMarkToken(tokens[k - 1]) && tokens[k - 1] != "" {
        assert tokens[k] == tokens[1..][k - 1];
        if k > 1 { assert tokens[k - 1] == tokens[1..][k - 2]; }
      }
    }
  }

  /** In an accepted text every node is named by the class introduced just before it, exactly if the text does not
      start with an opening brace. */
  lemma NamedExactlyWhen(nodes: seq<TreeNode>, roots: seq<string>, text: string, stale: string)
    requires Process(nodes, roots, text, stale).Some?
    ensures var t := Process(nodes, roots, text, stale).value;
            Names(t.nodes) == Names(nodes) + Openers(Tokens(text), stale)
    ensures NamedByPrevious(Tokens(text)) <==> Tokens(text)[0] != "{"
  {
    hide Run, Tokens;
    RunNames(Tree(nodes, roots, []), Tokens(text), stale);
  }

  /** From a forest, an accepted text gives a forest whose new nodes are named as they should be, exactly if it
      does not start with an opening brace. */
  lemma ForestExactlyWhen(nodes: seq<TreeNode>, roots: seq<string>, order: seq<string>, text: string, stale: string)
    requires Forest(nodes, roots, order) && Process(nodes, roots, text, stale).Some?
    ensures var t := Process(nodes, roots, text, stale).value;
      (exists later :: Forest(t.nodes, t.roots, later)) && NamedByPrevious(Tokens(text)) <==> Tokens(text)[0] != "{"
  {
    hide Forest, Run, Tokens, Process, NamedByPrevious;
    NamedExactlyWhen(nodes, roots, text, stale);
    if Tokens(text)[0] != "{" {
      var later := AcceptedIsForest(nodes, roots, order, text, stale);
    }
  }

  // ---------- where a class belongs ----------

  /** A class introduced at position p: neither a mark nor the last token, which ends the text. */
  ghost predicate IsClass(ts: seq<string>, p: nat)
    requires p < |ts|
  {
    !IsMarkToken(ts[p]) && p + 1 < |ts|
  }

  /** The innermost brace among the first n tokens that is not closed there, when closed more braces are closed
      behind them. */
  ghost function Inner(ts: seq<string>, n: nat, closed: nat): (b: Option<nat>)
    requires n <= |ts|
    ensures b.Some? ==> b.value < n && ts[b.value] == "{"
  {
    if n == 0 then None
    else if ts[n - 1] == "}" then Inner(ts, n - 1, closed + 1)
    else if ts[n - 1] != "{" then Inner(ts, n - 1, closed)
    else if closed == 0 then Some(n - 1)
    else Inner(ts, n - 1, closed - 1)
  }

  /** The number of opening braces among the first n tokens. */
  ghost function Braces(ts: seq<string>, n: nat): nat
    requires n <= |ts|
  {
    if n == 0 then 0 else Braces(ts, n - 1) + if ts[n - 1] == "{" then 1 else 0
  }

  /** The classes among the first n tokens that stand directly inside the brace b, or outside all braces. */
  ghost function Listed(ts: seq<string>, n: nat, b: Option<nat>): seq<string>
    requires n <= |ts|
  {
    if n == 0 then []
    else Listed(ts, n - 1, b) + if IsClass(ts, n - 1) && Inner(ts, n - 1, 0) == b then [ts[n - 1]] else []
  }

  /** The node opened by the brace b has the classes listed directly inside that brace. */
  ghost predicate NodeOf(nodes: seq<TreeNode>, ts: seq<string>, n: nat, made: seq<TreeNode>, b: nat)
    requires n <= |ts| && b < n
  {
    var i := |nodes| + Braces(ts, b);
    i < |made| && made[i].classes == Listed(ts, n, Some(b))
  }

  /** The tree that the first n tokens make of nodes and roots: what is listed directly inside a brace is in the
      node of that brace, and what is listed outside all braces is a root class. */
  ghost predicate BuiltFrom(nodes: seq<TreeNode>, roots: seq<string>, ts: seq<string>, n: nat, t: Tree)
    requires n <= |ts|
  {
    && |t.nodes| == |nodes| + Braces(ts, n) && t.nodes[..|nodes|] == nodes
    && t.roots == roots + Listed(ts, n, None)
    && forall b: nat | b < n && ts[b] == "{" :: NodeOf(nodes, ts, n, t.nodes, b)
  }

  /** The open node that is closed after d others is that of the brace that is not closed by d marks. */
  ghost predicate OpenAt(nodes: seq<TreeNode>, ts: seq<string>, n: nat, open: seq<nat>, d: nat)
    requires n <= |ts|
  {
    var b := Inner(ts, n, d);
    if d < |open| then b.Some? && open[|open| - 1 - d] == |nodes| + Braces(ts, b.value) else b == None
  }

  ghost predicate OpenFrom(nodes: seq<TreeNode>, ts: seq<string>, n: nat, open: seq<nat>)
    requires n <= |ts|
  {
    forall d: nat :: OpenAt(nodes, ts, n, open, d)
  }

  lemma {:induction false} BracesGrow(ts: seq<string>, i: nat, j: nat)
    requires i < j <= |ts|
    ensures Braces(ts, i) <= Braces(ts, j) && (ts[i] == "{" ==> Braces(ts, i) < Braces(ts, j))
    decreases j
  {
    if i + 1 < j { BracesGrow(ts, i, j - 1); }
  }

  lemma {:induction false} NothingListed(ts: seq<string>, n: nat, b: nat)
    requires n <= b <= |ts|
    ensures Listed(ts, n, Some(b)) == []
    decreases n
  {
    if n > 0 { NothingListed(ts, n - 1, b); }
  }

  lemma OpenAfter(t: Tree, token: string, other: string, last: bool)
    requires Step(t, token, other, last).Some?
    ensures Step(t, token, other, last).value.open
         == if token == "{" then t.open + [|t.nodes|] else if token == "}" then Popped(t.open) else t.open
  {
  }

  lemma InnerStep(ts: seq<string>, n: nat, d: nat)
    requires n < |ts|
    ensures Inner(ts, n + 1, d) == if ts[n] == "}" then Inner(ts, n, d + 1)
                                   else if ts[n] != "{" then Inner(ts, n, d)
                                   else if d == 0 then Some(n) else Inner(ts, n, d - 1)
  {
  }

  lemma StepOpen(nodes: seq<TreeNode>, ts: seq<string>, n: nat, t: Tree, other: string)
    requires n < |ts| && OpenFrom(nodes, ts, n, t.open) && |t.nodes| == |nodes| + Braces(ts, n)
    requires Step(t, ts[n], other, n + 1 == |ts|).Some?
    ensures OpenFrom(nodes, ts, n + 1, Step(t, ts[n], other, n + 1 == |ts|).value.open)
  {
    hide Step, Inner, Braces;
    var u, m := Step(t, ts[n], other, n + 1 == |ts|).value, n + 1;
    OpenAfter(t, ts[n], other, m == |ts|);
    forall d: nat ensures OpenAt(nodes, ts, m, u.open, d) {
      InnerStep(ts, n, d);
      var e: nat := if ts[n] == "}" then d + 1 else if ts[n] == "{" && d > 0 then d - 1 else d;
      assert OpenAt(nodes, ts, n, t.open, e);
    }
  }

  lemma ListedStep(ts: seq<string>, n: nat, b: Option<nat>)
    requires n < |ts|
    ensures Listed(ts, n + 1, b)
         == Listed(ts, n, b) + if IsClass(ts, n) && Inner(ts, n, 0) == b then [ts[n]] else []
  {
  }

  lemma BracesStep(ts: seq<string>, n: nat)
    requires n < |ts|
    ensures Braces(ts, n + 1) == Braces(ts, n) + if ts[n] == "{" then 1 else 0
  {
  }

  lemma BracesApart(ts: seq<string>, k: nat, b: nat)
    requires k < |ts| && b < |ts| && ts[k] == "{" && ts[b] == "{" && k != b
    ensures Braces(ts, k) != Braces(ts, b)
  {
    if k < b { BracesGrow(ts, k, b); } else { BracesGrow(ts, b, k); }
  }

  /** A class directly inside the brace b is added to that brace's node and to no other. */
  lemma StepClass(nodes: seq<TreeNode>, roots: seq<string>, ts: seq<string>, n: nat, t: Tree, b: nat)
    requires n < |ts| && BuiltFrom(nodes, roots, ts, n, t) && IsClass(ts, n) && Inner(ts, n, 0) == Some(b)
    ensures var i := |nodes| + Braces(ts, b);
      i < |t.nodes| && BuiltFrom(nodes, roots, ts, n + 1, t.(nodes := Extended(t.nodes, i, ts[n])))
  {
    hide Inner, Listed, Braces, NodeOf;
    var i := |nodes| + Braces(ts, b);
    assert NodeOf(nodes, ts, n, t.nodes, b);
    assert i < |t.nodes| by { NodeIsThere(nodes, ts, n, t.nodes, b); }
    var made := Extended(t.nodes, i, ts[n]);
    assert made[..|nodes|] == nodes;
    BracesStep(ts, n);
    ListedStep(ts, n, None);
    forall k: nat | k < n + 1 && ts[k] == "{" ensures NodeOf(nodes, ts, n + 1, made, k) {
      assert k < n && NodeOf(nodes, ts, n, t.nodes, k);
      ClassGoes(nodes, ts, n, t.nodes, b, k);
    }
  }

  lemma NodeIsThere(nodes: seq<TreeNode>, ts: seq<string>, n: nat, made: seq<TreeNode>, b: nat)
    requires n <= |ts| && b < n && NodeOf(nodes, ts, n, made, b)
    ensures |nodes| + Braces(ts, b) < |made|
  {
  }

  lemma ClassGoes(nodes: seq<TreeNode>, ts: seq<string>, n: nat, made: seq<TreeNode>, b: nat, k: nat)
    requires n < |ts| && IsClass(ts, n) && Inner(ts, n, 0) == Some(b)
    requires k < n && ts[k] == "{" && NodeOf(nodes, ts, n, made, b) && NodeOf(nodes, ts, n, made, k)
    ensures NodeOf(nodes, ts, n + 1, Extended(made, |nodes| + Braces(ts, b), ts[n]), k)
  {
    hide Inner, Listed, Braces;
    ListedStep(ts, n, Some(k));
    if k != b { BracesApart(ts, k, b); }
  }

  /** A token that is no class inside braces. */
  lemma StepElse(nodes: seq<TreeNode>, roots: seq<string>, ts: seq<string>, n: nat, t: Tree, u: Tree)
    requires n < |ts| && BuiltFrom(nodes, roots, ts, n, t)
    requires IsClass(ts, n) ==> Inner(ts, n, 0) == None
    requires u.roots == t.roots + if IsClass(ts, n) then [ts[n]] else []
    requires |u.nodes| == |t.nodes| + (if ts[n] == "{" then 1 else 0) && u.nodes[..|t.nodes|] == t.nodes
    requires ts[n] == "{" ==> u.nodes[|t.nodes|].classes == []
    ensures BuiltFrom(nodes, roots, ts, n + 1, u)
  {
    hide Inner, Listed, Braces, NodeOf;
    assert u.nodes[..|nodes|] == u.nodes[..|t.nodes|][..|nodes|];
    BracesStep(ts, n);
    ListedStep(ts, n, None);
    Assoc(roots, Listed(ts, n, None), if IsClass(ts, n) then [ts[n]] else []);
    forall k: nat | k < n + 1 && ts[k] == "{" ensures NodeOf(nodes, ts, n + 1, u.nodes, k) {
      if k < n { assert NodeOf(nodes, ts, n, t.nodes, k); }
      NodeStays(nodes, ts, n, t.nodes, u.nodes, k);
    }
  }

  lemma NodeStays(nodes: seq<TreeNode>, ts: seq<string>, n: nat, was: seq<TreeNode>, made: seq<TreeNode>, k: nat)
    requires n < |ts| && k <= n && ts[k] == "{" && (IsClass(ts, n) ==> Inner(ts, n, 0) == None)
    requires |was| <= |made| && made[..|was|] == was && |was| == |nodes| + Braces(ts, n)
    requires k < n ==> NodeOf(nodes, ts, n, was, k)
    requires k == n ==> |made| > |was| && made[|was|].classes == []
    ensures NodeOf(nodes, ts, n + 1, made, k)
  {
    hide Inner, Listed, Braces;
    ListedStep(ts, n, Some(k));
    if k == n {
      NothingListed(ts, n, n);
    } else {
      assert made[|nodes| + Braces(ts, k)] == made[..|was|][|nodes| + Braces(ts, k)];
    }
  }

  /** One token: what it does to the nodes and the roots. */
  lemma StepParts(t: Tree, token: string, other: string, last: bool)
    requires Step(t, token, other, last).Some? && OpenOk(t)
    ensures var u := Step(t, token, other, last).value;
      && u.roots == t.roots + (if IsMarkToken(token) || last || t.open != [] then [] else [token])
      && u.nodes == if token == "{" then t.nodes + [TreeNode(other, [])]
                    else if IsMarkToken(token) || last || t.open == [] then t.nodes
                    else Extended(t.nodes, t.open[|t.open| - 1], token)
  {
    assert t.roots + [] == t.roots;
  }

  lemma StepBuilds(nodes: seq<TreeNode>, roots: seq<string>, ts: seq<string>, n: nat, t: Tree, other: string)
    requires n < |ts| && BuiltFrom(nodes, roots, ts, n, t) && OpenFrom(nodes, ts, n, t.open) && OpenOk(t)
    requires Step(t, ts[n], other, n + 1 == |ts|).Some?
    ensures var u := Step(t, ts[n], other, n + 1 == |ts|).value;
      BuiltFrom(nodes, roots, ts, n + 1, u) && OpenFrom(nodes, ts, n + 1, u.open) && OpenOk(u)
  {
    hide Listed, Inner, Step, NodeOf, Braces;
    StepOpen(nodes, ts, n, t, other);
    StepParts(t, ts[n], other, n + 1 == |ts|);
    OpenAfter(t, ts[n], other, n + 1 == |ts|);
    var u := Step(t, ts[n], other, n + 1 == |ts|).value;
    assert OpenAt(nodes, ts, n, t.open, 0);
    if IsClass(ts, n) && t.open != [] {
      var b := Inner(ts, n, 0).value;
      StepClass(nodes, roots, ts, n, t, b);
      BuiltSame(nodes, roots, ts, n + 1, t.(nodes := Extended(t.nodes, |nodes| + Braces(ts, b), ts[n])), u);
    } else {
      StepElse(nodes, roots, ts, n, t, u);
    }
  }

  lemma BuiltSame(nodes: seq<TreeNode>, roots: seq<string>, ts: seq<string>, n: nat, t: Tree, u: Tree)
    requires n <= |ts| && BuiltFrom(nodes, roots, ts, n, t) && u.nodes == t.nodes && u.roots == t.roots
    ensures BuiltFrom(nodes, roots, ts, n, u)
  {
  }

  lemma {:induction false} RunBuilds(nodes: seq<TreeNode>, roots: seq<string>, ts: seq<string>, n: nat, t: Tree,
                                     other: string)
    requires n <= |ts| && BuiltFrom(nodes, roots, ts, n, t) && OpenFrom(nodes, ts, n, t.open) && OpenOk(t)
    requires Run(t, ts[n..], other).Some?
    ensures BuiltFrom(nodes, roots, ts, |ts|, Run(t, ts[n..], other).value)
    decreases |ts| - n
  {
    hide Step, BuiltFrom, OpenFrom, OpenOk;
    if n < |ts| {
      assert ts[n..][0] == ts[n] && ts[n..][1..] == ts[n + 1..];
      StepBuilds(nodes, roots, ts, n, t, other);
      RunBuilds(nodes, roots, ts, n + 1, Step(t, ts[n], other, n + 1 == |ts|).value, Left(ts[n]));
    }
  }

  /** In an accepted text, the classes directly inside a brace become, in order, those of the node that the brace
      opens; the classes outside all braces become root classes, in order; nothing else is added. */
  lemma ClassesBelong(nodes: seq<TreeNode>, roots: seq<string>, text: string, stale: string)
    requires Process(nodes, roots, text, stale).Some?
    ensures var t, ts := Process(nodes, roots, text, stale).value, Tokens(text);
      && |t.nodes| == |nodes| + Braces(ts, |ts|) && t.nodes[..|nodes|] == nodes
      && t.roots == roots + Listed(ts, |ts|, None)
      && forall b: nat | b < |ts| && ts[b] == "{" ::
           var i := |nodes| + Braces(ts, b); i < |t.nodes| && t.nodes[i].classes == Listed(ts, |ts|, Some(b))
  {
    hide Tokens, Run;
    var ts := Tokens(text);
    var t := Tree(nodes, roots, []);
    assert nodes[..|nodes|] == nodes && roots + [] == roots && ts[0..] == ts;
    RunBuilds(nodes, roots, ts, 0, t, stale);
  }

  /** The text that opens a node, lists x in it and closes it again. */
  ghost function LoopText(x: string): string {
    ['{'] + ("\"" + (x + ("\"" + ([';'] + ['}']))))
  }

  lemma LoopTokens(x: string)
    requires forall i | 0 <= i < |x| :: x[i] != '"'
    ensures Tokens(LoopText(x)) == ["{"] + ([x] + ([";"] + ["}"]))
  {
    hide Tokens, TokenFrom;
    var close := [';'] + ['}'];
    var quoted := "\"" + (x + ("\"" + close));
    assert ['}'] == ['}'] + "" && [';'] == ";" && ['{'] == "{" && ['}'] == "}";
    MarkToken('{', quoted);
    ClassToken(x, close);
    MarkToken(';', ['}']);
    MarkToken('}', "");
    TokensFrom(LoopText(x), "{", quoted);
    TokensFrom(quoted, x, close);
    TokensFrom(close, ";", ['}']);
    TokensFrom(['}'], "}", "");
  }

  /** A text that starts with a brace may even make a class its own parent, when the buffer happens to hold it. */
  lemma StaleNameMakesCycle(x: string)
    requires x != "" && !IsMarkToken(x) && forall i | 0 <= i < |x| :: x[i] != '"'
    ensures var r := Process([], [], LoopText(x), x);
      r.Some? && Child(r.value.nodes, x, x) && forall order :: !Forest(r.value.nodes, r.value.roots, order)
  {
    hide LoopText, Run, Tokens;
    LoopTokens(x);
    StaleRun(Tokens(LoopText(x)), x);
    var nodes := [TreeNode(x, [x])];
    assert nodes[0].name == x && x in nodes[0].classes;
    forall order ensures !Forest(nodes, [], order) {
      NoLoop(nodes, order, x);
    }
  }

  lemma NoLoop(nodes: seq<TreeNode>, order: seq<string>, x: string)
    requires Child(nodes, x, x)
    ensures !Forest(nodes, [], order)
  {
    if Forest(nodes, [], order) { ChildRanksHigher(nodes, [], order, x, x); }
  }

  lemma OpenStep(t: Tree, n: string)
    requires n != ""
    ensures Step(t, "{", n, false) == Some(Tree(t.nodes + [TreeNode(n, [])], t.roots, t.open + [|t.nodes|]))
  {
  }

  lemma FirstClassStep(n: string, c: string)
    requires !IsMarkToken(c)
    ensures Step(Tree([TreeNode(n, [])], [], [0]), c, "", false) == Some(Tree([TreeNode(n, [c])], [], [0]))
  {
    var t := Tree([TreeNode(n, [])], [], [0]);
    assert [] + [c] == [c] && t.nodes[0 := TreeNode(n, [c])] == [TreeNode(n, [c])];
  }

  lemma CloseSteps(t: Tree, other: string)
    ensures Step(t, ";", other, false) == Some(t)
    ensures Step(t, "}", other, true) == Some(t.(open := Popped(t.open)))
  {
  }

  /** The text names its only node x, lists x in it and closes it. */
  lemma StaleRun(tokens: seq<string>, x: string)
    requires !IsMarkToken(x) && x != "" && tokens == ["{"] + ([x] + ([";"] + ["}"]))
    ensures Run(Tree([], [], []), tokens, x) == Some(Tree([TreeNode(x, [x])], [], []))
  {
    hide Run, Step;
    var t1, t2 := Tree([TreeNode(x, [])], [], [0]), Tree([TreeNode(x, [x])], [], [0]);
    assert [] + [TreeNode(x, [])] == t1.nodes && [] + [0] == t1.open && ["}"] == ["}"] + [];
    OpenStep(Tree([], [], []), x);
    FirstClassStep(x, x);
    CloseSteps(t2, x);
    CloseSteps(t2, "");
    RunStep(Tree([], [], []), "{", [x] + ([";"] + ["}"]), x);
    RunStep(t1, x, [";"] + ["}"], "");
    RunStep(t2, ";", ["}"], x);
    RunStep(t2, "}", [], "");
    RunEnd(t2.(open := []));
  }

  lemma RunStep(t: Tree, token: string, rest: seq<string>, other: string)
    ensures var r := Step(t, token, other, rest == []);
      Run(t, [token] + rest, other) == if r.None? then None else Run(r.value, rest, Left(token))
  {
    assert ([token] + rest)[1..] == rest;
  }

  lemma RunEnd(t: Tree)
    ensures Run(t, [], "") == Some(t)
  {
  }
}
