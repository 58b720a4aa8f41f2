/** Laws of templates: every tree of text, variables and blocks can be written as one, and when expansion is defined. */
module ExpandShow {
  import opened Options
  import opened ExpandSyntax
  import opened ExpandResume

  /** A template that means exactly these nodes. */
  function Show(nodes: seq<Node>): string {
    if nodes == [] then "" else ShowNode(nodes[0]) + Show(nodes[1..])
  }

  function ShowNode(n: Node): string {
    match n
    case Lit(c) => ['\\', c]
    case Var(ref, pat, rep) =>
      var name := if ref.Named? then ref.name else "";
      if pat.None? then "%" + name + "%" else "%" + name + ['/', pat.value, '/', rep, '%']
    case Block(body, _) => "[[" + Show(body) + "]]"
  }

  /** Whether nodes can be written as a template, `depth` levels deep.  A variable without a replacement has a name of
      four characters at least, the fourth from the end not a slash. */
  predicate Showable(nodes: seq<Node>, depth: nat) {
    nodes == [] || (ShowableNode(nodes[0], depth) && Showable(nodes[1..], depth))
  }

  predicate ShowableNode(n: Node, depth: nat) {
    match n
    case Lit(_) => true
    case Var(ref, pat, rep) =>
      && ref.Named? && '%' !in ref.name
      && (if pat.None? then rep == ' ' && |ref.name| >= 4 && ref.name[|ref.name| - 4] != '/'
          else pat.value != '%' && rep != '%')
    case Block(body, closed) => closed && depth < MAX_OPT_DEPTH && Showable(body, depth + 1)
  }

  /** Whether a text stands in a template at a position. */
  predicate Stands(t: string, i: nat, s: string) {
    i + |s| <= |t| && t[i..i + |s|] == s
  }

  lemma StandsParts(t: string, i: nat, a: string, b: string)
    requires Stands(t, i, a + b)
    ensures Stands(t, i, a) && Stands(t, i + |a|, b)
  {
    assert t[i..i + |a|] == (a + b)[..|a|];
    assert t[i + |a|..i + |a| + |b|] == (a + b)[|a|..];
  }

  function Then(nodes: seq<Node>, p: Parsed): Parsed {
    Parsed(nodes + p.nodes, p.end)
  }

  lemma NextPercentIs(t: string, i: nat, next: nat)
    requires i <= next < |t| && t[next] == '%' && forall j :: i <= j < next ==> t[j] != '%'
    ensures NextPercent(t, i) == Some(next)
  {
  }

  lemma VariableEnds(t: string, i: nat, n: Node, depth: nat)
    requires n.Var? && ShowableNode(n, depth) && Stands(t, i, ShowNode(n))
    ensures |ShowNode(n)| >= 2 && t[i] == '%' && NextPercent(t, i + 1) == Some(i + |ShowNode(n)| - 1)
  {
    hide NextPercent;
    var s := ShowNode(n);
    var next := i + |s| - 1;
    assert forall j :: i <= j < i + |s| ==> t[j] == t[i..i + |s|][j - i] == s[j - i];
    assert forall j :: 1 <= j < |s| - 1 ==> s[j] != '%';
    NextPercentIs(t, i + 1, next);
  }

  lemma StandsAt(t: string, i: nat, s: string, j: nat)
    requires Stands(t, i, s) && j < |s|
    ensures t[i + j] == s[j]
  {
    assert t[i + j] == t[i..i + |s|][j];
  }

  lemma ReadPlain(before: Before, t: string, i: nat, name: string)
    requires Stands(t, i, "%" + (name + "%")) && |name| >= 4 && name[|name| - 4] != '/'
    ensures VariableAt(before, t, i + 1, i + 1 + |name|) == Var(Named(name), None, ' ')
  {
    StandsParts(t, i, "%", name + "%");
    StandsParts(t, i + 1, name, "%");
    StandsAt(t, i + 1, name, |name| - 4);
  }

  lemma ReadReplacing(before: Before, t: string, i: nat, name: string, p: char, r: char)
    requires Stands(t, i, "%" + (name + ['/', p, '/', r, '%']))
    ensures VariableAt(before, t, i + 1, i + |name| + 5) == Var(Named(name), Some(p), r)
  {
    var end := ['/', p, '/', r, '%'];
    StandsParts(t, i, "%", name + end);
    StandsParts(t, i + 1, name, end);
    StandsAt(t, i + 1 + |name|, end, 0);
    StandsAt(t, i + 1 + |name|, end, 1);
    StandsAt(t, i + 1 + |name|, end, 3);
  }

  /** Reading a written variable. */
  lemma ShowVariable(before: Before, t: string, i: nat, n: Node, depth: nat)
    requires n.Var? && ShowableNode(n, depth) && 1 <= depth <= MAX_OPT_DEPTH && Stands(t, i, ShowNode(n))
    ensures Parse(before, t, i, depth) == Cons(n, Parse(before, t, i + |ShowNode(n)|, depth))
  {
    hide Parse, NextPercent, VariableAt, Stands;
    VariableEnds(t, i, n, depth);
    if n.pat.None? {
      assert ShowNode(n) == "%" + (n.ref.name + "%");
      ReadPlain(before, t, i, n.ref.name);
    } else {
      assert ShowNode(n) == "%" + (n.ref.name + ['/', n.pat.value, '/', n.rep, '%']);
      ReadReplacing(before, t, i, n.ref.name, n.pat.value, n.rep);
    }
    UnfoldVariable(before, t, i, depth, i + |ShowNode(n)| - 1);
  }

  /** Reading what was written gives the nodes back. */
  lemma {:induction false} ShowParses(before: Before, t: string, i: nat, nodes: seq<Node>, depth: nat)
    requires Showable(nodes, depth) && 1 <= depth <= MAX_OPT_DEPTH && Stands(t, i, Show(nodes))
    ensures Parse(before, t, i, depth) == Then(nodes, Parse(before, t, i + |Show(nodes)|, depth))
    decreases nodes
  {
    hide Parse, ShowNode, ShowableNode, Stands;
    if nodes == [] {
    } else {
      StandsParts(t, i, ShowNode(nodes[0]), Show(nodes[1..]));
      var at := i + |ShowNode(nodes[0])|;
      ShowNodeParses(before, t, i, nodes[0], depth);
      ShowParses(before, t, at, nodes[1..], depth);
      assert nodes == [nodes[0]] + nodes[1..];
      assert at + |Show(nodes[1..])| == i + |Show(nodes)|;
    }
  }

  lemma {:induction false} ShowNodeParses(before: Before, t: string, i: nat, n: Node, depth: nat)
    requires ShowableNode(n, depth) && 1 <= depth <= MAX_OPT_DEPTH && Stands(t, i, ShowNode(n))
    ensures Parse(before, t, i, depth) == Cons(n, Parse(before, t, i + |ShowNode(n)|, depth))
    decreases n
  {
    hide Parse, Show, Showable;
    match n
    case Lit(c) =>
      assert t[i] == ShowNode(n)[0] && t[i + 1] == ShowNode(n)[1];
      UnfoldEscape(before, t, i, depth);
    case Var(_, _, _) =>
      ShowVariable(before, t, i, n, depth);
    case Block(body, _) =>
      assert ShowNode(n) == "[[" + (Show(body) + "]]");
      StandsParts(t, i, "[[", Show(body) + "]]");
      StandsParts(t, i + 2, Show(body), "]]");
      ShowParses(before, t, i + 2, body, depth + 1);
      StandsTwice(t, i, '[');
      UnfoldOpen(before, t, i, depth);
      var end := i + 2 + |Show(body)|;
      StandsTwice(t, end, ']');
      UnfoldClose(before, t, end, depth + 1);
      assert body + [] == body;
  }

  lemma StandsTwice(t: string, i: nat, c: char)
    requires Stands(t, i, [c, c])
    ensures Twice(t, i, c)
  {
    assert t[i] == t[i..i + 2][0] && t[i + 1] == t[i..i + 2][1];
  }

  /** Every tree of text, named variables and blocks, at most as deep as allowed, has a template that means it. */
  lemma ShowRoundTrip(before: Before, nodes: seq<Node>)
    requires Showable(nodes, 1)
    ensures Parse(before, Show(nodes), 0, 1) == Parsed(nodes, Eof)
  {
    ShowParses(before, Show(nodes), 0, nodes, 1);
  }

  function Lits(s: string): seq<Node> {
    seq(|s|, i requires 0 <= i < |s| => Lit(s[i]))
  }

  lemma {:induction false} LitsMean(iface: Iface, s: string, depth: nat)
    ensures Showable(Lits(s), depth) && Meaning(iface, Lits(s)) == s
    ensures forall written :: !Breaks(iface, Lits(s), written)
    ensures s != "" ==> Writes(iface, Lits(s))
  {
    if s != "" {
      LitsMean(iface, s[1..], depth);
      assert Lits(s)[1..] == Lits(s[1..]);
    }
  }

  /** Any text can be written as a template, with a backslash before every character. */
  lemma EscapeRoundTrip(iface: Iface, before: Before, s: string)
    requires s != ""
    ensures Expand(iface, before, Show(Lits(s))) == Expanded(s)
  {
    LitsMean(iface, s, 1);
    ShowRoundTrip(before, Lits(s));
  }

  /** The empty template gives no text at all, not even an empty one. */
  lemma EmptyGivesNothing(iface: Iface, before: Before)
    ensures Expand(iface, before, "") == Nothing
  {
    assert Parse(before, "", 0, 1) == Parsed([], Eof);
  }

  lemma {:induction false} BreaksConcat(iface: Iface, a: seq<Node>, b: seq<Node>, written: bool)
    ensures Writes(iface, a + b) == (Writes(iface, a) || Writes(iface, b))
    ensures Breaks(iface, a + b, written) <==>
      Breaks(iface, a, written) || Breaks(iface, b, written || Writes(iface, a))
  {
    hide NodeBreaks, NodeWrites;
    if a == [] {
      assert a + b == b;
    } else {
      assert (a + b)[1..] == a[1..] + b;
      BreaksConcat(iface, a[1..], b, written || NodeWrites(iface, a[0]));
    }
  }

  /** A block that is opened behind any nodes, or a percent sign there, makes the template unbalanced, unless the nodes
      break it already. */
  lemma UnbalancedEnds(iface: Iface, before: Before, nodes: seq<Node>)
    requires Showable(nodes, 1) && !Breaks(iface, nodes, false)
    ensures Expand(iface, before, Show(nodes) + "[[") == UnbalancedBracket
    ensures Expand(iface, before, Show(nodes) + "%") == UnbalancedPercent
  {
    hide Parse, Showable, Breaks, Stands, Show;
    var n := |Show(nodes)|;
    var t, u := Show(nodes) + "[[", Show(nodes) + "%";
    StandsFirst(Show(nodes), "[[");
    StandsFirst(Show(nodes), "%");
    ShowParses(before, t, 0, nodes, 1);
    ShowParses(before, u, 0, nodes, 1);
    OpenAtEnd(before, t, n);
    PercentAtEnd(before, u, n);
    OpenBehind(iface, nodes);
    assert nodes + [] == nodes;
  }

  lemma StandsFirst(a: string, b: string)
    ensures Stands(a + b, 0, a)
  {
  }

  lemma OpenBehind(iface: Iface, nodes: seq<Node>)
    requires !Breaks(iface, nodes, false)
    ensures var all := nodes + [Block([], false)];
            !Breaks(iface, all, false) && LeftOpen(all)
  {
    hide Breaks;
    var open := Block([], false);
    BreaksConcat(iface, nodes, [open], false);
    OneNode(iface, open, 1);
    NothingBreaks(iface);
    assert !NodeBreaks(iface, open, true) && !NodeBreaks(iface, open, false);
    assert (nodes + [open])[|nodes|] == open;
  }

  lemma NothingBreaks(iface: Iface)
    ensures !Breaks(iface, [], true) && !Breaks(iface, [], false)
  {
  }

  lemma OpenAtEnd(before: Before, t: string, n: nat)
    requires |t| == n + 2 && t[n] == '[' && t[n + 1] == '['
    ensures Parse(before, t, n, 1) == Parsed([Block([], false)], Eof)
  {
    assert Parse(before, t, n + 2, 2) == Parsed([], Eof);
  }

  lemma PercentAtEnd(before: Before, t: string, n: nat)
    requires |t| == n + 1 && t[n] == '%'
    ensures Parse(before, t, n, 1) == Parsed([], Stray)
  {
    assert NextPercent(t, n + 1) == None;
  }

  /** The first option of a name, if there is one, is at place `k`. */
  predicate FirstNamed(options: seq<Setting>, name: string, k: nat) {
    && k <= |options| && (k < |options| ==> options[k].name == name)
    && forall j :: 0 <= j < k ==> options[j].name != name
  }

  /** It decides: a variable has a value exactly if that option has one that is not empty. */
  lemma {:induction false} FirstDecides(options: seq<Setting>, name: string, k: nat)
    requires FirstNamed(options, name, k)
    ensures OptionValue(options, name) ==
      if k < |options| && options[k].value.Some? && options[k].value.value != "" then Text(options[k].value.value)
      else Missing
  {
    if k > 0 {
      FirstDecides(options[1..], name, k - 1);
    }
  }

  /** What a variable stands for: the interface's name, or the first option of its name. */
  ghost predicate Denotes(iface: Iface, name: string, v: string) {
    if name == "iface" then v == iface.ifname
    else
      && v != ""
      && exists k: nat ::
        FirstNamed(iface.options, name, k) && k < |iface.options| && iface.options[k].value == Some(v)
  }

  lemma DenotesValue(iface: Iface, name: string)
    ensures var value := ValueOf(iface, Named(name));
            !value.Wild? && forall v :: Denotes(iface, name, v) <==> value == Text(v)
  {
    if name != "iface" {
      var k := FirstNamedAt(iface.options, name);
      FirstDecides(iface.options, name, k);
      assert forall l: nat :: FirstNamed(iface.options, name, l) ==> l == k;
      var value := OptionValue(iface.options, name);
      if value.Text? {
        assert iface.options[k].value == Some(value.s);
      }
    }
  }

  lemma FirstNamedAt(options: seq<Setting>, name: string) returns (k: nat)
    ensures FirstNamed(options, name, k)
  {
    k := 0;
    while k < |options| && options[k].name != name
      invariant k <= |options| && forall j :: 0 <= j < k ==> options[j].name != name
    {
      k := k + 1;
    }
  }

  /** A text with every `p` replaced by `r`. */
  ghost predicate Replaced(v: string, p: char, r: char, text: string) {
    |text| == |v| && forall i :: 0 <= i < |v| ==> if v[i] == p then text[i] == r else text[i] == v[i]
  }

  lemma OneNode(iface: Iface, n: Node, depth: nat)
    ensures Showable([n], depth) == ShowableNode(n, depth)
    ensures Meaning(iface, [n]) == NodeMeaning(iface, n) && Writes(iface, [n]) == NodeWrites(iface, n)
    ensures forall written :: Breaks(iface, [n], written) == NodeBreaks(iface, n, written)
    ensures Lacks(iface, [n]) == (n.Var? && ValueOf(iface, n.ref).Missing?)
  {
    hide NodeMeaning, NodeWrites, NodeBreaks, ShowableNode, ValueOf;
    var rest: seq<Node> := [n][1..];
    assert rest == [] && Meaning(iface, rest) == "" && NodeMeaning(iface, n) + "" == NodeMeaning(iface, n);
    assert [n][0] == n;
  }

  /** A character of text and a node behind it. */
  lemma TextThen(iface: Iface, before: Before, c: char, n: Node)
    requires ShowableNode(n, 1) && !NodeBreaks(iface, n, true)
    ensures Expand(iface, before, Show([Lit(c), n])) ==
      if n.Var? && ValueOf(iface, n.ref).Missing? then UndefinedVariable else Expanded([c] + NodeMeaning(iface, n))
  {
    hide ValueOf, Parse, Show;
    var nodes := [Lit(c), n];
    TextThenNodes(iface, c, n);
    ShowRoundTrip(before, nodes);
  }

  lemma TextThenNodes(iface: Iface, c: char, n: Node)
    ensures var nodes := [Lit(c), n];
            && (ShowableNode(n, 1) ==> Showable(nodes, 1) && !LeftOpen(nodes))
            && Meaning(iface, nodes) == [c] + NodeMeaning(iface, n) && Writes(iface, nodes)
            && Breaks(iface, nodes, false) == NodeBreaks(iface, n, true)
            && Lacks(iface, nodes) == (n.Var? && ValueOf(iface, n.ref).Missing?)
  {
    hide ValueOf, Meaning, Writes, Breaks, Showable, Lacks;
    var nodes := [Lit(c), n];
    OneNode(iface, n, 1);
    assert nodes[1..] == [n];
    UnfoldNodes(iface, nodes, 1);
    LacksSecond(iface, c, n);
  }

  lemma LacksSecond(iface: Iface, c: char, n: Node)
    ensures Lacks(iface, [Lit(c), n]) == (n.Var? && ValueOf(iface, n.ref).Missing?)
  {
    hide ValueOf;
    assert [Lit(c), n][1] == n;
  }

  lemma UnfoldNodes(iface: Iface, nodes: seq<Node>, depth: nat)
    requires nodes != []
    ensures Showable(nodes, depth) == (ShowableNode(nodes[0], depth) && Showable(nodes[1..], depth))
    ensures Meaning(iface, nodes) == NodeMeaning(iface, nodes[0]) + Meaning(iface, nodes[1..])
    ensures Writes(iface, nodes) == (NodeWrites(iface, nodes[0]) || Writes(iface, nodes[1..]))
    ensures forall w :: Breaks(iface, nodes, w) <==>
      NodeBreaks(iface, nodes[0], w) || Breaks(iface, nodes[1..], w || NodeWrites(iface, nodes[0]))
  {
    hide NodeMeaning, NodeWrites, NodeBreaks, ShowableNode;
  }

  /** A variable behind a character of text.  If it has a value the value is written, in full or with every `p` replaced
      by `r`, whatever the memory before the template holds; if it has none the expansion fails. */
  lemma VariableExpands(iface: Iface, before: Before, c: char, n: Node)
    requires n.Var? && ShowableNode(n, 1)
    ensures var e := Expand(iface, before, Show([Lit(c), n]));
            && (e.Expanded? <==> exists v :: Denotes(iface, n.ref.name, v))
            && (!e.Expanded? ==> e == UndefinedVariable)
            && forall v :: Denotes(iface, n.ref.name, v) ==>
                 && |e.text| == 1 + |v| && e.text[0] == c
                 && if n.pat.None? then e.text[1..] == v else Replaced(v, n.pat.value, n.rep, e.text[1..])
  {
    hide Expand, Show, Denotes;
    DenotesValue(iface, n.ref.name);
    TextThen(iface, before, c, n);
    var value := ValueOf(iface, n.ref);
    if value.Text? {
      assert Denotes(iface, n.ref.name, value.s);
      assert ([c] + NodeMeaning(iface, n))[1..] == Replace(value.s, n.pat, n.rep);
    }
  }

  /** The same variable in double brackets may lack a value: then nothing is written for it. */
  lemma OptionalExpands(iface: Iface, before: Before, c: char, n: Node)
    requires n.Var? && ShowableNode(n, 2)
    ensures var e := Expand(iface, before, Show([Lit(c), Block([n], true)]));
            && e.Expanded?
            && ((forall v :: !Denotes(iface, n.ref.name, v)) ==> e.text == [c])
            && forall v :: Denotes(iface, n.ref.name, v) ==>
                 && |e.text| == 1 + |v| && e.text[0] == c
                 && if n.pat.None? then e.text[1..] == v else Replaced(v, n.pat.value, n.rep, e.text[1..])
  {
    hide Expand, Show, Denotes, Meaning, Breaks, Lacks, Showable;
    DenotesValue(iface, n.ref.name);
    OneNode(iface, n, 2);
    TextThen(iface, before, c, Block([n], true));
    var value := ValueOf(iface, n.ref);
    if value.Text? {
      assert Denotes(iface, n.ref.name, value.s);
      assert ([c] + NodeMeaning(iface, n))[1..] == Replace(value.s, n.pat, n.rep);
    }
  }

  /** Whether a variable, at any depth, is wild. */
  predicate HasWild(iface: Iface, nodes: seq<Node>) {
    nodes != [] && (NodeHasWild(iface, nodes[0]) || HasWild(iface, nodes[1..]))
  }

  predicate NodeHasWild(iface: Iface, n: Node) {
    match n
    case Lit(_) => false
    case Var(ref, _, _) => ValueOf(iface, ref).Wild?
    case Block(body, _) => HasWild(iface, body)
  }

  /** Once some text was written, only a wild variable breaks the expansion. */
  lemma {:induction false} OnlyWildBreaks(iface: Iface, nodes: seq<Node>)
    ensures Breaks(iface, nodes, true) <==> HasWild(iface, nodes)
    decreases nodes
  {
    if nodes != [] {
      match nodes[0] {
        case Block(body, _) => OnlyWildBreaks(iface, body);
        case _ =>
      }
      OnlyWildBreaks(iface, nodes[1..]);
    }
  }

  /** A template that starts with a character of text expands without breaking, unless a variable in it is wild. */
  lemma TextFirst(iface: Iface, before: Before, t: string)
    requires Parse(before, t, 0, 1).nodes != [] && Parse(before, t, 0, 1).nodes[0].Lit?
    ensures Expand(iface, before, t).Broken? <==> HasWild(iface, Parse(before, t, 0, 1).nodes)
  {
    var nodes := Parse(before, t, 0, 1).nodes;
    OnlyWildBreaks(iface, nodes);
    assert Breaks(iface, nodes, false) == Breaks(iface, nodes[1..], true) == Breaks(iface, nodes, true);
  }

  /** It succeeds exactly if its percents and brackets balance and no variable outside the blocks is missing. */
  lemma SucceedsWhen(iface: Iface, before: Before, t: string)
    requires Parse(before, t, 0, 1).nodes != [] && Parse(before, t, 0, 1).nodes[0].Lit?
    requires !HasWild(iface, Parse(before, t, 0, 1).nodes)
    ensures var p := Parse(before, t, 0, 1);
            && (Expand(iface, before, t).Expanded? <==> !p.end.Stray? && !LeftOpen(p.nodes) && !Lacks(iface, p.nodes))
            && (Expand(iface, before, t).Expanded? ==> Expand(iface, before, t).text == Meaning(iface, p.nodes))
  {
    TextFirst(iface, before, t);
  }

  /** A template that starts with a block to be dropped does break. */
  lemma BlockFirst(before: Before)
    ensures Expand(Iface("eth0", []), before, "[[%name%]]") == Broken
  {
    var iface, n := Iface("eth0", []), Var(Named("name"), None, ' ');
    assert Show([n]) == "%name%";
    assert Show([Block([n], true)]) == "[[%name%]]";
    assert Showable([n], 2) && ShowableNode(Block([n], true), 1);
    ShowRoundTrip(before, [Block([n], true)]);
    assert Lacks(iface, [n]) by { assert [n][0] == n; }
    assert NodeBreaks(iface, Block([n], true), false);
  }

  /** A variable means, for every interface, what an unchanged variable of its whole name means exactly if the fourth
      character before its end is not a slash -- even where that character is before the variable. */
  lemma PlainVariable(before: Before, t: string, i: nat, next: nat)
    requires 0 < i <= next < |t|
    ensures var plain := Var(Named(t[i..next]), None, ' ');
            (forall iface :: NodeMeaning(iface, VariableAt(before, t, i, next)) == NodeMeaning(iface, plain))
            <==> CharAt(before, t, next - 4) != '/'
  {
    var name, n := t[i..next], VariableAt(before, t, i, next);
    if CharAt(before, t, next - 4) == '/' {
      var iface := Iface("", [Setting(name, Some("v"))]);
      assert name != "iface" by {
        assert next - 4 >= i ==> name[next - 4 - i] == '/';
      }
      assert OptionValue(iface.options, name) == Text("v");
      assert NodeMeaning(iface, Var(Named(name), None, ' ')) == "v";
      assert NodeMeaning(iface, n) == "" by {
        SlashedIsEmpty(before, t, i, next);
      }
    }
  }

  lemma SlashedIsEmpty(before: Before, t: string, i: nat, next: nat)
    requires 0 < i <= next < |t| && CharAt(before, t, next - 4) == '/'
    ensures NodeMeaning(Iface("", [Setting(t[i..next], Some("v"))]), VariableAt(before, t, i, next)) == ""
  {
    var iface, n := Iface("", [Setting(t[i..next], Some("v"))]), VariableAt(before, t, i, next);
    assert iface.options[1..] == [];
    if next - 4 >= i {
      var name := t[i..next - 4];
      assert |name| != |t[i..next]| && n.ref == Named(name);
      assert OptionValue(iface.options, name) == OptionValue(iface.options[1..], name) == Missing;
      assert ValueOf(iface, n.ref) == Missing || ValueOf(iface, n.ref) == Text("");
      assert Replace("", n.pat, n.rep) == "";
    } else {
      assert |t[i..]| != |t[i..next]|;
    }
  }

  lemma NoneBreaks(iface: Iface, n: Node)
    requires n.Var? && !ValueOf(iface, n.ref).Wild?
    ensures !Breaks(iface, [Lit('-'), Lit('/'), n], false)
  {
    hide ValueOf, Breaks;
    var nodes := [Lit('-'), Lit('/'), n];
    OneNode(iface, n, 1);
    UnfoldNodes(iface, nodes, 1);
    UnfoldNodes(iface, nodes[1..], 1);
    assert nodes[1..][1..] == [n];
  }

  /** So a variable of two characters behind a slash is not found. */
  lemma SlashBefore(before: Before)
    ensures Expand(Iface("eth0", [Setting("ab", Some("x"))]), before, "-/%ab%") == UndefinedVariable
  {
    var t := "-/%ab%";
    var iface := Iface("eth0", [Setting("ab", Some("x"))]);
    NextPercentIs(t, 3, 5);
    UnfoldLiteral(before, t, 0, 1);
    UnfoldLiteral(before, t, 1, 1);
    UnfoldVariable(before, t, 2, 1, 5);
    var n := VariableAt(before, t, 3, 5);
    assert |t[3..]| == 3 && n.ref == Overrun(t[3..]) && ValueOf(iface, n.ref).Missing?;
    var nodes := Parse(before, t, 0, 1).nodes;
    assert nodes == [Lit('-'), Lit('/'), n];
    assert nodes[2] == n && Lacks(iface, nodes);
    NoneBreaks(iface, n);
  }
}
