/** Expanding a template from left to right: what the rest of the work comes to, from any point of it. */
module ExpandResume {
  import opened Options
  import opened ExpandSyntax

  /** A block that is open: where its text starts, and whether its variables so far have values. */
  datatype Level = Level(start: nat, okay: bool)

  /** The work so far: the position in the template, the text, whether any was written, and the open levels. */
  datatype Progress = Progress(at: nat, out: string, written: bool, levels: seq<Level>) {

    ghost predicate Valid(t: string) {
      && at <= |t| && 1 <= |levels| <= MAX_OPT_DEPTH
      && (forall i :: 0 <= i < |levels| ==> levels[i].start <= |out|)
      && (forall i, j :: 0 <= i < j < |levels| ==> levels[i].start <= levels[j].start)
    }

    function Last(): Level
      requires levels != []
    {
      levels[|levels| - 1]
    }

    /** The innermost block ends here. */
    function Close(at: nat, okay: bool): Progress
      requires levels != [] && Last().start <= |out|
    {
      Progress(at, if okay then out else out[..Last().start], written, levels[..|levels| - 1])
    }

    function Write(at: nat, s: string): Progress {
      Progress(at, out + s, true, levels)
    }

    /** A node has been expanded. */
    function Past(at: nat, iface: Iface, n: Node): Progress {
      Progress(at, out + NodeMeaning(iface, n), written || NodeWrites(iface, n), levels)
    }

    function Fail(at: nat): Progress
      requires levels != []
    {
      Progress(at, out, written, levels[..|levels| - 1] + [Last().(okay := false)])
    }

    function Open(at: nat): Progress {
      Progress(at, out, written, levels + [Level(|out|, true)])
    }

    /** The nodes of the innermost level have been expanded. */
    function Through(at: nat, iface: Iface, nodes: seq<Node>): Progress {
      Progress(at, out + Meaning(iface, nodes), written || Writes(iface, nodes), levels)
    }
  }

  /** What the template expands to if the work so far is `s`. */
  ghost function Resume(iface: Iface, before: Before, t: string, s: Progress): Outcome
    requires s.Valid(t)
    decreases |s.levels|
  {
    var p := Parse(before, t, s.at, |s.levels|);
    var okay := s.Last().okay && !Lacks(iface, p.nodes);
    if Breaks(iface, p.nodes, s.written) then Broken
    else match p.end
      case Stray => UnbalancedPercent
      case Eof =>
        if |s.levels| > 1 || LeftOpen(p.nodes) then UnbalancedBracket
        else if !okay then UndefinedVariable
        else Finish(s.Through(|t|, iface, p.nodes))
      case Closed(j) =>
        var through := s.Through(j, iface, p.nodes);
        if !okay && !through.written then Broken
        else Resume(iface, before, t, through.Close(j, okay))
  }

  function Finish(s: Progress): Outcome {
    if s.written then Expanded(s.out) else Nothing
  }

  lemma ResumeStart(iface: Iface, before: Before, t: string)
    ensures Resume(iface, before, t, Progress(0, "", false, [Level(0, true)])) == Expand(iface, before, t)
  {
  }

  lemma ResumeEnd(iface: Iface, before: Before, t: string, s: Progress)
    requires s.Valid(t) && s.at == |t|
    ensures Resume(iface, before, t, s) ==
            if |s.levels| > 1 then UnbalancedBracket
            else if !s.levels[0].okay then UndefinedVariable
            else Finish(s)
  {
    assert s.out + "" == s.out;
  }

  /** Putting a node in front of others. */
  lemma ConsMeaning(iface: Iface, n: Node, nodes: seq<Node>, written: bool)
    ensures var all := [n] + nodes;
            && Meaning(iface, all) == NodeMeaning(iface, n) + Meaning(iface, nodes)
            && Writes(iface, all) == (NodeWrites(iface, n) || Writes(iface, nodes))
            && Breaks(iface, all, written)
               == (NodeBreaks(iface, n, written) || Breaks(iface, nodes, written || NodeWrites(iface, n)))
            && Lacks(iface, all) == ((n.Var? && ValueOf(iface, n.ref).Missing?) || Lacks(iface, nodes))
            && LeftOpen(all) == if nodes == [] then n.Block? && !n.closed else LeftOpen(nodes)
  {
    var all := [n] + nodes;
    assert all[1..] == nodes && all[0] == n;
    if Lacks(iface, nodes) {
      var i :| 0 <= i < |nodes| && nodes[i].Var? && ValueOf(iface, nodes[i].ref).Missing?;
      assert all[i + 1] == nodes[i];
    }
  }

  /** Going on behind a node, with its text, comes to the same, unless the node breaks the work. */
  lemma ResumePast(iface: Iface, before: Before, t: string, s: Progress, n: Node, at: nat)
    requires s.Valid(t) && s.at < at <= |t|
    requires Parse(before, t, s.at, |s.levels|) == Cons(n, Parse(before, t, at, |s.levels|))
    requires n.Var? ==> !ValueOf(iface, n.ref).Missing?
    requires n.Block? ==> n.closed
    ensures s.Past(at, iface, n).Valid(t)
    ensures Resume(iface, before, t, s) ==
            if NodeBreaks(iface, n, s.written) then Broken else Resume(iface, before, t, s.Past(at, iface, n))
  {
    hide Meaning, Writes, Breaks, Lacks, Parse, NodeMeaning, NodeWrites, NodeBreaks;
    var p := Parse(before, t, at, |s.levels|);
    ConsMeaning(iface, n, p.nodes, s.written);
    var s' := s.Past(at, iface, n);
    assert s.out + (NodeMeaning(iface, n) + Meaning(iface, p.nodes)) == s'.out + Meaning(iface, p.nodes);
    assert s'.Through(|t|, iface, p.nodes).out[..s.Last().start] == s.out[..s.Last().start];
  }

  /** So does noting that a variable is missing. */
  lemma ResumeMissing(iface: Iface, before: Before, t: string, s: Progress, n: Node, at: nat)
    requires s.Valid(t) && s.at < at <= |t|
    requires Parse(before, t, s.at, |s.levels|) == Cons(n, Parse(before, t, at, |s.levels|))
    requires n.Var? && ValueOf(iface, n.ref).Missing?
    ensures Resume(iface, before, t, s) == Resume(iface, before, t, s.Fail(at))
  {
    hide Meaning, Writes, Breaks, Lacks, Parse;
    var p := Parse(before, t, at, |s.levels|);
    ConsMeaning(iface, n, p.nodes, s.written);
    assert "" + Meaning(iface, p.nodes) == Meaning(iface, p.nodes);
    assert s.Fail(at).levels[..|s.levels| - 1] == s.levels[..|s.levels| - 1];
    assert s.Through(at, iface, p.nodes).out[..s.Last().start] == s.out[..s.Last().start];
  }

  /** So does opening a block. */
  lemma ResumeOpen(iface: Iface, before: Before, t: string, s: Progress)
    requires s.Valid(t) && Twice(t, s.at, '[') && |s.levels| < MAX_OPT_DEPTH
    ensures s.Open(s.at + 2).Valid(t)
    ensures Resume(iface, before, t, s) == Resume(iface, before, t, s.Open(s.at + 2))
  {
    var inner := Parse(before, t, s.at + 2, |s.levels| + 1);
    UnfoldOpen(before, t, s.at, |s.levels|);
    hide *;
    if inner.end.Closed? {
      ResumePast(iface, before, t, s, Block(inner.nodes, true), inner.end.at);
      ResumeBlock(iface, before, t, s, inner);
    } else {
      ResumeUnclosed(iface, before, t, s, inner);
    }
  }

  lemma UnfoldOpen(before: Before, t: string, i: nat, depth: nat)
    requires Twice(t, i, '[') && 1 <= depth < MAX_OPT_DEPTH
    ensures var inner := Parse(before, t, i + 2, depth + 1);
            Parse(before, t, i, depth) ==
            if inner.end.Closed? then Cons(Block(inner.nodes, true), Parse(before, t, inner.end.at, depth))
            else Parsed([Block(inner.nodes, false)], inner.end)
  {
  }

  lemma ResumeUnclosed(iface: Iface, before: Before, t: string, s: Progress, inner: Parsed)
    requires s.Valid(t) && s.at + 2 <= |t| && |s.levels| < MAX_OPT_DEPTH
    requires inner == Parse(before, t, s.at + 2, |s.levels| + 1) && !inner.end.Closed?
    requires Parse(before, t, s.at, |s.levels|) == Parsed([Block(inner.nodes, false)], inner.end)
    ensures s.Open(s.at + 2).Valid(t)
    ensures Resume(iface, before, t, s) == Resume(iface, before, t, s.Open(s.at + 2))
  {
    hide Meaning, Writes, Lacks, Parse;
    ConsMeaning(iface, Block(inner.nodes, false), [], s.written);
    assert [Block(inner.nodes, false)] + [] == [Block(inner.nodes, false)];
  }

  lemma ResumeBlock(iface: Iface, before: Before, t: string, s: Progress, inner: Parsed)
    requires s.Valid(t) && s.at + 2 <= |t| && |s.levels| < MAX_OPT_DEPTH
    requires inner == Parse(before, t, s.at + 2, |s.levels| + 1) && inner.end.Closed?
    ensures s.Open(s.at + 2).Valid(t)
    ensures var n := Block(inner.nodes, true);
            && s.Past(inner.end.at, iface, n).Valid(t)
            && Resume(iface, before, t, s.Open(s.at + 2)) ==
               if NodeBreaks(iface, n, s.written) then Broken
               else Resume(iface, before, t, s.Past(inner.end.at, iface, n))
  {
    hide Meaning, Writes, Breaks, Lacks, Parse;
    var s' := s.Open(s.at + 2);
    var through := s'.Through(inner.end.at, iface, inner.nodes);
    assert through.out[..|s.out|] == s.out == s.out + "";
    assert s'.levels[..|s.levels|] == s.levels;
    assert through.Close(inner.end.at, !Lacks(iface, inner.nodes))
        == s.Past(inner.end.at, iface, Block(inner.nodes, true));
  }

  /** So does closing one, unless its text must be dropped and none was ever written. */
  lemma ResumeClose(iface: Iface, before: Before, t: string, s: Progress)
    requires s.Valid(t) && Twice(t, s.at, ']') && |s.levels| > 1
    ensures Resume(iface, before, t, s) ==
            if !s.Last().okay && !s.written then Broken
            else Resume(iface, before, t, s.Close(s.at + 2, s.Last().okay))
  {
    hide Parse, NodeMeaning, NodeWrites, NodeBreaks, ValueOf;
    UnfoldClose(before, t, s.at, |s.levels|);
    assert s.out + "" == s.out;
  }

  /** Writing the text of a character or of a variable that has a value. */
  lemma StepText(iface: Iface, before: Before, t: string, s: Progress, n: Node, at: nat)
    requires s.Valid(t) && s.at < at <= |t|
    requires Parse(before, t, s.at, |s.levels|) == Cons(n, Parse(before, t, at, |s.levels|))
    requires n.Lit? || (n.Var? && ValueOf(iface, n.ref).Text?)
    ensures s.Write(at, NodeMeaning(iface, n)).Valid(t)
    ensures Resume(iface, before, t, s) == Resume(iface, before, t, s.Write(at, NodeMeaning(iface, n)))
  {
    hide Resume, Parse;
    ResumePast(iface, before, t, s, n, at);
  }

  lemma UnfoldVariable(before: Before, t: string, i: nat, depth: nat, next: nat)
    requires i < |t| && t[i] == '%' && 1 <= depth <= MAX_OPT_DEPTH && NextPercent(t, i + 1) == Some(next)
    ensures Parse(before, t, i, depth)
         == Cons(VariableAt(before, t, i + 1, next), Parse(before, t, next + 1, depth))
  {
  }

  lemma ResumeStray(iface: Iface, before: Before, t: string, s: Progress)
    requires s.Valid(t) && s.at < |t| && t[s.at] == '%' && NextPercent(t, s.at + 1).None?
    ensures Resume(iface, before, t, s) == UnbalancedPercent
  {
    assert Parse(before, t, s.at, |s.levels|) == Parsed([], Stray);
  }

  lemma UnfoldClose(before: Before, t: string, i: nat, depth: nat)
    requires Twice(t, i, ']') && 1 < depth <= MAX_OPT_DEPTH
    ensures Parse(before, t, i, depth) == Parsed([], Closed(i + 2))
  {
  }

  lemma UnfoldEscape(before: Before, t: string, i: nat, depth: nat)
    requires i + 1 < |t| && t[i] == '\\' && 1 <= depth <= MAX_OPT_DEPTH
    ensures Parse(before, t, i, depth) == Cons(Lit(t[i + 1]), Parse(before, t, i + 2, depth))
  {
  }

  lemma UnfoldLiteral(before: Before, t: string, i: nat, depth: nat)
    requires i < |t| && 1 <= depth <= MAX_OPT_DEPTH && t[i] != '%'
    requires t[i] == '\\' ==> i + 1 == |t|
    requires !(Twice(t, i, '[') && depth < MAX_OPT_DEPTH) && !(Twice(t, i, ']') && depth > 1)
    ensures Parse(before, t, i, depth) == Cons(Lit(t[i]), Parse(before, t, i + 1, depth))
  {
  }
}
