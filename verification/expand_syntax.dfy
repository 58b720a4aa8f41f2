/** Command templates of the interface tool: their syntax, and what they expand to. */
module ExpandSyntax {
  import opened Options

  /** Blocks may be nested this deep, counting the outermost level. */
  const MAX_OPT_DEPTH := 10

  /** What a template is expanded for: the interface's name and its options. */
  datatype Iface = Iface(ifname: string, options: seq<Setting>)

  datatype Setting = Setting(name: string, value: Option<string>)

  /** A variable names an option, up to `/p/r`.  Where the four characters before its closing `%` reach back past its
      opening one, and happen to start with `/`, its name is measured wrongly: it is compared as the rest of the
      template. */
  datatype Reference = Named(name: string) | Overrun(rest: string)

  datatype Node =
    | Lit(c: char)
    | Var(ref: Reference, pat: Option<char>, rep: char)
    | Block(body: seq<Node>, closed: bool)

  /** Where a sequence of nodes ends: with the template, with the `]]` before position `at`, or with a `%` that opens
      no variable. */
  datatype End = Eof | Closed(at: nat) | Stray

  datatype Parsed = Parsed(nodes: seq<Node>, end: End)

  function Cons(n: Node, p: Parsed): Parsed {
    Parsed([n] + p.nodes, p.end)
  }

  /** The next `%` at or after position `i`. */
  function NextPercent(t: string, i: nat): (r: Option<nat>)
    requires i <= |t|
    ensures r.Some? ==> i <= r.value < |t| && t[r.value] == '%' && forall j :: i <= j < r.value ==> t[j] != '%'
    ensures r.None? ==> forall j :: i <= j < |t| ==> t[j] != '%'
    decreases |t| - i
  {
    if i == |t| then None else if t[i] == '%' then Some(i) else NextPercent(t, i + 1)
  }

  /** The three characters in memory before the template. */
  type Before = s: string | |s| == 3 witness "   "

  /** The character in memory at position `i`, which may be before the template. */
  function CharAt(before: Before, t: string, i: int): char
    requires -3 <= i < |t|
  {
    if i < 0 then before[3 + i] else t[i]
  }

  /** The variable between the `%` before position `i` and the one at `next`. */
  function VariableAt(before: Before, t: string, i: nat, next: nat): Node
    requires 0 < i <= next < |t|
  {
    if CharAt(before, t, next - 4) == '/' then
      Var(if next - 4 >= i then Named(t[i..next - 4]) else Overrun(t[i..]),
          Some(CharAt(before, t, next - 3)), CharAt(before, t, next - 1))
    else Var(Named(t[i..next]), None, ' ')
  }

  predicate Twice(t: string, i: nat, c: char) {
    i + 1 < |t| && t[i] == c && t[i + 1] == c
  }

  /** The nodes from position `i` on, `depth` levels deep. */
  function Parse(before: Before, t: string, i: nat, depth: nat): (p: Parsed)
    requires i <= |t| && 1 <= depth <= MAX_OPT_DEPTH
    ensures p.end.Closed? ==> depth > 1 && i < p.end.at <= |t|
    decreases |t| - i
  {
    if i == |t| then Parsed([], Eof)
    else if t[i] == '\\' && i + 1 < |t| then Cons(Lit(t[i + 1]), Parse(before, t, i + 2, depth))
    else if Twice(t, i, '[') && depth < MAX_OPT_DEPTH then
      var inner := Parse(before, t, i + 2, depth + 1);
      if inner.end.Closed? then Cons(Block(inner.nodes, true), Parse(before, t, inner.end.at, depth))
      else Parsed([Block(inner.nodes, false)], inner.end)
    else if Twice(t, i, ']') && depth > 1 then Parsed([], Closed(i + 2))
    else if t[i] == '%' then
      var next := NextPercent(t, i + 1);
      if next.None? then Parsed([], Stray)
      else Cons(VariableAt(before, t, i + 1, next.value), Parse(before, t, next.value + 1, depth))
    else Cons(Lit(t[i]), Parse(before, t, i + 1, depth))
  }

  // ---- meaning ----

  /** The value of a variable: none, some text, or -- if the text it is compared as is the name of an option -- nothing
      defined. */
  datatype Value = Missing | Text(s: string) | Wild

  function OptionValue(options: seq<Setting>, name: string): Value {
    if options == [] then Missing
    else if options[0].name != name then OptionValue(options[1..], name)
    else if options[0].value.None? || options[0].value.value == "" then Missing
    else Text(options[0].value.value)
  }

  function ValueOf(iface: Iface, ref: Reference): Value {
    match ref
    case Named(name) => if name == "iface" then Text(iface.ifname) else OptionValue(iface.options, name)
    case Overrun(rest) =>
      if exists i :: 0 <= i < |iface.options| && iface.options[i].name == rest then Wild else Missing
  }

  function Replace(s: string, pat: Option<char>, rep: char): string {
    if pat.None? then s else seq(|s|, i requires 0 <= i < |s| => if s[i] == pat.value then rep else s[i])
  }

  /** Whether a variable at this level, outside the blocks, has no value. */
  predicate Lacks(iface: Iface, nodes: seq<Node>) {
    exists i :: 0 <= i < |nodes| && nodes[i].Var? && ValueOf(iface, nodes[i].ref).Missing?
  }

  /** The text of some nodes: a block that lacks a variable vanishes. */
  function Meaning(iface: Iface, nodes: seq<Node>): string {
    if nodes == [] then "" else NodeMeaning(iface, nodes[0]) + Meaning(iface, nodes[1..])
  }

  function NodeMeaning(iface: Iface, n: Node): string {
    match n
    case Lit(c) => [c]
    case Var(ref, pat, rep) =>
      (match ValueOf(iface, ref)
       case Text(s) => Replace(s, pat, rep)
       case _ => "")
    case Block(body, _) => if Lacks(iface, body) then "" else Meaning(iface, body)
  }

  /** Whether the nodes produce any text, if only to drop it again.  An empty text counts. */
  predicate Writes(iface: Iface, nodes: seq<Node>) {
    nodes != [] && (NodeWrites(iface, nodes[0]) || Writes(iface, nodes[1..]))
  }

  predicate NodeWrites(iface: Iface, n: Node) {
    match n
    case Lit(_) => true
    case Var(ref, _, _) => !ValueOf(iface, ref).Missing?
    case Block(body, _) => Writes(iface, body)
  }

  /** Whether expanding the nodes has no defined behaviour, given whether any text was written before them: a block has
      to be dropped before any text was written, or a variable is wild. */
  predicate Breaks(iface: Iface, nodes: seq<Node>, written: bool) {
    nodes != []
    && (|| NodeBreaks(iface, nodes[0], written)
        || Breaks(iface, nodes[1..], written || NodeWrites(iface, nodes[0])))
  }

  predicate NodeBreaks(iface: Iface, n: Node, written: bool) {
    match n
    case Lit(_) => false
    case Var(ref, _, _) => ValueOf(iface, ref).Wild?
    case Block(body, closed) =>
      || Breaks(iface, body, written)
      || (closed && Lacks(iface, body) && !written && !Writes(iface, body))
  }

  /** Whether a block is left open at the end. */
  predicate LeftOpen(nodes: seq<Node>) {
    nodes != [] && nodes[|nodes| - 1].Block? && !nodes[|nodes| - 1].closed
  }

  datatype Outcome =
    | Expanded(text: string)
    /** The null pointer, with no error: nothing was ever written. */
    | Nothing
    | UnbalancedPercent
    | UnbalancedBracket
    | UndefinedVariable
    /** The program's behaviour is not defined. */
    | Broken

  /** What a template expands to. */
  function Expand(iface: Iface, before: Before, t: string): Outcome {
    var p := Parse(before, t, 0, 1);
    if Breaks(iface, p.nodes, false) then Broken
    else if p.end.Stray? then UnbalancedPercent
    else if LeftOpen(p.nodes) then UnbalancedBracket
    else if Lacks(iface, p.nodes) then UndefinedVariable
    else if !Writes(iface, p.nodes) then Nothing
    else Expanded(Meaning(iface, p.nodes))
  }
}
