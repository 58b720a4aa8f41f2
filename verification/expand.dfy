/** The expansion of command templates, with a buffer that grows and is cut back. */
module Expansion {
  import opened Options
  import opened ExpandSyntax
  import opened ExpandResume
  import opened ExpandLookup

  /** A text that ends with a zero.  Before anything is added there is no memory for it. */
  class Buffer {
    var data: array?<char>
    var pos: nat

    constructor ()
      ensures Valid() && data == null && Contents() == ""
    {
      data, pos := null, 0;
    }

    ghost predicate Valid()
      reads this, data
    {
      if data == null then pos == 0 else pos < data.Length && data[pos] == '\0'
    }

    function Contents(): string
      requires Valid()
      reads this, data
    {
      if data == null then "" else data[..pos]
    }

    /** Adds a text at the end, after moving to more memory if need be. */
    method AddStr(s: string)
      requires Valid()
      modifies this, data
      ensures Valid() && Contents() == old(Contents()) + s
      ensures data != null && (data == old(data) || fresh(data))
    {
      var len := if data == null then 0 else data.Length;
      if pos + |s| >= len {
        Grow(len * 2 + |s| + 1);
      }
      ghost var before := data[..pos];
      var i := 0;
      while i < |s|
        invariant 0 <= i <= |s| && data != null && (data == old(data) || fresh(data))
        invariant pos + (|s| - i) < data.Length
        invariant data[..pos] == before + s[..i]
      {
        data[pos] := s[i];
        pos := pos + 1;
        i := i + 1;
      }
      data[pos] := '\0';
    }

    method Grow(len: nat)
      requires Valid() && pos < len && (data != null ==> data.Length <= len)
      modifies this`data
      ensures data != null && fresh(data) && data.Length == len && data[..pos] == old(Contents())
    {
      var more := new char[len];
      if data != null {
        var from: array<char> := data;
        for i := 0 to from.Length
          invariant more[..i] == from[..i]
        {
          more[i] := from[i];
        }
        assert more[..pos] == more[..from.Length][..pos] == from[..pos];
      }
      data := more;
    }

    /** Cuts the text back to its first `p` characters. */
    method CutBack(p: nat)
      requires Valid() && data != null && p <= pos
      modifies this, data
      ensures Valid() && Contents() == old(Contents())[..p] && data == old(data)
    {
      pos := p;
      data[pos] := '\0';
    }
  }

  /** Replaces a character in the copy of a value. */
  method Substitute(value: string, pat: Option<char>, rep: char) returns (s: string)
    ensures s == Replace(value, pat, rep)
  {
    var copy := new char[|value|](i requires 0 <= i < |value| => value[i]);
    for i := 0 to copy.Length
      invariant copy[..i] == Replace(value, pat, rep)[..i] && copy[i..] == value[i..]
    {
      if pat == Some(copy[i]) {
        copy[i] := rep;
      }
    }
    s := copy[..];
  }

  /** Measures the name of a variable, and looks it up. */
  method LookUp(iface: Iface, before: Before, t: string, i: nat, next: nat)
    returns (v: Value, pat: Option<char>, rep: char)
    requires InMemory(t) && Fits(iface) && 0 < i <= next < |t| && t[next] == '%'
    ensures var n := VariableAt(before, t, i, next);
            n == Var(n.ref, pat, rep) && v == ValueOf(iface, n.ref)
  {
    hide ValueOf;
    var namelen: int := next - i;
    pat, rep := None, ' ';
    if CharAt(before, t, next - 4) == '/' {
      pat, rep := Some(CharAt(before, t, next - 3)), CharAt(before, t, next - 1);
      namelen := (namelen - 4) % SIZE;
    }
    var id := t[i..];
    assert id[next - i] == '%';
    assert namelen <= |id| ==> id[..namelen] == t[i..i + namelen];
    v := GetVar(iface, id, namelen);
  }

  /** The open levels, from the arrays that hold them. */
  function LevelsOf(oldPos: seq<nat>, okay: seq<bool>): seq<Level>
    requires |oldPos| == |okay|
  {
    seq(|oldPos|, i requires 0 <= i < |oldPos| => Level(oldPos[i], okay[i]))
  }

  /** A template that is being expanded. */
  class Expander {
    const iface: Iface
    const before: Before
    const t: string
    var at: nat
    const buf: Buffer
    const oldPos: array<nat>
    const okay: array<bool>
    var depth: nat

    constructor (iface: Iface, before: Before, t: string)
      ensures this.iface == iface && this.before == before && this.t == t
      ensures fresh(buf) && fresh(oldPos) && fresh(okay) && buf.data == null
      ensures Valid() && State() == Progress(0, "", false, [Level(0, true)])
    {
      this.iface, this.before, this.t := iface, before, t;
      at, depth := 0, 1;
      buf := new Buffer();
      oldPos := new nat[MAX_OPT_DEPTH](_ => 0);
      okay := new bool[MAX_OPT_DEPTH](i => i == 0);
    }

    ghost predicate Shaped()
      reads this, buf, buf.data, oldPos, okay
    {
      && oldPos.Length == okay.Length == MAX_OPT_DEPTH && 1 <= depth <= MAX_OPT_DEPTH && buf.Valid()
    }

    /** The work so far. */
    ghost function State(): Progress
      requires Shaped()
      reads this, buf, buf.data, oldPos, okay
    {
      Progress(at, buf.Contents(), buf.data != null, LevelsOf(oldPos[..depth], okay[..depth]))
    }

    ghost predicate Valid()
      reads this, buf, buf.data, oldPos, okay
    {
      Shaped() && State().Valid(t)
    }

    /** What the template expands to, given the work so far. */
    ghost function Result(): Outcome
      requires Valid()
      reads this, buf, buf.data, oldPos, okay
    {
      Resume(iface, before, t, State())
    }

    method Add(s: string, next: nat)
      requires Valid() && next <= |t|
      modifies `at, buf, buf.data
      ensures Valid() && State() == old(State()).Write(next, s)
      ensures buf.data == old(buf.data) || fresh(buf.data)
    {
      buf.AddStr(s);
      at := next;
    }

    method OpenBlock()
      requires Valid() && Twice(t, at, '[') && depth < MAX_OPT_DEPTH
      modifies `at, `depth, oldPos, okay
      ensures Valid() && State() == old(State()).Open(old(at) + 2)
    {
      oldPos[depth], okay[depth] := buf.pos, true;
      depth, at := depth + 1, at + 2;
      assert LevelsOf(oldPos[..depth], okay[..depth]) == old(State()).Open(at).levels;
    }

    method CloseBlock() returns (broken: bool)
      requires Valid() && Twice(t, at, ']') && depth > 1
      modifies `at, `depth, buf, buf.data
      ensures broken <==> !old(State()).Last().okay && !old(State()).written
      ensures !broken ==> Valid() && State() == old(State()).Close(old(at) + 2, old(State()).Last().okay)
      ensures buf.data == old(buf.data)
    {
      depth := depth - 1;
      assert old(State()).Last() == Level(oldPos[depth], okay[depth]) == old(State()).levels[depth];
      if !okay[depth] {
        if buf.data == null {
          return true;
        }
        buf.CutBack(oldPos[depth]);
      }
      at := at + 2;
      broken := false;
      assert LevelsOf(oldPos[..depth], okay[..depth]) == old(State()).levels[..depth];
    }

    method Fail(next: nat)
      requires Valid() && next <= |t|
      modifies `at, okay
      ensures Valid() && State() == old(State()).Fail(next)
    {
      okay[depth - 1] := false;
      at := next;
      assert LevelsOf(oldPos[..depth], okay[..depth]) == old(State()).Fail(at).levels;
    }

    /** A variable, between the `%` at the current position and the one at `next`. */
    method Variable(next: nat) returns (broken: bool)
      requires Valid() && InMemory(t) && Fits(iface)
      requires at < |t| && t[at] == '%' && NextPercent(t, at + 1) == Some(next)
      modifies `at, buf, buf.data, okay
      ensures broken ==> old(Result()) == Broken
      ensures !broken ==> at == next + 1 && Valid() && Result() == old(Result())
      ensures buf.data == old(buf.data) || fresh(buf.data)
    {
      hide Resume, Parse, ValueOf, Replace, VariableAt;
      UnfoldVariable(before, t, at, depth, next);
      ghost var n := VariableAt(before, t, at + 1, next);
      var v, pat, rep := LookUp(iface, before, t, at + 1, next);
      broken := false;
      match v {
        case Text(value) =>
          StepText(iface, before, t, State(), n, next + 1);
          var text := Substitute(value, pat, rep);
          Add(text, next + 1);
        case Missing =>
          ResumeMissing(iface, before, t, State(), n, next + 1);
          Fail(next + 1);
        case Wild =>
          ResumePast(iface, before, t, State(), n, next + 1);
          broken := true;
      }
    }
  }

  /** One turn of the loop.  It answers how the expansion ends, if it ends here. */
  method Step(e: Expander) returns (r: Option<Outcome>)
    requires e.Valid() && e.at < |e.t| && InMemory(e.t) && Fits(e.iface)
    modifies e, e.buf, e.buf.data, e.oldPos, e.okay
    ensures r.Some? ==> r.value == old(e.Result())
    ensures r.None? ==> e.Valid() && e.Result() == old(e.Result()) && e.at > old(e.at)
    ensures e.buf.data == old(e.buf.data) || fresh(e.buf.data)
  {
    hide Resume, Parse;
    var i := e.at;
    ghost var s := e.State();
    if e.t[i] == '\\' && i + 1 < |e.t| {
      UnfoldEscape(e.before, e.t, i, e.depth);
      StepText(e.iface, e.before, e.t, s, Lit(e.t[i + 1]), i + 2);
      e.Add([e.t[i + 1]], i + 2);
    } else if Twice(e.t, i, '[') && e.depth < MAX_OPT_DEPTH {
      ResumeOpen(e.iface, e.before, e.t, s);
      e.OpenBlock();
    } else if Twice(e.t, i, ']') && e.depth > 1 {
      ResumeClose(e.iface, e.before, e.t, s);
      var broken := e.CloseBlock();
      return if broken then Some(Broken) else None;
    } else if e.t[i] == '%' {
      var next := NextPercent(e.t, i + 1);
      if next.None? {
        ResumeStray(e.iface, e.before, e.t, s);
        return Some(UnbalancedPercent);
      }
      var broken := e.Variable(next.value);
      return if broken then Some(Broken) else None;
    } else {
      UnfoldLiteral(e.before, e.t, i, e.depth);
      StepText(e.iface, e.before, e.t, s, Lit(e.t[i]), i + 1);
      e.Add([e.t[i]], i + 1);
    }
    r := None;
  }

  /** Expands a template, from left to right. */
  method ParseCommand(iface: Iface, before: Before, t: string) returns (r: Outcome)
    requires InMemory(t) && Fits(iface)
    ensures r == Expand(iface, before, t)
  {
    hide Resume, Parse, Expand;
    var e := new Expander(iface, before, t);
    ResumeStart(iface, before, t);
    while e.at < |t|
      invariant e.Valid() && e.Result() == Expand(iface, before, t)
      invariant e.buf.data == null || fresh(e.buf.data)
      decreases |t| - e.at
    {
      var end := Step(e);
      if end.Some? {
        return end.value;
      }
    }
    ResumeEnd(iface, before, t, e.State());
    if e.depth > 1 {
      r := UnbalancedBracket;
    } else if !e.okay[0] {
      r := UndefinedVariable;
    } else if e.buf.data == null {
      r := Nothing;
    } else {
      r := Expanded(e.buf.Contents());
    }
  }
}
