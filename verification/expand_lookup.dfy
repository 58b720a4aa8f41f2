/** How a variable's name is compared with the names of options: by length, on zero-terminated text. */
module ExpandLookup {
  import opened Options
  import opened ExpandSyntax

  /** One more than the largest size the program can count. */
  const SIZE := 0x1_0000_0000_0000_0000

  /** Text short enough to be in memory, and without a zero of its own. */
  predicate InMemory(s: string) {
    |s| < SIZE - 4 && '\0' !in s
  }

  predicate Fits(iface: Iface) {
    InMemory(iface.ifname) && forall i :: 0 <= i < |iface.options| ==> InMemory(iface.options[i].name)
  }

  /** Whether two zero-terminated texts agree in their first `n` characters, or up to the end of both. */
  predicate SameStart(l: string, r: string, n: nat) {
    n == 0 || (if l == "" || r == "" then l == r else l[0] == r[0] && SameStart(l[1..], r[1..], n - 1))
  }

  datatype Comparison = Same | Different | Unknown

  /** Compares the first `n` characters of `l` with the whole of `r`.  If both end before, it looks behind the end. */
  function Compare(l: string, r: string, n: nat): Comparison {
    if !SameStart(l, r, n) then Different
    else if n > |r| then Unknown
    else if n == |r| then Same
    else Different
  }

  lemma TakeFirst(s: string, n: nat)
    requires 0 < n <= |s|
    ensures s[..n] == [s[0]] + s[1..][..n - 1]
  {
  }

  lemma {:induction false} SameStartIs(l: string, r: string, n: nat)
    ensures SameStart(l, r, n) <==> if n <= |l| && n <= |r| then l[..n] == r[..n] else l == r
  {
    if n > 0 && l != "" && r != "" {
      SameStartIs(l[1..], r[1..], n - 1);
      if n <= |l| && n <= |r| {
        TakeFirst(l, n);
        TakeFirst(r, n);
      } else {
        assert l == [l[0]] + l[1..] && r == [r[0]] + r[1..];
      }
    }
  }

  /** Within `l`, its first `n` characters must be exactly `r`.  Beyond it, only an `r` equal to the whole of `l` is not
      different, and then the comparison has no defined result. */
  lemma CompareIs(l: string, r: string, n: nat)
    ensures n <= |l| ==> Compare(l, r, n) == if l[..n] == r then Same else Different
    ensures n > |l| && n > |r| ==> Compare(l, r, n) == if l == r then Unknown else Different
  {
    SameStartIs(l, r, n);
    if n <= |l| && n <= |r| {
      assert n == |r| ==> r[..n] == r;
    }
  }

  /** Looks a variable up. */
  method GetVar(iface: Iface, id: string, idlen: nat) returns (v: Value)
    requires InMemory(id) && Fits(iface) && '%' in id
    requires idlen <= |id| || SIZE - 4 <= idlen < SIZE
    ensures v == ValueOf(iface, if idlen <= |id| then Named(id[..idlen]) else Overrun(id))
  {
    CompareIs(id, "iface", idlen);
    if Compare(id, "iface", idlen).Same? {
      return Text(iface.ifname);
    }
    ghost var name := if idlen <= |id| then id[..idlen] else id;
    for i := 0 to |iface.options|
      invariant forall j :: 0 <= j < i ==> iface.options[j].name != name
      invariant OptionValue(iface.options, name) == OptionValue(iface.options[i..], name)
    {
      var option := iface.options[i];
      CompareIs(id, option.name, idlen);
      assert iface.options[i..][0] == option && iface.options[i..][1..] == iface.options[i + 1..];
      var c := Compare(id, option.name, idlen);
      if c.Unknown? {
        return Wild;
      } else if c.Same? {
        if option.value.None? {
          return Missing;
        } else if |option.value.value| > 0 {
          return Text(option.value.value);
        } else {
          return Missing;
        }
      }
    }
    v := Missing;
  }
}
