// Go's path.Clean, by its documented rules, as the vault uses it on request
// paths: (1) runs of slashes count as one, (2) "." elements go, (3) an inner
// ".." goes together with the non-".." element before it, (4) ".." elements
// at the start of a rooted path go; an empty result is ".".
module GoPath {
  import GoStrings

  /** The length of p's first element: the characters before the first '/'. */
  function ElemLen(p: string): (n: nat)
    ensures n <= |p|
    ensures forall i | 0 <= i < n :: p[i] != '/'
    ensures n < |p| ==> p[n] == '/'
    decreases |p|
  {
    if p == [] || p[0] == '/' then 0 else 1 + ElemLen(p[1..])
  }

  /** An element of a path: non-empty and free of '/'. */
  predicate IsElem(e: string)
  {
    e != "" && '/' !in e
  }

  /** The elements of p, that is the non-empty pieces between slashes (rule 1). */
  function Elements(p: string): (es: seq<string>)
    ensures forall i | 0 <= i < |es| :: IsElem(es[i])
    decreases |p|
  {
    if p == [] then []
    else if p[0] == '/' then Elements(p[1..])
    else
      var n := ElemLen(p);
      assert '/' !in p[..n] by {
        forall i | 0 <= i < n
          ensures p[..n][i] != '/'
        {
        }
      }
      [p[..n]] + Elements(p[n..])
  }

  /**
   * Rules 2 to 4 over elements, with stack the elements kept so far: "."
   * is dropped, ".." removes a preceding non-".." element, and is otherwise
   * dropped in a rooted path and kept in a relative one.
   */
  function Resolve(stack: seq<string>, es: seq<string>, rooted: bool): seq<string>
    decreases |es|
  {
    if es == [] then stack
    else
      var e := es[0];
      var next :=
        if e == "." then stack
        else if e == ".." then
          if |stack| > 0 && stack[|stack| - 1] != ".." then stack[..|stack| - 1]
          else if rooted then stack
          else stack + [".."]
        else stack + [e];
      Resolve(next, es[1..], rooted)
  }

  /** path.Clean. */
  function Clean(p: string): (c: string)
    ensures c != ""
  {
    if p == "" then "."
    else
      var rooted := p[0] == '/';
      var body := GoStrings.Join(Resolve([], Elements(p), rooted), '/');
      if rooted then "/" + body else if body == "" then "." else body
  }

  /** path.Join of two elements: the first non-empty one onwards, joined by '/' and cleaned; "" when both are empty. */
  function Join(a: string, b: string): string
  {
    if a != "" then Clean(a + "/" + b)
    else if b != "" then Clean(b)
    else ""
  }

  /** A resolved element list: proper elements, no "."; no ".." at all when rooted, only leading ones otherwise. */
  predicate Resolved(st: seq<string>, rooted: bool)
  {
    && (forall i | 0 <= i < |st| :: IsElem(st[i]) && st[i] != ".")
    && (rooted ==> forall i | 0 <= i < |st| :: st[i] != "..")
    && (forall i, j | 0 <= i < j < |st| && st[j] == ".." :: st[i] == "..")
  }

  /** Resolve keeps the stack resolved. */
  lemma {:induction false} ResolveResolved(stack: seq<string>, es: seq<string>, rooted: bool)
    requires Resolved(stack, rooted)
    requires forall i | 0 <= i < |es| :: IsElem(es[i])
    ensures Resolved(Resolve(stack, es, rooted), rooted)
    decreases |es|
  {
    if es != [] {
      var e := es[0];
      var next :=
        if e == "." then stack
        else if e == ".." then
          if |stack| > 0 && stack[|stack| - 1] != ".." then stack[..|stack| - 1]
          else if rooted then stack
          else stack + [".."]
        else stack + [e];
      assert Resolved(next, rooted);
      ResolveResolved(next, es[1..], rooted);
    }
  }

  /** Resolving an already resolved list, onto a stack that is resolved together with it, only appends it. */
  lemma {:induction false} ResolveIdle(stack: seq<string>, st: seq<string>, rooted: bool)
    requires Resolved(stack + st, rooted)
    ensures Resolve(stack, st, rooted) == stack + st
    decreases |st|
  {
    if st == [] {
      assert stack + st == stack;
    } else {
      var e := st[0];
      assert e == (stack + st)[|stack|];
      assert e != ".";
      if e == ".." {
        assert !rooted;
        assert forall i | 0 <= i < |stack| :: stack[i] == (stack + st)[i];
        assert |stack| == 0 || stack[|stack| - 1] == "..";
      }
      assert (stack + [e]) + st[1..] == stack + st;
      ResolveIdle(stack + [e], st[1..], rooted);
    }
  }

  /** The elements of a joined list of elements are the list. */
  lemma {:induction false} ElementsJoin(st: seq<string>)
    requires forall i | 0 <= i < |st| :: IsElem(st[i])
    ensures Elements(GoStrings.Join(st, '/')) == st
    decreases |st|
  {
    if st != [] {
      var e := st[0];
      assert ElemLen(e) == |e| by {
        ElemLenWhole(e);
      }
      if |st| == 1 {
        assert GoStrings.Join(st, '/') == e;
        assert e[..|e|] == e && e[|e|..] == [];
      } else {
        var rest := GoStrings.Join(st[1..], '/');
        var s := e + ['/'] + rest;
        assert GoStrings.Join(st, '/') == s;
        ElemLenPrefix(e, ['/'] + rest);
        assert s == e + (['/'] + rest);
        assert s[..|e|] == e && s[|e|..] == ['/'] + rest;
        assert (['/'] + rest)[1..] == rest;
        ElementsJoin(st[1..]);
      }
    }
  }

  lemma {:induction false} ElemLenWhole(e: string)
    requires '/' !in e
    ensures ElemLen(e) == |e|
    decreases |e|
  {
    if e != [] {
      assert e[0] in e;
      assert forall c | c in e[1..] :: c in e;
      ElemLenWhole(e[1..]);
    }
  }

  lemma {:induction false} ElemLenPrefix(e: string, t: string)
    requires '/' !in e && t != [] && t[0] == '/'
    ensures ElemLen(e + t) == |e|
    decreases |e|
  {
    if e != [] {
      assert e[0] in e;
      assert forall c | c in e[1..] :: c in e;
      assert (e + t)[1..] == e[1..] + t;
      ElemLenPrefix(e[1..], t);
    } else {
      assert e + t == t;
    }
  }

  /** A relative result never starts with '/': its first element is a proper element. */
  lemma JoinHead(st: seq<string>)
    requires forall i | 0 <= i < |st| :: IsElem(st[i])
    ensures GoStrings.Join(st, '/') == "" <==> st == []
    ensures st != [] ==> st[0] != "" && |GoStrings.Join(st, '/')| > 0 && GoStrings.Join(st, '/')[0] == st[0][0]
  {
    if |st| > 1 {
      assert GoStrings.Join(st, '/') == st[0] + ['/'] + GoStrings.Join(st[1..], '/');
    }
  }

  /** Clean keeps a path rooted exactly when it was. */
  lemma CleanRooted(p: string)
    ensures Clean(p)[0] == '/' <==> p != "" && p[0] == '/'
  {
    if p != "" && p[0] != '/' {
      var st := Resolve([], Elements(p), false);
      ResolveResolved([], Elements(p), false);
      JoinHead(st);
      if st != [] {
        assert '/' !in st[0] && st[0][0] in st[0];
      }
    }
  }

  /** Clean of a rooted path has no ".." element: it never climbs above the root. */
  lemma CleanRootedNoParent(p: string)
    requires p != "" && p[0] == '/'
    ensures Clean(p) == "/" + GoStrings.Join(Resolve([], Elements(p), true), '/')
    ensures forall e | e in Resolve([], Elements(p), true) :: IsElem(e) && e != ".." && e != "."
  {
    ResolveResolved([], Elements(p), true);
  }

  /** Cleaning twice is cleaning once, so the vault's second Clean of a parsed path changes nothing. */
  lemma CleanIdempotent(p: string)
    ensures Clean(Clean(p)) == Clean(p)
  {
    if p != "" {
      var rooted := p[0] == '/';
      var st := Resolve([], Elements(p), rooted);
      ResolveResolved([], Elements(p), rooted);
      ElementsJoin(st);
      JoinHead(st);
      assert [] + st == st;
      ResolveIdle([], st, rooted);
      if rooted {
        CleanAgainRooted(st);
      } else {
        CleanAgainRelative(st);
      }
    } else {
      ElementsJoin([]);
      CleanAgainRelative([]);
    }
  }

  lemma CleanAgainRooted(st: seq<string>)
    requires Elements(GoStrings.Join(st, '/')) == st && Resolve([], st, true) == st
    ensures var c := "/" + GoStrings.Join(st, '/'); Clean(c) == c
  {
    var body := GoStrings.Join(st, '/');
    assert ("/" + body)[1..] == body;
  }

  lemma CleanAgainRelative(st: seq<string>)
    requires forall i | 0 <= i < |st| :: IsElem(st[i])
    requires Elements(GoStrings.Join(st, '/')) == st && Resolve([], st, false) == st
    ensures var body := GoStrings.Join(st, '/'); var c := if body == "" then "." else body; Clean(c) == c
  {
    JoinHead(st);
    if st == [] {
      CleanDot();
    } else {
      CleanRelativeBody(st);
    }
  }

  lemma CleanDot()
    ensures Clean(".") == "."
  {
    assert Elements(".") == ["."] by {
      assert ElemLen(".") == 1;
      assert "."[..1] == "." && "."[1..] == [];
    }
  }

  lemma CleanRelativeBody(st: seq<string>)
    requires st != [] && IsElem(st[0])
    requires Elements(GoStrings.Join(st, '/')) == st && Resolve([], st, false) == st
    requires GoStrings.Join(st, '/') != "" && GoStrings.Join(st, '/')[0] == st[0][0]
    ensures Clean(GoStrings.Join(st, '/')) == GoStrings.Join(st, '/')
  {
    assert '/' !in st[0] && st[0][0] in st[0];
  }
}
