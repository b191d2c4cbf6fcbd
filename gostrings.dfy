// Go's strings.Split and strings.Join for a one-character separator, as
// the host-name and path classifiers use them.
module GoStrings {
  import opened Base

  /**
   * strings.Split(s, sep, n): the pieces of s between occurrences of sep,
   * all of them when n < 0, at most n of them (the last one unsplit) when
   * n > 0, and none when n == 0.
   */
  function SplitN(s: string, sep: char, n: int): (r: seq<string>)
    ensures n != 0 ==> 1 <= |r|
    ensures n > 0 ==> |r| <= n
    ensures n == 0 ==> r == []
    decreases |s|
  {
    if n == 0 then []
    else if n == 1 || sep !in s then [s]
    else
      var i := IndexIn(s, sep);
      IndexInSpec(s, sep);
      [s[..i]] + SplitN(s[i + 1..], sep, Fewer(n))
  }

  /** The piece budget after one piece: unlimited stays unlimited. */
  function Fewer(n: int): int
  {
    if n < 0 then n else n - 1
  }

  function Split(s: string, sep: char): seq<string>
  {
    SplitN(s, sep, -1)
  }

  /** strings.Join(parts, string(sep)). */
  function Join(parts: seq<string>, sep: char): string
  {
    if parts == [] then ""
    else if |parts| == 1 then parts[0]
    else parts[0] + [sep] + Join(parts[1..], sep)
  }

  /** A piece without the separator splits off as the first piece. */
  lemma SplitCons(a: string, sep: char, b: string, n: int)
    requires sep !in a && (n < 0 || n > 1)
    ensures SplitN(a + [sep] + b, sep, n) == [a] + SplitN(b, sep, Fewer(n))
  {
    var s := a + [sep] + b;
    assert s[|a|] == sep;
    IndexInSpec(s, sep);
    assert forall j :: 0 <= j < |a| ==> s[j] == a[j];
    assert IndexIn(s, sep) == |a|;
    assert s[..|a|] == a && s[|a| + 1..] == b;
  }

  /** Joining the pieces back with the separator gives the string. */
  lemma {:induction false} JoinSplit(s: string, sep: char)
    ensures Join(Split(s, sep), sep) == s
    decreases |s|
  {
    if sep in s {
      var i := IndexIn(s, sep);
      IndexInSpec(s, sep);
      var rest := s[i + 1..];
      JoinSplit(rest, sep);
      assert Split(s, sep) == [s[..i]] + Split(rest, sep);
      assert s == s[..i] + [sep] + rest;
    }
  }

  /** Splitting a join of separator-free pieces gives the pieces back. */
  lemma {:induction false} SplitJoin(parts: seq<string>, sep: char)
    requires |parts| >= 1
    requires forall k :: 0 <= k < |parts| ==> sep !in parts[k]
    ensures Split(Join(parts, sep), sep) == parts
  {
    if |parts| > 1 {
      var tail := parts[1..];
      assert forall k :: 0 <= k < |tail| ==> sep !in tail[k] by {
        forall k | 0 <= k < |tail| ensures sep !in tail[k] {
          assert tail[k] == parts[k + 1];
        }
      }
      SplitJoin(tail, sep);
      assert sep !in parts[0];
      assert Join(parts, sep) == parts[0] + [sep] + Join(tail, sep);
      SplitCons(parts[0], sep, Join(tail, sep), -1);
    }
  }

  /** Joining two non-empty runs of pieces puts one separator between their joins. */
  lemma {:induction false} JoinAppend(a: seq<string>, b: seq<string>, sep: char)
    requires |a| >= 1 && |b| >= 1
    ensures Join(a + b, sep) == Join(a, sep) + [sep] + Join(b, sep)
  {
    if |a| > 1 {
      JoinAppend(a[1..], b, sep);
      assert (a + b)[1..] == a[1..] + b;
    } else {
      assert (a + b)[1..] == b;
    }
  }

  /** A last piece without the separator splits off as the last piece. */
  lemma {:induction false} SplitSnoc(a: string, sep: char, b: string)
    requires sep !in b
    ensures Split(a + [sep] + b, sep) == Split(a, sep) + [b]
    decreases |a|
  {
    if sep !in a {
      SplitCons(a, sep, b, -1);
    } else {
      var i := IndexIn(a, sep);
      var t := [sep] + b;
      IndexExtends(a, sep, t);
      var s := a + t;
      assert a + [sep] + b == s;
      assert s[..i] == a[..i];
      assert s[i + 1..] == a[i + 1..] + [sep] + b;
      SplitSnoc(a[i + 1..], sep, b);
    }
  }

  /** Text after the first separator does not move it. */
  lemma IndexExtends(a: string, sep: char, t: string)
    requires sep in a
    ensures 0 <= IndexIn(a, sep) == IndexIn(a + t, sep) < |a|
  {
    var s := a + t;
    IndexInSpec(a, sep);
    IndexInSpec(s, sep);
    var i := IndexIn(a, sep);
    if IndexIn(a, sep) < 0 {
      assert false;
    }
    assert s[i] == sep;
    assert forall j :: 0 <= j < i ==> s[j] == a[j];
  }

  /** Text without the separator is one piece, whatever the budget (but zero). */
  lemma SplitNone(s: string, sep: char, n: int)
    requires n != 0 && forall j :: 0 <= j < |s| ==> s[j] != sep
    ensures SplitN(s, sep, n) == [s]
  {
    assert sep !in s;
  }

  /** With a budget of two or more, the first piece ends at the first separator. */
  lemma SplitFirst(s: string, sep: char, n: int)
    requires n < 0 || n > 1
    requires IndexIn(s, sep) >= 0
    ensures var i := IndexIn(s, sep);
      SplitN(s, sep, n) == [s[..i]] + SplitN(s[i + 1..], sep, Fewer(n))
  {
    IndexInSpec(s, sep);
  }
}
