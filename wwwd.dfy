// The path tests and the download counter of the project's web server
// (src/cmd/wwwd/server.go).
module Wwwd {
  import opened Base
  import opened GoStrconv
  import GoStrings

  /** isIndex: the path starts with "/index.html". */
  predicate IsIndex(path: string)
  {
    HasPrefix(path, "/index.html")
  }

  /** isDownload: the second of at most three '/'-separated pieces is "download". */
  predicate IsDownload(path: string)
  {
    var parts := GoStrings.SplitN(path, '/', 3);
    |parts| >= 2 && parts[1] == "download"
  }

  /**
   * isDownload in plain terms: the path has a '/', and what follows the
   * first one is "download", alone or followed by a '/'.
   */
  lemma IsDownloadIff(path: string)
    ensures IsDownload(path) <==>
      var i := IndexIn(path, '/');
      i >= 0 && (path[i + 1..] == "download" || HasPrefix(path[i + 1..], "download" + "/"))
  {
    assert '/' !in "download";
    SecondPieceIs(path, "download");
  }

  /** The second of at most three '/'-pieces is a '/'-free w exactly when w, alone or with a '/', follows the first '/'. */
  lemma SecondPieceIs(path: string, w: string)
    requires '/' !in w
    ensures var parts := GoStrings.SplitN(path, '/', 3);
      (|parts| >= 2 && parts[1] == w) <==>
      var i := IndexIn(path, '/');
      i >= 0 && (path[i + 1..] == w || HasPrefix(path[i + 1..], w + "/"))
  {
    var i := IndexIn(path, '/');
    IndexInSpec(path, '/');
    if i >= 0 {
      GoStrings.SplitFirst(path, '/', 3);
      FirstPieceIs(path[i + 1..], w);
    } else {
      GoStrings.SplitNone(path, '/', 3);
    }
  }

  /** The first of at most two '/'-pieces is w exactly when the text is w, or w and a '/'. */
  lemma FirstPieceIs(rest: string, w: string)
    requires '/' !in w
    ensures GoStrings.SplitN(rest, '/', 2)[0] == w <==> rest == w || HasPrefix(rest, w + "/")
  {
    var j := IndexIn(rest, '/');
    IndexInSpec(rest, '/');
    if j >= 0 {
      GoStrings.SplitFirst(rest, '/', 2);
      assert GoStrings.SplitN(rest, '/', 2)[0] == rest[..j];
      if rest[..j] == w {
        assert rest[..|w| + 1] == w + "/";
      }
      if HasPrefix(rest, w + "/") {
        assert rest[|w|] == '/';
        assert forall k :: 0 <= k < |w| ==> rest[k] == w[k];
        assert j == |w|;
      }
    } else {
      GoStrings.SplitNone(rest, '/', 2);
      assert |rest| <= |w| || rest[|w|] != '/';
      assert |rest| > |w| ==> (w + "/")[|w|] == '/';
    }
  }

  /** An index page is never a download. */
  lemma IndexIsNotDownload(path: string)
    requires IsIndex(path)
    ensures !IsDownload(path)
  {
    assert path[0] == '/';
    assert IndexIn(path, '/') == 0;
    var rest := path[1..];
    assert rest[0] == 'i' && "download"[0] == 'd' && "download/"[0] == 'd';
    IsDownloadIff(path);
  }

  /** The download area's own path is a download. */
  lemma DownloadPath(file: string)
    ensures IsDownload("/download/" + file)
  {
    var rest := "download/" + file;
    var path := "/" + rest;
    assert path == "/download/" + file;
    assert path[0] == '/' && path[1..] == rest;
    assert IndexIn(path, '/') == 0;
    assert rest[..9] == "download" + "/";
    IsDownloadIff(path);
  }

  /**
   * What downloadsToString prints: the three-digit groups of d from the
   * top, the leading one as "%d" and the others as "%03d", joined by ','.
   * Go's / and % truncate, so for a negative d every group is negative.
   */
  function DownloadsText(d: int): string
    decreases if d < 0 then -d else d
  {
    if -1000 < d < 1000 then Itoa(d)
    else DownloadsText(GoQuo(d, 1000)) + "," + FmtPad(GoRem(d, 1000), 3)
  }

  /** d after j rounds of d /= 1000. */
  function Shifted(d: int, j: nat): int
  {
    if j == 0 then d else GoQuo(Shifted(d, j - 1), 1000)
  }

  /** p[j] in downloadsToString: group j of d, counted from the least significant. */
  function Group(d: int, j: nat): int
  {
    GoRem(Shifted(d, j), 1000)
  }

  /** downloadsToString: splits d into eight groups, finds the top non-zero one and prints from there down. */
  method DownloadsToString(d: i64) returns (s: string)
    ensures s == DownloadsText(d)
  {
    var p, k := SplitGroups(d);
    if k == 0 {
      return "0";
    }
    s := Itoa(p[k - 1]);
    TopText(d, k);
    for i := 1 to k
      invariant forall j :: 0 <= j < 8 ==> p[j] == Group(d, j)
      invariant s == DownloadsText(Shifted(d, k - i))
    {
      ShiftedStep(d, k - 1 - i, k);
      s := s + "," + FmtPad(p[k - 1 - i], 3);
    }
  }

  /** The first loop of downloadsToString: p[i] = d % 1000, then d /= 1000, eight times; k is one past the top non-zero group. */
  method SplitGroups(d: i64) returns (p: array<int>, k: nat)
    ensures fresh(p) && p.Length == 8 && k <= 8
    ensures forall j :: 0 <= j < 8 ==> p[j] == Group(d, j)
    ensures Shifted(d, k) == 0 && (k > 0 ==> Group(d, k - 1) != 0)
  {
    p := new int[8];
    k := 0;
    var x: int := d;
    for i := 0 to p.Length
      invariant x == Shifted(d, i)
      invariant forall j :: 0 <= j < i ==> p[j] == Group(d, j)
      invariant k <= i && (k > 0 ==> p[k - 1] != 0)
      invariant forall j :: k <= j < i ==> p[j] == 0
    {
      p[i] := GoRem(x, 1000);
      if p[i] != 0 {
        k := i + 1;
      }
      x := GoQuo(x, 1000);
    }
    NothingAboveEight(d);
    TopGroups(d, k, 8);
  }

  /** The top non-zero group is all that is left after k - 1 rounds, and prints as "%d". */
  lemma TopText(d: int, k: nat)
    requires k >= 1 && Shifted(d, k) == 0
    ensures DownloadsText(Shifted(d, k - 1)) == Itoa(Group(d, k - 1))
  {
    var y := Shifted(d, k - 1);
    assert GoQuo(y, 1000) == 0;
    assert y == Group(d, k - 1);
  }

  /** An int64 has at most seven groups: eight rounds leave nothing. */
  lemma NothingAboveEight(d: i64)
    ensures Shifted(d, 8) == 0
  {
    var bounds := [9_223_372_036_854_775_808, 9_223_372_036_854_775, 9_223_372_036_854,
                   9_223_372_036, 9_223_372, 9_223, 9, 0, 0];
    for j := 0 to 8
      invariant Abs(Shifted(d, j)) <= bounds[j]
    {
      QuoAbs(Shifted(d, j));
    }
  }

  /** Above the top non-zero group, nothing is left of d. */
  lemma {:induction false} TopGroups(d: int, k: nat, n: nat)
    requires k <= n && Shifted(d, n) == 0
    requires forall j :: k <= j < n ==> Group(d, j) == 0
    ensures Shifted(d, k) == 0
    decreases n - k
  {
    if k < n {
      TopGroups(d, k + 1, n);
      assert Shifted(d, k) == GoQuo(Shifted(d, k), 1000) * 1000 + Group(d, k);
    }
  }

  /**
   * Below the top non-zero group k - 1, each remainder is at least a
   * thousand in size, so its text is the text above it, a ',' and its
   * last group.
   */
  lemma ShiftedStep(d: int, j: nat, k: nat)
    requires j + 1 < k && Shifted(d, k) == 0 && Group(d, k - 1) != 0
    ensures DownloadsText(Shifted(d, j)) == DownloadsText(Shifted(d, j + 1)) + "," + FmtPad(Group(d, j), 3)
  {
    NonZeroBelow(d, j + 1, k - 1);
    assert Shifted(d, j + 1) == GoQuo(Shifted(d, j), 1000);
  }

  /** A non-zero group at position t means every earlier remainder is non-zero. */
  lemma {:induction false} NonZeroBelow(d: int, j: nat, t: nat)
    requires j <= t && Group(d, t) != 0
    ensures Shifted(d, j) != 0
    decreases t - j
  {
    if j == t {
      assert Shifted(d, t) != 0;
    } else {
      NonZeroBelow(d, j + 1, t);
      assert Shifted(d, j + 1) == GoQuo(Shifted(d, j), 1000);
    }
  }

  function Abs(x: int): nat
  {
    if x < 0 then -x else x
  }

  /** One round of d /= 1000 divides the magnitude by a thousand. */
  lemma QuoAbs(y: int)
    ensures Abs(GoQuo(y, 1000)) == Abs(y) / 1000
  {
  }

  /** Zero downloads print as "0". */
  lemma DownloadsZero()
    ensures DownloadsText(0) == "0"
  {
  }

  /** Deleting the ',' characters. */
  function RemoveCommas(s: string): string
  {
    if s == [] then [] else (if s[0] == ',' then [] else [s[0]]) + RemoveCommas(s[1..])
  }

  lemma {:induction false} RemoveCommasAppend(a: string, b: string)
    ensures RemoveCommas(a + b) == RemoveCommas(a) + RemoveCommas(b)
  {
    if a != [] {
      RemoveCommasAppend(a[1..], b);
      assert (a + b)[1..] == a[1..] + b;
    } else {
      assert a + b == b;
    }
  }

  lemma {:induction false} NoCommas(s: string)
    requires AllDigits(s)
    ensures RemoveCommas(s) == s
  {
    if s != [] {
      NoCommas(s[1..]);
    }
  }

  /** For a non-negative count, deleting the commas leaves the decimal of d, without leading zeros. */
  lemma {:induction false} DownloadsDecimal(d: nat)
    ensures RemoveCommas(DownloadsText(d)) == Decimal(d)
  {
    if d < 1000 {
      NoCommas(Decimal(d));
    } else {
      var a, b := d / 1000, d % 1000;
      DownloadsDecimal(a);
      DecimalStep(a, b);
    }
  }

  lemma DecimalStep(a: nat, b: nat)
    requires a >= 1 && b < 1000 && RemoveCommas(DownloadsText(a)) == Decimal(a)
    ensures RemoveCommas(DownloadsText(a * 1000 + b)) == Decimal(a * 1000 + b)
  {
    DownloadsUnfold(a, b);
    CommaJoin(DownloadsText(a), ZeroPad(b, 3));
    DecimalThousands(a, b);
  }

  /** Deleting the commas of t, a ',' and a group of digits g leaves the digits of t followed by g. */
  lemma CommaJoin(t: string, g: string)
    requires AllDigits(g)
    ensures RemoveCommas(t + ("," + g)) == RemoveCommas(t) + g
  {
    var cg := [','] + g;
    RemoveCommasAppend(t, cg);
    assert cg[1..] == g;
    assert RemoveCommas(cg) == RemoveCommas(g);
    NoCommas(g);
  }

  /** The text of a count of a thousand or more: the text of what is above the last three digits, a ',' and those digits. */
  lemma DownloadsUnfold(a: nat, b: nat)
    requires a >= 1 && b < 1000
    ensures DownloadsText(a * 1000 + b) == DownloadsText(a) + ("," + ZeroPad(b, 3))
  {
    var d := a * 1000 + b;
    DivOfMod(1000, d, a, b);
    ModUnique(1000, d, a, b);
    assert GoQuo(d, 1000) == a && GoRem(d, 1000) == b;
  }

  /**
   * For a non-negative count, the ','-separated groups are a leading one
   * of one to three digits with no leading zero, then groups of exactly
   * three digits.
   */
  lemma {:induction false} DownloadsGroups(d: nat)
    ensures var g := GoStrings.Split(DownloadsText(d), ',');
      |g| >= 1 && 1 <= |g[0]| <= 3 && AllDigits(g[0]) && (|g[0]| > 1 ==> g[0][0] != '0')
      && forall i :: 1 <= i < |g| ==> |g[i]| == 3 && AllDigits(g[i])
  {
    if d < 1000 {
      var s := Decimal(d);
      assert ',' !in s by {
        forall i | 0 <= i < |s| ensures s[i] != ',' {
          assert IsDigit(s[i]);
        }
      }
      assert GoStrings.Split(s, ',') == [s];
      DecimalLength(d);
    } else {
      var a, b := d / 1000, d % 1000;
      DownloadsUnfold(a, b);
      DownloadsGroups(a);
      var t := ZeroPad(b, 3);
      Pad3(b);
      assert ',' !in t;
      GoStrings.SplitSnoc(DownloadsText(a), ',', t);
      assert DownloadsText(d) == DownloadsText(a) + [','] + t;
    }
  }

  lemma DecimalLength(d: nat)
    requires d < 1000
    ensures |Decimal(d)| <= 3
  {
    if d >= 10 {
      assert Decimal(d) == Decimal(d / 10) + [DigitChar(d % 10)];
      assert |Decimal(d / 10)| <= 2 by {
        if d / 10 >= 10 {
          assert Decimal(d / 10) == Decimal(d / 100) + [DigitChar(d / 10 % 10)];
        }
      }
    }
  }

  /** A negative count carries a sign in every group: -1234 prints as "-1,-234". */
  lemma DownloadsNegative()
    ensures DownloadsText(-1234) == "-1,-234"
  {
    assert GoQuo(-1234, 1000) == -1 && GoRem(-1234, 1000) == -234;
    assert DownloadsText(-1) == "-" + Decimal(1);
    assert ZeroPad(234, 2) == Decimal(234);
    assert Decimal(234) == Decimal(23) + ['4'] == Decimal(2) + ['3'] + ['4'];
  }
}
